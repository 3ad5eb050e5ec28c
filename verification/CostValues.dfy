/** The reserved values of a costmap cell. */
module CostValues {
  type Cost = c: int | 0 <= c < 256

  const NO_INFORMATION: Cost := 255
  const LETHAL_OBSTACLE: Cost := 254
  const INSCRIBED_INFLATED_OBSTACLE: Cost := 253
  const FREE_SPACE: Cost := 0
}
