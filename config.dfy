/** Game-wide constants of the combat engine (grid size and the physics constants). */
module Config {
  /** Side of one grid cell, in world units. */
  const GRID_SIZE: int := 32

  /** Speed cap applied to a ship after drag, in world units per second. */
  const MAX_VELOCITY: real := 300.0

  /** Per-tick multiplicative drag on linear and angular velocity. */
  const DRAG: real := 0.98

  /** The double-precision value of pi used by both implementations. */
  const PI: real := 3.141592653589793

  const TWO_PI: real := 2.0 * PI

  /** Default grid extent of a ship (it always has this value in the core). */
  const DEFAULT_GRID_WIDTH: int := 10
  const DEFAULT_GRID_HEIGHT: int := 10
}
