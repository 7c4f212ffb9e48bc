/**
  What the input systems hand to the car: the driving actions and the
  keys they are bound to. The car's physics, which consumes these actions,
  is not part of this model.
 */
module Actions {

  /** `AccelerateAction`: drive forward or reverse. */
  datatype Accelerate = Forward | Backward

  /** `Car::TURNING_ANGLE`, the steering angle of a full turn input. */
  const TURNING_ANGLE: real := 18.0

  /** The keyboard keys the game binds. */
  datatype KeyCode = KeyW | KeyA | KeyS | KeyD | ArrowUp | ArrowDown | ArrowLeft | ArrowRight
}
