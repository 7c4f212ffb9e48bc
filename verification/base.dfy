/**
  Shared vocabulary of the game model: opaque entity ids, optional values,
  the error outcomes the game's systems can reach, 32-bit random draws and
  2-D vectors over the reals.
 */
module Base {

  /** An ECS entity, reduced to an opaque id. */
  type Entity = nat

  datatype Option<+T> = None | Some(value: T)

  /** Ways a system run can end without a result. `Panic` stands for an
      `expect`/`unwrap` in the game that fails; `Exhausted` means the finite
      prefix of a random stream given to the model ran out (the game's
      streams never do). */
  datatype Error = Panic(reason: string) | Exhausted

  datatype Result<+T> = Ok(value: T) | Err(error: Error)

  const U32_MAX: nat := 0xFFFF_FFFF

  /** A value of Rust's `u32`. */
  type U32 = x: nat | x <= U32_MAX

  datatype Vec2 = Vec2(x: real, y: real)
  {
    function Add(o: Vec2): Vec2 { Vec2(x + o.x, y + o.y) }
    function Sub(o: Vec2): Vec2 { Vec2(x - o.x, y - o.y) }
    function Scale(k: real): Vec2 { Vec2(k * x, k * y) }
  }

  const Zero: Vec2 := Vec2(0.0, 0.0)

  /** Squared Euclidean distance; `distance(a, b) < r` holds exactly when
      `SquaredDistance(a, b) < r * r` for `r >= 0`. */
  function SquaredDistance(a: Vec2, b: Vec2): real
  {
    (a.x - b.x) * (a.x - b.x) + (a.y - b.y) * (a.y - b.y)
  }

  function Abs(x: real): real { if x < 0.0 then -x else x }
}
