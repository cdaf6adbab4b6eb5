/** Result types shared by the whole model.

    The editor is a C# front end over a C++ kernel module. Three endings of a
    routine matter to the model:
    - it returns normally;
    - a C# exception (a list or array index out of range) escapes it: the
      engine reports the error and drops the rest of the event handler, but
      every change made before the throw stays;
    - the native side reads or erases outside a vector (undefined behaviour in
      C++) or lets an OpenCASCADE exception escape: nothing can be said about
      the state afterwards.
 */
module Outcomes {

  datatype Option<+T> = None | Some(value: T)

  datatype Run<+T> =
    | Done(state: T)
    | Threw(state: T)
    | Undefined
  {
    /** True when the routine neither threw nor reached undefined behaviour. */
    predicate Completed() {
      Done?
    }

    /** True when the routine left a defined state, finished or not. */
    predicate Defined() {
      !Undefined?
    }
  }
}

/** The C++ integer conversions the kernel module relies on. A `std::vector`
    size is a 64-bit `size_t`; positions and indices are 32-bit `int`. When an
    `int` meets a `size_t` in a comparison the `int` is converted to
    `size_t`, so a negative value compares as a huge unsigned one, and
    `size() - 1` of an empty vector is the largest `size_t`. */
module CInt {

  const SizeModulus: int := 0x1_0000_0000_0000_0000
  const Int32Modulus: int := 0x1_0000_0000
  const Int32Min: int := -0x8000_0000
  const Int32Max: int := 0x7fff_ffff

  type Int32 = x: int | Int32Min <= x <= Int32Max

  /** The value of `x` once converted to `size_t` (arithmetic modulo 2^64). */
  function ToSizeT(x: int): (r: nat)
    ensures r < SizeModulus
    ensures 0 <= x < SizeModulus ==> r == x
    ensures -SizeModulus <= x < 0 ==> r == x + SizeModulus
  {
    x % SizeModulus
  }

  /** The value of `x` once narrowed to a 32-bit `int` (two's complement wrap). */
  function ToInt32(x: int): (r: Int32)
    ensures Int32Min <= x <= Int32Max ==> r == x
    ensures 0 <= x ==> r <= x
    ensures (x - r) % Int32Modulus == 0
  {
    var m := x % Int32Modulus;
    if m <= Int32Max then m else m - Int32Modulus
  }
}

/** Vectors over the reals, standing for Godot's `Vector3` and OpenCASCADE's
    `gp_Pnt`; floating-point rounding is not modelled. */
module Geometry {

  datatype Vec3 = Vec3(x: real, y: real, z: real)

  function Add(a: Vec3, b: Vec3): Vec3 {
    Vec3(a.x + b.x, a.y + b.y, a.z + b.z)
  }

  function Sub(a: Vec3, b: Vec3): Vec3 {
    Vec3(a.x - b.x, a.y - b.y, a.z - b.z)
  }

  function Scale(a: Vec3, k: real): Vec3 {
    Vec3(a.x * k, a.y * k, a.z * k)
  }

  function Dot(a: Vec3, b: Vec3): real {
    a.x * b.x + a.y * b.y + a.z * b.z
  }

  function Cross(a: Vec3, b: Vec3): Vec3 {
    Vec3(a.y * b.z - a.z * b.y, a.z * b.x - a.x * b.z, a.x * b.y - a.y * b.x)
  }

  /** The dot product is linear in its first argument. */
  lemma DotCombination(a: Vec3, b: Vec3, c: Vec3, u: real, v: real, t: real, h: Vec3)
    ensures Dot(Sub(Add(Scale(a, u), Scale(b, v)), Scale(c, t)), h) == u * Dot(a, h) + v * Dot(b, h) - t * Dot(c, h)
  {
  }

  /** The triple product is invariant under cyclic rotation. */
  lemma TripleCyclic(a: Vec3, b: Vec3, c: Vec3)
    ensures Dot(a, Cross(b, c)) == Dot(b, Cross(c, a))
  {
  }

  /** The triple product changes sign when two factors swap. */
  lemma TripleSwap(a: Vec3, b: Vec3, c: Vec3)
    ensures Dot(a, Cross(b, c)) == -Dot(a, Cross(c, b))
  {
  }

  /** A triple product with a repeated factor is zero. */
  lemma TripleRepeat(a: Vec3, b: Vec3)
    ensures Dot(a, Cross(a, b)) == 0.0 && Dot(b, Cross(a, b)) == 0.0
  {
  }
}

/** Euclidean division by a constant, from an explicit quotient and
    remainder; the solver finds these facts slowly on its own. */
module DivFacts {

  lemma Div2(x: int, q: int, r: int)
    requires x == 2 * q + r && 0 <= r < 2
    ensures x / 2 == q && x % 2 == r
  {
  }

  lemma Div32(x: int, q: int, r: int)
    requires x == 32 * q + r && 0 <= r < 32
    ensures x / 32 == q && x % 32 == r
  {
  }

  lemma Div64(x: int, q: int, r: int)
    requires x == 64 * q + r && 0 <= r < 64
    ensures x / 64 == q && x % 64 == r
  {
  }
}
