/**
 The small part of JavaScript's semantics that the slider leans on: the
 falsy-OR idiom used for option defaults, the truncating remainder operator
 `%`, `Array.prototype.slice`, and a thrown exception seen as an error value.
 */
module Js {
  import opened Arith

  /** A value that may be `undefined`. */
  datatype Option<+T> = None | Some(value: T)

  /** The outcome of a call that may throw. */
  datatype Result<+T, +E> = Ok(value: T) | Err(error: E)

  /** `v || d` for a number: `undefined` and `0` are falsy and select `d`
      (NaN is not modelled). */
  function OrNumber(v: Option<int>, d: int): (r: int)
    ensures v.Some? && v.value != 0 ==> r == v.value
    ensures d != 0 ==> r != 0
    ensures r == d || v == Some(r)
  {
    if v.None? || v.value == 0 then d else v.value
  }

  /** `v || d` for a boolean: `undefined` and `false` select `d`. */
  function OrBool(v: Option<bool>, d: bool): (r: bool)
    ensures v == Some(true) ==> r
    ensures d ==> r
    ensures r ==> d || v == Some(true)
  {
    if v.None? || !v.value then d else v.value
  }

  /** JavaScript's `a % b`: the remainder of division truncated toward zero,
      so it carries the sign of `a` (Dafny's `%` is Euclidean instead). */
  function JsRem(a: int, b: int): (r: int)
    requires b != 0
    ensures a >= 0 ==> 0 <= r
    ensures a <= 0 ==> r <= 0
    ensures -Abs(b) < r < Abs(b)
  {
    var m := Abs(a) % Abs(b);
    if a >= 0 then m else -m
  }

  function Abs(x: int): (r: int)
    ensures r >= 0 && (r == x || r == -x)
  {
    if x >= 0 then x else -x
  }

  /** The only use the slider makes of `%` is the test `=== 0`, and for that
      the truncating and the Euclidean remainder agree: both say "b divides a". */
  lemma JsRemZeroIffDivides(a: int, b: int)
    requires b > 0
    ensures JsRem(a, b) == 0 <==> a % b == 0
  {
    if a < 0 {
      if a % b == 0 {
        DivisionUnique(-a, -(a / b), b, 0);
      }
      if (-a) % b == 0 {
        DivisionUnique(a, -((-a) / b), b, 0);
      }
    }
  }

  /** Index resolution of `Array.prototype.slice`: a negative index counts
      from the end, and the result is clamped to `[0, len]`. */
  function SliceIndex(i: int, len: nat): (r: nat)
    ensures r <= len
    ensures 0 <= i <= len ==> r == i
    ensures i < 0 && len + i >= 0 ==> r == len + i
    ensures len + i < 0 ==> r == 0
    ensures i > len ==> r == len
  {
    if i < 0 then (if len + i < 0 then 0 else len + i)
    else if i > len then len
    else i
  }

  /** `s.slice(start, end)`: never fails, returns the empty array when the
      resolved bounds cross. */
  function Slice<T>(s: seq<T>, start: int, end: int): (r: seq<T>)
    ensures SliceIndex(start, |s|) + |r| <= |s|
    ensures |r| == if SliceIndex(start, |s|) < SliceIndex(end, |s|) then SliceIndex(end, |s|) - SliceIndex(start, |s|) else 0
    ensures 0 <= start <= end <= |s| ==> r == s[start..end]
    ensures forall i :: 0 <= i < |r| ==> r[i] == s[SliceIndex(start, |s|) + i]
  {
    var a, b := SliceIndex(start, |s|), SliceIndex(end, |s|);
    if a < b then s[a..b] else []
  }
}
