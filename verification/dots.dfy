/**
 The dot indicators: one button per group of `slidesToShow` slides, each
 carrying the slide number it jumps to, at most one marked active.
 */
module Dots {
  import opened Js
  import opened Arith

  /** A dot button: its `data-slide` number and whether it carries the
      active class. */
  datatype Dot = Dot(slide: int, active: bool)

  /** The slide numbers that get a dot, in document order: the `i` in
      `[0, n)` with `i % S === 0 || i === 0`. */
  function DotSlides(n: nat, S: int): (r: seq<int>)
    requires S >= 1
    ensures forall i :: i in r <==> 0 <= i < n && i % S == 0
    ensures forall a, b :: 0 <= a < b < |r| ==> r[a] < r[b]
    ensures forall a :: 0 <= a < |r| ==> r[a] < n
  {
    if n == 0 then []
    else
      var i := n - 1;
      JsRemZeroIffDivides(i, S);
      DotSlides(n - 1, S) + (if JsRem(i, S) == 0 || i == 0 then [i] else [])
  }

  /** There are `ceil(n / S)` dots. */
  lemma {:induction false} DotCount(n: nat, S: int)
    requires S >= 1
    ensures |DotSlides(n, S)| == (n + S - 1) / S
  {
    if n > 0 {
      var i := n - 1;
      DotCount(i, S);
      JsRemZeroIffDivides(i, S);
      CeilStep(i, S);
    } else {
      DivisionUnique(S - 1, 0, S, S - 1);
    }
  }

  /** `ceil((i + 1) / S)` exceeds `ceil(i / S)` exactly when `S` divides `i`. */
  lemma CeilStep(i: nat, S: int)
    requires S >= 1
    ensures (i + S) / S == (i + S - 1) / S + (if i % S == 0 then 1 else 0)
  {
    var q, r := i / S, i % S;
    assert i == q * S + r;
    assert i + S == (q + 1) * S + r;
    DivisionUnique(i + S, q + 1, S, r);
    if r == 0 {
      assert i + S - 1 == q * S + (S - 1);
      DivisionUnique(i + S - 1, q, S, S - 1);
    } else {
      assert i + S - 1 == (q + 1) * S + (r - 1);
      DivisionUnique(i + S - 1, q + 1, S, r - 1);
    }
  }

  /** The dot list as rendered: every dot inactive. */
  function RenderDots(n: nat, S: int): (r: seq<Dot>)
    requires S >= 1
    ensures SlidesOf(r) == DotSlides(n, S)
    ensures NoneActive(r)
  {
    var slides := DotSlides(n, S);
    seq(|slides|, k requires 0 <= k < |slides| => Dot(slides[k], false))
  }

  function SlidesOf(dots: seq<Dot>): seq<int>
  {
    seq(|dots|, k requires 0 <= k < |dots| => dots[k].slide)
  }

  predicate NoneActive(dots: seq<Dot>)
  {
    forall k :: 0 <= k < |dots| ==> !dots[k].active
  }

  /** Dot `k` is the one and only active dot. */
  predicate OnlyActive(dots: seq<Dot>, k: int)
  {
    0 <= k < |dots| && forall j :: 0 <= j < |dots| ==> (dots[j].active <==> j == k)
  }

  predicate ExactlyOneActive(dots: seq<Dot>)
  {
    exists k :: 0 <= k < |dots| && OnlyActive(dots, k)
  }

  /** The position of the first dot numbered `d`, or `|dots|` when there is
      none (what `querySelector` finds). */
  function FirstWithSlide(dots: seq<Dot>, d: int): (k: nat)
    ensures k <= |dots|
    ensures k < |dots| ==> dots[k].slide == d
    ensures forall j :: 0 <= j < k ==> dots[j].slide != d
  {
    if |dots| == 0 then 0
    else if dots[0].slide == d then 0
    else 1 + FirstWithSlide(dots[1..], d)
  }

  /** The slide number of the first active dot, if any. */
  function ActiveSlide(dots: seq<Dot>): (r: Option<int>)
    ensures r.None? <==> NoneActive(dots)
    ensures forall k :: OnlyActive(dots, k) ==> r == Some(dots[k].slide)
  {
    if |dots| == 0 then None
    else if dots[0].active then Some(dots[0].slide)
    else
      var rest := dots[1..];
      assert forall k :: OnlyActive(dots, k) ==> OnlyActive(rest, k - 1);
      ActiveSlide(rest)
  }

  /** `#setActiveDot(d)`: clear the active class from every dot, then add it
      to the first dot numbered `d`. When no such dot exists the source
      throws after the clearing; the dots are then all inactive. */
  function SetActiveDot(dots: seq<Dot>, d: int): (r: seq<Dot>)
    ensures SlidesOf(r) == SlidesOf(dots)
    ensures d in SlidesOf(dots) ==> ExactlyOneActive(r) && ActiveSlide(r) == Some(d)
    ensures d !in SlidesOf(dots) ==> NoneActive(r)
  {
    var k := FirstWithSlide(dots, d);
    var r := seq(|dots|, j requires 0 <= j < |dots| => Dot(dots[j].slide, j == k));
    assert SlidesOf(r) == SlidesOf(dots);
    if k < |dots| then
      assert OnlyActive(r, k);
      assert SlidesOf(dots)[k] == d;
      r
    else
      assert NoneActive(r);
      r
  }
}
