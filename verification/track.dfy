/**
 The slide track the slider synthesises at render time: clones of the last
 `slidesToShow` slides, the original slides, then clones of the first
 `slidesToShow` slides. Each track item carries its `slide-index` label and
 the number of the original slide whose content it shows.
 */
module Track {
  import opened Js
  import opened Arith

  datatype Role = ClonedLast | Original | ClonedFirst

  /** One child of the track: its `slide-index` label, the original slide it
      is (or is a clone of), and which of the three runs it belongs to. */
  datatype Item = Item(slideIndex: int, slide: int, role: Role)

  /** The original slides, numbered in document order. */
  function Slides(n: nat): (r: seq<int>)
    ensures |r| == n
    ensures forall i :: 0 <= i < n ==> r[i] == i
  {
    seq(n, i => i)
  }

  /** Clones of `slides.slice(n - S, n)`, labelled `-(S - i)`. */
  function ClonedTail(n: nat, S: int): seq<Item>
  {
    var last := Slice(Slides(n), n - S, n);
    seq(|last|, i requires 0 <= i < |last| => Item(-(S - i), last[i], ClonedLast))
  }

  /** The originals, labelled `0 .. n - 1`. */
  function Originals(n: nat): seq<Item>
  {
    seq(n, i => Item(i, i, Original))
  }

  /** Clones of `slides.slice(0, S)`, labelled `n + i`. */
  function ClonedHead(n: nat, S: int): seq<Item>
  {
    var first := Slice(Slides(n), 0, S);
    seq(|first|, i requires 0 <= i < |first| => Item(n + i, first[i], ClonedFirst))
  }

  /** The track as rendered, for any slide count and any `slidesToShow`
      (`slice` clamps when `slidesToShow` exceeds the slide count): the
      cloned tail shows the last slides in order, the originals follow, and
      the cloned head shows the first slides in order. */
  function Render(n: nat, S: int): (r: seq<Item>)
    ensures |r| == |ClonedTail(n, S)| + n + |ClonedHead(n, S)|
    ensures forall i :: 0 <= i < |ClonedTail(n, S)| ==>
              r[i].role == ClonedLast && r[i].slide == n - |ClonedTail(n, S)| + i
    ensures forall i :: 0 <= i < n ==> r[|ClonedTail(n, S)| + i] == Item(i, i, Original)
    ensures forall j :: |ClonedTail(n, S)| + n <= j < |r| ==>
              r[j].role == ClonedFirst && r[j].slide == j - |ClonedTail(n, S)| - n
  {
    ClonedTail(n, S) + Originals(n) + ClonedHead(n, S)
  }

  function Min(a: int, b: int): int
  {
    if a <= b then a else b
  }

  /** `slidesWithClonedCount` in closed form, for `slidesToShow >= 1`. */
  function TrackLength(n: nat, S: int): int
    requires S >= 1
  {
    (if S <= n then S else Min(S - n, n)) + n + Min(S, n)
  }

  /** For every slide count and every positive `slidesToShow`, the track
      length, the originals sitting as one run right after the cloned tail,
      and the clamped clone counts. */
  lemma RenderShape(n: nat, S: int)
    requires S >= 1
    ensures |ClonedHead(n, S)| == Min(S, n)
    ensures |ClonedTail(n, S)| == (if S <= n then S else Min(S - n, n))
    ensures |Render(n, S)| == TrackLength(n, S)
    ensures forall i :: 0 <= i < n ==>
              Render(n, S)[|ClonedTail(n, S)| + i] == Item(i, i, Original)
  {
    var t, o, h := ClonedTail(n, S), Originals(n), ClonedHead(n, S);
    var r := Render(n, S);
    assert r == t + o + h;
    forall i | 0 <= i < n
      ensures r[|t| + i] == Item(i, i, Original)
    {
      assert r[|t| + i] == (t + o)[|t| + i] == o[i];
    }
  }

  /** The layout when `1 <= slidesToShow <= n`: position `p` of the track is
      labelled `p - S`, shows real slide `(p - S) mod n`, and the three runs
      have lengths `S`, `n` and `S`. */
  lemma Layout(n: nat, S: int)
    requires 1 <= S <= n
    ensures |Render(n, S)| == n + 2 * S
    ensures forall p :: 0 <= p < n + 2 * S ==>
              && Render(n, S)[p].slideIndex == p - S
              && Render(n, S)[p].slide == (p - S) % n
              && Render(n, S)[p].role == (if p < S then ClonedLast else if p < n + S then Original else ClonedFirst)
  {
    var t, o, h := ClonedTail(n, S), Originals(n), ClonedHead(n, S);
    var r := Render(n, S);
    assert |t| == S && |h| == S;
    forall p | 0 <= p < n + 2 * S
      ensures r[p].slideIndex == p - S
      ensures r[p].slide == (p - S) % n
      ensures r[p].role == (if p < S then ClonedLast else if p < n + S then Original else ClonedFirst)
    {
      if p < S {
        assert r[p] == t[p];
        DivisionUnique(p - S, -1, n, p - S + n);
      } else if p < n + S {
        assert r[p] == (t + o)[p] == o[p - S];
        DivisionUnique(p - S, 0, n, p - S);
      } else {
        assert r[p] == h[p - S - n];
        DivisionUnique(p - S, 1, n, p - S - n);
      }
    }
  }

  /** The slides on screen when the window's left edge is at track position
      `c`: the `S` track items from `c` on. */
  function Window(n: nat, S: nat, c: int): (w: seq<int>)
    requires 0 <= c && c + S <= |Render(n, S)|
    ensures |w| == S
  {
    seq(S, j requires 0 <= j < S => Render(n, S)[c + j].slide)
  }
}
