/**
 The index arithmetic of navigation on the track: one `next` or `prev`
 step, and the boundary snap run when a transition ends. `c` is the track
 position of the window's left edge (`current`), `total` the track length
 (`slidesWithClonedCount`), `K` is `slidesToScroll`, `S` is `slidesToShow`
 and `n` the number of real slides.
 */
module Navigation {
  import opened Arith
  import Track

  /** Aligned positions: multiples of the step inside `[0, total - K]`. */
  predicate Aligned(c: int, total: int, K: int)
    requires K >= 1
  {
    0 <= c <= total - K && c % K == 0
  }

  /** `next()` on the position: wrap to `0` from the last scroll position. */
  function NextIndex(c: int, total: int, K: int): (r: int)
    requires K >= 1
    ensures c == total - K ==> r == 0
    ensures c != total - K ==> r - c == K
    ensures r != c <==> total != K || c != 0
  {
    if c == total - K then 0 else c + K
  }

  /** `prev()` on the position: stay at `0`, otherwise step back. */
  function PrevIndex(c: int, K: int): (r: int)
    requires K >= 1
    ensures r == c <==> c == 0
    ensures c != 0 ==> c - r == K
    ensures c > 0 ==> r > -K
  {
    if c == 0 then 0 else c - K
  }

  /** Stepping from an aligned position lands on an aligned position, in
      both directions, when the step divides the track length. */
  lemma StepsKeepAligned(c: int, total: int, K: int)
    requires K >= 1 && total % K == 0 && Aligned(c, total, K)
    ensures Aligned(NextIndex(c, total, K), total, K)
    ensures Aligned(PrevIndex(c, K), total, K)
  {
    if c != total - K {
      NextStaysInside(c, total, K);
    }
    if c != 0 {
      var m := Decompose(c, K);
      DivisionUnique(c - K, m - 1, K, 0);
    }
  }

  /** Below the last scroll position, one more step of `K` stays aligned. */
  lemma NextStaysInside(c: int, total: int, K: int)
    requires K >= 1 && total % K == 0 && c % K == 0 && 0 <= c < total - K
    ensures c + K <= total - K && (c + K) % K == 0
  {
    var m := Decompose(c, K);
    var M := Decompose(total, K);
    assert (M - 1) * K == total - K;
    MulLess(m, M - 1, K);
    MulSign(M - 1 - m, K);
    assert (M - 1 - m) * K == total - K - c;
    DivisionUnique(c + K, m + 1, K, 0);
  }

  /** The boundary snap at transition end, as two consecutive tests: from the
      position `0` (clones of the last slides) to `n`, then from `n + S`
      (clones of the first slides) to `S`. */
  function Snap(c: int, n: int, S: int): (r: int)
    requires n >= 1 && S >= 1
    ensures r != 0 && r != n + S
    ensures c == 0 ==> r == n
    ensures c == n + S ==> r == S
    ensures c != 0 && c != n + S ==> r == c
  {
    var c' := if c == 0 then n else c;
    if c' == n + S then S else c'
  }

  /** A second transition end does not move the window again. */
  lemma SnapIdempotent(c: int, n: int, S: int)
    requires n >= 1 && S >= 1
    ensures Snap(Snap(c, n, S), n, S) == Snap(c, n, S)
  {
  }

  /** The snap leaves the picture alone: the `S` slides on screen after it are
      those on screen before it, slide for slide. */
  lemma SnapKeepsWindow(n: nat, S: nat, c: int)
    requires 1 <= S <= n
    requires 0 <= c && c + S <= |Track.Render(n, S)|
    ensures 0 <= Snap(c, n, S) && Snap(c, n, S) + S <= |Track.Render(n, S)|
    ensures Track.Window(n, S, Snap(c, n, S)) == Track.Window(n, S, c)
  {
    Track.Layout(n, S);
    var r := Snap(c, n, S);
    var t := Track.Render(n, S);
    forall j | 0 <= j < S
      ensures Track.Window(n, S, r)[j] == Track.Window(n, S, c)[j]
    {
      if c == 0 || c == n + S {
        assert r + j - S == c + j - S + (if c == 0 then n else -(n as int));
        ModShift(c + j - S, n, if c == 0 then 1 else -1);
      }
    }
  }

  /** `next()` applied `j` times, with no snap in between. */
  function NextTimes(c: int, total: int, K: int, j: nat): int
    requires K >= 1
  {
    if j == 0 then c else NextIndex(NextTimes(c, total, K, j - 1), total, K)
  }

  /** One `next()` from the `x`-th aligned position reaches the
      `((x + 1) mod M)`-th. */
  lemma StepAt(x: int, M: int, K: int)
    requires K >= 1 && 0 <= x < M
    ensures NextIndex(x * K, M * K, K) == ((x + 1) % M) * K
  {
    if x == M - 1 {
      assert x * K == M * K - K;
      DivisionUnique(x + 1, 1, M, 0);
    } else {
      MulSign(M - 1 - x, K);
      assert (M - 1 - x) * K == M * K - K - x * K;
      assert x * K + K == (x + 1) * K;
      DivisionUnique(x + 1, 0, M, x + 1);
    }
  }

  /** On a track of `M` aligned positions, `j` steps from the `m`-th lead to
      the `((m + j) mod M)`-th. */
  lemma {:induction false} NextOrbit(m: int, M: int, K: int, j: nat)
    requires K >= 1 && M >= 1 && 0 <= m < M
    ensures NextTimes(m * K, M * K, K, j) == ((m + j) % M) * K
  {
    if j == 0 {
      DivisionUnique(m, 0, M, m);
    } else {
      NextOrbit(m, M, K, j - 1);
      var x := (m + j - 1) % M;
      StepAt(x, M, K);
      ModSucc(m + j - 1, M);
      ModSucc(x, M);
      DivisionUnique(x, 0, M, x);
    }
  }

  /** Fewer than `M` steps never return to the start. */
  lemma OrbitNoEarlyReturn(m: int, M: int, K: int, j: int)
    requires K >= 1 && 0 <= m < M && 0 < j < M
    ensures ((m + j) % M) * K != m * K
  {
    var y := (m + j) % M;
    if m + j < M {
      DivisionUnique(m + j, 0, M, m + j);
    } else {
      DivisionUnique(m + j, 1, M, m + j - M);
    }
    MulSign(y - m, K);
    assert (y - m) * K == y * K - m * K;
  }

  /** From an aligned position, `total / K` calls of `next()` come back to
      the start, and no fewer do. */
  lemma NextCycle(c: int, total: int, K: int)
    requires K >= 1 && total % K == 0 && Aligned(c, total, K)
    ensures NextTimes(c, total, K, total / K) == c
    ensures forall j :: 0 < j < total / K ==> NextTimes(c, total, K, j) != c
  {
    var m := Decompose(c, K);
    var M := Decompose(total, K);
    DivisionUnique(total, M, K, 0);
    MulLess(m, M, K);
    NextOrbit(m, M, K, M);
    ModShift(m, M, 1);
    DivisionUnique(m, 0, M, m);
    forall j | 0 < j < M
      ensures NextTimes(c, total, K, j) != c
    {
      NextOrbit(m, M, K, j);
      OrbitNoEarlyReturn(m, M, K, j);
    }
  }
}
