/**
 The autoplay timer as abstract interval handles. `play()` arms a new
 repeating interval and overwrites the stored handle; `pause()` clears the
 interval named by the stored handle and leaves the handle in place.
 */
module Timer {
  import opened Js

  /** `handle` is `this.timer`; `armed` holds the intervals still running;
      `issued` is the next handle the host will hand out. */
  datatype Timer = Timer(handle: Option<nat>, armed: set<nat>, issued: nat)

  const Idle := Timer(None, {}, 0)

  /** Every handle in use was handed out before. */
  predicate Valid(t: Timer)
  {
    && (forall h :: h in t.armed ==> h < t.issued)
    && (t.handle.Some? ==> t.handle.value < t.issued)
  }

  /** Some interval is running: `next` will be called periodically. */
  predicate Running(t: Timer)
  {
    t.armed != {}
  }

  /** `play()`: arm a fresh interval and remember only its handle. */
  function Play(t: Timer): (r: Timer)
    requires Valid(t)
    ensures Valid(r)
    ensures t.issued !in t.armed
    ensures r.armed == t.armed + {t.issued} && r.handle == Some(t.issued)
    ensures Running(r)
  {
    Timer(Some(t.issued), t.armed + {t.issued}, t.issued + 1)
  }

  /** `pause()`: clear the remembered interval, if a handle was ever stored. */
  function Pause(t: Timer): (r: Timer)
    requires Valid(t)
    ensures Valid(r)
    ensures r.handle == t.handle && r.issued == t.issued
    ensures t.handle.None? ==> r == t
    ensures t.handle.Some? ==> r.armed == t.armed - {t.handle.value}
  {
    if t.handle.Some? then t.(armed := t.armed - {t.handle.value}) else t
  }

  /** `pause()` a second time changes nothing. */
  lemma PauseIdempotent(t: Timer)
    requires Valid(t)
    ensures Pause(Pause(t)) == Pause(t)
  {
  }

  /** `pause()` after one `play()` stops exactly what that `play()` started. */
  lemma PauseUndoesPlay(t: Timer)
    requires Valid(t)
    ensures Pause(Play(t)).armed == t.armed
  {
    assert t.issued !in t.armed;
  }

  /** `play()` twice leaks: the first interval can no longer be cleared,
      because its handle was overwritten. */
  lemma DoublePlayLeaks(t: Timer)
    requires Valid(t)
    ensures Pause(Play(Play(t))).armed == t.armed + {t.issued}
    ensures Running(Pause(Play(Play(t))))
  {
    assert t.issued + 1 !in t.armed + {t.issued};
  }

  /** A call the page can make on the timer. */
  datatype Op = DoPlay | DoPause

  /** The calls `ops`, in order. */
  function Apply(t: Timer, ops: seq<Op>): (r: Timer)
    requires Valid(t)
    ensures Valid(r)
    ensures r.issued >= t.issued
    decreases |ops|
  {
    if ops == [] then t
    else Apply(if ops[0] == DoPlay then Play(t) else Pause(t), ops[1..])
  }

  /** An armed interval whose handle is no longer stored is never cleared
      again: `pause()` only clears the stored handle, and `play()` stores
      only fresh ones. */
  lemma {:induction false} OrphanStaysArmed(t: Timer, h: nat, ops: seq<Op>)
    requires Valid(t) && h in t.armed && t.handle != Some(h)
    ensures h in Apply(t, ops).armed
    decreases |ops|
  {
    if ops != [] {
      var t' := if ops[0] == DoPlay then Play(t) else Pause(t);
      assert h in t'.armed && t'.handle != Some(h);
      OrphanStaysArmed(t', h, ops[1..]);
    }
  }

  /** After `play()` twice, no later sequence of `play()` and `pause()`
      calls stops the first interval. */
  lemma DoublePlayLeaksForGood(t: Timer, ops: seq<Op>)
    requires Valid(t)
    ensures t.issued in Apply(Play(Play(t)), ops).armed
  {
    OrphanStaysArmed(Play(Play(t)), t.issued, ops);
  }

  /** `pause()` called `k` times. */
  function PauseTimes(t: Timer, k: nat): (r: Timer)
    requires Valid(t)
    ensures Valid(r)
  {
    if k == 0 then t else Pause(PauseTimes(t, k - 1))
  }

  /** Any number of `pause()` calls after a single `play()` on a stopped
      timer leaves no interval running. */
  lemma {:induction false} RepeatedPauseAfterPlay(t: Timer, k: nat)
    requires Valid(t) && !Running(t) && k >= 1
    ensures !Running(PauseTimes(Play(t), k))
    ensures PauseTimes(Play(t), k).handle == Some(t.issued)
  {
    if k == 1 {
      PauseUndoesPlay(t);
    } else {
      RepeatedPauseAfterPlay(t, k - 1);
    }
  }
}
