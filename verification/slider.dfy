/**
 The slider's state machine: construction, `next`, `prev`, `goTo`, the
 `currentSlide` getter, the transition-end snap, dot clicks, the active-dot
 recomputation after `next`/`prev`, the button and hover handlers, and the
 autoplay flag. Rendering is reduced to the track and dot list it produces.
 */
module Slider {
  import opened Js
  import opened Arith
  import opened Config
  import opened Dots
  import opened Navigation
  import Track
  import Timer

  /** Construction throws when there is no dot numbered 0 to activate,
      which happens exactly when the container holds no slides. */
  datatype InitError = NoDotToActivate

  /** The slider's state: options, `slidesCount`, `slidesWithClonedCount`,
      `current`, the dot buttons, the live autoplay flag (the constructor
      copies it from the options; the button handlers clear it) and the
      autoplay timer. */
  datatype Slider = Slider(
    opts: Options,
    n: nat,
    total: int,
    current: int,
    dots: seq<Dot>,
    autoplay: bool,
    timer: Timer.Timer)

  /** What every constructed slider satisfies. */
  predicate Valid(s: Slider)
  {
    && s.opts.slidesToShow >= 1
    && s.opts.slidesToScroll >= 1
    && s.n >= 1
    && s.total == |Track.Render(s.n, s.opts.slidesToShow)|
    && SlidesOf(s.dots) == DotSlides(s.n, s.opts.slidesToShow)
    && ExactlyOneActive(s.dots)
    && Timer.Valid(s.timer)
  }

  /** Everything fixed at render time is unchanged from `s` to `r`. */
  predicate SameSetup(s: Slider, r: Slider)
  {
    r.opts == s.opts && r.n == s.n && r.total == s.total && SlidesOf(r.dots) == SlidesOf(s.dots)
  }

  /** The `currentSlide` getter. */
  function CurrentSlide(s: Slider): int
  {
    s.current - s.opts.slidesToShow
  }

  /** What the getter reads: the `slide-index` label of the track item at
      the window's left edge, which is that item's slide on the originals. */
  lemma CurrentSlideIsLabel(s: Slider)
    requires 1 <= s.opts.slidesToShow <= s.n && 0 <= s.current < |Track.Render(s.n, s.opts.slidesToShow)|
    ensures CurrentSlide(s) == Track.Render(s.n, s.opts.slidesToShow)[s.current].slideIndex
    ensures Track.Render(s.n, s.opts.slidesToShow)[s.current].role == Track.Original ==>
              CurrentSlide(s) == Track.Render(s.n, s.opts.slidesToShow)[s.current].slide
  {
    Track.Layout(s.n, s.opts.slidesToShow);
  }

  /** The slides on screen. */
  function OnScreen(s: Slider): seq<int>
    requires Valid(s) && 0 <= s.current && s.current + s.opts.slidesToShow <= s.total
  {
    Track.Window(s.n, s.opts.slidesToShow, s.current)
  }

  /** Construction over `n` slides: render the track and the dots, show the
      first real slide, activate dot 0, and start autoplay if configured. */
  function Init(n: nat, raw: RawOptions): (r: Result<Slider, InitError>)
    requires CountsNotNegative(raw)
    ensures r.Err? <==> n == 0
    ensures r.Ok? ==> Valid(r.value) && r.value.opts == Resolve(raw) && r.value.n == n
    ensures r.Ok? ==> r.value.current == r.value.opts.slidesToShow && CurrentSlide(r.value) == 0
    ensures r.Ok? ==> ActiveSlide(r.value.dots) == Some(0)
    ensures r.Ok? ==> r.value.autoplay == r.value.opts.autoplay
    ensures r.Ok? ==> (Timer.Running(r.value.timer) <==> r.value.autoplay)
    ensures r.Ok? && r.value.opts.slidesToShow <= n ==> r.value.total == n + 2 * r.value.opts.slidesToShow
  {
    var o := Resolve(raw);
    CountsPositive(raw);
    var S := o.slidesToShow;
    var dots := RenderDots(n, S);
    if 0 !in SlidesOf(dots) then
      Err(NoDotToActivate)
    else
      assert n >= 1;
      Track.RenderShape(n, S);
      var s := Slider(o, n, |Track.Render(n, S)|, S, SetActiveDot(dots, 0), o.autoplay, Timer.Idle);
      Ok(if o.autoplay then s.(timer := Timer.Play(s.timer)) else s)
  }

  /** The guard of `#setDotFromNextOrPrev`: the left edge sits on a multiple
      of `slidesToShow` past the first real slide, and not beyond the
      forward sentinel. */
  predicate DotSyncApplies(s: Slider)
    requires s.opts.slidesToShow >= 1
  {
    (s.current - s.opts.slidesToShow) % s.opts.slidesToShow == 0
    && s.current <= s.n + s.opts.slidesToShow
  }

  /** `#setDotFromNextOrPrev`: when the guard holds, activate dot 0 at either
      end of the track and the dot of the left-edge slide elsewhere; when it
      does not, leave the dots alone. The dot it picks always exists. */
  function SyncDot(s: Slider): (r: Slider)
    requires Valid(s)
    ensures Valid(r) && r == s.(dots := r.dots)
    ensures !DotSyncApplies(s) ==> r == s
    ensures DotSyncApplies(s) ==> ActiveSlide(r.dots).Some? && ActiveSlide(r.dots).value in SlidesOf(s.dots)
    ensures DotSyncApplies(s) && (s.current <= s.opts.slidesToShow || s.current + s.opts.slidesToShow >= s.total) ==>
              ActiveSlide(r.dots) == Some(0)
    ensures DotSyncApplies(s) && s.opts.slidesToShow < s.current && s.current + s.opts.slidesToShow < s.total ==>
              ActiveSlide(r.dots) == Some(s.current - s.opts.slidesToShow)
  {
    var S := s.opts.slidesToShow;
    JsRemZeroIffDivides(s.current - S, S);
    if JsRem(s.current - S, S) == 0 && s.current <= s.n + S then
      s.(dots := SetActiveDot(s.dots, ChosenDot(s)))
    else
      s
  }

  /** The dot `#setDotFromNextOrPrev` activates: dot 0 at either end of the
      track, the left-edge slide's dot elsewhere. */
  function ChosenDot(s: Slider): (d: int)
    requires Valid(s) && DotSyncApplies(s)
    ensures d in SlidesOf(s.dots)
    ensures s.current <= s.opts.slidesToShow || s.current + s.opts.slidesToShow >= s.total ==> d == 0
    ensures s.opts.slidesToShow < s.current && s.current + s.opts.slidesToShow < s.total ==> d == s.current - s.opts.slidesToShow
  {
    var S := s.opts.slidesToShow;
    ChosenDotExists(s.n, S, s.current);
    if s.current - S <= 0 || s.current + S >= s.total then 0 else s.current - S
  }

  /** Away from both ends of the track, a left edge on a multiple of
      `slidesToShow` past the first real slide is the slide of an existing
      dot, whether or not `slidesToShow` exceeds the slide count. */
  lemma ChosenDotExists(n: nat, S: int, c: int)
    requires n >= 1 && S >= 1
    requires (c - S) % S == 0 && c <= n + S
    ensures c - S > 0 && c + S < |Track.Render(n, S)| ==> c - S in DotSlides(n, S)
  {
    var q := Decompose(c - S, S);
    MulSign(q, S);
    Track.RenderShape(n, S);
  }

  /** `next()`: step forward (wrapping to 0 from the last scroll position),
      then recompute the active dot. */
  function Next(s: Slider): (r: Slider)
    requires Valid(s)
    ensures Valid(r) && SameSetup(s, r)
    ensures r.autoplay == s.autoplay && r.timer == s.timer
    ensures r.current == NextIndex(s.current, s.total, s.opts.slidesToScroll)
    ensures r == SyncDot(s.(current := r.current))
  {
    SyncDot(s.(current := NextIndex(s.current, s.total, s.opts.slidesToScroll)))
  }

  /** `prev()`: step back (staying at 0), then recompute the active dot. */
  function Prev(s: Slider): (r: Slider)
    requires Valid(s)
    ensures Valid(r) && SameSetup(s, r)
    ensures r.autoplay == s.autoplay && r.timer == s.timer
    ensures r.current == PrevIndex(s.current, s.opts.slidesToScroll)
    ensures r == SyncDot(s.(current := r.current))
  {
    SyncDot(s.(current := PrevIndex(s.current, s.opts.slidesToScroll)))
  }

  /** `goTo(k)` as written: the left edge goes to `k + slidesToScroll`. */
  function GoToAsWritten(s: Slider, k: int): (r: Slider)
    requires Valid(s)
    ensures Valid(r) && r == s.(current := r.current)
    ensures CurrentSlide(r) == k + s.opts.slidesToScroll - s.opts.slidesToShow
  {
    s.(current := k + s.opts.slidesToScroll)
  }

  /** As written, `goTo(k)` lands on slide `k` exactly when `slidesToScroll`
      equals `slidesToShow`. */
  lemma GoToAsWrittenMissesSlide(s: Slider, k: int)
    requires Valid(s)
    ensures CurrentSlide(GoToAsWritten(s, k)) == k <==> s.opts.slidesToScroll == s.opts.slidesToShow
  {
  }

  /** `goTo(k)` with the offset the getter uses: the left edge goes to
      `k + slidesToShow`, so `currentSlide` reads back `k`; the dots are not
      touched. */
  function GoTo(s: Slider, k: int): (r: Slider)
    requires Valid(s)
    ensures Valid(r) && r == s.(current := r.current)
    ensures CurrentSlide(r) == k
  {
    s.(current := k + s.opts.slidesToShow)
  }

  /** `#transitionEndEvent` as written: `options.afterChange()` is called
      first; when no callback was supplied it is `null`, the call throws and
      the snap never runs. */
  function TransitionEndAsWritten(s: Slider): (r: Slider)
    requires Valid(s)
    ensures Valid(r) && r == s.(current := r.current)
    ensures !s.opts.afterChange ==> r == s
    ensures s.opts.afterChange ==> r.current != 0 && r.current != s.n + s.opts.slidesToShow
    ensures s.opts.afterChange ==> r == TransitionEnd(s)
  {
    if !s.opts.afterChange then s else TransitionEnd(s)
  }

  /** Without an `afterChange` callback the forward sentinel survives the
      end of the transition: the clones of the first slides stay in place of
      the real ones. */
  lemma MissingAfterChangeKeepsSentinel(s: Slider)
    requires Valid(s) && !s.opts.afterChange && s.current == s.n + s.opts.slidesToShow
    ensures TransitionEndAsWritten(s).current == s.n + s.opts.slidesToShow
    ensures TransitionEnd(s).current == s.opts.slidesToShow
  {
  }

  /** `#transitionEndEvent` with the callback treated as optional: snap from
      the clones back onto the real slides. Afterwards the left edge is on
      neither sentinel. */
  function TransitionEnd(s: Slider): (r: Slider)
    requires Valid(s)
    ensures Valid(r) && r == s.(current := r.current)
    ensures r.current != 0 && r.current != s.n + s.opts.slidesToShow
    ensures s.current == 0 ==> r.current == s.n
    ensures s.current == s.n + s.opts.slidesToShow ==> r.current == s.opts.slidesToShow
    ensures s.current != 0 && s.current != s.n + s.opts.slidesToShow ==> r == s
  {
    s.(current := Snap(s.current, s.n, s.opts.slidesToShow))
  }

  /** The snap is invisible: the slides on screen before and after it are
      the same. */
  lemma TransitionEndKeepsScreen(s: Slider)
    requires Valid(s) && s.opts.slidesToShow <= s.n
    requires 0 <= s.current && s.current + s.opts.slidesToShow <= s.total
    ensures 0 <= TransitionEnd(s).current && TransitionEnd(s).current + s.opts.slidesToShow <= s.total
    ensures OnScreen(TransitionEnd(s)) == OnScreen(s)
  {
    SnapKeepsWindow(s.n, s.opts.slidesToShow, s.current);
  }

  /** `#dotButtonClickEvent(k)`: pause autoplay, move the left edge onto slide
      `k` and make dot `k` the active one. Clicks only come from rendered
      dots. */
  function DotClick(s: Slider, k: int): (r: Slider)
    requires Valid(s) && k in SlidesOf(s.dots)
    ensures Valid(r) && SameSetup(s, r)
    ensures CurrentSlide(r) == k && ActiveSlide(r.dots) == Some(k)
    ensures r.autoplay == s.autoplay
    ensures r.timer == Timer.Pause(s.timer)
  {
    s.(timer := Timer.Pause(s.timer),
       current := s.opts.slidesToShow + k,
       dots := SetActiveDot(s.dots, k))
  }

  /** `#nextClickEvent`: `next()`, then switch autoplay off for good. */
  function NextClick(s: Slider): (r: Slider)
    requires Valid(s)
    ensures !r.autoplay
    ensures r == Next(s).(autoplay := false)
  {
    var r := Next(s);
    if r.autoplay then r.(autoplay := false) else r
  }

  /** `#prevClickEvent`: `prev()`, then switch autoplay off for good. */
  function PrevClick(s: Slider): (r: Slider)
    requires Valid(s)
    ensures !r.autoplay
    ensures r == Prev(s).(autoplay := false)
  {
    var r := Prev(s);
    if r.autoplay then r.(autoplay := false) else r
  }

  /** `#slideWindowOverEvent`: pause while autoplay is on. */
  function MouseOver(s: Slider): (r: Slider)
    requires Valid(s)
    ensures Valid(r) && r.autoplay == s.autoplay && r == s.(timer := r.timer)
    ensures !s.autoplay ==> r == s
    ensures s.autoplay ==> r.timer == Timer.Pause(s.timer)
  {
    if s.autoplay then s.(timer := Timer.Pause(s.timer)) else s
  }

  /** `#slideWindowOutEvent`: resume while autoplay is on. */
  function MouseOut(s: Slider): (r: Slider)
    requires Valid(s)
    ensures Valid(r) && r.autoplay == s.autoplay && r == s.(timer := r.timer)
    ensures !s.autoplay ==> r == s
    ensures s.autoplay ==> Timer.Running(r.timer)
    ensures s.autoplay ==> r.timer == Timer.Play(s.timer)
  {
    if s.autoplay then s.(timer := Timer.Play(s.timer)) else s
  }

  /** Everything that can happen to a constructed slider. `PointerOver` and
      `PointerOut` are the `mouseover` and `mouseout` events on the slide
      window; they bubble, so they also arrive when the pointer moves between
      the window's children. `TransitionEnds` is assumed to arrive after any
      move. */
  datatype Event =
    | NextButton | PrevButton | DotButton(slide: int)
    | PointerOver | PointerOut
    | TimerFires | TransitionEnds
    | CallNext | CallPrev | CallGoTo(slide: int) | CallPlay | CallPause

  /** One event, handled as the code is written: the transition end throws
      without an `afterChange` callback, and `goTo` offsets by
      `slidesToScroll`. A timer fires only while an interval is armed, and a
      dot button only exists for a rendered dot. */
  function Step(s: Slider, e: Event): (r: Slider)
    requires Valid(s)
    ensures Valid(r) && SameSetup(s, r)
    ensures e.NextButton? || e.PrevButton? ==> !r.autoplay
    ensures !e.NextButton? && !e.PrevButton? ==> r.autoplay == s.autoplay
    ensures e.TransitionEnds? && !s.opts.afterChange ==> r == s
  {
    match e
    case NextButton => NextClick(s)
    case PrevButton => PrevClick(s)
    case DotButton(k) => if k in SlidesOf(s.dots) then DotClick(s, k) else s
    case PointerOver => MouseOver(s)
    case PointerOut => MouseOut(s)
    case TimerFires => if Timer.Running(s.timer) then Next(s) else s
    case TransitionEnds => TransitionEndAsWritten(s)
    case CallNext => Next(s)
    case CallPrev => Prev(s)
    case CallGoTo(k) => GoToAsWritten(s, k)
    case CallPlay => s.(timer := Timer.Play(s.timer))
    case CallPause => s.(timer := Timer.Pause(s.timer))
  }

  /** One event with both corrections applied: the transition end always
      snaps, and `goTo(k)` lands on slide `k`. Every other event is handled
      as written. */
  function StepCorrected(s: Slider, e: Event): (r: Slider)
    requires Valid(s)
    ensures Valid(r) && SameSetup(s, r)
    ensures !e.TransitionEnds? && !e.CallGoTo? ==> r == Step(s, e)
    ensures e.TransitionEnds? ==> r.current != 0 && r.current != s.n + s.opts.slidesToShow
    ensures e.CallGoTo? ==> CurrentSlide(r) == e.slide
  {
    match e
    case TransitionEnds => TransitionEnd(s)
    case CallGoTo(k) => GoTo(s, k)
    case _ => Step(s, e)
  }

  /** The corrections change nothing for a slider that has an `afterChange`
      callback and scrolls as many slides as it shows, such as the demo. */
  lemma CorrectionsAgree(s: Slider, e: Event)
    requires Valid(s) && s.opts.afterChange && s.opts.slidesToScroll == s.opts.slidesToShow
    ensures StepCorrected(s, e) == Step(s, e)
  {
  }

  /** Without an `afterChange` callback, and with `current` on a sentinel,
      the two machines disagree on a transition end. */
  lemma CorrectionsDiffer(s: Slider)
    requires Valid(s) && !s.opts.afterChange
    requires s.current == 0 || s.current == s.n + s.opts.slidesToShow
    ensures StepCorrected(s, TransitionEnds) != Step(s, TransitionEnds)
  {
  }

  /** A sequence of events, in order. The autoplay flag only ever goes from
      on to off, and any button click turns it off for the rest of the run. */
  function Run(s: Slider, es: seq<Event>): (r: Slider)
    requires Valid(s)
    ensures Valid(r) && SameSetup(s, r)
    ensures r.autoplay ==> s.autoplay
    ensures (exists i :: 0 <= i < |es| && (es[i].NextButton? || es[i].PrevButton?)) ==> !r.autoplay
    decreases |es|
  {
    if es == [] then s
    else
      var r := Run(Step(s, es[0]), es[1..]);
      assert forall i :: 1 <= i < |es| ==> es[i] == es[1..][i - 1];
      r
  }

  /** Once autoplay is off, leaving the window does not restart the timer. */
  lemma PointerOutCannotRestart(s: Slider)
    requires Valid(s) && !s.autoplay
    ensures Step(s, PointerOut).timer == s.timer
  {
  }
}
