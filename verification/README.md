# Slider carousel: a verified model of its index and state logic

The `Slider` class of this repository renders a carousel. It fakes an
infinite loop by rendering a track that holds clones of the last
`slidesToShow` slides, then the real slides, then clones of the first
`slidesToShow` slides. It moves a window over that track and snaps the
window back from the clones onto the real slides when a transition ends.
Underneath the DOM this is a small integer state machine. This project
models that machine in Dafny as immutable records and pure functions, and
proves what it does.

| module | file | models |
|---|---|---|
| `Arith` | arith.dfy | Euclidean division facts that the proofs share |
| `Js` | js.dfy | the falsy-OR default, JavaScript's truncating `%`, `Array.prototype.slice`, thrown errors as `Result` |
| `Config` | config.dfy | option defaulting in the constructor |
| `Track` | track.dfy | the `slide-index` track built in `#render`, and the window of slides on screen |
| `Dots` | dots.dfy | dot creation, `#setActiveDot` |
| `Timer` | timer.dfy | `play` / `pause` over abstract interval handles |
| `Navigation` | navigation.dfy | the position arithmetic of `next`, `prev` and the transition-end snap |
| `Slider` | slider.dfy | the state record, construction, every public operation and event handler |
| `Scenarios` | scenarios.dfy | concrete runs: the demo page's configuration and the findings' inputs |

The state is `Slider(opts, n, total, current, dots, autoplay, timer)`.
`n` is `slidesCount` and `total` is `slidesWithClonedCount`. `current` is
an `int`, because `prev` can go below zero. Each dot carries its
`data-slide` number and an active flag. `autoplay` is the live flag that
the button handlers clear. `Valid` is the invariant that construction
establishes and every event preserves. It says that `slidesToShow`,
`slidesToScroll` and `n` are positive, that `total` is the rendered track's
length, that the dots are the rendered ones, and that exactly one dot is
active.

Main results:
- Track layout: position `p` is labelled `p - S` and shows real slide
  `(p - S) mod n`, so the track length is `n + 2S` when `S <= n`. Without
  that bound, `slice` clamps and the clone counts shrink (`RenderShape`).
- Stepping: when `K` divides `total`, `total / K` calls of `next` from an
  aligned position (a multiple of `K`) return to it, and no fewer do, and
  both steps keep positions aligned. The first real slide `S` is aligned
  only when `K` divides `S`. Without the divisibility, `next` from 0 can
  climb forever: with five slides, one shown and two scrolled, it never
  returns to 0 (`Scenarios.UnalignedNeverReturns`).
- Snap: it maps `0 ↦ n` and `n + S ↦ S`, it never leaves the window on a
  sentinel, and for `S <= n` the `S` slides on screen are the same before
  and after it. A second snap does not move the window again.
- Dots: the dots are exactly the multiples of `S` below `n`, and there are
  `ceil(n / S)` of them. `#setActiveDot` leaves exactly one dot active
  when that dot exists.
  The dot that `#setDotFromNextOrPrev` picks always exists, even when `S`
  exceeds `n`.
- Autoplay flag: over any sequence of events it can only go from on to off.
  A click on the previous or next button turns it off for the rest of the
  run.

Two more behaviours of the code as written are proved, beyond the two
findings below:
- Construction over zero slides throws, because there is no dot 0 to
  activate. `Init` returns `Err` exactly when `n == 0`.
- When `slidesToScroll` does not step onto the forward sentinel, `next()`
  followed by the snap can fall into a shorter cycle that never returns to
  the first slide. With five slides, one shown and two scrolled, that cycle
  is a single slide: `next` from 5 wraps to 0, the snap returns to 5, and
  slide 4 stays on screen (`Scenarios.UnalignedScrollSticks`).

The comment on `goTo` (slider/slider.js:174) says it selects a slide by
number. The `currentSlide` getter (line 171) subtracts `slidesToShow`, and
the dot click (line 264) adds it. So `goTo(k)` followed by `currentSlide`
should give `k`. The code adds `slidesToScroll` instead, and the round
trip holds only when `slidesToScroll == slidesToShow`.

The event machine `Slider.Step`, and `Slider.Run` over it, handle every
event as the code is written: `goTo` uses `GoToAsWritten`, and a
transition end without `afterChange` changes nothing. `Slider.StepCorrected`
is the same machine with both corrections applied. `Slider.CorrectionsAgree`
proves that the two machines coincide when an `afterChange` callback is
supplied and `slidesToScroll == slidesToShow`, as on the demo page.

## Model

| member | source | states |
|---|---|---|
| Config.Resolve | slider/slider.js:6-17 | every option goes through falsy-OR: a non-zero `width`, `slidesToShow`, `slidesToScroll` or `autoplaySpeed` passes through, and otherwise they default to 700, 1, 1 and 3000; `autoplay` and `infinite` hold only when passed `true`, `speed` defaults to 0, and `pauseOnHover` is always true |
| Config.CountsPositive | slider/slider.js:9-10 | with no negative counts passed, `slidesToShow` and `slidesToScroll` resolve to at least 1 |
| Config.FalsyMeansDefault | slider/slider.js:7-16 | passing `0` or `false` resolves exactly like omitting the option |
| Config.PauseOnHoverIgnored | slider/slider.js:12 | the `pauseOnHover` value passed has no effect on the resolved options |
| Js.JsRemZeroIffDivides | slider/slider.js:284 | JavaScript's truncating `a % b === 0` holds exactly when `b` divides `a`, the same as Dafny's Euclidean test, for negative `a` too |
| Js.Slice | slider/slider.js:42-43 | `slice(start, end)` resolves negative and out-of-range bounds by clamping, never fails, and returns the elements between the resolved bounds, empty when they cross |
| Track.Render | slider/slider.js:42-69 | the track is the cloned tail showing the last slides in order, then the originals labelled `0..n-1`, then the cloned head showing the first slides in order |
| Track.RenderShape | slider/slider.js:42-69 | for every `n` and positive `S`: `min(S, n)` head clones, a tail clone count clamped by `slice`, and the originals as one run labelled `0..n-1` right after the tail |
| Track.Layout | slider/slider.js:50-69 | for `1 <= S <= n`: track length `n + 2S`, position `p` labelled `p - S` and showing slide `(p - S) mod n`, with tail clones, originals and head clones in that order |
| Dots.DotSlides | slider/slider.js:87-102 | the dot numbers are exactly the `i` in `[0, n)` that `S` divides, strictly increasing |
| Dots.DotCount | slider/slider.js:87-88 | there are `ceil(n / S)` dots |
| Dots.RenderDots | slider/slider.js:87-102 | the rendered dot list carries those numbers, none active |
| Dots.FirstWithSlide | slider/slider.js:272 | the lookup finds the first dot with the given number, or reports none |
| Dots.SetActiveDot | slider/slider.js:269-279 | the dot numbers are unchanged; if dot `d` exists it is the only active dot, otherwise every dot ends up inactive (the source throws after clearing) |
| Timer.Play | slider/slider.js:182-186 | arms a fresh interval, adds it to the running ones, and overwrites the stored handle |
| Timer.Pause | slider/slider.js:189-193 | clears only the interval of the stored handle, and does nothing if no handle was ever stored |
| Timer.PauseIdempotent | slider/slider.js:189-193 | a second `pause()` changes nothing |
| Timer.PauseUndoesPlay | slider/slider.js:182-193 | `pause()` after `play()` leaves the running intervals as they were before |
| Timer.DoublePlayLeaks | slider/slider.js:185 | after `play()` twice, `pause()` leaves the first interval running |
| Timer.OrphanStaysArmed | slider/slider.js:182-193 | an armed interval whose handle is no longer stored stays armed through any later sequence of `play()` and `pause()` calls |
| Timer.DoublePlayLeaksForGood | slider/slider.js:185 | after `play()` twice, no later sequence of `play()` and `pause()` calls stops the first interval |
| Timer.RepeatedPauseAfterPlay | slider/slider.js:182-193 | one or more `pause()` calls after one `play()` on a stopped timer leave nothing running |
| Navigation.NextIndex | slider/slider.js:158-162 | `next` wraps to 0 from the last scroll position `total - K` and otherwise advances by exactly `K`; it stands still only on a one-step track at 0 |
| Navigation.PrevIndex | slider/slider.js:144-148 | `prev` leaves the position fixed exactly at 0 and otherwise moves back by exactly `K`, so from a positive position it can go negative but never to `-K` or below |
| Navigation.StepsKeepAligned | slider/slider.js:144-162 | when `K` divides `total`, both steps map multiples of `K` in `[0, total - K]` into that set |
| Navigation.Snap | slider/slider.js:238-256 | the snap maps `0 ↦ n` and `n + S ↦ S`, fixes everything else, and never yields a sentinel |
| Navigation.SnapIdempotent | slider/slider.js:238-256 | a second transition end leaves the position where the first put it |
| Navigation.SnapKeepsWindow | slider/slider.js:233-257 | for `S <= n` the `S` slides on screen are the same before and after the snap |
| Navigation.StepAt | slider/slider.js:158-162 | on `M` aligned positions, one `next` goes from the `x`-th to the `((x + 1) mod M)`-th |
| Navigation.NextOrbit | slider/slider.js:158-162 | `j` calls of `next` go from the `m`-th aligned position to the `((m + j) mod M)`-th |
| Navigation.NextCycle | slider/slider.js:155-167 | when `K` divides `total`, from an aligned position exactly `total / K` calls of `next` return to it, and no fewer do |
| Slider.Init | slider/slider.js:121-136 | construction fails exactly for zero slides; otherwise it is valid, `slidesWithClonedCount` is `n + 2S` when `S <= n`, it sits on the first real slide with dot 0 active, and it runs the timer exactly when autoplay is on |
| Slider.SyncDot | slider/slider.js:281-296 | only the dots change, and only when the guard holds; the activated dot exists, is 0 at either end of the track, and is exactly the left-edge slide `current - S` strictly between the ends |
| Slider.ChosenDotExists | slider/slider.js:289-293 | away from both ends, a guarded left edge is an existing dot's slide, whether or not `S <= n` |
| Slider.Next | slider/slider.js:155-167 | `next()` keeps the invariant and the setup, moves by `NextIndex`, then resynchronises the dot |
| Slider.Prev | slider/slider.js:141-152 | `prev()` keeps the invariant and the setup, moves by `PrevIndex`, then resynchronises the dot |
| Slider.GoToAsWritten | slider/slider.js:175-179 | `goTo(k)` as written leaves `currentSlide == k + slidesToScroll - slidesToShow` and changes nothing else |
| Slider.GoToAsWrittenMissesSlide | slider/slider.js:170-179 | as written, `goTo(k)` reads back `k` exactly when `slidesToScroll == slidesToShow` |
| Slider.GoTo | slider/slider.js:175-179 | corrected `goTo(k)`: `currentSlide` reads back `k` and nothing else changes |
| Slider.CurrentSlideIsLabel | slider/slider.js:170-172 | for `1 <= S <= n` and a left edge inside the track, the `currentSlide` getter returns the `slide-index` label of the track item at the left edge, which is that item's slide when it is an original |
| Slider.TransitionEndAsWritten | slider/slider.js:233-257 | without an `afterChange` callback the handler throws before the snap and the state is unchanged; with one it performs exactly the snap of `TransitionEnd` |
| Slider.MissingAfterChangeKeepsSentinel | slider/slider.js:236-249 | without `afterChange`, the forward sentinel survives the transition end where the corrected handler moves to `S` |
| Slider.TransitionEnd | slider/slider.js:238-256 | corrected handler: only `current` changes, `0 ↦ n` and `n + S ↦ S`, and it ends on no sentinel |
| Slider.TransitionEndKeepsScreen | slider/slider.js:233-257 | for `S <= n`, with the window inside the track, the transition-end snap does not change the slides on screen |
| Slider.DotClick | slider/slider.js:259-267 | clicking dot `k` pauses the timer, makes `currentSlide == k` and makes dot `k` the only active one |
| Slider.NextClick | slider/slider.js:205-212 | the next button does `next()` and leaves autoplay off |
| Slider.PrevClick | slider/slider.js:214-219 | the previous button does `prev()` and leaves autoplay off |
| Slider.MouseOver | slider/slider.js:195-198 | with autoplay on, hovering performs exactly `pause()`; with it off nothing changes; the flag never changes |
| Slider.MouseOut | slider/slider.js:200-203 | with autoplay on, leaving performs exactly `play()`, arming a fresh interval on top of any running one; with it off nothing changes; the flag never changes |
| Slider.Step | slider/slider.js:141-267 | every event, handled as written, keeps the invariant and the setup; only the two buttons change the autoplay flag, and they clear it; a transition end without `afterChange` changes nothing |
| Slider.StepCorrected | slider/slider.js:141-267 | with both corrections, a transition end never leaves a sentinel and `goTo(k)` reads back `k`; every other event is handled as written |
| Slider.CorrectionsAgree | slider/slider.js:141-267 | with an `afterChange` callback and `slidesToScroll == slidesToShow`, the corrected machine and the machine as written agree on every event |
| Slider.CorrectionsDiffer | slider/slider.js:236-256 | without `afterChange`, on either sentinel, the two machines disagree on a transition end |
| Slider.Run | slider/slider.js:205-219 | over any event sequence the flag never goes from off to on, and one button click anywhere leaves it off at the end |
| Slider.PointerOutCannotRestart | slider/slider.js:200-203 | once autoplay is off, leaving the window leaves the timer alone |
| Scenarios.DemoInit | index.js:4-13 | the demo options over nine slides: track length 15, dots 0, 3 and 6 with dot 0 active, left edge 3, autoplay running |
| Scenarios.DemoNext | slider/slider.js:155-167 | in the demo, one `next()` reaches 6 and activates dot 3, and the transition end leaves 6 in place |
| Scenarios.DemoWrapForward | slider/slider.js:248-256 | in the demo, three `next()` calls reach 12 and the snap returns to 3, with slides 0, 1, 2 on screen throughout |
| Scenarios.DemoCycle | slider/slider.js:158-162 | in the demo, five steps from position 3 return to 3 |
| Scenarios.DemoWindows | slider/slider.js:50-69 | the demo track shows 6,7,8 at 0; 0,1,2 at 3; 3,4,5 at 6; and 0,1,2 at 12 |
| Scenarios.NoAfterChangeBreaksLoop | slider/slider.js:236 | without `afterChange`, the demo's next step after the sentinel goes to position 0, where the corrected slider goes to 6 |
| Scenarios.UnalignedNeverReturns | slider/slider.js:158-162 | with five slides, one shown and two scrolled, `next` from 0 goes up by two at every call and never returns to 0 |
| Scenarios.GoToOffByScroll | slider/slider.js:177 | with five slides, one shown and two scrolled, `goTo(0)` as written shows slide 1 |
| Scenarios.UnalignedScrollSticks | slider/slider.js:158-162 | with five slides, one shown and two scrolled, the slider gets stuck on slide 4 after two `next()` calls |

## Left out

- DOM construction and queries are left out: the `innerHTML`/`template` parsing, `classList`, `appendChild` and the document-wide `querySelector` calls. The model starts from the slide count `n`. Because those queries are document-wide, two sliders on one page would collide; this is not modelled.
- Pixel geometry and transform strings are left out: `oneSlideWidth`, the element widths and `translate3d`. They are floating-point arithmetic and CSS formatting. `width` is only resolved as an option.
- The random background colours are left out. They are nondeterministic and purely cosmetic.
- Real timers are left out. `setInterval` and `clearInterval` become abstract handles. A timer tick runs `next()` while any interval is armed; the interval period is not modelled.
- Transition events, the reflow read and the `transition_disabled` class toggling are left out. A transition's end is the explicit `TransitionEnds` event, assumed to arrive after any move. In a browser it arrives only when `speed` is positive: the default `speed` is 0, and a transition of zero duration fires no `transitionend`, so with the default the snap never runs. This host behaviour is not modelled. A transition's start, and the call to `beforeChange`, change no state and are not modelled.
- The effects of the `beforeChange`/`afterChange` callbacks are left out, because they are foreign code. Only whether a callback was supplied is kept.
- Option values that are neither numbers nor booleans, non-integer numbers, and `NaN`, are left out: counts are modelled as integers.
- Slider.Init: requires that no negative `slidesToShow` or `slidesToScroll` is passed, so construction with negative counts is not modelled.
- The `infinite` option is resolved but never read, as in the source.
- Console logging is left out.
- `index.js` is left out apart from its option values, which `Scenarios.Demo` uses.

## Findings

| source | as written | input that shows it | evidently intended | confidence | as-written member | corrected member |
|---|---|---|---|---|---|---|
| slider/slider.js:236 | `#transitionEndEvent` calls `this.options.afterChange()` before the snap, but the option defaults to `null`, so without a callback the call throws and the snap never runs | demo options without `afterChange`, nine slides: three `next()` calls reach 12, the snap is skipped, and the next `next()` goes to position 0, which shows slides 6, 7, 8 instead of 3, 4, 5 | the callback is optional and the snap always runs | not executed; high | Slider.TransitionEndAsWritten, Slider.MissingAfterChangeKeepsSentinel, Scenarios.NoAfterChangeBreaksLoop | Slider.TransitionEnd, Slider.TransitionEndKeepsScreen, Slider.StepCorrected |
| slider/slider.js:177 | `goTo(slide)` sets `current = slide + slidesToScroll`, but `currentSlide` subtracts `slidesToShow` and the dot click adds `slidesToShow` | five slides, `slidesToShow: 1`, `slidesToScroll: 2`: `goTo(0)` leaves `currentSlide == 1` | `current = slide + slidesToShow`, so that `currentSlide` reads back `slide` | not executed; medium | Slider.GoToAsWritten, Slider.GoToAsWrittenMissesSlide, Scenarios.GoToOffByScroll | Slider.GoTo, Slider.StepCorrected |
