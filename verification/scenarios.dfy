/**
 Concrete runs of the model: the demo configuration (nine slides, three
 shown and three scrolled at a time), and the inputs that exhibit the two
 discrepancies recorded in the README.
 */
module Scenarios {
  import opened Js
  import opened Config
  import opened Dots
  import opened Navigation
  import opened Slider
  import Track
  import Timer

  /** The options of the demo page. */
  const Demo := RawOptions(
    width := Some(600),
    infinite := None,
    slidesToShow := Some(3),
    slidesToScroll := Some(3),
    autoplay := Some(true),
    pauseOnHover := None,
    speed := Some(500),
    autoplaySpeed := Some(3000),
    beforeChange := true,
    afterChange := true)

  lemma DemoDots()
    ensures DotSlides(9, 3) == [0, 3, 6]
  {
    assert DotSlides(1, 3) == [0];
    assert DotSlides(4, 3) == [0, 3];
    assert DotSlides(7, 3) == [0, 3, 6];
  }

  /** Construction with the demo options over nine slides: a 15-item track,
      dots at 0, 3 and 6 with dot 0 active, the first real slide at the left
      edge, and autoplay running. */
  lemma DemoInit() returns (s: Slider)
    ensures Init(9, Demo) == Ok(s)
    ensures s.total == 15 && s.current == 3 && SlidesOf(s.dots) == [0, 3, 6]
    ensures ActiveSlide(s.dots) == Some(0) && s.autoplay && Timer.Running(s.timer)
  {
    DemoDots();
    s := Init(9, Demo).value;
  }

  /** One `next()` moves the left edge from 3 to 6 and activates dot 3; 6 is
      no sentinel, so the end of the transition leaves it there. */
  lemma DemoNext()
    ensures Init(9, Demo).Ok?
    ensures Next(Init(9, Demo).value).current == 6
    ensures ActiveSlide(Next(Init(9, Demo).value).dots) == Some(3)
    ensures TransitionEnd(Next(Init(9, Demo).value)).current == 6
  {
    var s := DemoInit();
    var r := Next(s);
    assert r.current == 6;
    assert DotSyncApplies(r);
  }

  /** Three `next()` calls from construction reach the forward sentinel 12,
      and the end of that transition snaps back to 3, with slides 0, 1, 2 on
      screen on both sides of the snap. */
  lemma DemoWrapForward()
    ensures Init(9, Demo).Ok?
    ensures var s := Next(Next(Next(Init(9, Demo).value)));
            s.current == 12 && TransitionEnd(s).current == 3
    ensures Track.Window(9, 3, 12) == Track.Window(9, 3, 3) == [0, 1, 2]
  {
    var s0 := DemoInit();
    assert Next(s0).current == 6;
    assert Next(Next(s0)).current == 9;
    assert Next(Next(Next(s0))).current == 12;
    DemoWindows();
  }

  /** Five `next()` steps from the first real slide, without snaps, come
      back to it. */
  lemma DemoCycle()
    ensures NextTimes(3, 15, 3, 5) == 3
  {
    NextCycle(3, 15, 3);
  }

  /** What the demo track shows at the left edges 0, 3, 6 and 12. */
  lemma DemoWindows()
    ensures Track.Window(9, 3, 0) == [6, 7, 8]
    ensures Track.Window(9, 3, 3) == [0, 1, 2]
    ensures Track.Window(9, 3, 6) == [3, 4, 5]
    ensures Track.Window(9, 3, 12) == [0, 1, 2]
  {
    Track.Layout(9, 3);
    assert Track.Window(9, 3, 0) == [6, 7, 8];
    assert Track.Window(9, 3, 3) == [0, 1, 2];
    assert Track.Window(9, 3, 6) == [3, 4, 5];
    assert Track.Window(9, 3, 12) == [0, 1, 2];
  }

  /** The demo without an `afterChange` callback: the transition into the
      forward sentinel 12 (slides 0, 1, 2 on screen) is not snapped back, and
      the next `next()` jumps to position 0, the clones of slides 6, 7, 8,
      where the snapped slider goes on to 6, slides 3, 4, 5. */
  lemma NoAfterChangeBreaksLoop()
    ensures var raw := Demo.(afterChange := false);
            && Init(9, raw).Ok?
            && var s := Next(Next(Next(Init(9, raw).value)));
            && s.current == 12
            && TransitionEndAsWritten(s).current == 12
            && Next(TransitionEndAsWritten(s)).current == 0
            && Next(TransitionEnd(s)).current == 6
  {
    var raw := Demo.(afterChange := false);
    var s0 := Init(9, raw).value;
    assert s0.total == 15 && s0.current == 3;
    assert Next(s0).current == 6;
    assert Next(Next(s0)).current == 9;
    var s := Next(Next(Next(s0)));
    assert s.current == 12;
    assert TransitionEndAsWritten(s) == s;
    assert Next(s).current == 0;
    assert TransitionEnd(s).current == 3;
    assert Next(TransitionEnd(s)).current == 6;
  }

  /** Five slides, one shown, two scrolled: the track has seven items and
      `slidesToScroll` does not divide it. From position 0, `next()` keeps
      going up by two, never hits the last scroll position 5 and never comes
      back to 0. */
  lemma {:induction false} UnalignedNeverReturns(j: nat)
    ensures NextTimes(0, 7, 2, j) == 2 * j
  {
    if j > 0 {
      UnalignedNeverReturns(j - 1);
    }
  }

  /** Five slides, one shown, two scrolled: `goTo(0)` as written puts slide 1
      at the left edge. */
  lemma GoToOffByScroll()
    ensures var raw := Demo.(slidesToShow := Some(1), slidesToScroll := Some(2));
            && Init(5, raw).Ok?
            && CurrentSlide(GoToAsWritten(Init(5, raw).value, 0)) == 1
            && CurrentSlide(GoTo(Init(5, raw).value, 0)) == 0
  {
    var raw := Demo.(slidesToShow := Some(1), slidesToScroll := Some(2));
    assert Init(5, raw).Ok?;
  }

  /** Five slides, one shown, two scrolled: once the left edge reaches 5
      (after two `next()` calls; it is the last scroll position but not the
      forward sentinel 6),
      `next()` wraps to 0 and the snap puts it back on 5, so the slider shows
      slide 4 for good. */
  lemma UnalignedScrollSticks()
    ensures var raw := Demo.(slidesToShow := Some(1), slidesToScroll := Some(2));
            && Init(5, raw).Ok?
            && var s := Next(Next(Init(5, raw).value));
            && s.total == 7 && s.current == 5
            && Next(s).current == 0
            && TransitionEnd(Next(s)).current == 5
            && CurrentSlide(TransitionEnd(Next(s))) == 4
  {
    var raw := Demo.(slidesToShow := Some(1), slidesToScroll := Some(2));
    var s0 := Init(5, raw).value;
    assert s0.total == 7 && s0.current == 1;
    assert Next(s0).current == 3;
    var s := Next(Next(s0));
    assert s.current == 5;
    assert Next(s).current == 0;
  }
}
