/**
 Slider options. The constructor copies each option through JavaScript's
 falsy-OR, so a missing option, `0` and `false` all select the default.
 Callbacks are modelled only by whether one was supplied.
 */
module Config {
  import opened Js

  /** The options object as the caller passes it; `None` is `undefined`. */
  datatype RawOptions = RawOptions(
    width: Option<int>,
    infinite: Option<bool>,
    slidesToShow: Option<int>,
    slidesToScroll: Option<int>,
    autoplay: Option<bool>,
    pauseOnHover: Option<bool>,
    speed: Option<int>,
    autoplaySpeed: Option<int>,
    beforeChange: bool,
    afterChange: bool)

  /** The options after defaulting, as the slider keeps them. */
  datatype Options = Options(
    width: int,
    infinite: bool,
    slidesToShow: int,
    slidesToScroll: int,
    autoplay: bool,
    pauseOnHover: bool,
    speed: int,
    autoplaySpeed: int,
    beforeChange: bool,
    afterChange: bool)

  const DefaultWidth := 700
  const DefaultSlidesToShow := 1
  const DefaultSlidesToScroll := 1
  const DefaultSpeed := 0
  const DefaultAutoplaySpeed := 3000

  /** The option defaulting of the constructor. */
  function Resolve(raw: RawOptions): (o: Options)
    ensures o.pauseOnHover
    ensures o.width != 0 && o.slidesToShow != 0 && o.slidesToScroll != 0 && o.autoplaySpeed != 0
    ensures o.width == (if raw.width.Some? && raw.width.value != 0 then raw.width.value else 700)
    ensures o.slidesToShow == (if raw.slidesToShow.Some? && raw.slidesToShow.value != 0 then raw.slidesToShow.value else 1)
    ensures o.slidesToScroll == (if raw.slidesToScroll.Some? && raw.slidesToScroll.value != 0 then raw.slidesToScroll.value else 1)
    ensures o.autoplaySpeed == (if raw.autoplaySpeed.Some? && raw.autoplaySpeed.value != 0 then raw.autoplaySpeed.value else 3000)
    ensures o.autoplay <==> raw.autoplay == Some(true)
    ensures o.infinite <==> raw.infinite == Some(true)
    ensures o.speed == (if raw.speed.Some? then raw.speed.value else 0)
    ensures o.afterChange == raw.afterChange && o.beforeChange == raw.beforeChange
  {
    Options(
      width := OrNumber(raw.width, DefaultWidth),
      infinite := OrBool(raw.infinite, false),
      slidesToShow := OrNumber(raw.slidesToShow, DefaultSlidesToShow),
      slidesToScroll := OrNumber(raw.slidesToScroll, DefaultSlidesToScroll),
      autoplay := OrBool(raw.autoplay, false),
      pauseOnHover := OrBool(raw.pauseOnHover, true),
      speed := OrNumber(raw.speed, DefaultSpeed),
      autoplaySpeed := OrNumber(raw.autoplaySpeed, DefaultAutoplaySpeed),
      beforeChange := raw.beforeChange,
      afterChange := raw.afterChange)
  }

  /** The caller does not pass negative counts; with that, both counts
      resolve to at least one. */
  predicate CountsNotNegative(raw: RawOptions)
  {
    && (raw.slidesToShow.Some? ==> raw.slidesToShow.value >= 0)
    && (raw.slidesToScroll.Some? ==> raw.slidesToScroll.value >= 0)
  }

  lemma CountsPositive(raw: RawOptions)
    requires CountsNotNegative(raw)
    ensures Resolve(raw).slidesToShow >= 1 && Resolve(raw).slidesToScroll >= 1
  {
  }

  /** Replaces every falsy option by `undefined`. */
  function Normalize(raw: RawOptions): (r: RawOptions)
    ensures r.width != Some(0) && r.slidesToShow != Some(0) && r.slidesToScroll != Some(0)
    ensures r.speed != Some(0) && r.autoplaySpeed != Some(0)
    ensures r.infinite != Some(false) && r.autoplay != Some(false) && r.pauseOnHover != Some(false)
  {
    RawOptions(
      width := DropFalsyNumber(raw.width),
      infinite := DropFalse(raw.infinite),
      slidesToShow := DropFalsyNumber(raw.slidesToShow),
      slidesToScroll := DropFalsyNumber(raw.slidesToScroll),
      autoplay := DropFalse(raw.autoplay),
      pauseOnHover := DropFalse(raw.pauseOnHover),
      speed := DropFalsyNumber(raw.speed),
      autoplaySpeed := DropFalsyNumber(raw.autoplaySpeed),
      beforeChange := raw.beforeChange,
      afterChange := raw.afterChange)
  }

  function DropFalsyNumber(v: Option<int>): Option<int>
  {
    if v == Some(0) then None else v
  }

  function DropFalse(v: Option<bool>): Option<bool>
  {
    if v == Some(false) then None else v
  }

  /** A falsy option is indistinguishable from an absent one: passing `0`
      or `false` always means "use the default". */
  lemma FalsyMeansDefault(raw: RawOptions)
    ensures Resolve(raw) == Resolve(Normalize(raw))
  {
  }

  /** `pauseOnHover: false` is not honoured: the option always resolves to
      `true`, whatever the caller passes. */
  lemma PauseOnHoverIgnored(raw: RawOptions, b: Option<bool>)
    ensures Resolve(raw.(pauseOnHover := b)) == Resolve(raw)
  {
  }
}
