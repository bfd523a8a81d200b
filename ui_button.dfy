/**
 * `UIButton`: a `UIBehaviour` that reacts to pointer events. A press scales
 * and darkens it (`TweenDown`), a release anywhere restores it (`TweenUp`),
 * and a release close to where the press started is a click.
 *
 * The behaviour part is the `base` object; the button's own fields are those
 * declared here. Callbacks the button invokes (`OnPress`, `OnRelease`,
 * `OnClick`) are recorded in `Fired`.
 */
module Buttons {
  import opened Engine
  import opened Behaviours
  import opened Globals

  /** The pointer-down threshold of `OnPointerUp`, squared: |displacement| < 0.01. */
  const ClickRadiusSquared: real := 0.0001

  /** The darkening `Disable` applies. */
  const GrayDisabled: real := 0.5

  /** The world position `Hide` parks the button at so that it is not drawn. */
  const FarAway: Vec3 := Vec3(-999999999.0, 0.0, 0.0)

  const One: Vec3 := Vec3(1.0, 1.0, 1.0)

  /** A callback invocation: `OnPress(pointerId, position)`, `OnRelease()` or `OnClick()`. */
  datatype Callback = Pressed(pointerId: int, at: Vec2) | Released | Clicked

  function Clicks(fired: seq<Callback>): nat {
    if fired == [] then 0 else Clicks(fired[..|fired| - 1]) + (if fired[|fired| - 1] == Clicked then 1 else 0)
  }

  lemma {:induction false} ClicksAppend(a: seq<Callback>, b: seq<Callback>)
    ensures Clicks(a + b) == Clicks(a) + Clicks(b)
    decreases |b|
  {
    if b == [] {
      assert a + b == a;
    } else {
      assert (a + b)[..|a + b| - 1] == a + b[..|b| - 1];
      ClicksAppend(a, b[..|b| - 1]);
    }
  }

  /**
   * Whether `Press` lets the click through: the button is interactable and,
   * when it has an image, the opacity it inherits from its parents is full.
   */
  predicate PressGate(interactable: bool, hasImage: bool, inheritedAlpha: real) {
    interactable && (!hasImage || inheritedAlpha >= 0.9999)
  }

  /** `NormalizeToScreen(position)`. */
  function Normalized(position: Vec2, screen: Vec2): Vec2
    requires screen.x > 0.0 && screen.y > 0.0
  {
    Vec2(position.x / screen.x, position.y / screen.y)
  }

  /** Squared length of the screen-normalised displacement from `start` to `end`. */
  function Displacement(start: Vec2, end: Vec2, screen: Vec2): (d: real)
    requires screen.x > 0.0 && screen.y > 0.0
    ensures d >= 0.0
  {
    var a, b := Normalized(start, screen), Normalized(end, screen);
    (b.x - a.x) * (b.x - a.x) + (b.y - a.y) * (b.y - a.y)
  }

  /** The drag-versus-click rule: the pointer came up within 1% of the screen of where it went down. */
  predicate IsClick(start: Vec2, end: Vec2, screen: Vec2)
    requires screen.x > 0.0 && screen.y > 0.0
  {
    Displacement(start, end, screen) < ClickRadiusSquared
  }

  /** Comparing squares is comparing lengths: for a length `m` of the displacement, `m < 0.01` exactly when it is a click. */
  lemma ClickIffWithinRadius(start: Vec2, end: Vec2, screen: Vec2, m: real)
    requires screen.x > 0.0 && screen.y > 0.0
    requires m >= 0.0 && m * m == Displacement(start, end, screen)
    ensures IsClick(start, end, screen) <==> m < 0.01
  {
    if m < 0.01 {
      assert m * m <= m * 0.01 < 0.01 * 0.01;
    } else {
      assert m * m >= m * 0.01 >= 0.01 * 0.01;
    }
  }

  /** A press released where it started is a click whatever the screen size. */
  lemma NoMovementIsClick(p: Vec2, screen: Vec2)
    requires screen.x > 0.0 && screen.y > 0.0
    ensures IsClick(p, p, screen)
  {
  }

  /**
   * The index of the enclosing group `OnValidate` keeps among `parents`:
   * groups on the button's own object are skipped, and a later group replaces
   * the current choice only when it is strictly deeper.
   */
  ghost function Deepest(parents: seq<CanvasGroup>, self: GameObject): (r: Option<nat>)
    requires forall p :: p in parents ==> Rooted(p.gameObject)
    ensures r.None? <==> forall p :: p in parents ==> p.gameObject == self
    ensures r.Some? ==> r.value < |parents| && parents[r.value].gameObject != self
    ensures r.Some? ==> forall j :: 0 <= j < |parents| && parents[j].gameObject != self ==>
      Depth(parents[j].gameObject) <= Depth(parents[r.value].gameObject)
    ensures r.Some? ==> forall j :: 0 <= j < r.value && parents[j].gameObject != self ==>
      Depth(parents[j].gameObject) < Depth(parents[r.value].gameObject)
    decreases |parents|
  {
    if parents == [] then None
    else
      var k := |parents| - 1;
      var prev := Deepest(parents[..k], self);
      assert forall j :: 0 <= j < k ==> parents[..k][j] == parents[j];
      if parents[k].gameObject == self then prev
      else if prev.None? || Depth(parents[k].gameObject) > Depth(parents[prev.value].gameObject) then Some(k)
      else prev
  }

  /**
   * Whether `OnPointerUp` counts the release of a pressed button as a click:
   * the event exists and is not a drag, the button is interactable, and the
   * pointer moved less than the click radius from `start`.
   */
  predicate ReleaseQualifies(ev: Option<PointerEvent>, interactable: bool, start: Vec2, screen: Vec2)
    requires screen.x > 0.0 && screen.y > 0.0
  {
    ev.Some? && !ev.value.dragging && interactable && IsClick(start, ev.value.position, screen)
  }

  /**
   * The pointer bookkeeping of a button: whether the pointer went down on it,
   * the click latch, and the callbacks fired so far.
   */
  datatype Pointer = Pointer(pressed: bool, clicked: bool, fired: seq<Callback>)

  /** `OnPointerDown`: a gesture starts, the latch is released and `OnPress` fires; no click is counted. */
  function PointerDown(p: Pointer, ev: PointerEvent): (r: Pointer)
    ensures r.pressed && !r.clicked
    ensures Clicks(r.fired) == Clicks(p.fired)
    ensures |r.fired| == |p.fired| + 1 && r.fired[..|p.fired|] == p.fired
    ensures r.fired[|p.fired|] == Pressed(ev.pointerId, ev.position)
  {
    var fired := p.fired + [Pressed(ev.pointerId, ev.position)];
    ClicksAppend(p.fired, [Pressed(ev.pointerId, ev.position)]);
    Pointer(true, false, fired)
  }

  /**
   * `OnPointerUp` once the button has come up: on a pressed button a release
   * that `qualifies` latches the click and, when the press `gate` lets it
   * through, fires `OnClick`; then `OnRelease` fires exactly when the pointer
   * had gone down on the button.
   */
  function PointerUp(p: Pointer, qualifies: bool, gate: bool): (r: Pointer)
    ensures !r.pressed
    ensures r.clicked == (p.clicked || (p.pressed && qualifies))
    ensures |r.fired| > |p.fired| <==> p.pressed
    ensures Clicks(r.fired) == Clicks(p.fired) + (if p.pressed && qualifies && gate then 1 else 0)
  {
    var q := p.pressed && qualifies;
    var clicks := if q && gate then [Clicked] else [];
    var released := if p.pressed then [Released] else [];
    ClicksAppend(p.fired, clicks);
    ClicksAppend(p.fired + clicks, released);
    Pointer(false, p.clicked || q, p.fired + clicks + released)
  }

  /** `PointerUp` as `OnPointerUp` builds it: the click (if any) first, then the release. */
  lemma PointerUpSteps(p: Pointer, qualifies: bool, gate: bool)
    ensures PointerUp(p, qualifies, gate) ==
      Pointer(false, p.clicked || (p.pressed && qualifies),
              p.fired + (if p.pressed && qualifies && gate then [Clicked] else []) + (if p.pressed then [Released] else []))
  {
  }

  /**
   * `OnPointerClick`: ignored for a button other than the left one and while
   * the latch is set; otherwise `OnRelease` fires if the pointer was still
   * down on the button, and `OnClick` fires when the press `gate` lets it through.
   */
  function PointerClick(p: Pointer, left: bool, gate: bool): (r: Pointer)
    ensures !left || p.clicked ==> r == p
    ensures left && !p.clicked ==> !r.pressed && !r.clicked
    ensures left && !p.clicked ==> Clicks(r.fired) == Clicks(p.fired) + (if gate then 1 else 0)
  {
    if !left || p.clicked then p
    else
      var released := if p.pressed then [Released] else [];
      var clicks := if gate then [Clicked] else [];
      ClicksAppend(p.fired, released);
      ClicksAppend(p.fired + released, clicks);
      Pointer(false, p.clicked, p.fired + released + clicks)
  }

  /**
   * The callbacks `OnPointerUp` fires come after those fired before, and
   * `OnRelease` is among them, last, exactly when the pointer had gone down.
   */
  lemma PointerUpLog(p: Pointer, qualifies: bool, gate: bool)
    ensures var r := PointerUp(p, qualifies, gate);
      |r.fired| >= |p.fired| && r.fired[..|p.fired|] == p.fired &&
      (Released in r.fired[|p.fired|..] <==> p.pressed) &&
      (p.pressed ==> r.fired[|r.fired| - 1] == Released)
  {
    var r := PointerUp(p, qualifies, gate);
    var added := r.fired[|p.fired|..];
    assert r.fired == p.fired + added;
    assert Released in added ==> p.pressed;
  }

  /**
   * A click that gets past the latch keeps the callbacks fired before and
   * fires `OnRelease` first, exactly when the pointer was still down.
   */
  lemma PointerClickLog(p: Pointer, left: bool, gate: bool)
    requires left && !p.clicked
    ensures var r := PointerClick(p, left, gate);
      |r.fired| >= |p.fired| && r.fired[..|p.fired|] == p.fired &&
      (Released in r.fired[|p.fired|..] <==> p.pressed) &&
      (p.pressed ==> r.fired[|p.fired|] == Released)
  {
    var r := PointerClick(p, left, gate);
    var added := r.fired[|p.fired|..];
    assert r.fired == p.fired + added;
    assert Released in added ==> p.pressed;
  }

  /**
   * The latch at work: a gesture (down, up, then the click the event system
   * may report) fires `OnClick` at most once, whatever the release and the
   * gates, and leaves the pointer up.
   */
  lemma OneClickPerGesture(p: Pointer, press: PointerEvent, qualifies: bool, gateUp: bool, left: bool, gateClick: bool)
    ensures var r := PointerClick(PointerUp(PointerDown(p, press), qualifies, gateUp), left, gateClick);
      Clicks(r.fired) <= Clicks(p.fired) + 1 && !r.pressed
  {
  }

  // The request log after each of the button's animation steps, as a
  // function of the log before it.

  /** After the button's `TweenAllGray(value)`: the behaviour's requests, then the extra darkened parts'. */
  function GrayTweenLog(log: seq<Effect>, value: real): seq<Effect> {
    log + GrayTweens(value) + [Tween(ExtraDarkenPart, Shade(value)), Tween(ExtraDarkenTextPart, Shade(value))]
  }

  /** After the button's `SetAllGray(value)`. */
  function GrayAssignLog(log: seq<Effect>, value: real): seq<Effect> {
    log + GrayAssigns(value)
    + [Kill(ExtraDarkenPart), Assign(ExtraDarkenPart, Goal.Gray(value)), Kill(ExtraDarkenTextPart), Assign(ExtraDarkenTextPart, Goal.Gray(value))]
  }

  /** After the scale step: the rectangle when it scales and has one, then the extra scaled parts. */
  function ScaleLog(log: seq<Effect>, scalesRect: bool, rectGoal: Goal, extraScale: Goal): seq<Effect> {
    (if scalesRect then log + [Tween(RectPart, rectGoal)] else log) + [Tween(ExtraScalePart, extraScale)]
  }

  /** After the darkening step, which only a button that darkens (`gray` present) takes. */
  function GrayLog(log: seq<Effect>, gray: Option<real>): seq<Effect> {
    if gray.Some? then GrayTweenLog(log, gray.value) else log
  }

  /** After `TweenDown` or `TweenUp`: scale, darkening, then the extra coloured parts. */
  function AnimationLog(log: seq<Effect>, scalesRect: bool, rectGoal: Goal, extraScale: Goal, gray: Option<real>, color: Color): seq<Effect> {
    GrayLog(ScaleLog(log, scalesRect, rectGoal, extraScale), gray) + [Tween(ExtraColorsPart, ColorTo(color))]
  }

  /** Sets every rectangle of `rects` to unit scale, leaving the rest of its state alone. */
  method ResetScales(rects: seq<RectTransform>)
    modifies rects
    ensures forall r :: r in rects ==> r.State() == old(r.State()).(localScale := One)
  {
    var i := 0;
    while i < |rects|
      invariant 0 <= i <= |rects|
      invariant forall r :: r in rects ==>
        r.State() == if r in rects[..i] then old(r.State()).(localScale := One) else old(r.State())
    {
      var rect := rects[i];
      rect.localScale := One;
      assert rects[..i + 1] == rects[..i] + [rect];
      i := i + 1;
    }
    assert rects[..i] == rects;
  }

  /** Paints every image of `images` with `c`. */
  method PaintImages(images: seq<Image>, c: Color)
    modifies images
    ensures forall o :: o in images ==> o.color == c && o.raycastTarget == old(o.raycastTarget)
  {
    var i := 0;
    while i < |images|
      invariant 0 <= i <= |images|
      invariant forall o :: o in images ==> o.raycastTarget == old(o.raycastTarget)
      invariant forall o :: o in images[..i] ==> o.color == c
    {
      var image := images[i];
      image.color := c;
      assert images[..i + 1] == images[..i] + [image];
      i := i + 1;
    }
    assert images[..i] == images;
  }

  /**
   * What an animation changes: whether the button is down, the tween flags
   * (the button's four, then the behaviour's rect, images, texts and
   * graphics flags) and the request log.
   */
  datatype Look = Look(
    down: bool, extraScale: bool, extraColor: bool, extraDarken: bool, extraDarkenText: bool,
    rect: bool, images: bool, texts: bool, graphics: bool, effects: seq<Effect>)

  /**
   * The settings an animation reads: whether the button scales and darkens,
   * its pressed scale and width ratio, its pressed and released darkening
   * (`Gray * DefaultGray` and `DefaultGray`), the extra parts' colours,
   * whether the behaviour has a rectangle and its reference scale, and which
   * of the animated collections have elements.
   */
  datatype Config = Config(
    allowScale: bool, allowGray: bool, scale: real, ratio: real, pressedGray: real, defaultGray: real,
    colorNormal: Color, colorPressed: Color, hasRect: bool, reference: Vec3,
    extraScale: bool, extraColors: bool, extraDarken: bool, extraDarkenText: bool,
    images: bool, texts: bool, graphics: bool)

  /** The width factor of the pressed scale: the height shrinks to `scale`, the width by `1 - scale` over `ratio`. */
  function WidthRatio(c: Config): real
    requires c.ratio != 0.0
  {
    1.0 - (1.0 - c.scale) / c.ratio
  }

  /** The request log after `TweenDown`, from `log`. */
  function DownLog(c: Config, log: seq<Effect>): seq<Effect>
    requires c.ratio != 0.0
  {
    AnimationLog(log, c.allowScale && c.hasRect,
                 Goal.Scale(AxisScale(c.reference, WidthRatio(c), c.scale, true)),
                 ScalePlane(Vec2(WidthRatio(c), c.scale)),
                 if c.allowGray then Some(c.pressedGray) else None, c.colorPressed)
  }

  /** The request log after `TweenUp`, from `log`. */
  function UpLog(c: Config, log: seq<Effect>): seq<Effect> {
    AnimationLog(log, c.allowScale && c.hasRect,
                 Goal.Scale(UniformScale(c.reference, 1.0, true)),
                 ScaleAll(1.0),
                 if c.allowGray then Some(c.defaultGray) else None, c.colorNormal)
  }

  /**
   * The animated state after an animation from `before` that leaves the log
   * at `log`: every part the button scales or colours has its flag set when
   * it has elements, the rectangle's flag when the button scales and has one,
   * and the darkened parts' flags only when it darkens.
   */
  function AnimatedLook(c: Config, before: Look, log: seq<Effect>): Look {
    Look(before.down, c.extraScale, c.extraColors,
         if c.allowGray then c.extraDarken else before.extraDarken,
         if c.allowGray then c.extraDarkenText else before.extraDarkenText,
         before.rect || (c.allowScale && c.hasRect),
         if c.allowGray then c.images else before.images,
         if c.allowGray then c.texts else before.texts,
         if c.allowGray then c.graphics else before.graphics,
         log)
  }

  /** The scale step: the extra scaled parts and, when the button scales and has one, the rectangle. */
  function ScaleStep(c: Config, l: Look, rectGoal: Goal, extra: Goal): Look {
    l.(extraScale := c.extraScale, rect := l.rect || (c.allowScale && c.hasRect),
       effects := ScaleLog(l.effects, c.allowScale && c.hasRect, rectGoal, extra))
  }

  /** The darkening step, taken only by a button that darkens. */
  function GrayStep(c: Config, l: Look, value: real): Look {
    if !c.allowGray then l
    else l.(extraDarken := c.extraDarken, extraDarkenText := c.extraDarkenText,
            images := c.images, texts := c.texts, graphics := c.graphics,
            effects := GrayTweenLog(l.effects, value))
  }

  /** The extra colours step. */
  function ColorStep(c: Config, l: Look, color: Color): Look {
    l.(extraColor := c.extraColors, effects := l.effects + [Tween(ExtraColorsPart, ColorTo(color))])
  }

  /** The three steps in order give the animated state, with the log `AnimationLog` describes. */
  lemma StepsAnimate(c: Config, l: Look, rectGoal: Goal, extra: Goal, gray: real, color: Color)
    ensures ColorStep(c, GrayStep(c, ScaleStep(c, l, rectGoal, extra), gray), color)
         == AnimatedLook(c, l, AnimationLog(l.effects, c.allowScale && c.hasRect, rectGoal, extra,
                                            if c.allowGray then Some(gray) else None, color))
  {
  }

  /** What `TweenDown` makes of `before`: only an interactable button goes down and animates. */
  function DownLook(c: Config, interactable: bool, before: Look): (r: Look)
    requires c.ratio != 0.0
    ensures interactable ==> r.down && r.effects == DownLog(c, before.effects)
    ensures interactable ==> r.rect == (before.rect || (c.allowScale && c.hasRect))
    ensures !interactable ==> r == before
  {
    if interactable then AnimatedLook(c, before.(down := true), DownLog(c, before.effects)) else before
  }

  /** What `TweenUp` makes of `before`: a button that is down comes up and animates; one that is up stays as it is. */
  function UpLook(c: Config, before: Look): (r: Look)
    ensures !r.down
    ensures before.down ==> r.effects == UpLog(c, before.effects)
    ensures before.down ==> r.rect == (before.rect || (c.allowScale && c.hasRect))
    ensures !before.down ==> r == before
  {
    if before.down then AnimatedLook(c, before.(down := false), UpLog(c, before.effects)) else before
  }

  /** A second release changes nothing: `OnGlobalTouchUp`, `Clear` and `SetInteractable(false)` are idempotent on the look. */
  lemma UpLookTwice(c: Config, l: Look)
    ensures UpLook(c, UpLook(c, l)) == UpLook(c, l)
  {
  }

  /** A button that is not interactable does not go down, however often it is pressed. */
  lemma DownLookBlocked(c: Config, l: Look)
    requires c.ratio != 0.0
    ensures DownLook(c, false, l) == l
  {
  }

  /** Pressing then releasing leaves the button up, with the pressed requests followed by the released ones. */
  lemma DownThenUp(c: Config, l: Look)
    requires c.ratio != 0.0
    ensures !UpLook(c, DownLook(c, true, l)).down
    ensures UpLook(c, DownLook(c, true, l)).effects == UpLog(c, DownLog(c, l.effects))
  {
  }

  /**
   * The request log after `TweenUpImmediate`, from `log`: the rectangle's
   * tweens are killed when the button scales, the extra scaled parts' always,
   * the darkening is set back at once when the button darkens, and the extra
   * coloured parts' tweens are killed.
   */
  function ImmediateUpLog(c: Config, log: seq<Effect>): seq<Effect> {
    var scaled := (if c.allowScale then log + [Kill(RectPart)] else log) + [Kill(ExtraScalePart)];
    (if c.allowGray then GrayAssignLog(scaled, c.defaultGray) else scaled) + [Kill(ExtraColorsPart)]
  }

  class UIButton {
    /** The behaviour this button extends. */
    const base: UIBehaviour

    const Scale: real
    const Ratio: real
    const Gray: real
    const DefaultGray: real
    var Interactable: bool
    const AllowScale: bool
    var AllowGray: bool
    var IsEnabled: bool

    const ExtraDarken: seq<Image>
    var hasExtraDarkenTween: bool
    const ExtraDarkenText: seq<TextMesh>
    var hasExtraDarkenTextTween: bool
    const ExtraScale: seq<RectTransform>
    var hasExtraScaleTween: bool
    const ExtraColorNormal: Color
    const ExtraColorPressed: Color
    const ExtraColors: seq<Image>
    var hasExtraColorTween: bool

    var ParentGroup: CanvasGroup?
    var HasParentGroup: bool

    var pressed: bool
    var down: bool
    var clicked: bool
    var position: Vec2
    var hiddenPosition: Vec3

    /** The callbacks invoked so far, oldest first. */
    var Fired: seq<Callback>

    /** What the handlers rely on: present handles are set, and `Ratio` can divide. */
    ghost predicate Valid()
      reads this`HasParentGroup, this`ParentGroup, base`HasRect, base`Rect, base`HasImage, base`Image,
            base`HasGroup, base`Group, base`HasText, base`Text
    {
      base.Handles() && Ratio != 0.0 && (HasParentGroup ==> ParentGroup != null)
    }

    /**
     * A new button on `base` with the given inspector settings; the rest takes
     * the serialised defaults.
     */
    constructor (base: UIBehaviour, scale: real, ratio: real, gray: real, defaultGray: real, allowScale: bool,
                 extraDarken: seq<Image>, extraDarkenText: seq<TextMesh>, extraScale: seq<RectTransform>, extraColors: seq<Image>)
      requires base.Handles() && ratio != 0.0
      ensures this.base == base && Valid()
      ensures Scale == scale && Ratio == ratio && Gray == gray && DefaultGray == defaultGray && AllowScale == allowScale
      ensures ExtraDarken == extraDarken && ExtraDarkenText == extraDarkenText && ExtraScale == extraScale && ExtraColors == extraColors
      ensures Interactable && AllowGray && !IsEnabled
      ensures ExtraColorNormal == Color(0.0, 0.0, 0.0, 0.0) && ExtraColorPressed == Color(0.0, 0.0, 0.0, 0.2)
      ensures !pressed && !down && !clicked && !HasParentGroup && Fired == []
      ensures !hasExtraDarkenTween && !hasExtraDarkenTextTween && !hasExtraScaleTween && !hasExtraColorTween
    {
      this.base := base;
      Scale, Ratio, Gray, DefaultGray, AllowScale := scale, ratio, gray, defaultGray, allowScale;
      ExtraDarken, ExtraDarkenText, ExtraScale, ExtraColors := extraDarken, extraDarkenText, extraScale, extraColors;
      ExtraColorNormal := Color(0.0, 0.0, 0.0, 0.0);
      ExtraColorPressed := Color(0.0, 0.0, 0.0, 0.2);
      Interactable, AllowGray, IsEnabled := true, true, false;
      hasExtraDarkenTween, hasExtraDarkenTextTween, hasExtraScaleTween, hasExtraColorTween := false, false, false, false;
      ParentGroup, HasParentGroup := null, false;
      pressed, down, clicked := false, false, false;
      position := Vec2(0.0, 0.0);
      hiddenPosition := Vec3(0.0, 0.0, 0.0);
      Fired := [];
    }

    // ---- what the animations read and change ----

    /** The settings the animations read. */
    function Settings(): Config
      reads this`AllowGray, base`HasRect, base`RectDefault, base`Images, base`Texts, base`Graphics
    {
      Config(AllowScale, AllowGray, Scale, Ratio, Gray * DefaultGray, DefaultGray, ExtraColorNormal, ExtraColorPressed,
             base.HasRect, base.RectDefault.localScale, |ExtraScale| > 0, |ExtraColors| > 0, |ExtraDarken| > 0,
             |ExtraDarkenText| > 0, |base.Images| > 0, |base.Texts| > 0, |base.Graphics| > 0)
    }

    /** The part of the state the animations change. */
    function Current(): Look
      reads this`down, this`hasExtraScaleTween, this`hasExtraColorTween, this`hasExtraDarkenTween, this`hasExtraDarkenTextTween,
            base`hasRectTween, base`hasImagesTween, base`hasTextsTween, base`hasGraphicsTween, base`Effects
    {
      Look(down, hasExtraScaleTween, hasExtraColorTween, hasExtraDarkenTween, hasExtraDarkenTextTween,
           base.hasRectTween, base.hasImagesTween, base.hasTextsTween, base.hasGraphicsTween, base.Effects)
    }

    // ---- the overridden colour operations ----

    method TweenAllGray(value: real)
      modifies base`hasImagesTween, base`hasTextsTween, base`hasGraphicsTween, base`Effects,
               this`hasExtraDarkenTween, this`hasExtraDarkenTextTween
      ensures base.GrayTweenFlags()
      ensures hasExtraDarkenTween == (|ExtraDarken| > 0) && hasExtraDarkenTextTween == (|ExtraDarkenText| > 0)
      ensures base.Effects == GrayTweenLog(old(base.Effects), value)
    {
      base.TweenAllGray(value);
      hasExtraDarkenTween := |ExtraDarken| > 0;
      hasExtraDarkenTextTween := |ExtraDarkenText| > 0;
      base.Effects := base.Effects + [Tween(ExtraDarkenPart, Shade(value)), Tween(ExtraDarkenTextPart, Shade(value))];
    }

    method SetAllGray(value: real)
      modifies base`Effects
      ensures base.Effects == GrayAssignLog(old(base.Effects), value)
    {
      base.SetAllGray(value);
      base.Effects := base.Effects
        + [Kill(ExtraDarkenPart), Assign(ExtraDarkenPart, Goal.Gray(value)), Kill(ExtraDarkenTextPart), Assign(ExtraDarkenTextPart, Goal.Gray(value))];
    }

    // ---- pressing and releasing ----

    // `TweenDown` and `TweenUp` share three steps: the scale, the darkening
    // and the extra colours.

    method AnimateScale(t: RectTween, rectGoal: Goal, extra: Goal)
      requires base.Handles()
      requires base.HasRect ==> RectGoal(t, base.Rect.sizeDelta, base.RectDefault.localScale) == rectGoal
      modifies base`hasRectTween, base`Effects, this`hasExtraScaleTween
      ensures Settings() == old(Settings())
      ensures Current() == ScaleStep(Settings(), old(Current()), rectGoal, extra)
    {
      if AllowScale {
        base.TweenRect(t);
      }
      hasExtraScaleTween := |ExtraScale| > 0;
      base.Effects := base.Effects + [Tween(ExtraScalePart, extra)];
    }

    method AnimateGray(value: real)
      modifies base`hasImagesTween, base`hasTextsTween, base`hasGraphicsTween, base`Effects,
               this`hasExtraDarkenTween, this`hasExtraDarkenTextTween
      ensures Settings() == old(Settings())
      ensures Current() == GrayStep(Settings(), old(Current()), value)
    {
      if AllowGray {
        TweenAllGray(value);
      }
    }

    method AnimateColor(c: Color)
      modifies base`Effects, this`hasExtraColorTween
      ensures Settings() == old(Settings())
      ensures Current() == ColorStep(Settings(), old(Current()), c)
    {
      hasExtraColorTween := |ExtraColors| > 0;
      base.Effects := base.Effects + [Tween(ExtraColorsPart, ColorTo(c))];
    }

    /**
     * The three steps `TweenDown` and `TweenUp` share, with the rectangle's
     * tween `t`, its goal `rectGoal`, the extra parts' scale `extra`, the
     * darkening `gray` and the extra parts' colour `color`.
     */
    method Animate(t: RectTween, rectGoal: Goal, extra: Goal, gray: real, color: Color)
      requires base.Handles()
      requires base.HasRect ==> RectGoal(t, base.Rect.sizeDelta, base.RectDefault.localScale) == rectGoal
      modifies this`hasExtraScaleTween, this`hasExtraColorTween, this`hasExtraDarkenTween,
               this`hasExtraDarkenTextTween, base`hasRectTween, base`hasImagesTween, base`hasTextsTween,
               base`hasGraphicsTween, base`Effects
      ensures Settings() == old(Settings())
      ensures Current() == AnimatedLook(Settings(), old(Current()), AnimationLog(old(base.Effects), AllowScale && base.HasRect, rectGoal, extra,
                                                                     if AllowGray then Some(gray) else None, color))
    {
      AnimateScale(t, rectGoal, extra);
      AnimateGray(gray);
      AnimateColor(color);
      StepsAnimate(Settings(), old(Current()), rectGoal, extra, gray, color);
    }

    /** The pressed animation, with the requests `DownLog` lists. */
    method AnimateDown()
      requires Valid()
      modifies this`hasExtraScaleTween, this`hasExtraColorTween, this`hasExtraDarkenTween,
               this`hasExtraDarkenTextTween, base`hasRectTween, base`hasImagesTween, base`hasTextsTween,
               base`hasGraphicsTween, base`Effects
      ensures Settings() == old(Settings())
      ensures Current() == AnimatedLook(Settings(), old(Current()), DownLog(Settings(), old(base.Effects)))
    {
      var wRatio := 1.0 - (1.0 - Scale) / Ratio;
      Animate(TweenScaleXY(wRatio, Scale, true), Goal.Scale(AxisScale(base.RectDefault.localScale, wRatio, Scale, true)),
              ScalePlane(Vec2(wRatio, Scale)), Gray * DefaultGray, ExtraColorPressed);
    }

    method TweenDown()
      requires Valid()
      modifies this`down, this`hasExtraScaleTween, this`hasExtraColorTween, this`hasExtraDarkenTween,
               this`hasExtraDarkenTextTween, base`hasRectTween, base`hasImagesTween, base`hasTextsTween,
               base`hasGraphicsTween, base`Effects
      ensures Settings() == old(Settings())
      ensures Current() == DownLook(Settings(), Interactable, old(Current()))
    {
      if !Interactable {
        return;
      }
      down := true;
      assert Current() == old(Current()).(down := true);
      AnimateDown();
    }

    /** The released animation, with the requests `UpLog` lists. */
    method AnimateUp()
      requires Valid()
      modifies this`hasExtraScaleTween, this`hasExtraColorTween, this`hasExtraDarkenTween,
               this`hasExtraDarkenTextTween, base`hasRectTween, base`hasImagesTween, base`hasTextsTween,
               base`hasGraphicsTween, base`Effects
      ensures Settings() == old(Settings())
      ensures Current() == AnimatedLook(Settings(), old(Current()), UpLog(Settings(), old(base.Effects)))
    {
      Animate(TweenScale(1.0, true), Goal.Scale(UniformScale(base.RectDefault.localScale, 1.0, true)),
              ScaleAll(1.0), DefaultGray, ExtraColorNormal);
    }

    method TweenUp()
      requires Valid()
      modifies this`down, this`hasExtraScaleTween, this`hasExtraColorTween, this`hasExtraDarkenTween,
               this`hasExtraDarkenTextTween, base`hasRectTween, base`hasImagesTween, base`hasTextsTween,
               base`hasGraphicsTween, base`Effects
      ensures Settings() == old(Settings())
      ensures Current() == UpLook(Settings(), old(Current()))
    {
      if !down {
        return;
      }
      down := false;
      assert Current() == old(Current()).(down := false);
      AnimateUp();
    }

    // ---- input handling ----

    /**
     * Whether the button takes input: its enclosing group, when it has one, is
     * interactable and fully opaque, and the button is interactable with a
     * positive captured `Alpha`.
     */
    function IsInteractable(): (r: bool)
      requires HasParentGroup ==> ParentGroup != null
      reads this, base, ParentGroup
      ensures r ==> Interactable && base.Alpha > 0.0
      ensures HasParentGroup && (!ParentGroup.interactable || ParentGroup.alpha < 1.0) ==> !r
      ensures !HasParentGroup ==> (r <==> Interactable && base.Alpha > 0.0)
      ensures HasParentGroup && ParentGroup.interactable && ParentGroup.alpha >= 1.0 ==> (r <==> Interactable && base.Alpha > 0.0)
    {
      (!HasParentGroup || (ParentGroup.interactable && ParentGroup.alpha >= 1.0)) && Interactable && base.Alpha > 0.0
    }

    method SetInteractable(value: bool)
      requires Valid() && base.Image != null
      modifies this`Interactable, base.Image, this`down, this`hasExtraScaleTween, this`hasExtraColorTween,
               this`hasExtraDarkenTween, this`hasExtraDarkenTextTween, base`hasRectTween, base`hasImagesTween,
               base`hasTextsTween, base`hasGraphicsTween, base`Effects
      ensures Interactable == value
      ensures base.Image.raycastTarget == value && base.Image.color == old(base.Image.color)
      ensures !value ==> Current() == UpLook(Settings(), old(Current()))
      ensures value ==> Current() == old(Current())
    {
      Interactable := value;
      base.Image.raycastTarget := value;
      if !value {
        TweenUp();
      }
    }

    /** The handler subscribed to the global touch-up broadcast. */
    method OnGlobalTouchUp()
      requires Valid()
      modifies this`down, this`hasExtraScaleTween, this`hasExtraColorTween, this`hasExtraDarkenTween,
               this`hasExtraDarkenTextTween, base`hasRectTween, base`hasImagesTween, base`hasTextsTween,
               base`hasGraphicsTween, base`Effects
      ensures Current() == UpLook(Settings(), old(Current()))
      ensures !down
    {
      TweenUp();
    }

    method Clear()
      requires Valid()
      modifies this`down, this`hasExtraScaleTween, this`hasExtraColorTween, this`hasExtraDarkenTween,
               this`hasExtraDarkenTextTween, base`hasRectTween, base`hasImagesTween, base`hasTextsTween,
               base`hasGraphicsTween, base`Effects
      ensures Current() == UpLook(Settings(), old(Current()))
      ensures !down
    {
      TweenUp();
    }

    /** Only a hidden button is shown: it becomes interactable and returns to where `Hide` found it. */
    method Show()
      requires !base.Visible ==> base.Rect != null
      modifies base`Visible, this`Interactable, base.Rect
      ensures base.Visible
      ensures old(base.Visible) ==> Interactable == old(Interactable) && (base.Rect == null || unchanged(base.Rect))
      ensures !old(base.Visible) ==> Interactable && base.Rect.State() == old(base.Rect.State()).(localPosition := hiddenPosition)
    {
      if base.Visible {
        return;
      }
      base.Visible := true;
      Interactable := true;
      base.Rect.localPosition := hiddenPosition;
    }

    /** The rectangle's state after `Hide`: parked far away, and back at unit scale when the button scales. */
    function HiddenRect(st: RectState): (r: RectState)
      reads this, base
      ensures r.position == FarAway && r.localPosition == st.localPosition
      ensures !(AllowScale && base.HasRect) ==> r == st.(position := FarAway)
    {
      var moved := st.(position := FarAway);
      if AllowScale && base.HasRect then Applied(SetScale(1.0, true), moved, base.RectDefault.localScale) else moved
    }

    /**
     * Only a visible button is hidden: it stops taking input, remembers its
     * local position, is moved out of sight and drops its pressed look at once.
     */
    method Hide()
      requires base.Handles() && (base.Visible ==> base.Rect != null)
      modifies base`Visible, this`Interactable, this`hiddenPosition, this`down, base.Rect, base`Effects
      ensures !base.Visible
      ensures !old(base.Visible) ==> Interactable == old(Interactable) && down == old(down)
      ensures !old(base.Visible) ==> hiddenPosition == old(hiddenPosition) && base.Effects == old(base.Effects)
      ensures !old(base.Visible) ==> base.Rect == null || unchanged(base.Rect)
      ensures old(base.Visible) ==> !Interactable && !down && hiddenPosition == old(base.Rect.localPosition)
      ensures old(base.Visible) ==> base.Rect.State() == HiddenRect(old(base.Rect.State()))
      ensures old(base.Visible) ==> base.Effects == if AllowGray then GrayAssignLog(old(base.Effects), DefaultGray) else old(base.Effects)
    {
      if !base.Visible {
        return;
      }
      base.Visible := false;
      Interactable := false;
      hiddenPosition := base.Rect.localPosition;
      base.Rect.position := FarAway;
      down := false;
      if AllowScale {
        base.SetRect(SetScale(1.0, true));
      }
      if AllowGray {
        SetAllGray(DefaultGray);
      }
    }

    /** The pointer bookkeeping. */
    function PointerState(): Pointer
      reads this`pressed, this`clicked, this`Fired
    {
      Pointer(pressed, clicked, Fired)
    }

    /** Invokes `OnClick` when the press gate lets it through; `inheritedAlpha` is the opacity the image inherits. */
    method Press(inheritedAlpha: real)
      modifies this`Fired
      ensures Fired == old(Fired) + if PressGate(Interactable, base.HasImage, inheritedAlpha) then [Clicked] else []
    {
      if !Interactable {
        return;
      }
      if base.HasImage && inheritedAlpha < 0.9999 {
        return;
      }
      Fired := Fired + [Clicked];
    }

    /** A click is taken only from the left button and only when the release has not already counted as one. */
    method OnPointerClick(ev: PointerEvent, inheritedAlpha: real)
      requires Valid()
      modifies this`pressed, this`Fired, this`down, this`hasExtraScaleTween, this`hasExtraColorTween,
               this`hasExtraDarkenTween, this`hasExtraDarkenTextTween, base`hasRectTween, base`hasImagesTween,
               base`hasTextsTween, base`hasGraphicsTween, base`Effects
      ensures PointerState() == PointerClick(old(PointerState()), ev.button == Left, PressGate(Interactable, base.HasImage, inheritedAlpha))
      ensures ev.button != Left || old(clicked) ==> Current() == old(Current())
      ensures ev.button == Left && !old(clicked) ==> Current() == UpLook(Settings(), old(Current()))
    {
      if ev.button != Left || clicked {
        return;
      }
      if pressed {
        Fired := Fired + [Released];
      }
      pressed := false;
      assert Current() == old(Current());
      ghost var released := PointerState();
      TweenUp();
      assert PointerState() == released;
      ghost var up, settings := Current(), Settings();
      Press(inheritedAlpha);
      assert Current() == up && Settings() == settings;
    }

    method OnPointerDown(ev: PointerEvent)
      requires Valid()
      modifies this`position, this`clicked, this`pressed, this`Fired, this`down, this`hasExtraScaleTween,
               this`hasExtraColorTween, this`hasExtraDarkenTween, this`hasExtraDarkenTextTween, base`hasRectTween,
               base`hasImagesTween, base`hasTextsTween, base`hasGraphicsTween, base`Effects
      ensures position == ev.position
      ensures PointerState() == PointerDown(old(PointerState()), ev)
      ensures Current() == DownLook(Settings(), Interactable, old(Current()))
    {
      position := ev.position;
      clicked := false;
      pressed := true;
      Fired := Fired + [Pressed(ev.pointerId, ev.position)];
      TweenDown();
    }

    /**
     * The release: the button always comes up; the pointer bookkeeping
     * changes as `PointerUp` says, with the release tested against the
     * position the pointer went down at.
     */
    method OnPointerUp(ev: Option<PointerEvent>, screen: Vec2, inheritedAlpha: real)
      requires Valid() && screen.x > 0.0 && screen.y > 0.0
      modifies this`pressed, this`clicked, this`Fired, this`down, this`hasExtraScaleTween, this`hasExtraColorTween,
               this`hasExtraDarkenTween, this`hasExtraDarkenTextTween, base`hasRectTween, base`hasImagesTween,
               base`hasTextsTween, base`hasGraphicsTween, base`Effects
      ensures Current() == UpLook(Settings(), old(Current()))
      ensures PointerState() == PointerUp(old(PointerState()), ReleaseQualifies(ev, Interactable, position, screen),
                                          PressGate(Interactable, base.HasImage, inheritedAlpha))
    {
      ghost var before := PointerState();
      TweenUp();
      assert PointerState() == before;
      ghost var up, settings := Current(), Settings();
      FinishRelease(ev, screen, inheritedAlpha);
      assert Current() == up && Settings() == settings;
    }

    /** What `OnPointerUp` does once the button has come up. */
    method FinishRelease(ev: Option<PointerEvent>, screen: Vec2, inheritedAlpha: real)
      requires screen.x > 0.0 && screen.y > 0.0
      modifies this`pressed, this`clicked, this`Fired
      ensures Current() == old(Current())
      ensures PointerState() == PointerUp(old(PointerState()), ReleaseQualifies(ev, Interactable, position, screen),
                                          PressGate(Interactable, base.HasImage, inheritedAlpha))
    {
      ghost var before := PointerState();
      ghost var q := ReleaseQualifies(ev, Interactable, position, screen);
      ghost var g := PressGate(Interactable, base.HasImage, inheritedAlpha);
      ghost var look := Current();
      LatchClick(ev, screen, inheritedAlpha);
      assert Current() == look;
      if pressed {
        Fired := Fired + [Released];
      }
      pressed := false;
      assert Current() == look;
      assert PointerState() == PointerUp(before, q, g) by {
        PointerUpSteps(before, q, g);
      }
    }

    /** The click half of `OnPointerUp`: on a pressed button, a qualifying release latches the click and invokes `OnClick` through the press gate. */
    method LatchClick(ev: Option<PointerEvent>, screen: Vec2, inheritedAlpha: real)
      requires screen.x > 0.0 && screen.y > 0.0
      modifies this`clicked, this`Fired
      ensures clicked == (old(clicked) || (pressed && ReleaseQualifies(ev, Interactable, position, screen)))
      ensures Fired == old(Fired) +
        if pressed && ReleaseQualifies(ev, Interactable, position, screen) && PressGate(Interactable, base.HasImage, inheritedAlpha)
        then [Clicked] else []
    {
      if pressed && ev.Some? && !ev.value.dragging && Interactable {
        if IsClick(position, ev.value.position, screen) {
          clicked := true;
          Press(inheritedAlpha);
        }
      }
    }

    // ---- immediate reset, enabling and life cycle ----

    /**
     * Brings the button up at once: no longer down, the rectangle (when it
     * scales) and every extra scaled part back at unit scale, the extra
     * coloured parts painted with the normal colour, their tweens killed.
     */
    method TweenUpImmediate()
      requires AllowScale ==> base.Rect != null
      modifies this`down, this`hasExtraScaleTween, this`hasExtraColorTween, base`Effects, base.Rect, ExtraScale, ExtraColors
      ensures !down && hasExtraScaleTween == (|ExtraScale| > 0) && hasExtraColorTween == (|ExtraColors| > 0)
      ensures base.Effects == ImmediateUpLog(Settings(), old(base.Effects))
      ensures AllowScale ==> base.Rect.State() == old(base.Rect.State()).(localScale := One)
      ensures forall r :: r in ExtraScale ==> r.State() == old(r.State()).(localScale := One)
      ensures !AllowScale && base.Rect != null && base.Rect !in ExtraScale ==> unchanged(base.Rect)
      ensures forall o :: o in ExtraColors ==> o.color == ExtraColorNormal && o.raycastTarget == old(o.raycastTarget)
    {
      down := false;
      ResetScaleImmediate();
      ResetColorsImmediate();
    }

    /** The scale half of `TweenUpImmediate`. */
    method ResetScaleImmediate()
      requires AllowScale ==> base.Rect != null
      modifies this`hasExtraScaleTween, base`Effects, base.Rect, ExtraScale
      ensures hasExtraScaleTween == (|ExtraScale| > 0)
      ensures base.Effects == (if AllowScale then old(base.Effects) + [Kill(RectPart)] else old(base.Effects)) + [Kill(ExtraScalePart)]
      ensures AllowScale ==> base.Rect.State() == old(base.Rect.State()).(localScale := One)
      ensures forall r :: r in ExtraScale ==> r.State() == old(r.State()).(localScale := One)
      ensures !AllowScale && base.Rect != null && base.Rect !in ExtraScale ==> unchanged(base.Rect)
    {
      if AllowScale {
        base.Effects := base.Effects + [Kill(RectPart)];
        base.Rect.localScale := One;
      }
      hasExtraScaleTween := |ExtraScale| > 0;
      base.Effects := base.Effects + [Kill(ExtraScalePart)];
      ResetScales(ExtraScale);
    }

    /** The colour half of `TweenUpImmediate`. */
    method ResetColorsImmediate()
      modifies this`hasExtraColorTween, base`Effects, ExtraColors
      ensures hasExtraColorTween == (|ExtraColors| > 0)
      ensures base.Effects == (if AllowGray then GrayAssignLog(old(base.Effects), DefaultGray) else old(base.Effects)) + [Kill(ExtraColorsPart)]
      ensures forall o :: o in ExtraColors ==> o.color == ExtraColorNormal && o.raycastTarget == old(o.raycastTarget)
    {
      if AllowGray {
        SetAllGray(DefaultGray);
      }
      hasExtraColorTween := |ExtraColors| > 0;
      base.Effects := base.Effects + [Kill(ExtraColorsPart)];
      PaintImages(ExtraColors, ExtraColorNormal);
    }

    method ClearImmediate()
      requires AllowScale ==> base.Rect != null
      modifies this`down, this`hasExtraScaleTween, this`hasExtraColorTween, base`Effects, base.Rect, ExtraScale, ExtraColors
      ensures !down && hasExtraScaleTween == (|ExtraScale| > 0) && hasExtraColorTween == (|ExtraColors| > 0)
      ensures base.Effects == ImmediateUpLog(Settings(), old(base.Effects))
      ensures AllowScale ==> base.Rect.State() == old(base.Rect.State()).(localScale := One)
      ensures forall r :: r in ExtraScale ==> r.State() == old(r.State()).(localScale := One)
      ensures !AllowScale && base.Rect != null && base.Rect !in ExtraScale ==> unchanged(base.Rect)
      ensures forall o :: o in ExtraColors ==> o.color == ExtraColorNormal && o.raycastTarget == old(o.raycastTarget)
    {
      TweenUpImmediate();
    }

    /** Re-enables darkening and sets every darkened part back to full brightness. */
    method Enable()
      modifies this`IsEnabled, this`AllowGray, base`Effects
      ensures IsEnabled && AllowGray
      ensures base.Effects == GrayAssignLog(old(base.Effects), 1.0)
    {
      IsEnabled := true;
      AllowGray := true;
      SetAllGray(1.0);
    }

    /** Darkens every darkened part to `GrayDisabled` and stops the press animation from darkening. */
    method Disable()
      modifies this`IsEnabled, this`AllowGray, base`Effects
      ensures !IsEnabled && !AllowGray
      ensures base.Effects == GrayAssignLog(old(base.Effects), GrayDisabled)
    {
      IsEnabled := false;
      AllowGray := false;
      SetAllGray(GrayDisabled);
    }

    method SetEnabled(enable: bool)
      modifies this`IsEnabled, this`AllowGray, base`Effects
      ensures IsEnabled == enable && AllowGray == enable
      ensures base.Effects == GrayAssignLog(old(base.Effects), if enable then 1.0 else GrayDisabled)
    {
      if enable {
        Enable();
      } else {
        Disable();
      }
    }

    /** The kill requests for the button's own parts whose flag says a tween was started, in the order issued. */
    function ExtraKillRequests(): (r: seq<Effect>)
      reads this`hasExtraDarkenTween, this`hasExtraDarkenTextTween, this`hasExtraScaleTween, this`hasExtraColorTween
      ensures |r| <= 4 && forall e :: e in r ==> e.Kill?
      ensures Kill(ExtraDarkenPart) in r <==> hasExtraDarkenTween
      ensures Kill(ExtraDarkenTextPart) in r <==> hasExtraDarkenTextTween
      ensures Kill(ExtraScalePart) in r <==> hasExtraScaleTween
      ensures Kill(ExtraColorsPart) in r <==> hasExtraColorTween
    {
      KillIf(hasExtraDarkenTween, ExtraDarkenPart) + KillIf(hasExtraDarkenTextTween, ExtraDarkenTextPart)
      + KillIf(hasExtraScaleTween, ExtraScalePart) + KillIf(hasExtraColorTween, ExtraColorsPart)
    }

    /** The behaviour's kills, then the button's own; every flag is cleared except the behaviour's graphics flag. */
    method KillTweens()
      modifies base`hasGroupTween, base`hasRectTween, base`hasImageTween, base`hasTextTween,
               base`hasImagesTween, base`hasTextsTween, base`Effects,
               this`hasExtraDarkenTween, this`hasExtraDarkenTextTween, this`hasExtraScaleTween, this`hasExtraColorTween
      ensures base.Stopped() && base.hasGraphicsTween == old(base.hasGraphicsTween)
      ensures !hasExtraDarkenTween && !hasExtraDarkenTextTween && !hasExtraScaleTween && !hasExtraColorTween
      ensures base.Effects == old(base.Effects) + old(base.KillRequests()) + old(ExtraKillRequests())
    {
      base.KillTweens();
      base.Effects := base.Effects + ExtraKillRequests();
      hasExtraDarkenTween := false;
      hasExtraDarkenTextTween := false;
      hasExtraScaleTween := false;
      hasExtraColorTween := false;
    }

    /**
     * Enabling: the button is up, back at unit scale when it scales, at its
     * default darkening when it darkens, and subscribed to the touch-up broadcast.
     */
    method OnEnable(global: UIGlobal<UIButton>)
      requires base.Handles()
      modifies this`down, base.Rect, base`Effects, global
      ensures !down
      ensures AllowScale && base.HasRect ==>
        base.Rect.State() == Applied(SetScale(1.0, true), old(base.Rect.State()), base.RectDefault.localScale)
      ensures !(AllowScale && base.HasRect) ==> base.Rect == null || unchanged(base.Rect)
      ensures base.Effects == if AllowGray then GrayAssignLog(old(base.Effects), DefaultGray) else old(base.Effects)
      ensures global.OnTouchUp == old(global.OnTouchUp) + [this]
    {
      down := false;
      if AllowScale {
        base.SetRect(SetScale(1.0, true));
      }
      if AllowGray {
        SetAllGray(DefaultGray);
      }
      global.Subscribe(this);
    }

    /** Disabling: every running tween is killed, then the button unsubscribes. */
    method OnDisable(global: UIGlobal<UIButton>)
      modifies base`hasGroupTween, base`hasRectTween, base`hasImageTween, base`hasTextTween,
               base`hasImagesTween, base`hasTextsTween, base`Effects,
               this`hasExtraDarkenTween, this`hasExtraDarkenTextTween, this`hasExtraScaleTween, this`hasExtraColorTween,
               global
      ensures base.Stopped() && !hasExtraDarkenTween && !hasExtraDarkenTextTween && !hasExtraScaleTween && !hasExtraColorTween
      ensures base.Effects == old(base.Effects) + old(base.KillRequests()) + old(ExtraKillRequests())
      ensures global.OnTouchUp == RemoveLast(old(global.OnTouchUp), this)
    {
      KillTweens();
      global.Unsubscribe(this);
    }

    // ---- choice of the enclosing group ----

    /** The enclosing group is the one `Deepest` picks, or none. */
    ghost predicate Chose(parents: seq<CanvasGroup>, self: GameObject)
      requires forall p :: p in parents ==> Rooted(p.gameObject)
      reads this`ParentGroup, this`HasParentGroup
    {
      var d := Deepest(parents, self);
      HasParentGroup == d.Some? && (if d.Some? then ParentGroup == parents[d.value] else ParentGroup == null)
    }

    /**
     * Walks the enclosing groups `parents` (the button's own object is
     * `self`), counting each one's hops to the root, and keeps the first of
     * the deepest.
     */
    method ChooseParentGroup(parents: seq<CanvasGroup>, self: GameObject)
      requires forall p :: p in parents ==> Rooted(p.gameObject)
      modifies this`ParentGroup, this`HasParentGroup
      ensures Chose(parents, self)
    {
      ParentGroup := null;
      HasParentGroup := false;
      var minChild := -1;
      ghost var chosen: Option<nat> := None;
      for i := 0 to |parents|
        invariant chosen == Deepest(parents[..i], self)
        invariant HasParentGroup == chosen.Some?
        invariant chosen.Some? ==> chosen.value < i && ParentGroup == parents[chosen.value]
        invariant chosen.Some? ==> minChild == Depth(parents[chosen.value].gameObject)
        invariant chosen.None? ==> minChild == -1 && ParentGroup == null
      {
        var p := parents[i];
        assert parents[..i + 1][..i] == parents[..i];
        if p.gameObject == self {
          continue;
        }
        var n := 0;
        var child: GameObject := p.gameObject;
        while child.parent != null
          invariant Rooted(child) && n + Depth(child) == Depth(p.gameObject)
          decreases child.level
        {
          child := child.parent;
          n := n + 1;
        }
        if n > minChild {
          minChild := n;
          ParentGroup := p;
          HasParentGroup := ParentGroup != null;
          chosen := Some(i);
        }
      }
      assert parents[..|parents|] == parents;
    }

    /** The behaviour's lookups, then the choice of the enclosing group. */
    method OnValidate(found: Lookup, parents: seq<CanvasGroup>, self: GameObject)
      requires forall p :: p in parents ==> Rooted(p.gameObject)
      modifies base`Rect, base`HasRect, base`Group, base`HasGroup, base`Image, base`HasImage,
               base`Text, base`HasText, base`Texts, base`Images, base`ImagesColors, base`ImageColor,
               base`RectDefault, base`Alpha, this`ParentGroup, this`HasParentGroup
      ensures base.Valid() && fresh(base.ImagesColors)
      ensures base.Found(found) && base.Cached(found, old(base.ImageColor)) && base.Captured(old(base.RectDefault), old(base.Alpha))
      ensures Chose(parents, self)
    {
      base.OnValidate(found);
      ChooseParentGroup(parents, self);
    }


    // ---- sequences of events ----

    /** Hiding and then showing a visible button puts it back where it was, interactable. */
    method HideThenShow()
      requires base.Handles() && base.Visible && base.Rect != null
      modifies base`Visible, this`Interactable, this`hiddenPosition, this`down, base.Rect, base`Effects
      ensures base.Visible && Interactable && !down
      ensures base.Rect.localPosition == old(base.Rect.localPosition)
    {
      Hide();
      Show();
    }

    /** Enabling and then disabling the button leaves the touch-up subscribers as they were. */
    method EnableThenDisable(global: UIGlobal<UIButton>)
      requires base.Handles()
      modifies this`down, base.Rect, base`hasGroupTween, base`hasRectTween, base`hasImageTween, base`hasTextTween,
               base`hasImagesTween, base`hasTextsTween, base`Effects,
               this`hasExtraDarkenTween, this`hasExtraDarkenTextTween, this`hasExtraScaleTween, this`hasExtraColorTween,
               global
      ensures global.OnTouchUp == old(global.OnTouchUp)
      ensures !down && base.Stopped()
    {
      OnEnable(global);
      OnDisable(global);
      RemoveLastAppended(old(global.OnTouchUp), this);
    }
  }
}
