/**
 * `UIBehaviour`, the base of every UI component: cached handles to the
 * component's rectangle, image, canvas group and label, cached child
 * collections with their base colours, a visibility flag, and the
 * `_has*Tween` bookkeeping that tells `KillTweens` what to stop.
 *
 * Component lookups (`GetComponent*`) are inputs (`Lookup`), and calls into
 * the tween library and the colour conversion are recorded in `Effects`.
 */
module Behaviours {
  import opened Engine

  // ---------------------------------------------------------------------------
  // Pure helpers
  // ---------------------------------------------------------------------------

  /** The first index at which `x` occurs in `s`, if any. */
  function FirstIndex<T(==)>(s: seq<T>, x: T): (r: Option<nat>)
    ensures r.None? <==> x !in s
    ensures r.Some? ==> r.value < |s| && s[r.value] == x && x !in s[..r.value]
  {
    if s == [] then None
    else if s[0] == x then Some(0)
    else
      match FirstIndex(s[1..], x)
      case None => None
      case Some(k) =>
        assert s[1..][..k] == s[1..k + 1];
        assert s[..k + 1] == [s[0]] + s[1..k + 1];
        Some(k + 1)
  }

  /** `s` with the entry at `at` replaced by `c`; `s` itself when there is no such entry. */
  function WriteAt<C>(s: seq<C>, at: Option<nat>, c: C): seq<C> {
    if at.Some? && at.value < |s| then s[at.value := c] else s
  }

  /**
   * The `Array.Resize` idiom of `RefreshTexts` and `OnValidate`: `x` is added
   * at the end when it is missing, and nothing else moves.
   */
  function AppendIfMissing<T(==)>(s: seq<T>, x: T): (r: seq<T>)
    ensures |r| == if x in s then |s| else |s| + 1
    ensures x in r
    ensures r[..|s|] == s
  {
    if x in s then s else s + [x]
  }

  function Abs(v: real): real {
    if v < 0.0 then -v else v
  }

  /** -1 for a negative axis, 1 otherwise (`x < 0 ? -1 : 1`). */
  function SignOf(v: real): real {
    if v < 0.0 then -1.0 else 1.0
  }

  /**
   * The uniform scale of `SetRectScale(float)` and `TweenRectScale(float)`:
   * both axes get the same magnitude, taken from the x axis of `reference`
   * when `relative`, and each keeps the sign of its own axis of `reference`.
   */
  function UniformScale(reference: Vec3, scale: real, relative: bool): (r: Vec3)
    ensures r.z == 1.0
    ensures Abs(r.x) == Abs(r.y)
    ensures relative && scale >= 0.0 ==> Abs(r.x) == Abs(reference.x) * scale
    ensures !relative && scale >= 0.0 ==> Abs(r.x) == scale
    ensures (relative ==> reference.x != 0.0) && scale > 0.0 ==>
      (r.x < 0.0 <==> reference.x < 0.0) && (r.y < 0.0 <==> reference.y < 0.0)
  {
    var value := if relative then Abs(reference.x) * scale else scale;
    Vec3(SignOf(reference.x) * value, SignOf(reference.y) * value, 1.0)
  }

  /** The per-axis scale of `SetRectScale(Vector2)` and `TweenRectScale(Vector2)`. */
  function AxisScale(reference: Vec3, sx: real, sy: real, relative: bool): Vec3 {
    Vec3(if relative then reference.x * sx else sx, if relative then reference.y * sy else sy, 1.0)
  }

  /** The fourteen `TweenRect*` overloads, by their arguments (durations and easing left out). */
  datatype RectTween =
    | TweenX(x: real) | TweenY(y: real) | TweenXY(x: real, y: real)
    | TweenWidth(width: real) | TweenHeight(height: real) | TweenSize(width: real, height: real)
    | TweenLeft(left: real) | TweenRight(right: real) | TweenTop(top: real) | TweenBottom(bottom: real)
    | TweenScaleX(scale: real, relative: bool) | TweenScaleY(scale: real, relative: bool)
    | TweenScale(scale: real, relative: bool)
    | TweenScaleXY(sx: real, sy: real, relative: bool)

  /** The goal each `TweenRect*` overload hands to the tween library. */
  function RectGoal(t: RectTween, size: Vec2, reference: Vec3): Goal {
    match t
    case TweenX(x) => MoveX(x)
    case TweenY(y) => MoveY(y)
    case TweenXY(x, y) => Move(Vec3(x, y, 0.0))
    case TweenWidth(w) => SizeDelta(Vec2(w, size.y))
    case TweenHeight(h) => SizeDelta(Vec2(size.x, h))
    case TweenSize(w, h) => SizeDelta(Vec2(w, h))
    case TweenLeft(v) => LeftEdge(v)
    case TweenRight(v) => RightEdge(v)
    case TweenTop(v) => TopEdge(v)
    case TweenBottom(v) => BottomEdge(v)
    case TweenScaleX(s, rel) => ScaleX(if rel then reference.x * s else s)
    case TweenScaleY(s, rel) => ScaleY(if rel then reference.y * s else s)
    case TweenScale(s, rel) => Scale(UniformScale(reference, s, rel))
    case TweenScaleXY(sx, sy, rel) => Scale(AxisScale(reference, sx, sy, rel))
  }

  /** The nine `SetRect*` overloads, by their arguments. */
  datatype RectSet =
    | SetScale(scale: real, relative: bool)
    | SetScaleXY(sx: real, sy: real, relative: bool)
    | SetSize(width: real, height: real) | SetWidth(width: real) | SetHeight(height: real)
    | SetLeft(left: real) | SetRight(right: real) | SetTop(top: real) | SetBottom(bottom: real)

  // The four edges as the edge setters and `OnValidate` see them: the
  // offsets of the corners, with the right and top ones negated.

  function EdgeLeft(st: RectState): real { OffsetMin(st).x }
  function EdgeRight(st: RectState): real { -OffsetMax(st).x }
  function EdgeBottom(st: RectState): real { OffsetMin(st).y }
  function EdgeTop(st: RectState): real { -OffsetMax(st).y }

  /** The edge setters move the edge they name; the scale and size setters move none of the positions. */
  predicate IsEdgeSet(op: RectSet) {
    op.SetLeft? || op.SetRight? || op.SetTop? || op.SetBottom?
  }

  /**
   * The rectangle after a `SetRect*` call. The edge setters come from an
   * extension library; they are taken to write the corner offset of their
   * edge through the engine's `offsetMin`/`offsetMax` setters.
   */
  function Applied(op: RectSet, st: RectState, reference: Vec3): (r: RectState)
    ensures r.localPosition == st.localPosition && r.position == st.position && r.pivot == st.pivot
    ensures !IsEdgeSet(op) ==> r.anchoredPosition == st.anchoredPosition
    ensures op.SetScale? || op.SetScaleXY? ==> r.sizeDelta == st.sizeDelta
    ensures !(op.SetScale? || op.SetScaleXY?) ==> r.localScale == st.localScale
    ensures op.SetScale? ==> r.localScale == UniformScale(reference, op.scale, op.relative)
    ensures op.SetScaleXY? ==> r.localScale == AxisScale(reference, op.sx, op.sy, op.relative)
    ensures op.SetSize? ==> r.sizeDelta == Vec2(op.width, op.height)
    ensures op.SetWidth? ==> r.sizeDelta == Vec2(op.width, st.sizeDelta.y)
    ensures op.SetHeight? ==> r.sizeDelta == Vec2(st.sizeDelta.x, op.height)
    ensures op.SetLeft? ==> EdgeLeft(r) == op.left
    ensures op.SetRight? ==> EdgeRight(r) == op.right
    ensures op.SetTop? ==> EdgeTop(r) == op.top
    ensures op.SetBottom? ==> EdgeBottom(r) == op.bottom
    ensures IsEdgeSet(op) && !op.SetLeft? ==> EdgeLeft(r) == EdgeLeft(st)
    ensures IsEdgeSet(op) && !op.SetRight? ==> EdgeRight(r) == EdgeRight(st)
    ensures IsEdgeSet(op) && !op.SetTop? ==> EdgeTop(r) == EdgeTop(st)
    ensures IsEdgeSet(op) && !op.SetBottom? ==> EdgeBottom(r) == EdgeBottom(st)
  {
    match op
    case SetScale(s, rel) => st.(localScale := UniformScale(reference, s, rel))
    case SetScaleXY(sx, sy, rel) => st.(localScale := AxisScale(reference, sx, sy, rel))
    case SetSize(w, h) => st.(sizeDelta := Vec2(w, h))
    case SetWidth(w) => st.(sizeDelta := Vec2(w, st.sizeDelta.y))
    case SetHeight(h) => st.(sizeDelta := Vec2(st.sizeDelta.x, h))
    case SetLeft(v) => WithOffsetMin(st, Vec2(v, OffsetMin(st).y))
    case SetRight(v) => WithOffsetMax(st, Vec2(-v, OffsetMax(st).y))
    case SetTop(v) => WithOffsetMax(st, Vec2(OffsetMax(st).x, -v))
    case SetBottom(v) => WithOffsetMin(st, Vec2(OffsetMin(st).x, v))
  }

  /** The target `FadeIn`, `FadeOut` and `SetAlpha` act on: the group, else the image, else the label. */
  function FadePart(hasGroup: bool, hasImage: bool, hasText: bool): (r: Option<Part>)
    ensures r.None? <==> !hasGroup && !hasImage && !hasText
    ensures r == Some(GroupPart) <==> hasGroup
    ensures r == Some(ImagePart) <==> !hasGroup && hasImage
    ensures r == Some(TextPart) <==> !hasGroup && !hasImage && hasText
  {
    if hasGroup then Some(GroupPart)
    else if hasImage then Some(ImagePart)
    else if hasText then Some(TextPart)
    else None
  }

  /** A kill request for `part` when `flag` holds, else none. */
  function KillIf(flag: bool, part: Part): (r: seq<Effect>)
    ensures |r| <= 1
    ensures forall e :: e in r ==> e == Kill(part) && flag
    ensures flag ==> Kill(part) in r
  {
    if flag then [Kill(part)] else []
  }

  /** The kill requests for the single components: group, rect, image, text. */
  function ComponentKills(group: bool, rect: bool, image: bool, text: bool): (r: seq<Effect>)
    ensures |r| <= 4
    ensures forall e :: e in r ==>
      (e.Kill? && ((e.part == GroupPart && group) || (e.part == RectPart && rect) || (e.part == ImagePart && image) || (e.part == TextPart && text)))
    ensures group ==> Kill(GroupPart) in r
    ensures rect ==> Kill(RectPart) in r
    ensures image ==> Kill(ImagePart) in r
    ensures text ==> Kill(TextPart) in r
  {
    KillIf(group, GroupPart) + KillIf(rect, RectPart) + KillIf(image, ImagePart) + KillIf(text, TextPart)
  }

  /** The kill requests for the cached collections: images, graphics, texts. */
  function CollectionKills(images: bool, graphics: bool, texts: bool): (r: seq<Effect>)
    ensures |r| <= 3
    ensures forall e :: e in r ==>
      (e.Kill? && ((e.part == ImagesPart && images) || (e.part == GraphicsPart && graphics) || (e.part == TextsPart && texts)))
    ensures images ==> Kill(ImagesPart) in r
    ensures graphics ==> Kill(GraphicsPart) in r
    ensures texts ==> Kill(TextsPart) in r
  {
    KillIf(images, ImagesPart) + KillIf(graphics, GraphicsPart) + KillIf(texts, TextsPart)
  }

  /**
   * The kill requests for the parts whose flag is set, in the order `KillTweens`
   * issues them: group, rect, image, text, images, graphics, texts.
   */
  function Kills(group: bool, rect: bool, image: bool, text: bool, images: bool, graphics: bool, texts: bool): (r: seq<Effect>)
    ensures |r| <= 7
    ensures forall e :: e in r ==> e.Kill?
    ensures Kill(GroupPart) in r <==> group
    ensures Kill(RectPart) in r <==> rect
    ensures Kill(ImagePart) in r <==> image
    ensures Kill(TextPart) in r <==> text
    ensures Kill(ImagesPart) in r <==> images
    ensures Kill(GraphicsPart) in r <==> graphics
    ensures Kill(TextsPart) in r <==> texts
  {
    ComponentKills(group, rect, image, text) + CollectionKills(images, graphics, texts)
  }

  /** The position of a part in the order `KillTweens` stops them. */
  function KillRank(part: Part): nat {
    match part
    case GroupPart => 0
    case RectPart => 1
    case ImagePart => 2
    case TextPart => 3
    case ImagesPart => 4
    case GraphicsPart => 5
    case TextsPart => 6
    case _ => 7
  }

  /** Kill requests only, each part at most once, in `KillTweens` order. */
  predicate OrderedKills(s: seq<Effect>) {
    (forall e :: e in s ==> e.Kill?) &&
    (forall i, j :: 0 <= i < j < |s| ==> KillRank(s[i].part) < KillRank(s[j].part))
  }

  /** Appending a conditional kill for a part later than every part already requested keeps the requests ordered. */
  lemma AppendKillOrdered(s: seq<Effect>, flag: bool, part: Part)
    requires OrderedKills(s)
    requires forall e :: e in s ==> KillRank(e.part) < KillRank(part)
    ensures OrderedKills(s + KillIf(flag, part))
    ensures forall e :: e in s + KillIf(flag, part) ==> KillRank(e.part) <= KillRank(part)
  {
    var t := s + KillIf(flag, part);
    forall i, j | 0 <= i < j < |t|
      ensures KillRank(t[i].part) < KillRank(t[j].part)
    {
      if j >= |s| {
        assert t[i] in s;
      }
    }
  }

  /** Two ordered runs of kills, the second for collection parts only, make one ordered run. */
  lemma ConcatKills(a: seq<Effect>, b: seq<Effect>)
    requires OrderedKills(a) && OrderedKills(b)
    requires forall e :: e in a ==> KillRank(e.part) <= 3
    requires forall e :: e in b ==> 4 <= KillRank(e.part)
    ensures OrderedKills(a + b)
  {
    var t := a + b;
    forall i, j | 0 <= i < j < |t|
      ensures KillRank(t[i].part) < KillRank(t[j].part)
    {
      if i < |a| && j >= |a| {
        assert t[i] in a && t[j] in b;
      } else if i >= |a| {
        assert t[i] == b[i - |a|] && t[j] == b[j - |a|];
      }
    }
  }

  lemma ComponentKillsOrdered(group: bool, rect: bool, image: bool, text: bool)
    ensures OrderedKills(ComponentKills(group, rect, image, text))
  {
    var c1 := KillIf(group, GroupPart);
    var c2 := c1 + KillIf(rect, RectPart);
    var c3 := c2 + KillIf(image, ImagePart);
    AppendKillOrdered([], group, GroupPart);
    assert [] + c1 == c1;
    AppendKillOrdered(c1, rect, RectPart);
    AppendKillOrdered(c2, image, ImagePart);
    AppendKillOrdered(c3, text, TextPart);
  }

  lemma CollectionKillsOrdered(images: bool, graphics: bool, texts: bool)
    ensures OrderedKills(CollectionKills(images, graphics, texts))
  {
    var l1 := KillIf(images, ImagesPart);
    var l2 := l1 + KillIf(graphics, GraphicsPart);
    AppendKillOrdered([], images, ImagesPart);
    assert [] + l1 == l1;
    AppendKillOrdered(l1, graphics, GraphicsPart);
    AppendKillOrdered(l2, texts, TextsPart);
  }

  /** The requests come in `KillTweens` order, so no part is stopped twice. */
  lemma KillsOrdered(group: bool, rect: bool, image: bool, text: bool, images: bool, graphics: bool, texts: bool)
    ensures OrderedKills(Kills(group, rect, image, text, images, graphics, texts))
  {
    ComponentKillsOrdered(group, rect, image, text);
    CollectionKillsOrdered(images, graphics, texts);
    ConcatKills(ComponentKills(group, rect, image, text), CollectionKills(images, graphics, texts));
  }

  /**
   * The rectangle's default values (`RectSize`, `RectLocalPosition`,
   * `RectLocalScale`, `RectAnchoredPosition` and the four edges), kept together.
   */
  datatype RectDefaults = RectDefaults(
    size: Vec2, localPosition: Vec3, localScale: Vec3, anchoredPosition: Vec2,
    left: real, right: real, bottom: real, top: real)

  /** The defaults read off a rectangle: its size, positions, scale and edges. */
  function DefaultsOf(st: RectState): (d: RectDefaults) {
    RectDefaults(st.sizeDelta, st.localPosition, st.localScale, st.anchoredPosition,
                 EdgeLeft(st), EdgeRight(st), EdgeBottom(st), EdgeTop(st))
  }

  /**
   * The `SetRect*` call that puts back what `op` changed, from the captured
   * defaults `d`: the same edge, the whole size, or the two scale axes.
   */
  function Restore(op: RectSet, d: RectDefaults): RectSet {
    match op
    case SetScale(_, _) => SetScaleXY(d.localScale.x, d.localScale.y, false)
    case SetScaleXY(_, _, _) => SetScaleXY(d.localScale.x, d.localScale.y, false)
    case SetSize(_, _) => SetSize(d.size.x, d.size.y)
    case SetWidth(_) => SetSize(d.size.x, d.size.y)
    case SetHeight(_) => SetSize(d.size.x, d.size.y)
    case SetLeft(_) => SetLeft(d.left)
    case SetRight(_) => SetRight(d.right)
    case SetTop(_) => SetTop(d.top)
    case SetBottom(_) => SetBottom(d.bottom)
  }

  /**
   * What the captured defaults are for: after any `SetRect*` call, setting
   * back what it changed from the defaults captured before it gives the
   * original rectangle (for a flat rectangle, scale z = 1, when it is the scale).
   */
  lemma DefaultsRestore(op: RectSet, st: RectState, reference: Vec3)
    requires (op.SetScale? || op.SetScaleXY?) ==> st.localScale.z == 1.0
    ensures Applied(Restore(op, DefaultsOf(st)), Applied(op, st, reference), reference) == st
  {
    var d := DefaultsOf(st);
    var moved := Applied(op, st, reference);
    match op
    case SetLeft(_) =>
      assert OffsetMin(moved).y == OffsetMin(st).y && OffsetMax(moved) == OffsetMax(st);
      OffsetMinBack(st, moved);
    case SetBottom(_) =>
      assert OffsetMin(moved).x == OffsetMin(st).x && OffsetMax(moved) == OffsetMax(st);
      OffsetMinBack(st, moved);
    case SetRight(_) =>
      assert OffsetMax(moved).y == OffsetMax(st).y && OffsetMin(moved) == OffsetMin(st);
      OffsetMaxBack(st, moved);
    case SetTop(_) =>
      assert OffsetMax(moved).x == OffsetMax(st).x && OffsetMin(moved) == OffsetMin(st);
      OffsetMaxBack(st, moved);
    case _ =>
  }

  /** Two rectangles that differ only in size and anchored position and share the upper-right corner are equal once the lower-left one is set back. */
  lemma OffsetMinBack(st: RectState, moved: RectState)
    requires moved == st.(sizeDelta := moved.sizeDelta, anchoredPosition := moved.anchoredPosition)
    requires OffsetMax(moved) == OffsetMax(st)
    ensures WithOffsetMin(moved, OffsetMin(st)) == st
  {
    var r := WithOffsetMin(moved, OffsetMin(st));
    assert OffsetMin(r) == OffsetMin(st) && OffsetMax(r) == OffsetMax(st);
    assert r.pivot == st.pivot;
  }

  /** The same for the upper-right corner. */
  lemma OffsetMaxBack(st: RectState, moved: RectState)
    requires moved == st.(sizeDelta := moved.sizeDelta, anchoredPosition := moved.anchoredPosition)
    requires OffsetMin(moved) == OffsetMin(st)
    ensures WithOffsetMax(moved, OffsetMax(st)) == st
  {
    var r := WithOffsetMax(moved, OffsetMax(st));
    assert OffsetMin(r) == OffsetMin(st) && OffsetMax(r) == OffsetMax(st);
    assert r.pivot == st.pivot;
  }

  /** The results of the component lookups `OnValidate` performs. */
  datatype Lookup = Lookup(
    rect: RectTransform?,          // GetComponent<RectTransform>
    group: CanvasGroup?,           // GetComponent<CanvasGroup>
    image: Image?,                 // GetComponent<Image>
    text: TextMesh?,               // GetComponent<TextMeshUI>
    textInChildren: TextMesh?,     // GetComponentInChildren<TextMeshUI>(true)
    imageInChildren: Image?,       // GetComponentInChildren<Image>(true)
    texts: seq<TextMesh>,          // GetComponentsInChildren<TextMeshUI>(true)
    images: seq<Image>)            // GetComponentsInChildren<Image>(true)

  // The three loops of `SetAllAlpha`. An object listed twice is written twice
  // with the same colour, so every listed object ends with opacity `value`.

  method SetImagesAlpha(images: seq<Image>, value: real)
    modifies images`color
    ensures forall o :: o in images ==> o.color == old(o.color).(a := value)
  {
    for i := 0 to |images|
      invariant forall o :: o in images[..i] ==> o.color == old(o.color).(a := value)
      invariant forall o :: o in images && o !in images[..i] ==> o.color == old(o.color)
    {
      var image := images[i];
      image.color := image.color.(a := value);
      assert images[..i + 1] == images[..i] + [image];
    }
    assert images[..|images|] == images;
  }

  method SetTextsAlpha(texts: seq<TextMesh>, value: real)
    modifies texts`color
    ensures forall o :: o in texts ==> o.color == old(o.color).(a := value)
  {
    for i := 0 to |texts|
      invariant forall o :: o in texts[..i] ==> o.color == old(o.color).(a := value)
      invariant forall o :: o in texts && o !in texts[..i] ==> o.color == old(o.color)
    {
      var text := texts[i];
      text.color := text.color.(a := value);
      assert texts[..i + 1] == texts[..i] + [text];
    }
    assert texts[..|texts|] == texts;
  }

  method SetGraphicsAlpha(graphics: seq<Graphic>, value: real)
    modifies graphics`color
    ensures forall o :: o in graphics ==> o.color == old(o.color).(a := value)
  {
    for i := 0 to |graphics|
      invariant forall o :: o in graphics[..i] ==> o.color == old(o.color).(a := value)
      invariant forall o :: o in graphics && o !in graphics[..i] ==> o.color == old(o.color)
    {
      var graphic := graphics[i];
      graphic.color := graphic.color.(a := value);
      assert graphics[..i + 1] == graphics[..i] + [graphic];
    }
    assert graphics[..|graphics|] == graphics;
  }

  /** The requests `TweenAllGray` makes. */
  function GrayTweens(value: real): seq<Effect> {
    [Tween(ImagesPart, Gray(value)), Tween(TextsPart, Gray(value)), Tween(GraphicsPart, Shade(value))]
  }

  /** The requests `SetAllGray` makes: each collection's tweens are stopped before its colours are set. */
  function GrayAssigns(value: real): seq<Effect> {
    [Kill(ImagesPart), Assign(ImagesPart, Gray(value)),
     Kill(TextsPart), Assign(TextsPart, Gray(value)),
     Kill(GraphicsPart), Assign(GraphicsPart, Shade(value))]
  }

  /** A fresh array holding the colour of each image, in order. */
  method ColorsOf(images: seq<Image>) returns (colors: array<Color>)
    ensures fresh(colors)
    ensures colors.Length == |images|
    ensures forall i :: 0 <= i < |images| ==> colors[i] == images[i].color
  {
    colors := new Color[|images|];
    for i := 0 to |images|
      invariant forall j :: 0 <= j < i ==> colors[j] == images[j].color
    {
      colors[i] := images[i].color;
    }
  }

  // ---------------------------------------------------------------------------
  // The component
  // ---------------------------------------------------------------------------

  class UIBehaviour {
    var Rect: RectTransform?
    var HasRect: bool
    var Image: Image?
    var HasImage: bool
    var ImageColor: Color
    var Group: CanvasGroup?
    var HasGroup: bool
    var Text: TextMesh?
    var HasText: bool

    var Graphics: seq<Graphic>
    var Texts: seq<TextMesh>
    var Images: seq<Image>
    var ImagesColors: array<Color>

    var hasGroupTween: bool
    var hasRectTween: bool
    var hasImageTween: bool
    var hasTextTween: bool
    var hasImagesTween: bool
    var hasGraphicsTween: bool
    var hasTextsTween: bool

    var Visible: bool

    // Default values captured by `OnValidate`.
    var RectDefault: RectDefaults
    var Alpha: real

    /** Requests made to the tween library and the colour conversion, oldest first. */
    var Effects: seq<Effect>

    /**
     * What the code relies on when it dereferences a handle after checking its
     * flag, and when it indexes `ImagesColors` along `Images`.
     */
    ghost predicate Valid()
      reads this
    {
      Handles() && ImagesColors.Length == |Images|
    }

    /** Every handle flagged as present is set. */
    ghost predicate Handles()
      reads this`HasRect, this`Rect, this`HasImage, this`Image, this`HasGroup, this`Group, this`HasText, this`Text
    {
      && (HasRect ==> Rect != null)
      && (HasImage ==> Image != null)
      && (HasGroup ==> Group != null)
      && (HasText ==> Text != null)
    }

    /** A freshly added component: nothing looked up yet, visible. */
    constructor ()
      ensures Valid() && fresh(ImagesColors)
      ensures Visible && !HasRect && !HasImage && !HasGroup && !HasText
      ensures Images == [] && Texts == [] && Graphics == [] && Effects == []
      ensures !hasGroupTween && !hasRectTween && !hasImageTween && !hasTextTween
      ensures !hasImagesTween && !hasGraphicsTween && !hasTextsTween
    {
      Rect, Image, Group, Text := null, null, null, null;
      HasRect, HasImage, HasGroup, HasText := false, false, false, false;
      Graphics, Texts, Images := [], [], [];
      ImagesColors := new Color[0];
      hasGroupTween, hasRectTween, hasImageTween, hasTextTween := false, false, false, false;
      hasImagesTween, hasGraphicsTween, hasTextsTween := false, false, false;
      Visible := true;
      Effects := [];
    }

    // ---- base colours ----

    method ResetColors()
      requires Valid()
      modifies this`ImageColor, ImagesColors
      ensures forall i :: 0 <= i < |Images| ==> ImagesColors[i] == Images[i].color
      ensures HasImage ==> ImageColor == Image.color
      ensures !HasImage ==> ImageColor == old(ImageColor)
    {
      for i := 0 to |Images|
        invariant forall j :: 0 <= j < i ==> ImagesColors[j] == Images[j].color
        invariant ImageColor == old(ImageColor)
      {
        var img := Images[i];
        ImagesColors[i] := img.color;
      }
      if HasImage {
        ImageColor := Image.color;
      }
    }

    /**
     * `ResetColor(Image image)` as written: the loop looks for the primary
     * `Image`, not for `image`, so it stores `image`'s colour in the slot of
     * the primary image (see `ResetColorOf` for the evident intent).
     */
    method ResetColor(image: Image)
      requires Valid()
      modifies this`ImageColor, ImagesColors
      ensures ImagesColors[..] == WriteAt(old(ImagesColors[..]), FirstIndex(Images, Image), image.color)
      ensures ImageColor == if image == Image then image.color else old(ImageColor)
    {
      WriteFirst(Image, image.color);
      if image == Image {
        ImageColor := image.color;
      }
    }

    /** `ResetColor(Image image, Color color)` as written; same slot choice as `ResetColor`. */
    method ResetColorTo(image: Image, color: Color)
      requires Valid()
      modifies this`ImageColor, ImagesColors
      ensures ImagesColors[..] == WriteAt(old(ImagesColors[..]), FirstIndex(Images, Image), color)
      ensures ImageColor == if image == Image then color else old(ImageColor)
    {
      WriteFirst(Image, color);
      if image == Image {
        ImageColor := color;
      }
    }

    /** `ResetColor(image)` as evidently intended: the slot of `image` itself. */
    method ResetColorOf(image: Image)
      requires Valid()
      modifies this`ImageColor, ImagesColors
      ensures ImagesColors[..] == WriteAt(old(ImagesColors[..]), FirstIndex(Images, image), image.color)
      ensures image in Images ==> ImagesColors[FirstIndex(Images, image).value] == image.color
      ensures forall i :: 0 <= i < |Images| && Images[i] != image ==> ImagesColors[i] == old(ImagesColors[i])
      ensures ImageColor == if image == Image then image.color else old(ImageColor)
    {
      WriteFirst(image, image.color);
      if image == Image {
        ImageColor := image.color;
      }
    }

    /** `ResetColor(image, color)` as evidently intended. */
    method ResetColorOfTo(image: Image, color: Color)
      requires Valid()
      modifies this`ImageColor, ImagesColors
      ensures ImagesColors[..] == WriteAt(old(ImagesColors[..]), FirstIndex(Images, image), color)
      ensures image in Images ==> ImagesColors[FirstIndex(Images, image).value] == color
      ensures forall i :: 0 <= i < |Images| && Images[i] != image ==> ImagesColors[i] == old(ImagesColors[i])
      ensures ImageColor == if image == Image then color else old(ImageColor)
    {
      WriteFirst(image, color);
      if image == Image {
        ImageColor := color;
      }
    }

    /** The loop shared by the `ResetColor` overloads: write `c` at the first slot holding `key`. */
    method WriteFirst(key: Engine.Image?, c: Color)
      requires Valid()
      modifies ImagesColors
      ensures ImagesColors[..] == WriteAt(old(ImagesColors[..]), FirstIndex(Images, key), c)
    {
      var i := 0;
      while i < |Images|
        invariant 0 <= i <= |Images|
        invariant key !in Images[..i]
        invariant ImagesColors[..] == old(ImagesColors[..])
      {
        var img := Images[i];
        if img == key {
          ImagesColors[i] := c;
          assert FirstIndex(Images, key) == Some(i);
          return;
        }
        assert Images[..i + 1] == Images[..i] + [img];
        i := i + 1;
      }
      assert Images[..i] == Images;
    }

    // ---- visibility ----

    method Show()
      modifies this`Visible
      ensures Visible
    {
      if Visible {
        return;
      }
      Visible := true;
    }

    method Hide()
      modifies this`Visible
      ensures !Visible
    {
      if !Visible {
        return;
      }
      Visible := false;
    }

    method ShowImmediate()
      modifies this`Visible
      ensures Visible
    {
      Visible := true;
    }

    method HideImmediate()
      modifies this`Visible
      ensures !Visible
    {
      Visible := false;
    }

    // ---- tweens and immediate colour changes ----

    /** The collection flags as `TweenAllGray` leaves them. */
    ghost predicate GrayTweenFlags()
      reads this
    {
      hasImagesTween == (|Images| > 0) && hasTextsTween == (|Texts| > 0) && hasGraphicsTween == (|Graphics| > 0)
    }

    method TweenGray(value: real)
      modifies this`hasImageTween, this`Effects
      ensures !HasImage ==> hasImageTween == old(hasImageTween) && Effects == old(Effects)
      ensures HasImage ==> hasImageTween && Effects == old(Effects) + [Tween(ImagePart, Gray(value))]
    {
      if !HasImage {
        return;
      }
      hasImageTween := true;
      Effects := Effects + [Tween(ImagePart, Gray(value))];
    }

    method TweenAllGray(value: real)
      modifies this`hasImagesTween, this`hasTextsTween, this`hasGraphicsTween, this`Effects
      ensures GrayTweenFlags()
      ensures Effects == old(Effects) + GrayTweens(value)
    {
      hasImagesTween := |Images| > 0;
      hasTextsTween := |Texts| > 0;
      hasGraphicsTween := |Graphics| > 0;
      Effects := Effects + GrayTweens(value);
    }

    method SetGray(value: real)
      modifies this`Effects
      ensures Effects == old(Effects) + if HasImage then [Assign(ImagePart, Gray(value))] else []
    {
      if !HasImage {
        return;
      }
      Effects := Effects + [Assign(ImagePart, Gray(value))];
    }

    method SetAllGray(value: real)
      modifies this`Effects
      ensures Effects == old(Effects) + GrayAssigns(value)
    {
      Effects := Effects + GrayAssigns(value);
    }

    /** Every image, label and graphic keeps its colour and takes opacity `value`. */
    method SetAllAlpha(value: real)
      modifies Images`color, Texts`color, Graphics`color
      ensures forall o :: o in Images ==> o.color == old(o.color).(a := value)
      ensures forall o :: o in Texts ==> o.color == old(o.color).(a := value)
      ensures forall o :: o in Graphics ==> o.color == old(o.color).(a := value)
    {
      SetImagesAlpha(Images, value);
      SetTextsAlpha(Texts, value);
      SetGraphicsAlpha(Graphics, value);
    }

    /** Every `TweenRect*` overload: a no-op without a rectangle. */
    method TweenRect(t: RectTween)
      requires Handles()
      modifies this`hasRectTween, this`Effects
      ensures !HasRect ==> hasRectTween == old(hasRectTween) && Effects == old(Effects)
      ensures HasRect ==> hasRectTween && Effects == old(Effects) + [Tween(RectPart, RectGoal(t, Rect.sizeDelta, RectDefault.localScale))]
    {
      if !HasRect {
        return;
      }
      hasRectTween := true;
      Effects := Effects + [Tween(RectPart, RectGoal(t, Rect.sizeDelta, RectDefault.localScale))];
    }

    /** Every `SetRect*` overload: a no-op without a rectangle. */
    method SetRect(op: RectSet)
      requires Handles()
      modifies Rect
      ensures !HasRect ==> Rect == null || unchanged(Rect)
      ensures HasRect ==> Rect.State() == Applied(op, old(Rect.State()), RectDefault.localScale)
    {
      if !HasRect {
        return;
      }
      var r := Rect;
      match op
      case SetScale(s, rel) => r.localScale := UniformScale(RectDefault.localScale, s, rel);
      case SetScaleXY(sx, sy, rel) => r.localScale := AxisScale(RectDefault.localScale, sx, sy, rel);
      case SetSize(w, h) => r.sizeDelta := Vec2(w, h);
      case SetWidth(w) => r.sizeDelta := Vec2(w, r.sizeDelta.y);
      case SetHeight(h) => r.sizeDelta := Vec2(r.sizeDelta.x, h);
      case SetLeft(v) => r.SetOffsetMin(Vec2(v, OffsetMin(r.State()).y));
      case SetRight(v) => r.SetOffsetMax(Vec2(-v, OffsetMax(r.State()).y));
      case SetTop(v) => r.SetOffsetMax(Vec2(OffsetMax(r.State()).x, -v));
      case SetBottom(v) => r.SetOffsetMin(Vec2(OffsetMin(r.State()).x, v));
    }

    // ---- fades ----

    method FadeIn()
      requires Handles()
      modifies this`hasGroupTween, this`hasImageTween, this`hasTextTween, this`Effects, Group
      ensures FadePart(HasGroup, HasImage, HasText).None? ==> Effects == old(Effects) && hasGroupTween == old(hasGroupTween) && hasImageTween == old(hasImageTween) && hasTextTween == old(hasTextTween)
      ensures HasGroup ==> hasGroupTween && Group.interactable && Group.alpha == old(Group.alpha)
      ensures HasGroup ==> Effects == old(Effects) + [Tween(GroupPart, Fade(Alpha))]
      ensures !HasGroup ==> Group == null || unchanged(Group)
      ensures !HasGroup && HasImage ==> hasImageTween && Effects == old(Effects) + [Tween(ImagePart, Fade(Alpha))]
      ensures !HasGroup && !HasImage && HasText ==> hasTextTween && Effects == old(Effects) + [Tween(TextPart, Fade(Alpha))]
      ensures hasGroupTween == (old(hasGroupTween) || FadePart(HasGroup, HasImage, HasText) == Some(GroupPart))
      ensures hasImageTween == (old(hasImageTween) || FadePart(HasGroup, HasImage, HasText) == Some(ImagePart))
      ensures hasTextTween == (old(hasTextTween) || FadePart(HasGroup, HasImage, HasText) == Some(TextPart))
    {
      if HasGroup {
        hasGroupTween := true;
        Effects := Effects + [Tween(GroupPart, Fade(Alpha))];
        Group.interactable := true;
      } else if HasImage {
        hasImageTween := true;
        Effects := Effects + [Tween(ImagePart, Fade(Alpha))];
      } else if HasText {
        hasTextTween := true;
        Effects := Effects + [Tween(TextPart, Fade(Alpha))];
      }
    }

    method FadeOut()
      requires Handles()
      modifies this`hasGroupTween, this`hasImageTween, this`hasTextTween, this`Effects, Group
      ensures FadePart(HasGroup, HasImage, HasText).None? ==> Effects == old(Effects) && hasGroupTween == old(hasGroupTween) && hasImageTween == old(hasImageTween) && hasTextTween == old(hasTextTween)
      ensures HasGroup ==> hasGroupTween && !Group.interactable && Group.alpha == old(Group.alpha)
      ensures HasGroup ==> Effects == old(Effects) + [Tween(GroupPart, Fade(0.0))]
      ensures !HasGroup ==> Group == null || unchanged(Group)
      ensures !HasGroup && HasImage ==> hasImageTween && Effects == old(Effects) + [Tween(ImagePart, Fade(0.0))]
      ensures !HasGroup && !HasImage && HasText ==> hasTextTween && Effects == old(Effects) + [Tween(TextPart, Fade(0.0))]
      ensures hasGroupTween == (old(hasGroupTween) || FadePart(HasGroup, HasImage, HasText) == Some(GroupPart))
      ensures hasImageTween == (old(hasImageTween) || FadePart(HasGroup, HasImage, HasText) == Some(ImagePart))
      ensures hasTextTween == (old(hasTextTween) || FadePart(HasGroup, HasImage, HasText) == Some(TextPart))
    {
      if HasGroup {
        hasGroupTween := true;
        Effects := Effects + [Tween(GroupPart, Fade(0.0))];
        Group.interactable := false;
      } else if HasImage {
        hasImageTween := true;
        Effects := Effects + [Tween(ImagePart, Fade(0.0))];
      } else if HasText {
        hasTextTween := true;
        Effects := Effects + [Tween(TextPart, Fade(0.0))];
      }
    }

    method FadeAllIn()
      requires Handles()
      modifies this`hasGroupTween, this`hasImageTween, this`hasTextTween, this`hasImagesTween,
               this`hasTextsTween, this`hasGraphicsTween, this`Effects, Group
      ensures HasGroup ==> hasGroupTween && Group.interactable && Effects == old(Effects) + [Tween(GroupPart, Fade(Alpha))]
      ensures HasGroup ==> hasImagesTween == old(hasImagesTween) && hasTextsTween == old(hasTextsTween)
      ensures HasGroup ==> hasGraphicsTween == old(hasGraphicsTween)
      ensures HasGroup ==> hasImageTween == old(hasImageTween) && hasTextTween == old(hasTextTween)
      ensures HasGroup ==> Group.alpha == old(Group.alpha)
      ensures !HasGroup ==> (Group == null || unchanged(Group)) && GrayTweenFlags()
      ensures !HasGroup ==> hasGroupTween == old(hasGroupTween) && hasImageTween == old(hasImageTween)
      ensures !HasGroup ==> hasTextTween == old(hasTextTween)
      ensures !HasGroup ==> Effects == old(Effects) + [Tween(ImagesPart, Fade(1.0)), Tween(TextsPart, Fade(1.0)), Tween(GraphicsPart, Fade(1.0))]
    {
      if HasGroup {
        FadeIn();
        return;
      }
      hasImagesTween := |Images| > 0;
      hasTextsTween := |Texts| > 0;
      hasGraphicsTween := |Graphics| > 0;
      Effects := Effects + [Tween(ImagesPart, Fade(1.0)), Tween(TextsPart, Fade(1.0)), Tween(GraphicsPart, Fade(1.0))];
    }

    method FadeAllOut()
      requires Handles()
      modifies this`hasGroupTween, this`hasImageTween, this`hasTextTween, this`hasImagesTween,
               this`hasTextsTween, this`hasGraphicsTween, this`Effects, Group
      ensures HasGroup ==> hasGroupTween && !Group.interactable && Effects == old(Effects) + [Tween(GroupPart, Fade(0.0))]
      ensures HasGroup ==> hasImagesTween == old(hasImagesTween) && hasTextsTween == old(hasTextsTween)
      ensures HasGroup ==> hasGraphicsTween == old(hasGraphicsTween)
      ensures HasGroup ==> hasImageTween == old(hasImageTween) && hasTextTween == old(hasTextTween)
      ensures HasGroup ==> Group.alpha == old(Group.alpha)
      ensures !HasGroup ==> (Group == null || unchanged(Group)) && GrayTweenFlags()
      ensures !HasGroup ==> hasGroupTween == old(hasGroupTween) && hasImageTween == old(hasImageTween)
      ensures !HasGroup ==> hasTextTween == old(hasTextTween)
      ensures !HasGroup ==> Effects == old(Effects) + [Tween(ImagesPart, Fade(0.0)), Tween(TextsPart, Fade(0.0)), Tween(GraphicsPart, Fade(0.0))]
    {
      if HasGroup {
        FadeOut();
        return;
      }
      hasImagesTween := |Images| > 0;
      hasTextsTween := |Texts| > 0;
      hasGraphicsTween := |Graphics| > 0;
      Effects := Effects + [Tween(ImagesPart, Fade(0.0)), Tween(TextsPart, Fade(0.0)), Tween(GraphicsPart, Fade(0.0))];
    }

    /**
     * Opacity now, on the first fade target only: the group (which also becomes
     * interactable iff `alpha > 0`), else the image, else the label.
     */
    method SetAlpha(alpha: real)
      requires Handles()
      modifies Group, Image, Text
      ensures HasGroup ==> Group.alpha == alpha && Group.interactable == (alpha > 0.0)
      ensures !HasGroup && HasImage ==> Image.color == old(Image.color).(a := alpha)
      ensures !HasGroup && !HasImage && HasText ==> Text.color == old(Text.color).(a := alpha)
      ensures FadePart(HasGroup, HasImage, HasText) != Some(GroupPart) && Group != null ==> unchanged(Group)
      ensures FadePart(HasGroup, HasImage, HasText) != Some(ImagePart) && Image != null ==> unchanged(Image)
      ensures FadePart(HasGroup, HasImage, HasText) != Some(TextPart) && Text != null ==> unchanged(Text)
      ensures Image != null ==> Image.raycastTarget == old(Image.raycastTarget)
    {
      if HasGroup {
        Group.alpha := alpha;
        Group.interactable := alpha > 0.0;
      } else if HasImage {
        Image.color := Image.color.(a := alpha);
      } else if HasText {
        Text.color := Text.color.(a := alpha);
      }
    }

    /** The stop requests `KillTweens` makes: one per part whose flag is set. */
    function KillRequests(): seq<Effect>
      reads this
    {
      Kills(hasGroupTween, hasRectTween, hasImageTween, hasTextTween, hasImagesTween, hasGraphicsTween, hasTextsTween)
    }

    /** The per-part flags `KillTweens` clears: all of them except `hasGraphicsTween`. */
    ghost predicate Stopped()
      reads this
    {
      !hasGroupTween && !hasRectTween && !hasImageTween && !hasTextTween && !hasImagesTween && !hasTextsTween
    }

    /**
     * Stops every tween a flag says was started, and clears the flags, except
     * `hasGraphicsTween`, which the code leaves set.
     */
    method KillTweens()
      modifies this`hasGroupTween, this`hasRectTween, this`hasImageTween, this`hasTextTween,
               this`hasImagesTween, this`hasTextsTween, this`Effects
      ensures Stopped() && hasGraphicsTween == old(hasGraphicsTween)
      ensures Effects == old(Effects) + old(KillRequests())
    {
      Effects := Effects + KillRequests();
      hasGroupTween := false;
      hasRectTween := false;
      hasImageTween := false;
      hasTextTween := false;
      hasImagesTween := false;
      hasTextsTween := false;
    }

    method OnDisable()
      modifies this`hasGroupTween, this`hasRectTween, this`hasImageTween, this`hasTextTween,
               this`hasImagesTween, this`hasTextsTween, this`Effects
      ensures Stopped() && hasGraphicsTween == old(hasGraphicsTween)
      ensures Effects == old(Effects) + old(KillRequests())
    {
      KillTweens();
    }

    // ---- the cached collections ----

    /** `found` is what `GetComponentsInChildren<TextMeshUI>()` returns. */
    method RefreshTexts(found: seq<TextMesh>)
      requires Valid()
      modifies this`Texts
      ensures Valid()
      ensures Texts == if HasText then AppendIfMissing(found, Text) else found
    {
      Texts := found;
      if HasText && Text !in Texts {
        Texts := Texts + [Text];
      }
    }

    method ResetComponents(texts: seq<TextMesh>, images: seq<Image>)
      requires Handles()
      modifies this`Texts, this`Images, this`ImagesColors
      ensures Valid() && fresh(ImagesColors)
      ensures Texts == texts && Images == images
      ensures forall i :: 0 <= i < |Images| ==> ImagesColors[i] == Images[i].color
    {
      Texts := texts;
      Images := images;
      ImagesColors := ColorsOf(Images);
    }

    /** The handles `OnValidate` picks for the lookups `found`: own component first, then a child's. */
    ghost predicate Found(found: Lookup)
      reads this`Rect, this`HasRect, this`Group, this`HasGroup, this`Image, this`HasImage, this`Text, this`HasText
    {
      && Rect == found.rect && HasRect == (found.rect != null)
      && Group == found.group && HasGroup == (found.group != null)
      && Image == (if found.image != null then found.image else found.imageInChildren)
      && HasImage == (Image != null)
      && Text == (if found.text != null then found.text else found.textInChildren)
      && HasText == (Text != null)
    }

    /**
     * The collections `OnValidate` caches: each contains its primary handle,
     * and the colours are current; `ImageColor` is left at `previous` without an image.
     */
    ghost predicate Cached(found: Lookup, previous: Color)
      reads this`Texts, this`Images, this`ImagesColors, this`ImageColor, this`HasText, this`Text, this`HasImage,
            this`Image, ImagesColors, Images, Image
    {
      && Texts == (if HasText then AppendIfMissing(found.texts, Text) else found.texts)
      && Images == (if HasImage then AppendIfMissing(found.images, Image) else found.images)
      && ImagesColors.Length == |Images|
      && (forall i :: 0 <= i < |Images| ==> ImagesColors[i] == Images[i].color)
      && ImageColor == (if HasImage then Image.color else previous)
    }

    /**
     * The defaults `OnValidate` captures from the rectangle and from the first
     * fade target; each is left at its `previous` value when its source is absent.
     */
    ghost predicate Captured(previousRect: RectDefaults, previousAlpha: real)
      reads this, Rect, Group, Image, Text
    {
      && Handles()
      && RectDefault == (if HasRect then DefaultsOf(Rect.State()) else previousRect)
      && Alpha == (if HasGroup then Group.alpha
                   else if HasImage then Image.color.a
                   else if HasText then Text.color.a
                   else previousAlpha)
    }

    method FindComponents(found: Lookup)
      modifies this`Rect, this`HasRect, this`Group, this`HasGroup, this`Image, this`HasImage,
               this`Text, this`HasText
      ensures Found(found)
    {
      Rect := found.rect;
      HasRect := Rect != null;
      Group := found.group;
      HasGroup := Group != null;
      Image := found.image;
      HasImage := Image != null;
      Text := found.text;
      HasText := Text != null;
      if !HasText {
        Text := found.textInChildren;
        HasText := Text != null;
      }
      if !HasImage {
        Image := found.imageInChildren;
        HasImage := Image != null;
      }
    }

    method CacheCollections(found: Lookup)
      requires HasImage ==> Image != null
      requires HasText ==> Text != null
      modifies this`Texts, this`Images, this`ImagesColors, this`ImageColor
      ensures fresh(ImagesColors)
      ensures Cached(found, old(ImageColor))
    {
      Texts := found.texts;
      Images := found.images;
      if HasText && Text !in Texts {
        Texts := Texts + [Text];
      }
      if HasImage && Image !in Images {
        Images := Images + [Image];
      }
      if HasImage {
        ImageColor := Image.color;
      }
      ImagesColors := ColorsOf(Images);
    }

    method CaptureDefaults()
      requires Handles()
      modifies this`RectDefault, this`Alpha
      ensures Captured(old(RectDefault), old(Alpha))
    {
      if HasRect {
        RectDefault := DefaultsOf(Rect.State());
      }
      if HasGroup {
        Alpha := Group.alpha;
      } else if HasImage {
        Alpha := Image.color.a;
      } else if HasText {
        Alpha := Text.color.a;
      }
    }

    /** The lookups and the cached collections of `OnValidate`, before the defaults are captured. */
    method FindAndCache(found: Lookup)
      modifies this`Rect, this`HasRect, this`Group, this`HasGroup, this`Image, this`HasImage,
               this`Text, this`HasText, this`Texts, this`Images, this`ImagesColors, this`ImageColor
      ensures Handles() && fresh(ImagesColors)
      ensures Found(found) && Cached(found, old(ImageColor))
    {
      FindComponents(found);
      CacheCollections(found);
    }

    /** Looks the handles up, caches the collections and their colours, and captures the defaults. */
    method OnValidate(found: Lookup)
      modifies this`Rect, this`HasRect, this`Group, this`HasGroup, this`Image, this`HasImage,
               this`Text, this`HasText, this`Texts, this`Images, this`ImagesColors, this`ImageColor,
               this`RectDefault, this`Alpha
      ensures Valid() && fresh(ImagesColors)
      ensures Found(found) && Cached(found, old(ImageColor)) && Captured(old(RectDefault), old(Alpha))
    {
      FindAndCache(found);
      CaptureDefaults();
    }
  }

  // ---------------------------------------------------------------------------
  // Lemmas
  // ---------------------------------------------------------------------------

  /**
   * The two `ResetColor` loops pick different slots as soon as the image
   * passed in is not the primary one: with images [A, B] and primary A,
   * `ResetColor(B)` writes B's colour into A's slot (index 0), whereas the
   * slot of B is index 1. Images are named by the numbers `imageA` = 1 and
   * `imageB` = 2, their colour slots hold `colorA` = 10 and `colorB` = 20,
   * and `newColor` = 99 is the colour written.
   */
  lemma ResetColorSlotMismatch()
    ensures var imageA, imageB, colorA, colorB, newColor := 1, 2, 10, 20, 99;
      var images, primary := [imageA, imageB], imageA;
      FirstIndex(images, primary) == Some(0) && FirstIndex(images, imageB) == Some(1)
      && WriteAt([colorA, colorB], FirstIndex(images, primary), newColor) == [newColor, colorB]
      && WriteAt([colorA, colorB], FirstIndex(images, imageB), newColor) == [colorA, newColor]
  {
    assert [1, 2][1..] == [2];
  }

  /** `WriteAt` at a found index changes that entry and keeps every other one. */
  lemma WriteAtFirst<T, C>(s: seq<T>, colors: seq<C>, x: T, c: C)
    requires |colors| == |s|
    requires x in s
    ensures var r := WriteAt(colors, FirstIndex(s, x), c);
      |r| == |colors| && r[FirstIndex(s, x).value] == c
      && forall i :: 0 <= i < |s| && i != FirstIndex(s, x).value ==> r[i] == colors[i]
  {
  }
}
