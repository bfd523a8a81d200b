/**
 * Stand-ins for the parts of the game engine and of the tween library that the
 * UI components touch. Nothing here is modelled beyond what the components
 * read or write: the engine's own behaviour (layout, rendering, hit-testing,
 * interpolation over time) is outside the model.
 */
module Engine {

  datatype Option<T> = None | Some(value: T)

  datatype Vec2 = Vec2(x: real, y: real)

  datatype Vec3 = Vec3(x: real, y: real, z: real)

  /** An RGBA colour with float channels, here exact reals. */
  datatype Color = Color(r: real, g: real, b: real, a: real)

  /**
   * A scene object. Only its place in the hierarchy matters here. The parent
   * link is fixed at creation and `level` (ghost) strictly grows from parent
   * to child, so walking up the parents always reaches a root.
   */
  class GameObject {
    const parent: GameObject?
    ghost const level: nat

    constructor (parent: GameObject?)
      requires parent != null ==> Rooted(parent)
      ensures this.parent == parent
      ensures Rooted(this)
    {
      this.parent := parent;
      this.level := if parent == null then 0 else parent.level + 1;
    }
  }

  /** Every object up the parent chain of `o` sits one level above its child. */
  ghost predicate Rooted(o: GameObject)
    decreases o.level
  {
    o.parent == null || (o.parent.level < o.level && Rooted(o.parent))
  }

  /** The number of parent hops from `o` to the root of its hierarchy. */
  ghost function Depth(o: GameObject): nat
    requires Rooted(o)
    decreases o.level
  {
    if o.parent == null then 0 else 1 + Depth(o.parent)
  }

  /**
   * What the components read from and write to a `RectTransform`. The edge
   * offsets are not stored: as in the engine they are derived from the
   * anchored position, the size and the pivot (`OffsetMin`, `OffsetMax`).
   */
  datatype RectState = RectState(
    localPosition: Vec3,
    position: Vec3,
    localScale: Vec3,
    sizeDelta: Vec2,
    anchoredPosition: Vec2,
    pivot: Vec2)

  /** `offsetMin`: the lower-left corner relative to the anchors. */
  function OffsetMin(st: RectState): Vec2 {
    Vec2(st.anchoredPosition.x - st.sizeDelta.x * st.pivot.x,
         st.anchoredPosition.y - st.sizeDelta.y * st.pivot.y)
  }

  /** `offsetMax`: the upper-right corner relative to the anchors. */
  function OffsetMax(st: RectState): Vec2 {
    Vec2(st.anchoredPosition.x + st.sizeDelta.x * (1.0 - st.pivot.x),
         st.anchoredPosition.y + st.sizeDelta.y * (1.0 - st.pivot.y))
  }

  /**
   * The engine's `offsetMin` setter: the size absorbs the move and the
   * anchored position follows, so the lower-left corner lands on `v` and the
   * upper-right corner stays where it was.
   */
  function WithOffsetMin(st: RectState, v: Vec2): (r: RectState)
    ensures OffsetMin(r) == v && OffsetMax(r) == OffsetMax(st)
    ensures r == st.(sizeDelta := r.sizeDelta, anchoredPosition := r.anchoredPosition)
  {
    var ox, oy := v.x - OffsetMin(st).x, v.y - OffsetMin(st).y;
    st.(sizeDelta := Vec2(st.sizeDelta.x - ox, st.sizeDelta.y - oy),
        anchoredPosition := Vec2(st.anchoredPosition.x + ox * (1.0 - st.pivot.x),
                                 st.anchoredPosition.y + oy * (1.0 - st.pivot.y)))
  }

  /** The engine's `offsetMax` setter: the upper-right corner lands on `v`, the lower-left one stays. */
  function WithOffsetMax(st: RectState, v: Vec2): (r: RectState)
    ensures OffsetMax(r) == v && OffsetMin(r) == OffsetMin(st)
    ensures r == st.(sizeDelta := r.sizeDelta, anchoredPosition := r.anchoredPosition)
  {
    var ox, oy := v.x - OffsetMax(st).x, v.y - OffsetMax(st).y;
    st.(sizeDelta := Vec2(st.sizeDelta.x + ox, st.sizeDelta.y + oy),
        anchoredPosition := Vec2(st.anchoredPosition.x + ox * st.pivot.x,
                                 st.anchoredPosition.y + oy * st.pivot.y))
  }

  /**
   * A `RectTransform`. `localPosition`, the world `position` and
   * `anchoredPosition` are separate fields here; the engine's coupling of
   * the three through the parent transform and the anchors is not modelled.
   */
  class RectTransform {
    var localPosition: Vec3
    var position: Vec3
    var localScale: Vec3
    var sizeDelta: Vec2
    var anchoredPosition: Vec2
    var pivot: Vec2

    function State(): RectState
      reads this
    {
      RectState(localPosition, position, localScale, sizeDelta, anchoredPosition, pivot)
    }

    method SetOffsetMin(v: Vec2)
      modifies this
      ensures State() == WithOffsetMin(old(State()), v)
    {
      var st := WithOffsetMin(State(), v);
      sizeDelta := st.sizeDelta;
      anchoredPosition := st.anchoredPosition;
    }

    method SetOffsetMax(v: Vec2)
      modifies this
      ensures State() == WithOffsetMax(old(State()), v)
    {
      var st := WithOffsetMax(State(), v);
      sizeDelta := st.sizeDelta;
      anchoredPosition := st.anchoredPosition;
    }
  }

  /** An `Image`: a coloured surface that may or may not receive pointer events. */
  class Image {
    var color: Color
    var raycastTarget: bool
  }

  /** A text label. */
  class TextMesh {
    var color: Color
  }

  /** Any other drawable (the `Graphics` of a behaviour). */
  class Graphic {
    var color: Color
  }

  /** A `CanvasGroup`: shared opacity and interactability for a subtree. */
  class CanvasGroup {
    const gameObject: GameObject
    var alpha: real
    var interactable: bool

    constructor (gameObject: GameObject, alpha: real, interactable: bool)
      ensures this.gameObject == gameObject && this.alpha == alpha && this.interactable == interactable
    {
      this.gameObject := gameObject;
      this.alpha := alpha;
      this.interactable := interactable;
    }
  }

  class Camera {
  }

  datatype TouchPhase = Began | Moved | Stationary | Ended | Canceled

  datatype InputButton = Left | Right | Middle

  /** The fields of a pointer event that the button reads. */
  datatype PointerEvent = PointerEvent(button: InputButton, pointerId: int, position: Vec2, dragging: bool)

  /** What a recorded request acts on. */
  datatype Part =
    | GroupPart | RectPart | ImagePart | TextPart
    | ImagesPart | TextsPart | GraphicsPart
    | ExtraDarkenPart | ExtraDarkenTextPart | ExtraScalePart | ExtraColorsPart

  /**
   * The end value a request drives its part to. `ScalePlane` and `ScaleAll`
   * are the two-component and single-factor scale overloads of the tween
   * library, recorded with the arguments given. `Gray(v)` is the part's
   * reference colour passed through `ToGray(v)`, opacity kept; `Shade(v)` is
   * the colour (v, v, v), opacity kept.
   */
  datatype Goal =
    | MoveX(x: real) | MoveY(y: real) | Move(to: Vec3)
    | SizeDelta(size: Vec2)
    | LeftEdge(left: real) | RightEdge(right: real) | TopEdge(top: real) | BottomEdge(bottom: real)
    | ScaleX(sx: real) | ScaleY(sy: real) | Scale(scale: Vec3)
    | ScalePlane(plane: Vec2) | ScaleAll(factor: real)
    | Fade(alpha: real)
    | Gray(value: real)
    | Shade(value: real)
    | ColorTo(color: Color)

  /**
   * A call into the tween library or into the colour conversion, recorded
   * instead of performed: `Tween` starts an animation towards the goal,
   * `Assign` sets the end value at once, `Kill` stops the part's running tweens. A request on a collection part
   * stands for the same request on every element, so it touches nothing when
   * the collection is empty.
   */
  datatype Effect =
    | Tween(part: Part, goal: Goal)
    | Assign(part: Part, goal: Goal)
    | Kill(part: Part)
}
