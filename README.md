# UI button interaction model

A Dafny model of the button state machine of a small Unity UI library, with
the state around it. It has four parts:

- **`Buttons`** (`ui_button.dfy`): the `UIButton` component. Its per-control
  flags `down`, `pressed`, `clicked`, `Interactable`, `IsEnabled` and
  `AllowGray` change only through pointer down, up and click, the global
  touch-up broadcast, `SetInteractable`, `Show`/`Hide`, `Clear`,
  `Enable`/`Disable` and the life-cycle calls. Its rules are modelled and
  proved:
  - the drag-versus-click rule;
  - the `clicked` latch, which allows at most one click per gesture;
  - the press gate on `Interactable` and inherited opacity;
  - the choice of the deepest enclosing canvas group, where the first one
    found wins a tie.
- **`Behaviours`** (`ui_behaviour.dfy`): `UIBehaviour`, the base of every
  component. It holds:
  - the cached handles (rect, image, group, label) and child collections
    (`Images`, `ImagesColors`, `Texts`);
  - the visibility flag;
  - the `_has*Tween` bookkeeping that `KillTweens` reads and clears;
  - the `HasRect` guard of every rectangle operation;
  - the group/image/label priority of the fades.
- **`Globals`** (`ui_global.dfy`): `UIGlobal`, the process-wide coordinator.
  It has:
  - a load-once singleton;
  - a lazily cached camera;
  - the `OnTouchUp` subscriber list, emptied on scene unload;
  - the per-frame scan that broadcasts "touch up".
- **`ColorUtils`** (`color_utils.dfy`): the 24-bit `RGB` packing of a C#
  `int`, modelled on `bv32`.

`Engine` (`engine.dfy`) holds stand-ins for the engine objects the
components touch: rect transforms, images, labels, canvas groups and scene
objects with parent links.

**Modelling conventions.**
- Calls into the tween library and into the colour conversion (`ToGray`) are
  not performed. They are recorded as `Effect`s (`Tween`, `Assign` and
  `Kill` on a `Part`, with the `Goal` the call was given) in the behaviour's
  `Effects` log.
- The button's callbacks (`OnPress`, `OnRelease`, `OnClick`) are recorded in
  its `Fired` log. `OnPress` and `OnRelease` are invoked null-conditionally,
  so a `Pressed` or `Released` entry means "invoked if subscribed": without a
  subscriber the call does nothing. `OnClick` is invoked directly.
- Engine state becomes inputs:
  - component lookups (a `Lookup`);
  - the canvas groups above the button and its own scene object;
  - the pointer event (`None` for a null event);
  - the screen size;
  - the opacity inherited by the image;
  - `Camera.main`;
  - the frame's touch phases;
  - the mouse release and the desktop flag.
- Floats are exact reals.
- `UIButton` extends `UIBehaviour` through a `base` field.
- The pointer bookkeeping of the button and the state its animations change
  have pure specifications: the `Pointer` functions and the `Look`/`Config`
  functions. The handlers are proved against them.
- The library has no global "holding" flag and no hover state; the model
  has neither.

## Model

| member | source | states |
|---|---|---|
| ColorUtils.FromInt | Runtime/Utility/ColorUtils.cs:13-18 | decoding any `int` gives three channels each in 0..255 |
| ColorUtils.ToInt | Runtime/Utility/ColorUtils.cs:20-23 | packing in-range channels gives a value in 0..0xFFFFFF |
| ColorUtils.ToIntFromInt | Runtime/Utility/ColorUtils.cs:13-23 | decode then encode keeps exactly the low 24 bits: `ToInt(RGB(x)) == x & 0xFFFFFF` for every `int` |
| ColorUtils.FromIntToInt | Runtime/Utility/ColorUtils.cs:13-23 | encode then decode returns every colour whose channels are in 0..255 |
| ColorUtils.PackSumIsToInt | Runtime/Utility/ColorUtils.cs:350-351 | the `+`-based packing of the random colour generator equals `ToInt` for in-range channels |
| ColorUtils.PackSumDiffersOutOfRange | Runtime/Utility/ColorUtils.cs:350-351 | out of range the two packings differ (blue 256 carries into green only under `+`) |
| Behaviours.FirstIndex | Runtime/Components/UIBehaviour.cs:98-105 | the slot the `ResetColor` loops stop at: none iff the element is absent, else the first index holding it |
| Behaviours.WriteAtFirst | Runtime/Components/UIBehaviour.cs:96-122 | writing at the first index of a present element changes that entry only and keeps the length |
| Behaviours.AppendIfMissing | Runtime/Components/UIBehaviour.cs:558-562 | the element ends up present, the length grows by one exactly when it was missing, and the old elements keep their order as a prefix |
| Behaviours.UniformScale | Runtime/Components/UIBehaviour.cs:465-471 | both axes get the same magnitude (the reference x magnitude times the factor when relative, the factor otherwise) with z = 1, and each axis keeps the sign of the reference axis |
| Behaviours.Applied | Runtime/Components/UIBehaviour.cs:465-527 | every `SetRect*` overload keeps the positions and pivot; the scale setters change only the scale; `SetScale` writes `UniformScale` of the reference scale and `SetScaleXY` writes `AxisScale` of it; `SetSize` writes both size components, `SetWidth` only the width and `SetHeight` only the height, each keeping the other; the size setters keep the anchored position and the scale; each edge setter moves exactly its own edge (left, right, top, bottom as offsets) to the value and keeps the other three edges and the scale |
| Behaviours.FadePart | Runtime/Components/UIBehaviour.cs:357-449 | the fade target is the group iff there is one, else the image iff there is one, else the label, and none iff none of the three exists |
| Behaviours.Kills | Runtime/Components/UIBehaviour.cs:529-538 | at most seven requests, all kills; each of the seven parts is killed iff its flag is set |
| Behaviours.KillsOrdered | Runtime/Components/UIBehaviour.cs:529-538 | the requests come in the order group, rect, image, text, images, graphics, texts, so no part is stopped twice |
| Behaviours.DefaultsRestore | Runtime/Components/UIBehaviour.cs:636-649 | the captured defaults undo any `SetRect*` call: setting back what it changed (the edge, the size or, on a flat rectangle, the scale) from the defaults captured before it gives the original rectangle |
| Behaviours.SetImagesAlpha | Runtime/Components/UIBehaviour.cs:455-456 | every listed image keeps its colour and takes the new opacity, even when listed twice; only the colour field is written, so raycasting is untouched |
| Behaviours.SetTextsAlpha | Runtime/Components/UIBehaviour.cs:458-459 | every listed label keeps its colour and takes the new opacity; only the colour field is written |
| Behaviours.SetGraphicsAlpha | Runtime/Components/UIBehaviour.cs:461-462 | every listed graphic keeps its colour and takes the new opacity; only the colour field is written |
| Behaviours.ColorsOf | Runtime/Components/UIBehaviour.cs:629-634 | a fresh array as long as the images, holding each image's colour at its index |
| Behaviours.UIBehaviour.constructor | Runtime/Components/UIBehaviour.cs:42-83 | a new component is visible, with no handles, empty collections, no flags set and an empty log |
| Behaviours.UIBehaviour.ResetColors | Runtime/Components/UIBehaviour.cs:85-94 | afterwards every `ImagesColors[i]` equals `Images[i].color`, and `ImageColor` equals the image's colour when there is an image (unchanged otherwise) |
| Behaviours.UIBehaviour.ResetColor | Runtime/Components/UIBehaviour.cs:96-108 | as written: at most the first slot holding the primary `Image` is written, with the argument's colour; `ImageColor` changes only when the argument is the primary image |
| Behaviours.UIBehaviour.ResetColorTo | Runtime/Components/UIBehaviour.cs:110-122 | as written: the given colour goes to the first slot of the primary `Image`; `ImageColor` changes only when the argument is the primary image |
| Behaviours.UIBehaviour.ResetColorOf | Runtime/Components/UIBehaviour.cs:96-108 | corrected: the first slot holding the argument gets its colour, every slot of another image is unchanged, `ImageColor` as in the source |
| Behaviours.UIBehaviour.ResetColorOfTo | Runtime/Components/UIBehaviour.cs:110-122 | corrected: the first slot holding the argument gets the colour, every other image's slot is unchanged |
| Behaviours.UIBehaviour.WriteFirst | Runtime/Components/UIBehaviour.cs:98-105 | the shared search loop writes exactly the slot `FirstIndex` finds, and nothing when the key is absent |
| Behaviours.ResetColorSlotMismatch | Runtime/Components/UIBehaviour.cs:96-122 | with images [A, B] (`imageA`, `imageB`) and primary A, the as-written slot for B is 0 and the intended one is 1, so the results differ |
| Behaviours.UIBehaviour.Show | Runtime/Components/UIBehaviour.cs:125-131 | afterwards the component is visible (a visible one is left as it was) |
| Behaviours.UIBehaviour.Hide | Runtime/Components/UIBehaviour.cs:133-139 | afterwards the component is hidden (a hidden one is left as it was) |
| Behaviours.UIBehaviour.ShowImmediate | Runtime/Components/UIBehaviour.cs:141-144 | sets the visibility flag unconditionally |
| Behaviours.UIBehaviour.HideImmediate | Runtime/Components/UIBehaviour.cs:146-149 | clears the visibility flag unconditionally |
| Behaviours.UIBehaviour.TweenGray | Runtime/Components/UIBehaviour.cs:162-168 | without an image nothing changes; with one the image flag is set and one gray tween on the image is requested |
| Behaviours.UIBehaviour.TweenAllGray | Runtime/Components/UIBehaviour.cs:170-188 | each collection flag is set iff the collection is non-empty; the images, labels and graphics get one gray tween each |
| Behaviours.UIBehaviour.SetGray | Runtime/Components/UIBehaviour.cs:401-406 | one immediate gray on the image when there is one, nothing otherwise |
| Behaviours.UIBehaviour.SetAllGray | Runtime/Components/UIBehaviour.cs:408-430 | each collection has its tweens killed before its colour is set, images then labels then graphics |
| Behaviours.UIBehaviour.SetAllAlpha | Runtime/Components/UIBehaviour.cs:451-463 | every image, label and graphic keeps its colour and takes opacity `value`; only their colour fields are written |
| Behaviours.UIBehaviour.TweenRect | Runtime/Components/UIBehaviour.cs:190-309 | every `TweenRect*` overload does nothing without a rect; with one it sets the rect flag and requests the overload's goal |
| Behaviours.UIBehaviour.SetRect | Runtime/Components/UIBehaviour.cs:465-527 | every `SetRect*` overload leaves the rectangle untouched without `HasRect`; with it the new state is `Applied` to the old |
| Behaviours.UIBehaviour.FadeIn | Runtime/Components/UIBehaviour.cs:357-377 | fades only the `FadePart` target towards `Alpha`, sets only that target's flag, and makes the group interactable when it is the target |
| Behaviours.UIBehaviour.FadeOut | Runtime/Components/UIBehaviour.cs:379-399 | fades only the `FadePart` target towards 0, sets only that target's flag, and makes the group non-interactable when it is the target |
| Behaviours.UIBehaviour.FadeAllIn | Runtime/Components/UIBehaviour.cs:311-332 | with a group it is `FadeIn`: the group fades, becomes interactable and keeps its alpha, and the image, label and collection flags are kept; without one the group, image and label flags are kept, each collection flag is set iff it is non-empty and every collection fades to 1 |
| Behaviours.UIBehaviour.FadeAllOut | Runtime/Components/UIBehaviour.cs:334-355 | with a group it is `FadeOut`: the group fades, becomes non-interactable and keeps its alpha, and the image, label and collection flags are kept; without one the group, image and label flags are kept, each collection flag is set iff it is non-empty and every collection fades to 0 |
| Behaviours.UIBehaviour.SetAlpha | Runtime/Components/UIBehaviour.cs:432-449 | only the first target changes: the group (alpha set, interactable iff alpha > 0), else the image's opacity, else the label's; the other handles are unchanged, and the image's raycasting is never touched |
| Behaviours.UIBehaviour.KillTweens | Runtime/Components/UIBehaviour.cs:529-546 | one kill per part whose flag was set; afterwards six flags are cleared and `hasGraphicsTween` keeps its value |
| Behaviours.UIBehaviour.OnDisable | Runtime/Components/UIBehaviour.cs:549-552 | the same outcome as `KillTweens` |
| Behaviours.UIBehaviour.RefreshTexts | Runtime/Components/UIBehaviour.cs:554-563 | the labels are those found, with the primary label appended only when missing |
| Behaviours.UIBehaviour.ResetComponents | Runtime/Components/UIBehaviour.cs:565-576 | the collections are those found, and `ImagesColors` is a fresh array as long as `Images` holding each image's colour |
| Behaviours.UIBehaviour.FindComponents | Runtime/Components/UIBehaviour.cs:580-602 | each handle is the object's own component, else (image and label) a child's, and each `Has*` flag says whether it was found |
| Behaviours.UIBehaviour.CacheCollections | Runtime/Components/UIBehaviour.cs:604-634 | the primary image and label are appended only when missing, `ImagesColors` matches `Images` slot by slot, `ImageColor` is the image's colour when there is one |
| Behaviours.UIBehaviour.CaptureDefaults | Runtime/Components/UIBehaviour.cs:636-656 | the rect defaults are read off the rect when present, and `Alpha` from the group, else the image, else the label (each kept when its source is absent) |
| Behaviours.UIBehaviour.FindAndCache | Runtime/Components/UIBehaviour.cs:580-634 | the lookups and the cached collections together, with every flagged handle set |
| Behaviours.UIBehaviour.OnValidate | Runtime/Components/UIBehaviour.cs:578-657 | lookups, collections with the primary elements, colours in step with images, and defaults, all as the three parts state |
| Globals.RemoveLast | Runtime/Components/UIGlobal.cs:58 | `-=` removes one subscriber when present (the length drops by one) and changes nothing when absent |
| Globals.RemoveLastAppended | Runtime/Components/UIButton.cs:68-75 | subscribing then unsubscribing the same handler restores the list |
| Globals.RemoveLastAt | Runtime/Components/UIGlobal.cs:58 | `-=` removes the last occurrence of the handler: the result is the list without the entry at `LastIndex`, the subscribers before and after it in their order |
| Globals.RemoveLastMultiset | Runtime/Components/UIGlobal.cs:58 | `-=` removes exactly one occurrence of the handler, and only when it is there |
| Globals.RemoveLastKeepsOthers | Runtime/Components/UIGlobal.cs:58 | every other subscriber keeps all of its occurrences |
| Globals.Broadcasts | Runtime/Components/UIGlobal.cs:113-132 | a frame broadcasts 0, 1 or 2 times; 0 iff no touch ended and there was no desktop mouse release; 2 iff both |
| Globals.UIGlobal.constructor | Runtime/Components/UIGlobal.cs:58 | a new coordinator has no subscribers |
| Globals.UIGlobal.Subscribe | Runtime/Components/UIButton.cs:68 | the handler is appended to the subscribers |
| Globals.UIGlobal.Unsubscribe | Runtime/Components/UIButton.cs:75 | the subscribers lose the last occurrence of the handler |
| Globals.UIGlobal.OnSceneUnloaded | Runtime/Components/UIGlobal.cs:155-160 | the subscriber list is emptied |
| Globals.UIGlobal.Update | Runtime/Components/UIGlobal.cs:98-133 | the loop stops at the first ended touch; the invocation count is `Broadcasts` of the inputs, and 0 without subscribers |
| Globals.UIGlobalStatic.constructor | Runtime/Components/UIGlobal.cs:50-56 | the statics start cleared |
| Globals.UIGlobalStatic.ResetStatic | Runtime/Components/UIGlobal.cs:18-27 | no instance, no cached camera, not initialised |
| Globals.UIGlobalStatic.Load | Runtime/Components/UIGlobal.cs:60-70 | a second call changes nothing; the first after a reset creates a fresh instance with no subscribers and marks the statics initialised |
| Globals.UIGlobalStatic.GetCamera | Runtime/Components/UIGlobal.cs:38-48 | once cached the getter changes nothing and returns the cache; the first call caches and returns `Camera.main` |
| Globals.UIGlobalStatic.OnSceneLoaded | Runtime/Components/UIGlobal.cs:149-153 | the camera is re-resolved and marked cached |
| Globals.UIGlobalStatic.LoadTwice | Runtime/Components/UIGlobal.cs:60-70 | two loads yield one and the same non-null instance, the existing one when already loaded |
| Globals.UIGlobalStatic.CameraTwice | Runtime/Components/UIGlobal.cs:38-48 | two getter calls return the same camera, the first resolved one, even when `Camera.main` changed in between |
| Buttons.ClicksAppend | Runtime/Components/UIButton.cs:140 | the count of `OnClick` invocations is additive over the callback log |
| Buttons.Displacement | Runtime/Components/UIButton.cs:180-183 | the squared screen-normalised displacement is never negative |
| Buttons.ClickIffWithinRadius | Runtime/Components/UIButton.cs:180-183 | the squared test is the source's length test: a click iff the displacement's length is below 0.01 |
| Buttons.NoMovementIsClick | Runtime/Components/UIButton.cs:180-183 | a release where the press started is a click on any screen |
| Buttons.Deepest | Runtime/Components/UIButton.cs:347-368 | none iff every group is on the button's own object; otherwise a group not on it, at least as deep as every such group and strictly deeper than each earlier one, so the first wins a tie |
| Buttons.PointerDown | Runtime/Components/UIButton.cs:156-163 | a press sets `pressed`, releases the latch and appends exactly one callback, `OnPress` with the pointer id and position, to the callbacks fired before; no click is counted |
| Buttons.PointerUp | Runtime/Components/UIButton.cs:171-192 | afterwards not pressed; the latch is set iff it was or a pressed release qualifies; a callback fires iff it was pressed; one click is counted iff pressed, qualifying and gated |
| Buttons.PointerUpLog | Runtime/Components/UIButton.cs:171-192 | the callbacks fired before are kept as a prefix, and `OnRelease` is among the new ones, as the last, exactly when the pointer had gone down |
| Buttons.PointerClick | Runtime/Components/UIButton.cs:143-154 | ignored for a non-left button or with the latch set; otherwise not pressed afterwards and one click is counted iff the gate lets it through |
| Buttons.PointerClickLog | Runtime/Components/UIButton.cs:143-154 | a click past the latch keeps the callbacks fired before as a prefix and fires `OnRelease` first exactly when the pointer was still down |
| Buttons.OneClickPerGesture | Runtime/Components/UIButton.cs:143-192 | down, up, then click fire `OnClick` at most once, whatever the release and gates, and leave the pointer up |
| Buttons.ResetScales | Runtime/Components/UIButton.cs:247-252 | every extra scaled rectangle is at unit scale, with the rest of its state kept |
| Buttons.PaintImages | Runtime/Components/UIButton.cs:256-261 | every extra coloured image has the normal colour, with raycasting untouched |
| Buttons.StepsAnimate | Runtime/Components/UIButton.cs:199-234 | the scale, darkening and colour steps in order give the animated state and log both press and release animations use |
| Buttons.DownLook | Runtime/Components/UIButton.cs:199-216 | a non-interactable press changes nothing; an interactable one goes down with the pressed requests, the rect flag set when it scales and has a rect |
| Buttons.UpLook | Runtime/Components/UIButton.cs:218-234 | afterwards not down; a button that was not down is unchanged; one that was down logs the released requests |
| Buttons.UpLookTwice | Runtime/Components/UIButton.cs:218-222 | a second `TweenUp` changes nothing, so `OnGlobalTouchUp`, `Clear` and `SetInteractable(false)` are idempotent |
| Buttons.DownLookBlocked | Runtime/Components/UIButton.cs:199-201 | pressing a non-interactable button leaves it as it was |
| Buttons.DownThenUp | Runtime/Components/UIButton.cs:199-234 | press then release leaves the button up, with the pressed requests followed by the released ones |
| Buttons.UIButton.constructor | Runtime/Components/UIButton.cs:16-59 | a new button has the serialised defaults: interactable, darkening, not enabled, up, no parent group, no callbacks fired |
| Buttons.UIButton.TweenAllGray | Runtime/Components/UIButton.cs:296-307 | the behaviour's gray tweens, then the extra darkened images and labels, whose flags are set iff non-empty |
| Buttons.UIButton.SetAllGray | Runtime/Components/UIButton.cs:309-324 | the behaviour's immediate gray, then kill-and-set on the extra darkened images and labels |
| Buttons.UIButton.AnimateScale | Runtime/Components/UIButton.cs:205-209 | the scale step of the animations, as `ScaleStep` describes |
| Buttons.UIButton.AnimateGray | Runtime/Components/UIButton.cs:211 | the darkening step, only when the button darkens, as `GrayStep` describes |
| Buttons.UIButton.AnimateColor | Runtime/Components/UIButton.cs:213-215 | the extra colours step, as `ColorStep` describes |
| Buttons.UIButton.Animate | Runtime/Components/UIButton.cs:204-215 | the three steps together give `AnimatedLook` with the log `AnimationLog` lists |
| Buttons.UIButton.AnimateDown | Runtime/Components/UIButton.cs:204-215 | the pressed animation, with the width ratio `1 - (1 - Scale) / Ratio` and the requests `DownLog` lists |
| Buttons.UIButton.TweenDown | Runtime/Components/UIButton.cs:199-216 | the animated state becomes `DownLook`: only an interactable button goes down |
| Buttons.UIButton.AnimateUp | Runtime/Components/UIButton.cs:223-233 | the released animation, with the requests `UpLog` lists |
| Buttons.UIButton.TweenUp | Runtime/Components/UIButton.cs:218-234 | the animated state becomes `UpLook`: nothing unless down, otherwise up with the released requests |
| Buttons.UIButton.IsInteractable | Runtime/Components/UIButton.cs:78-87 | false whenever the enclosing group is non-interactable or not fully opaque; true only when interactable with positive `Alpha`; without a group, or under an interactable and fully opaque group, exactly `Interactable && Alpha > 0` |
| Buttons.UIButton.SetInteractable | Runtime/Components/UIButton.cs:89-94 | the flag and the image's raycasting take the value; turning it off releases the button as `UpLook` says |
| Buttons.UIButton.OnGlobalTouchUp | Runtime/Components/UIButton.cs:96-99 | the button ends up not down, as `UpLook` says |
| Buttons.UIButton.Clear | Runtime/Components/UIButton.cs:264-267 | the button ends up not down, as `UpLook` says |
| Buttons.UIButton.Show | Runtime/Components/UIButton.cs:101-109 | a visible button is unchanged; a hidden one becomes visible and interactable and returns to the position `Hide` saved |
| Buttons.UIButton.HiddenRect | Runtime/Components/UIButton.cs:118-123 | a hidden button is parked far away with its local position kept, and its scale is changed only when it scales and has a rect |
| Buttons.UIButton.Hide | Runtime/Components/UIButton.cs:111-125 | a hidden button is unchanged; a visible one becomes hidden, non-interactable and not down, saves its local position, is parked far away and is set back to its default darkening |
| Buttons.UIButton.Press | Runtime/Components/UIButton.cs:127-141 | `OnClick` fires iff interactable and, with an image, the inherited opacity is at least 0.9999 |
| Buttons.UIButton.OnPointerClick | Runtime/Components/UIButton.cs:143-154 | the pointer state follows `PointerClick`; an ignored click changes nothing else, a taken one releases the button as `UpLook` says |
| Buttons.UIButton.OnPointerDown | Runtime/Components/UIButton.cs:156-164 | remembers the press position, follows `PointerDown`, and presses the button as `DownLook` says |
| Buttons.UIButton.OnPointerUp | Runtime/Components/UIButton.cs:171-192 | the button comes up as `UpLook` says, and the pointer state follows `PointerUp` for the drag-versus-click rule and the press gate |
| Buttons.UIButton.FinishRelease | Runtime/Components/UIButton.cs:175-191 | after the button has come up: the pointer state follows `PointerUp`, nothing else changes |
| Buttons.UIButton.LatchClick | Runtime/Components/UIButton.cs:175-188 | on a pressed button a qualifying release sets the latch and invokes `OnClick` through the press gate; otherwise nothing changes |
| Buttons.UIButton.TweenUpImmediate | Runtime/Components/UIButton.cs:236-262 | not down; the rect (when scaling) and the extra scaled parts at unit scale, only their scale changed; a rect that does not scale is untouched; the extra coloured images painted normal; the requests `ImmediateUpLog` lists |
| Buttons.UIButton.ResetScaleImmediate | Runtime/Components/UIButton.cs:241-252 | kills and resets the rect's scale when scaling and every extra scaled part's, changing nothing else of them; a rect that does not scale is untouched |
| Buttons.UIButton.ResetColorsImmediate | Runtime/Components/UIButton.cs:254-261 | the default darkening when darkening, then every extra coloured image painted normal |
| Buttons.UIButton.ClearImmediate | Runtime/Components/UIButton.cs:269-272 | the same outcome as `TweenUpImmediate`, including the untouched rect of a button that does not scale |
| Buttons.UIButton.Enable | Runtime/Components/UIButton.cs:280-286 | enabled and darkening, every darkened part set to full brightness |
| Buttons.UIButton.Disable | Runtime/Components/UIButton.cs:288-294 | disabled and not darkening, every darkened part set to 0.5 |
| Buttons.UIButton.SetEnabled | Runtime/Components/UIButton.cs:274-278 | `Enable` or `Disable` by the argument |
| Buttons.UIButton.ExtraKillRequests | Runtime/Components/UIButton.cs:330-333 | at most four kills, one per extra part exactly when its flag is set |
| Buttons.UIButton.KillTweens | Runtime/Components/UIButton.cs:326-338 | the behaviour's kills then the button's own; every flag cleared except the behaviour's graphics flag |
| Buttons.UIButton.OnEnable | Runtime/Components/UIButton.cs:61-69 | not down, the rect back at its captured default scale magnitude, signs kept, when scaling, the default darkening when darkening, and subscribed to the touch-up broadcast |
| Buttons.UIButton.OnDisable | Runtime/Components/UIButton.cs:71-76 | every tween killed as `KillTweens` says, then unsubscribed |
| Buttons.UIButton.ChooseParentGroup | Runtime/Components/UIButton.cs:344-368 | the loop counting hops to the root picks the group `Deepest` names, or none |
| Buttons.UIButton.OnValidate | Runtime/Components/UIButton.cs:340-369 | the behaviour's `OnValidate` outcome, then the enclosing group as `Deepest` names it |
| Buttons.UIButton.HideThenShow | Runtime/Components/UIButton.cs:101-125 | hiding then showing a visible button puts it back at its local position, interactable and not down |
| Buttons.UIButton.EnableThenDisable | Runtime/Components/UIButton.cs:61-76 | enabling then disabling leaves the touch-up subscribers as they were, the button up and the behaviour's flags cleared |

## Left out

- The tween library (durations, easing, delays, interpolation over time) is outside the model. Each call is recorded as an `Effect` and its end value is not applied.
- `ToGray` and the HSL/HSV conversions are outside the model. A gray request records only its value.
- The random colour generators of `ColorUtils` are nondeterministic and outside the model. Only their packing expression is modelled.
- Floats are exact reals, so the model has no rounding.
- The `EventSystem` selection at the end of `OnPointerDown` is outside the model.
- `Camera.main`, the screen size and the image's inherited opacity are inputs.
- `OSUtils.IsDesktop` and the input-system polling are inputs: the touch phases and the mouse release of one frame.
- `UIGlobal`'s `LateUpdate`, `Init`, `OnDestroy` and scene registration are outside the model. So are the `Tweens` singleton and its `KillAll`.
- Globals.UIGlobal.Update: returns how many times `OnTouchUp` is invoked. Delivering each broadcast to every subscribed button is not a method. A button's reaction to one broadcast is `Buttons.UIButton.OnGlobalTouchUp`.
- The engine's coupling of a transform's world position and local position is not modelled. `Hide` writes the world position and `Show` the local one, as separate fields.
- Behaviours.Applied: `localPosition`, `position` and `anchoredPosition` are independent fields. The engine derives the local position from the anchored position through the anchors and the parent, which is not modelled, and the anchors are fixed. The offsets are derived from the size, anchored position and pivot, and their setters follow the engine's formulas.
- Behaviours.DefaultsRestore: the scale is restored only for a flat rectangle (scale z = 1), because the scale setters always write z = 1.
- The edge setters (`SetLeft`, `SetRight`, `SetTop`, `SetBottom`) come from an extension library that is not part of this model. They are taken to write the offset of their edge through the engine's `offsetMin`/`offsetMax` setters.
- Buttons.UIButton.constructor: requires `Ratio != 0`, because the pressed width ratio divides by it. The source divides by the serialised value unchecked.
- Buttons.UIButton.OnPointerUp: requires a positive screen width and height, because the normalisation divides by them.
- Buttons.UIButton.TweenUpImmediate: requires a rect when the button scales, because the source dereferences it without checking `HasRect`. The same holds for `ClearImmediate` and `ResetScaleImmediate`.
- Buttons.UIButton.Show: requires a rect for a hidden button, because the source writes `Rect.localPosition` unchecked.
- Buttons.UIButton.Hide: requires a rect for a visible button, because the source reads `Rect.localPosition` unchecked.
- Buttons.UIButton.SetInteractable: requires an image, because the source writes `Image.raycastTarget` unchecked.
- The inspector settings the code never writes (`Scale`, `Ratio`, `Gray`, `DefaultGray`, `AllowScale`, the extra parts and their colours) are constants fixed when the button is created.
- The `Graphics` collection stays empty. The code that filled it is commented out in the source, and every operation on it is still modelled.
- `RectDimension` (the rectangle's `rect`) is not captured by `OnValidate`, because nothing in the core reads it.
- The click-once property is stated on the pure `Pointer` functions (`OneClickPerGesture`). The handlers are proved to follow those functions.
- The `ShowInternal`/`HideInternal` hooks of `UIBehaviour` are empty in the base class and are not modelled.

## Findings

| source | as written | input that shows it | evidently intended | confidence | as-written member | corrected member |
|---|---|---|---|---|---|---|
| Runtime/Components/UIBehaviour.cs:96-122 | both `ResetColor` overloads search `Images` for the primary `Image`, not for the argument `image`, so the argument's colour lands in the primary image's slot | images [A, B] with primary A, `ResetColor(B)`: slot 0 is overwritten with B's colour and slot 1 keeps its stale colour | write the slot of `image` itself | not executed | Behaviours.UIBehaviour.ResetColor, Behaviours.ResetColorSlotMismatch | Behaviours.UIBehaviour.ResetColorOf |
