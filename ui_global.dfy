/**
 * `UIGlobal`, the process-wide coordinator: a lazily created singleton, a
 * cached camera, and the `OnTouchUp` broadcast that buttons subscribe to so
 * that a release anywhere on screen lifts them.
 *
 * The `OnTouchUp` delegate is a sequence of subscribers (`+=` appends, `-=`
 * removes the last occurrence, an empty sequence is the null delegate). The
 * subscriber type is a parameter so that this module does not depend on the
 * buttons; delivering a broadcast to each button is done there.
 */
module Globals {
  import opened Engine

  // ---------------------------------------------------------------------------
  // Delegate arithmetic
  // ---------------------------------------------------------------------------

  /** `d -= h`: the last occurrence of `h` is removed; without one, `d` is unchanged. */
  function RemoveLast<H(==)>(s: seq<H>, h: H): (r: seq<H>)
    ensures h in s ==> |r| == |s| - 1
    ensures h !in s ==> r == s
  {
    if s == [] then []
    else if s[|s| - 1] == h then s[..|s| - 1]
    else RemoveLast(s[..|s| - 1], h) + [s[|s| - 1]]
  }

  /** Subscribing and then unsubscribing the same handler restores the list. */
  lemma RemoveLastAppended<H>(s: seq<H>, h: H)
    ensures RemoveLast(s + [h], h) == s
  {
    assert (s + [h])[..|s|] == s;
  }

  /** Removing drops exactly one occurrence of the handler, and only when it is there. */
  lemma {:induction false} RemoveLastMultiset<H>(s: seq<H>, h: H)
    ensures multiset(RemoveLast(s, h)) == if h in s then multiset(s) - multiset{h} else multiset(s)
  {
    if s == [] {
    } else {
      var init, last := s[..|s| - 1], s[|s| - 1];
      assert s == init + [last];
      if last == h {
      } else {
        RemoveLastMultiset(init, h);
        assert h in s <==> h in init;
      }
    }
  }

  /** The position of the last occurrence of `h`. */
  function LastIndex<H(==)>(s: seq<H>, h: H): (i: nat)
    requires h in s
    ensures i < |s| && s[i] == h && h !in s[i + 1..]
  {
    if s[|s| - 1] == h then |s| - 1
    else
      assert h in s[..|s| - 1] by { var k :| 0 <= k < |s| && s[k] == h; assert s[..|s| - 1][k] == h; }
      var i := LastIndex(s[..|s| - 1], h);
      assert s[i + 1..] == s[..|s| - 1][i + 1..] + [s[|s| - 1]];
      i
  }

  /** The occurrence removed is the last one: the subscribers before and after it keep their order. */
  lemma {:induction false} RemoveLastAt<H>(s: seq<H>, h: H)
    requires h in s
    ensures var i := LastIndex(s, h); RemoveLast(s, h) == s[..i] + s[i + 1..]
  {
    var init, last := s[..|s| - 1], s[|s| - 1];
    if last == h {
      assert LastIndex(s, h) == |s| - 1;
      assert s[|s|..] == [];
    } else {
      assert h in init by { var k :| 0 <= k < |s| && s[k] == h; assert init[k] == h; }
      RemoveLastAt(init, h);
      var i := LastIndex(init, h);
      assert LastIndex(s, h) == i;
      assert RemoveLast(s, h) == RemoveLast(init, h) + [last];
      assert s[..i] == init[..i];
      assert s[i + 1..] == init[i + 1..] + [last];
      assert RemoveLast(s, h) == init[..i] + (init[i + 1..] + [last]);
    }
  }

  /** Every other subscriber keeps all of its occurrences. */
  lemma {:induction false} RemoveLastKeepsOthers<H>(s: seq<H>, h: H, g: H)
    requires g != h
    ensures multiset(RemoveLast(s, h))[g] == multiset(s)[g]
  {
    RemoveLastMultiset(s, h);
  }

  // ---------------------------------------------------------------------------
  // The per-frame scan
  // ---------------------------------------------------------------------------

  /**
   * Broadcasts one frame makes: one if some touch ended (the scan stops at the
   * first), plus one for a mouse release on a desktop platform.
   */
  function Broadcasts(touches: seq<TouchPhase>, mouseReleased: bool, isDesktop: bool): (n: nat)
    ensures n <= 2
    ensures n == 0 <==> Ended !in touches && !(isDesktop && mouseReleased)
    ensures n == 2 <==> Ended in touches && isDesktop && mouseReleased
  {
    (if Ended in touches then 1 else 0) + (if isDesktop && mouseReleased then 1 else 0)
  }

  class UIGlobal<H(==)> {
    /** The `OnTouchUp` delegate: the subscribers in the order they were added. */
    var OnTouchUp: seq<H>

    constructor ()
      ensures OnTouchUp == []
    {
      OnTouchUp := [];
    }

    /** `OnTouchUp += h`. */
    method Subscribe(h: H)
      modifies this
      ensures OnTouchUp == old(OnTouchUp) + [h]
    {
      OnTouchUp := OnTouchUp + [h];
    }

    /** `OnTouchUp -= h`. */
    method Unsubscribe(h: H)
      modifies this
      ensures OnTouchUp == RemoveLast(old(OnTouchUp), h)
    {
      OnTouchUp := RemoveLast(OnTouchUp, h);
    }

    /** Drops every subscriber (the tween library's `KillAll` is not part of this model). */
    method OnSceneUnloaded()
      modifies this
      ensures OnTouchUp == []
    {
      OnTouchUp := [];
    }

    /**
     * One frame of `Update`: the number of times `OnTouchUp` is invoked. The
     * null-conditional invocation makes it zero without subscribers.
     */
    method Update(touches: seq<TouchPhase>, mouseReleased: bool, isDesktop: bool) returns (invocations: nat)
      ensures invocations == if OnTouchUp == [] then 0 else Broadcasts(touches, mouseReleased, isDesktop)
      ensures invocations <= 2
    {
      invocations := 0;
      var i := 0;
      while i < |touches|
        invariant 0 <= i <= |touches|
        invariant Ended !in touches[..i]
        invariant invocations == 0
      {
        if touches[i] == Ended {
          if OnTouchUp != [] {
            invocations := invocations + 1;
          }
          break;
        }
        assert touches[..i + 1] == touches[..i] + [touches[i]];
        i := i + 1;
      }
      if i == |touches| {
        assert touches[..i] == touches;
      }
      if isDesktop && mouseReleased {
        if OnTouchUp != [] {
          invocations := invocations + 1;
        }
      }
    }
  }

  /** The static state of `UIGlobal`. */
  class UIGlobalStatic<H(==)> {
    var Instance: UIGlobal?<H>
    var camera: Camera?
    var hasCamera: bool
    var initialized: bool

    /** Once loaded, there is an instance. */
    ghost predicate Valid()
      reads this
    {
      initialized ==> Instance != null
    }

    /** The state `ResetStatic` leaves. */
    ghost predicate Cleared()
      reads this
    {
      Instance == null && camera == null && !hasCamera && !initialized
    }

    constructor ()
      ensures Cleared() && Valid()
    {
      Instance, camera, hasCamera, initialized := null, null, false, false;
    }

    /** Clears every static; the `Tweens` singleton is not part of this model. */
    method ResetStatic()
      modifies this
      ensures Cleared() && Valid()
    {
      Instance := null;
      camera := null;
      hasCamera := false;
      initialized := false;
    }

    /** Creates the singleton on the first call after a reset; later calls do nothing. */
    method Load()
      requires Valid()
      modifies this
      ensures Valid() && initialized
      ensures old(initialized) ==> unchanged(this)
      ensures !old(initialized) ==> fresh(Instance) && Instance.OnTouchUp == []
      ensures camera == old(camera) && hasCamera == old(hasCamera)
    {
      if initialized {
        return;
      }
      initialized := true;
      Instance := new UIGlobal();
    }

    /** The `Camera` getter; `main` is what `Camera.main` would return now. */
    method GetCamera(main: Camera?) returns (c: Camera?)
      requires Valid()
      modifies this
      ensures Valid()
      ensures hasCamera && c == camera
      ensures old(hasCamera) ==> unchanged(this)
      ensures !old(hasCamera) ==> c == main
      ensures Instance == old(Instance) && initialized == old(initialized)
    {
      if hasCamera {
        return camera;
      }
      hasCamera := true;
      camera := main;
      return camera;
    }

    /** A scene load re-resolves the camera and marks it cached. */
    method OnSceneLoaded(main: Camera?)
      requires Valid()
      modifies this
      ensures Valid()
      ensures hasCamera && camera == main
      ensures Instance == old(Instance) && initialized == old(initialized)
    {
      camera := main;
      hasCamera := true;
    }

    /** Two loads in a row create one instance. */
    method LoadTwice() returns (first: UIGlobal?<H>, second: UIGlobal?<H>)
      requires Valid()
      modifies this
      ensures Valid()
      ensures first == second && first != null
      ensures old(initialized) ==> first == old(Instance)
    {
      Load();
      first := Instance;
      Load();
      second := Instance;
    }

    /** The camera getter, called twice, asks the scene once. */
    method CameraTwice(main: Camera?, later: Camera?) returns (first: Camera?, second: Camera?)
      requires Valid()
      modifies this
      ensures Valid()
      ensures first == second
      ensures !old(hasCamera) ==> first == main
    {
      first := GetCamera(main);
      second := GetCamera(later);
    }
  }
}
