/** The distance grabber of a hand: pointing at distance-grabbable objects,
    targeting the one the pointer ray hits, selecting it, and pulling it,
    either at once into the hand or by launching it towards the palm with a
    short catch assist.  Rays, the line renderer and the flick and pull
    distances are inputs; the objects' trajectory maths is not modelled. */
module DistanceGrab {
  import opened Common
  import Interaction

  type Hand = Interaction.Hand
  type Grabbable = Interaction.Grabbable

  /** The UnityEvents a DistanceGrabbable raises. */
  datatype DistanceEvent = TargetingStarted | TargetingStopped | SelectingStarted | SelectingStopped | Pulled

  /** The UnityEvents the grabber raises. */
  datatype GrabberEvent = PointStarted | PointStopped | TargetStarted | TargetStopped | SelectStarted | SelectStopped | PullStarted

  /** A thrown object the hands may catch, with the radius around it that
      counts as a catch.  A struct: two entries with the same fields are
      equal. */
  datatype CatchAssistData = CatchAssistData(grab: Grabbable, estimatedRadius: real)

  /** The DistanceGrabbable component next to a Grabbable. */
  class DistanceGrabbable {
    const grabbable: Grabbable
    var targetable: bool
    var instantPull: bool
    var ignoreHighlights: bool
    var targetedMaterial: Option<Material>
    var selectedMaterial: Option<Material>
    /** SetTarget has launched the object towards a palm */
    var pullStarted: bool
    var events: seq<DistanceEvent>

    constructor (grabbable: Grabbable)
      ensures this.grabbable == grabbable && targetable && !instantPull && !ignoreHighlights
      ensures targetedMaterial == None && selectedMaterial == None && !pullStarted && events == []
    {
      this.grabbable := grabbable;
      targetable := true;
      instantPull := false;
      ignoreHighlights := false;
      targetedMaterial := None;
      selectedMaterial := None;
      pullStarted := false;
      events := [];
    }
  }

  /** The material Highlight ends up using for a requested material: the
      request, or the grabbable's own highlight material when there is none. */
  function HighlightWith(requested: Option<Material>, g: Grabbable): Option<Material>
    reads g
  {
    if requested.Some? then requested else g.hightlightMaterial
  }

  /** Whether the catch-assist check calls Grab(hit, grab) for entry i of a
      hand that does not hold anything yet, and that call starts GrabObject:
      the hand caught the entry's object (`caughtAt[i]` is where the palm ray
      hit it, when it is within the catch radius and the ray hits that very
      object) and the hand's gate lets the grab through. */
  predicate CatchStarts(hand: Hand, pending: seq<CatchAssistData>, caughtAt: seq<Option<Vec3>>, i: nat)
    requires i < |pending|
    reads hand`grabbing, hand`holdingObj, pending[i].grab, pending[i].grab.body
  {
    i < |caughtAt| && caughtAt[i].Some? && hand.GrabHitStarts(pending[i].grab)
  }

  /** Whether a distance grab of g reaches no wait of GrabObject: the object
      is not being grabbed by another hand, and no hand swap is needed.  The
      coroutine then runs on within the call, so the hand holds g when
      Grab(hit, grab) returns. */
  predicate TakesHoldAtOnce(g: Grabbable)
    reads g
  {
    !g.beingGrabbed && !(g.singleHandOnly && |g.heldBy| > 0)
  }

  /** Whether one of the grabs the check started on these entries has already
      left the hand holding its object. */
  predicate CatchHolds(hand: Hand, pending: seq<CatchAssistData>, caughtAt: seq<Option<Vec3>>)
    reads hand`grabbing, hand`holdingObj, set d | d in pending :: d.grab, set d | d in pending :: d.grab.body
    decreases |pending|
  {
    if pending == [] then false
    else
      var i := |pending| - 1;
      CatchHolds(hand, pending[..i], caughtAt)
      || (CatchStarts(hand, pending, caughtAt, i) && TakesHoldAtOnce(pending[i].grab))
  }

  /** The grabs a catch-assist check starts on a hand, in list order: every
      caught entry the hand's gate lets through, until one grab leaves the
      hand holding its object; from then on the gate refuses the rest. */
  function CatchGrabs(hand: Hand, pending: seq<CatchAssistData>, caughtAt: seq<Option<Vec3>>): seq<Interaction.HandEvent>
    reads hand`grabbing, hand`holdingObj, set d | d in pending :: d.grab, set d | d in pending :: d.grab.body
    decreases |pending|
  {
    if pending == [] then []
    else
      var i := |pending| - 1;
      CatchGrabs(hand, pending[..i], caughtAt)
      + (if !CatchHolds(hand, pending[..i], caughtAt) && CatchStarts(hand, pending, caughtAt, i)
         then [Interaction.GrabObjectStarted(pending[i].grab, caughtAt[i].value, true)] else [])
  }

  /** One more pending entry adds its own grab, if any, at the end. */
  lemma CatchGrabsSnoc(hand: Hand, pending: seq<CatchAssistData>, caughtAt: seq<Option<Vec3>>, i: nat)
    requires i < |pending|
    ensures CatchGrabs(hand, pending[..i + 1], caughtAt) == CatchGrabs(hand, pending[..i], caughtAt)
      + (if !CatchHolds(hand, pending[..i], caughtAt) && CatchStarts(hand, pending, caughtAt, i)
         then [Interaction.GrabObjectStarted(pending[i].grab, caughtAt[i].value, true)] else [])
    ensures CatchHolds(hand, pending[..i + 1], caughtAt) ==
      (CatchHolds(hand, pending[..i], caughtAt) || (CatchStarts(hand, pending, caughtAt, i) && TakesHoldAtOnce(pending[i].grab)))
  {
    assert pending[..i + 1][..i] == pending[..i];
    assert pending[..i + 1][i] == pending[i];
  }

  /** Once the hand holds an object, later entries add no grab. */
  lemma {:induction false} CatchGrabsAfterHold(hand: Hand, pending: seq<CatchAssistData>, caughtAt: seq<Option<Vec3>>, k: nat)
    requires k <= |pending| && CatchHolds(hand, pending[..k], caughtAt)
    ensures CatchHolds(hand, pending, caughtAt)
    ensures CatchGrabs(hand, pending, caughtAt) == CatchGrabs(hand, pending[..k], caughtAt)
    decreases |pending|
  {
    if |pending| > k {
      var q := pending[..|pending| - 1];
      assert q[..k] == pending[..k];
      CatchGrabsAfterHold(hand, q, caughtAt, k);
    } else {
      assert pending[..k] == pending;
    }
  }

  /** The first caught object whose grab takes hold at once is the last one
      grabbed: the check grabs it and nothing after it. */
  lemma CatchGrabsStopAtHold(hand: Hand, pending: seq<CatchAssistData>, caughtAt: seq<Option<Vec3>>, i: nat)
    requires i < |pending| && !CatchHolds(hand, pending[..i], caughtAt)
    requires CatchStarts(hand, pending, caughtAt, i) && TakesHoldAtOnce(pending[i].grab)
    ensures CatchGrabs(hand, pending, caughtAt)
      == CatchGrabs(hand, pending[..i], caughtAt) + [Interaction.GrabObjectStarted(pending[i].grab, caughtAt[i].value, true)]
  {
    CatchGrabsSnoc(hand, pending, caughtAt, i);
    CatchGrabsAfterHold(hand, pending, caughtAt, i + 1);
  }

  /** A catch-assist check grabs only pending objects, at the points where
      they were caught, each as a distance grab. */
  lemma {:induction false} CatchGrabsPending(hand: Hand, pending: seq<CatchAssistData>, caughtAt: seq<Option<Vec3>>)
    ensures |CatchGrabs(hand, pending, caughtAt)| <= |pending|
    ensures forall e :: e in CatchGrabs(hand, pending, caughtAt) ==>
      e.GrabObjectStarted? && e.distanceGrab
      && exists i :: 0 <= i < |pending| && i < |caughtAt| && pending[i].grab == e.grab && caughtAt[i] == Some(e.point)
    decreases |pending|
  {
    if pending != [] {
      var i := |pending| - 1;
      CatchGrabsPending(hand, pending[..i], caughtAt);
      forall e | e in CatchGrabs(hand, pending[..i], caughtAt)
        ensures exists j :: 0 <= j < |pending| && j < |caughtAt| && pending[j].grab == e.grab && caughtAt[j] == Some(e.point)
      {
        var j :| 0 <= j < |pending[..i]| && j < |caughtAt| && pending[..i][j].grab == e.grab && caughtAt[j] == Some(e.point);
        assert pending[j] == pending[..i][j];
      }
    }
  }

  class HandDistanceGrabber {
    const primaryHand: Hand
    var useInstantPull: bool
    var useFlickPull: bool
    var flickThreshold: real
    var pullGrabDistance: real
    var catchAssistRadius: real
    var defaultTargetedMaterial: Option<Material>
    var defaultSelectedMaterial: Option<Material>

    var catchAssisted: seq<CatchAssistData>
    var target: DistanceGrabbable?
    var selecting: DistanceGrabbable?
    var pointing: bool
    var pulling: bool
    /** hit.point: where the pointer ray last hit */
    var hitPoint: Vec3
    /** selectionHit.point: where the selected object was hit */
    var selectionPoint: Vec3
    var startLookAssist: real
    var lastInstantPull: bool
    var events: seq<GrabberEvent>

    /** Something is being pulled exactly while an object is selected. */
    ghost predicate Valid()
      reads this
    {
      pulling <==> selecting != null
    }

    /** The inspector defaults followed by Start: no catch assist is pending
        and the hand's look-assist speed is remembered. */
    constructor (primaryHand: Hand, defaultTargetedMaterial: Option<Material>, defaultSelectedMaterial: Option<Material>)
      ensures Valid() && this.primaryHand == primaryHand
      ensures !useInstantPull && !useFlickPull && flickThreshold == 7.0 && pullGrabDistance == 0.1 && catchAssistRadius == 0.2
      ensures this.defaultTargetedMaterial == defaultTargetedMaterial && this.defaultSelectedMaterial == defaultSelectedMaterial
      ensures catchAssisted == [] && target == null && selecting == null && !pointing && !pulling
      ensures startLookAssist == primaryHand.lookAssistSpeed && !lastInstantPull && events == []
    {
      this.primaryHand := primaryHand;
      useInstantPull := false;
      useFlickPull := false;
      flickThreshold := 7.0;
      pullGrabDistance := 0.1;
      catchAssistRadius := 0.2;
      this.defaultTargetedMaterial := defaultTargetedMaterial;
      this.defaultSelectedMaterial := defaultSelectedMaterial;
      catchAssisted := [];
      target := null;
      selecting := null;
      pointing := false;
      pulling := false;
      hitPoint := Zero;
      selectionPoint := Zero;
      startLookAssist := primaryHand.lookAssistSpeed;
      lastInstantPull := false;
      events := [];
    }

    /** The targeted object and its grabbable, as a frame. */
    ghost function TargetFrame(): set<object>
      reads this
    {
      if target == null then {} else {target, target.grabbable}
    }

    /** The selected object and its grabbable, as a frame. */
    ghost function SelectFrame(): set<object>
      reads this
    {
      if selecting == null then {} else {selecting, selecting.grabbable}
    }

    /** The highlight material while an object is selected: none when the
        object ignores highlights, else its own selected material, else the
        grabber's default. */
    function GetSelectedMaterial(g: DistanceGrabbable): (m: Option<Material>)
      reads this, g
      ensures g.ignoreHighlights ==> m == None
      ensures !g.ignoreHighlights && g.selectedMaterial.Some? ==> m == g.selectedMaterial
      ensures !g.ignoreHighlights && g.selectedMaterial.None? ==> m == defaultSelectedMaterial
    {
      if g.ignoreHighlights then None
      else if g.selectedMaterial.Some? then g.selectedMaterial else defaultSelectedMaterial
    }

    /** The targeted-material getter as the source writes it: it tests the
        object's selected material but returns its targeted one. */
    function GetTargetedMaterialAsWritten(g: DistanceGrabbable): (m: Option<Material>)
      reads this, g
      ensures g.ignoreHighlights ==> m == None
      ensures !g.ignoreHighlights && g.selectedMaterial.Some? ==> m == g.targetedMaterial
      ensures !g.ignoreHighlights && g.selectedMaterial.None? ==> m == defaultTargetedMaterial
    {
      if g.ignoreHighlights then None
      else if g.selectedMaterial.Some? then g.targetedMaterial else defaultTargetedMaterial
    }

    /** The highlight material while an object is targeted, the way
        GetSelectedMaterial chooses the selected one: none when the object
        ignores highlights, else its own targeted material, else the
        grabber's default. */
    function GetTargetedMaterial(g: DistanceGrabbable): (m: Option<Material>)
      reads this, g
      ensures g.ignoreHighlights ==> m == None
      ensures !g.ignoreHighlights && g.targetedMaterial.Some? ==> m == g.targetedMaterial
      ensures !g.ignoreHighlights && g.targetedMaterial.None? ==> m == defaultTargetedMaterial
    {
      if g.ignoreHighlights then None
      else if g.targetedMaterial.Some? then g.targetedMaterial else defaultTargetedMaterial
    }

    /** The two targeted getters differ exactly when highlights are on and
        only one of the object's two materials is set, and the one the
        written getter returns is not the one the other returns. */
    lemma TargetedMaterialDiscrepancy(g: DistanceGrabbable)
      ensures GetTargetedMaterialAsWritten(g) != GetTargetedMaterial(g) <==>
        !g.ignoreHighlights
        && ((g.selectedMaterial.Some? && g.targetedMaterial.None? && defaultTargetedMaterial.Some?)
            || (g.selectedMaterial.None? && g.targetedMaterial.Some? && defaultTargetedMaterial != g.targetedMaterial))
    {
    }

    /** An object with a targeted material but no selected material is
        highlighted with the grabber's default while targeted. */
    lemma AsWrittenIgnoresTargetedMaterial(g: DistanceGrabbable, m: Material)
      requires !g.ignoreHighlights && g.selectedMaterial == None && g.targetedMaterial == Some(m)
      requires defaultTargetedMaterial != Some(m)
      ensures GetTargetedMaterialAsWritten(g) == defaultTargetedMaterial
      ensures GetTargetedMaterial(g) == Some(m) != GetTargetedMaterialAsWritten(g)
    {
    }

    /** Instant pull on; the flick and distance settings follow on the next
        Update. */
    method SetInstantPull()
      modifies this`useInstantPull
      ensures useInstantPull
    {
      useInstantPull := true;
    }

    /** Pull by moving the hand back by `distance`. */
    method SetPull(distance: real)
      modifies this`useInstantPull, this`useFlickPull, this`pullGrabDistance
      ensures !useInstantPull && !useFlickPull && pullGrabDistance == distance
    {
      useInstantPull := false;
      useFlickPull := false;
      pullGrabDistance := distance;
    }

    /** Pull by flicking the hand faster than `threshold`. */
    method SetFlickPull(threshold: real)
      modifies this`useInstantPull, this`useFlickPull, this`flickThreshold
      ensures !useInstantPull && useFlickPull && flickThreshold == threshold
    {
      useInstantPull := false;
      useFlickPull := true;
      flickThreshold := threshold;
    }

    /** Pointing starts and the hand's look assist is switched off. */
    method StartPointing()
      modifies this`pointing, this`events, primaryHand`lookAssistSpeed
      ensures pointing && primaryHand.lookAssistSpeed == 0.0
      ensures events == old(events) + [PointStarted]
    {
      pointing := true;
      primaryHand.lookAssistSpeed := 0.0;
      events := events + [PointStarted];
    }

    /** Pointing stops, the look assist comes back, and the target is
        dropped. */
    method StopPointing()
      modifies this`pointing, this`events, this`target, primaryHand`lookAssistSpeed, TargetFrame()
      ensures !pointing && target == null && primaryHand.lookAssistSpeed == startLookAssist
      ensures events == old(events) + [PointStopped, TargetStopped]
      ensures var t := old(target);
        t != null ==>
          !t.grabbable.hightlighting && t.events == old(t.events) + [TargetingStopped] && t.pullStarted == old(t.pullStarted)
          && t.grabbable.events == old(t.grabbable.events)
               + (if old(t.grabbable.hightlighting) then [Interaction.UnhighlightEvent(primaryHand)] else [])
    {
      pointing := false;
      primaryHand.lookAssistSpeed := startLookAssist;
      events := events + [PointStopped];
      StopTargeting();
    }

    /** The target, if any, is unhighlighted and told it is no longer
        targeted; afterwards nothing is targeted. */
    method StopTargeting()
      modifies this`target, this`events, TargetFrame()
      ensures target == null
      ensures events == old(events) + [TargetStopped]
      ensures var t := old(target);
        t != null ==>
          !t.grabbable.hightlighting && t.events == old(t.events) + [TargetingStopped] && t.pullStarted == old(t.pullStarted)
          && t.grabbable.events == old(t.grabbable.events)
               + (if old(t.grabbable.hightlighting) then [Interaction.UnhighlightEvent(primaryHand)] else [])
    {
      if target != null {
        target.grabbable.Unhighlight(primaryHand);
        target.events := target.events + [TargetingStopped];
      }
      target := null;
      events := events + [TargetStopped];
    }

    /** A targetable object this hand may grab becomes the target: the old
        target is dropped, and the new one is highlighted with the material
        the targeted-material getter returns as written.  Any other object
        leaves everything as it was. */
    method StartTargeting(t: DistanceGrabbable)
      modifies this`target, this`events, TargetFrame(), t, t.grabbable
      ensures var chosen := old(t.targetable) && old(primaryHand.CanGrab(t.grabbable));
        !chosen ==> target == old(target) && events == old(events) && unchanged(t) && unchanged(t.grabbable)
      ensures var chosen := old(t.targetable) && old(primaryHand.CanGrab(t.grabbable));
        chosen ==> target == t && t.grabbable.hightlighting && events == old(events) + [TargetStopped, TargetStarted]
      ensures var chosen := old(t.targetable) && old(primaryHand.CanGrab(t.grabbable));
        var prior := old(target);
        chosen && (prior == null || prior.grabbable != t.grabbable) ==>
          t.grabbable.events == old(t.grabbable.events)
            + (if old(t.grabbable.hightlighting) then []
               else [Interaction.HighlightEvent(primaryHand, old(HighlightWith(GetTargetedMaterialAsWritten(t), t.grabbable)))])
      ensures var chosen := old(t.targetable) && old(primaryHand.CanGrab(t.grabbable));
        var prior := old(target);
        chosen && prior != null && prior.grabbable != t.grabbable ==> !prior.grabbable.hightlighting
    {
      if t.targetable && primaryHand.CanGrab(t.grabbable) {
        StopTargeting();
        target := t;
        t.grabbable.Highlight(primaryHand, GetTargetedMaterialAsWritten(t));
        t.events := t.events + [TargetingStarted];
        events := events + [TargetStarted];
      }
    }

    /** The target becomes the selection: pulling starts from the point the
        ray hit, the object is highlighted with its selected material, and
        pointing stops.  With no target nothing happens. */
    method SelectTarget()
      requires Valid()
      modifies this`pulling, this`selectionPoint, this`selecting, this`target, this`pointing, this`events
      modifies primaryHand`lookAssistSpeed, TargetFrame()
      ensures Valid()
      ensures old(target) == null ==>
        pulling == old(pulling) && selecting == old(selecting) && pointing == old(pointing) && events == old(events)
      ensures var t := old(target);
        t != null ==>
          pulling && selecting == t && target == null && !pointing && selectionPoint == old(hitPoint)
          && primaryHand.lookAssistSpeed == startLookAssist
          && events == old(events) + [SelectStarted, PointStopped, TargetStopped]
          && t.events == old(t.events) + [SelectingStarted, TargetingStopped]
          && t.grabbable.hightlighting
          && t.grabbable.events == old(t.grabbable.events)
               + (if old(t.grabbable.hightlighting) then [Interaction.UnhighlightEvent(primaryHand)] else [])
               + [Interaction.HighlightEvent(primaryHand, old(HighlightWith(GetSelectedMaterial(t), t.grabbable)))]
    {
      if target != null {
        var t := target;
        pulling := true;
        selectionPoint := hitPoint;
        selecting := t;
        t.grabbable.Unhighlight(primaryHand);
        t.grabbable.Highlight(primaryHand, GetSelectedMaterial(t));
        t.events := t.events + [SelectingStarted];
        t.events := t.events + [TargetingStopped];
        target := null;
        events := events + [SelectStarted];
        StopPointing();
      }
    }

    /** The selection ends: nothing is pulled or selected, and the object
        that was is unhighlighted and told. */
    method CancelSelect()
      modifies this`pulling, this`selecting, this`events, SelectFrame()
      ensures Valid() && !pulling && selecting == null
      ensures events == old(events) + [SelectStopped]
      ensures var s := old(selecting);
        s != null ==>
          !s.grabbable.hightlighting && s.events == old(s.events) + [SelectingStopped]
          && s.pullStarted == old(s.pullStarted)
          && s.grabbable.events == old(s.grabbable.events)
               + (if old(s.grabbable.hightlighting) then [Interaction.UnhighlightEvent(primaryHand)] else [])
    {
      pulling := false;
      if selecting != null {
        selecting.grabbable.Unhighlight(primaryHand);
        selecting.events := selecting.events + [SelectingStopped];
      }
      events := events + [SelectStopped];
      selecting := null;
    }

    /** The primary hand's OnBeforeGrabbed handler, wired up in Start. */
    method OnPrimaryBeforeGrabbed()
      modifies this`pointing, this`events, this`target, primaryHand`lookAssistSpeed, TargetFrame()
      modifies this`pulling, this`selecting, SelectFrame()
      ensures Valid() && !pointing && target == null && !pulling && selecting == null
      ensures primaryHand.lookAssistSpeed == startLookAssist
      ensures events == old(events) + [PointStopped, TargetStopped, SelectStopped]
      ensures var t := old(target);
        t != null ==>
          !t.grabbable.hightlighting && t.pullStarted == old(t.pullStarted)
          && (t != old(selecting) ==> t.events == old(t.events) + [TargetingStopped])
      ensures var s := old(selecting);
        s != null ==>
          !s.grabbable.hightlighting && s.pullStarted == old(s.pullStarted)
          && s.events == old(s.events) + (if old(target) == s then [TargetingStopped] else []) + [SelectingStopped]
    {
      StopPointing();
      CancelSelect();
    }

    /** What a pull of the selection `s` leaves, against the state before
        it.  Nothing is selected or pulled afterwards.  With no selection
        nothing else changes.  Otherwise the pull events fire; an
        instant-pull object is offered to the primary hand's Grab(hit, grab)
        at the selection point, and any other one is launched and registered
        for catch assist.  When that grab reaches no wait, GrabObject runs on
        within the call and fires the hand's OnBeforeGrabbed, whose handler
        stops pointing and cancels the selection before the pull's own
        CancelSelect. */
    twostate predicate PullDone(s: DistanceGrabbable?)
      reads this, primaryHand, if s == null then {} else {s, s.grabbable}
    {
      !pulling && selecting == null
      && (s == null ==>
            events == old(events) && catchAssisted == old(catchAssisted) && primaryHand.trace == old(primaryHand.trace)
            && pointing == old(pointing) && target == old(target) && primaryHand.lookAssistSpeed == old(primaryHand.lookAssistSpeed))
      && (s != null ==>
            var instant := old(s.instantPull);
            var starts := instant && old(primaryHand.GrabHitStarts(s.grabbable));
            var handled := starts && old(TakesHoldAtOnce(s.grabbable));
            events == old(events) + [PullStarted] + (if handled then [PointStopped, TargetStopped, SelectStopped] else []) + [SelectStopped]
            && (handled ==> !pointing && target == null && primaryHand.lookAssistSpeed == startLookAssist)
            && (!handled ==> pointing == old(pointing) && target == old(target) && primaryHand.lookAssistSpeed == old(primaryHand.lookAssistSpeed))
            && s.events == old(s.events) + [Pulled] + (if handled && old(target) == s then [TargetingStopped] else []) + [SelectingStopped]
            && !s.grabbable.hightlighting
            && s.pullStarted == (old(s.pullStarted) || !instant)
            && catchAssisted == old(catchAssisted) + (if instant then [] else [CatchAssistData(s.grabbable, catchAssistRadius)])
            && primaryHand.trace == old(primaryHand.trace)
                 + (if starts then [Interaction.GrabObjectStarted(s.grabbable, selectionPoint, true)] else []))
    }

    /** Pulls the selected object, as PullDone states.  `holds` is whether
        the grab reaches no wait, so that OnBeforeGrabbed fires inside it. */
    method ActivatePull()
      requires Valid()
      modifies this`pulling, this`selecting, this`events, this`catchAssisted, SelectFrame(), primaryHand`trace
      modifies this`pointing, this`target, primaryHand`lookAssistSpeed, TargetFrame()
      ensures Valid() && PullDone(old(selecting))
    {
      if selecting != null {
        var s := selecting;
        events := events + [PullStarted];
        s.events := s.events + [Pulled];
        if s.instantPull {
          var holds := primaryHand.GrabHitStarts(s.grabbable) && TakesHoldAtOnce(s.grabbable);
          primaryHand.GrabHit(selectionPoint, s.grabbable);
          if holds {
            OnPrimaryBeforeGrabbed();
          }
        } else {
          catchAssisted := catchAssisted + [CatchAssistData(s.grabbable, catchAssistRadius)];
          s.pullStarted := true;
        }
        CancelSelect();
      }
    }

    /** Distance pull: the selection is pulled once the hand has moved more
        than pullGrabDistance from where the selection began. */
    method TryDistancePull(movedDistance: real)
      requires Valid()
      modifies this`pulling, this`selecting, this`events, this`catchAssisted, SelectFrame(), primaryHand`trace
      modifies this`pointing, this`target, primaryHand`lookAssistSpeed, TargetFrame()
      ensures Valid()
      ensures movedDistance > pullGrabDistance ==> PullDone(old(selecting))
      ensures movedDistance <= pullGrabDistance ==>
        pulling == old(pulling) && selecting == old(selecting) && events == old(events) && catchAssisted == old(catchAssisted)
        && primaryHand.trace == old(primaryHand.trace) && pointing == old(pointing) && target == old(target)
    {
      if movedDistance > pullGrabDistance {
        ActivatePull();
      }
    }

    /** Flick pull: the selection is pulled when the hand turns faster than
        flickThreshold. */
    method TryFlickPull(selected: DistanceGrabbable?, speed: real)
      requires Valid()
      modifies this`pulling, this`selecting, this`events, this`catchAssisted, SelectFrame(), primaryHand`trace
      modifies this`pointing, this`target, primaryHand`lookAssistSpeed, TargetFrame()
      ensures Valid()
      ensures speed > flickThreshold && selected != null ==> PullDone(old(selecting))
      ensures !(speed > flickThreshold && selected != null) ==>
        pulling == old(pulling) && selecting == old(selecting) && events == old(events) && catchAssisted == old(catchAssisted)
        && primaryHand.trace == old(primaryHand.trace) && pointing == old(pointing) && target == old(target)
    {
      if speed > flickThreshold {
        if selected != null {
          ActivatePull();
        }
      }
    }

    /** One frame of the grabber.  While pointing with an empty hand and not
        pulling, the ray decides the target: a hit on a new distance-grabbable
        object (`hitTarget`, found on the hit object or on the grab parent of
        a GrabbableChild) targets it, a miss drops the target.  While pulling
        with an empty hand, the flick or the distance pull may fire.  In
        every other frame the target is dropped. */
    method CheckDistanceGrabbable(didHit: bool, hitTarget: DistanceGrabbable?, point: Vec3, movedDistance: real, flickSpeed: real)
      requires Valid()
      modifies this`target, this`events, this`hitPoint, TargetFrame()
      modifies if hitTarget == null then {} else {hitTarget, hitTarget.grabbable}
      modifies this`pulling, this`selecting, this`catchAssisted, SelectFrame(), primaryHand`trace
      modifies this`pointing, primaryHand`lookAssistSpeed
      ensures Valid()
      ensures var pointingFrame := !old(pulling) && old(pointing) && primaryHand.holdingObj == null;
        var pullingFrame := old(pulling) && primaryHand.holdingObj == null;
        !pointingFrame && !pullingFrame ==> target == null && pulling == old(pulling) && selecting == old(selecting)
      ensures var pointingFrame := !old(pulling) && old(pointing) && primaryHand.holdingObj == null;
        pointingFrame && !didHit ==> target == null && pulling == old(pulling)
      ensures var pointingFrame := !old(pulling) && old(pointing) && primaryHand.holdingObj == null;
        pointingFrame && didHit ==>
          hitPoint == point && pulling == old(pulling) && selecting == old(selecting)
          && ((hitTarget != null && hitTarget != old(target) && old(hitTarget.targetable) && old(primaryHand.CanGrab(hitTarget.grabbable)))
              ==> target == hitTarget)
          && (hitTarget == null || hitTarget == old(target) ==> target == old(target))
          && ((hitTarget != null && !(old(hitTarget.targetable) && old(primaryHand.CanGrab(hitTarget.grabbable))))
              ==> target == old(target))
      ensures var pullingFrame := old(pulling) && primaryHand.holdingObj == null;
        var fires := if useFlickPull then flickSpeed > flickThreshold else movedDistance > pullGrabDistance;
        pullingFrame && fires ==> PullDone(old(selecting))
      ensures var pullingFrame := old(pulling) && primaryHand.holdingObj == null;
        var fires := if useFlickPull then flickSpeed > flickThreshold else movedDistance > pullGrabDistance;
        pullingFrame && !fires ==>
          target == old(target) && pulling && selecting == old(selecting) && events == old(events)
          && catchAssisted == old(catchAssisted) && primaryHand.trace == old(primaryHand.trace)
    {
      if !pulling && pointing && primaryHand.holdingObj == null {
        if didHit {
          hitPoint := point;
          if hitTarget != null && hitTarget != target {
            StartTargeting(hitTarget);
          }
        } else {
          StopTargeting();
        }
      } else if pulling && primaryHand.holdingObj == null {
        if useFlickPull {
          TryFlickPull(selecting, flickSpeed);
        } else {
          TryDistancePull(movedDistance);
        }
      } else if target != null {
        StopTargeting();
      }
    }

    /** The frame update: the grabber checks its ray and pull, then a change
        of the instant-pull setting is applied once: switching it on turns
        the flick off and the pull distance to zero. */
    method Update(didHit: bool, hitTarget: DistanceGrabbable?, point: Vec3, movedDistance: real, flickSpeed: real)
      requires Valid()
      modifies this`target, this`events, this`hitPoint, TargetFrame()
      modifies if hitTarget == null then {} else {hitTarget, hitTarget.grabbable}
      modifies this`pulling, this`selecting, this`catchAssisted, SelectFrame(), primaryHand`trace
      modifies this`pointing, primaryHand`lookAssistSpeed
      modifies this`useFlickPull, this`pullGrabDistance, this`lastInstantPull
      ensures Valid()
      ensures lastInstantPull == useInstantPull == old(useInstantPull)
      ensures old(lastInstantPull) != useInstantPull && useInstantPull ==> !useFlickPull && pullGrabDistance == 0.0
      ensures !(old(lastInstantPull) != useInstantPull && useInstantPull) ==>
        useFlickPull == old(useFlickPull) && pullGrabDistance == old(pullGrabDistance)
    {
      CheckDistanceGrabbable(didHit, hitTarget, point, movedDistance, flickSpeed);
      if lastInstantPull != useInstantPull {
        if useInstantPull {
          useFlickPull := false;
          pullGrabDistance := 0.0;
        }
        lastInstantPull := useInstantPull;
      }
    }

    /** The catch assist, run when a hand presses its trigger: each pending
      object the hand caught is offered to Grab(hit, grab) in list order.  A
      grab that reaches no wait leaves the hand holding its object before
      the call returns, and the hand's gate then refuses every later entry;
      `holding` stands for that hand's holdingObj. */
    method TryCatchAssist(hand: Hand, caughtAt: seq<Option<Vec3>>)
      modifies hand`trace
      ensures hand.trace == old(hand.trace) + old(CatchGrabs(hand, catchAssisted, caughtAt))
    {
      forall i | 0 <= i < |catchAssisted|
        ensures CatchGrabs(hand, catchAssisted[..i + 1], caughtAt) == CatchGrabs(hand, catchAssisted[..i], caughtAt)
          + (if !CatchHolds(hand, catchAssisted[..i], caughtAt) && CatchStarts(hand, catchAssisted, caughtAt, i)
             then [Interaction.GrabObjectStarted(catchAssisted[i].grab, caughtAt[i].value, true)] else [])
        ensures CatchHolds(hand, catchAssisted[..i + 1], caughtAt) ==
          (CatchHolds(hand, catchAssisted[..i], caughtAt)
           || (CatchStarts(hand, catchAssisted, caughtAt, i) && TakesHoldAtOnce(catchAssisted[i].grab)))
      {
        CatchGrabsSnoc(hand, catchAssisted, caughtAt, i);
      }
      var holding := false;
      for i := 0 to |catchAssisted|
        invariant hand.trace == old(hand.trace) + old(CatchGrabs(hand, catchAssisted[..i], caughtAt))
        invariant holding == old(CatchHolds(hand, catchAssisted[..i], caughtAt))
      {
        var g := catchAssisted[i].grab;
        assert CatchStarts(hand, catchAssisted, caughtAt, i) == old(CatchStarts(hand, catchAssisted, caughtAt, i));
        assert TakesHoldAtOnce(g) == old(TakesHoldAtOnce(g));
        if !holding && i < |caughtAt| && caughtAt[i].Some? {
          var takesHold := hand.GrabHitStarts(g) && !g.beingGrabbed && !(g.singleHandOnly && |g.heldBy| > 0);
          hand.GrabHit(caughtAt[i].value, g);
          holding := takesHold;
        }
      }
      assert catchAssisted[..|catchAssisted|] == catchAssisted;
    }

  /** The end of a catch assist, after catchAssistSeconds or when the
        object is grabbed or its pull is cancelled: one entry equal to `data`
        goes, if there is one. */
    method EndCatchAssist(data: CatchAssistData)
      modifies this`catchAssisted
      ensures catchAssisted == RemoveFirst(old(catchAssisted), data)
      ensures multiset(catchAssisted) == multiset(old(catchAssisted)) - multiset{data}
    {
      if data in catchAssisted {
        catchAssisted := RemoveFirst(catchAssisted, data);
      }
    }
  }
}
