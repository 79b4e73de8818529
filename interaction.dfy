/** The hold protocol between hands and grabbables.  A Hand holds at most one
    Grabbable (holdingObj); a Grabbable keeps the list of hands holding it
    (heldBy) and rewrites the collision layers of its hierarchy while it is
    grabbed and released.  The two classes call each other, so they share
    this module. */
module Interaction {
  import opened Common
  import opened Layers
  import opened Throwing
  import opened ClosestHit
  import TA = TriggerAreaEvents
  import TE = TouchEvent

  /** A transform that a body can be parented to. */
  datatype Parent = Parent(id: nat)

  /** The ResetLayer coroutine waiting to fire: after `delay` seconds it moves
      the hierarchy from `fromLayer` back to the original layer. */
  datatype ResetLayerRoutine = ResetLayerRoutine(delay: real, fromLayer: int)

  /** The events a grabbable invokes (its HandGrabEvent delegates together
      with the matching UnityEvents). */
  datatype GrabbableEvent =
    | BeforeGrabEvent(hand: Hand)
    | GrabEvent(hand: Hand)
    | ReleaseEvent(hand: Hand)
    | ForceReleaseEvent(hand: Hand)
    | JointBreakEvent(hand: Hand)
    | SqueezeEvent(hand: Hand)
    | UnsqueezeEvent(hand: Hand)
    | HighlightEvent(hand: Hand, material: Option<Material>)
    | UnhighlightEvent(hand: Hand)

  /** The union of a list's elements. */
  function Elems(s: seq<nat>): set<nat> {
    set x | x in s
  }

  /** The hand's own rigid body, whose kinematic flag a grabbable may lock. */
  class HandBody {
    var isKinematic: bool
    var velocity: Vec3

    constructor (velocity: Vec3)
      ensures !isKinematic && this.velocity == velocity
    {
      isKinematic := false;
      this.velocity := velocity;
    }
  }

  /** A Rigidbody of a grabbable or jointed to one; `owner` is the Grabbable
      component on the same game object, if there is one. */
  class RigidBody {
    var isKinematic: bool
    var hasConstraints: bool
    var velocity: Vec3
    var angularVelocity: Vec3
    var parent: Parent
    var owner: Grabbable?

    constructor (parent: Parent, isKinematic: bool, owner: Grabbable?)
      ensures this.parent == parent && this.isKinematic == isKinematic && this.owner == owner
      ensures !hasConstraints && velocity == Zero && angularVelocity == Zero
    {
      this.parent := parent;
      this.isKinematic := isKinematic;
      this.owner := owner;
      hasConstraints := false;
      velocity := Zero;
      angularVelocity := Zero;
    }
  }

  class Grabbable {
    // inspector settings
    var enabled: bool
    var isGrabbable: bool
    var handType: HandType
    var singleHandOnly: bool
    var allowHeldSwapping: bool
    var instantGrab: bool
    var parentOnGrab: bool
    var lockHandOnGrab: bool
    var releaseOnTeleport: bool
    var pullApartBreakOnly: bool
    var grabDistancePriority: real
    var throwMultiplyer: real
    var throwAngleMultiplyer: real
    var ignoreReleaseTime: real
    var hightlightMaterial: Option<Material>
    /** a GrabLock component is attached */
    var hasGrabLock: bool

    const body: RigidBody
    const originalParent: Parent
    /** what Stabbable.StabbedCount() reports, 0 when there is no Stabbable */
    var stabbedCount: nat
    var jointedBodies: seq<RigidBody>
    var jointedParents: seq<Parent>

    // collision layers of the hierarchy, indexed by node id
    const tree: Tree
    const nodeCount: nat
    var nodeLayers: seq<int>
    /** the nodes of the registered GrabbableChild components */
    var grabChildren: seq<nat>
    const originalLayer: int
    /** LayerMask.NameToLayer("Grabbing") and LayerMask.NameToLayer("Releasing") */
    const grabbingLayer: int
    const releasingLayer: int

    // hold state
    var heldBy: seq<Hand>
    var beingHeld: bool
    var beingGrabbed: bool
    var throwing: bool
    var hightlighting: bool
    var wasIsGrabbable: bool
    var beingDestroyed: bool
    var pendingReset: Option<ResetLayerRoutine>
    var events: seq<GrabbableEvent>

    ghost predicate Valid()
      reads this`nodeLayers, this`beingHeld, this`heldBy
    {
      |nodeLayers| == nodeCount && Within(tree, nodeCount) && (beingHeld <==> |heldBy| > 0)
    }

    /** The hands holding this object, their bodies and what they hold: what
        a release of every holder may change. */
    ghost function Holders(): set<object>
      reads this, heldBy
    {
      (set h | h in heldBy :: h as object) + (set h | h in heldBy :: h.body as object)
      + (set h | h in heldBy && h.holdingObj != null :: h.holdingObj as object)
      + (set h | h in heldBy && h.holdingObj != null :: h.holdingObj.body as object)
    }

    /** Every object a holder holds is in a valid state. */
    ghost predicate HoldersValid()
      reads this, heldBy, Holders()
    {
      forall h | h in heldBy :: h.holdingObj != null ==> h.holdingObj.Valid()
    }

    /** Each holder appears once and holds this object. */
    ghost predicate HeldConsistently()
      reads this, heldBy
    {
      NoDuplicates(heldBy) && forall h | h in heldBy :: h.holdingObj == this
    }

    /** OnAwake: the layer of the root becomes the original layer; the inspector
        list of jointed bodies is kept but no parent is recorded for it. */
    constructor (tree: Tree, layers: seq<int>, grabbingLayer: int, releasingLayer: int,
                 body: RigidBody, jointedBodies: seq<RigidBody>)
      requires Within(tree, |layers|)
      ensures Valid() && this.tree == tree && nodeLayers == layers && originalLayer == layers[tree.id]
      ensures this.grabbingLayer == grabbingLayer && this.releasingLayer == releasingLayer
      ensures heldBy == [] && !beingGrabbed && !throwing && !hightlighting && pendingReset == None && events == []
      ensures enabled && isGrabbable && handType == Both && !singleHandOnly && allowHeldSwapping
      ensures parentOnGrab && !lockHandOnGrab && pullApartBreakOnly && ignoreReleaseTime == 0.25
      ensures grabDistancePriority == 1.0 && throwMultiplyer == 1.0 && throwAngleMultiplyer == 1.0
      ensures this.body == body && originalParent == body.parent
      ensures this.jointedBodies == jointedBodies && jointedParents == []
    {
      enabled := true;
      isGrabbable := true;
      handType := Both;
      singleHandOnly := false;
      allowHeldSwapping := true;
      instantGrab := false;
      parentOnGrab := true;
      lockHandOnGrab := false;
      releaseOnTeleport := false;
      pullApartBreakOnly := true;
      grabDistancePriority := 1.0;
      throwMultiplyer := 1.0;
      throwAngleMultiplyer := 1.0;
      ignoreReleaseTime := 0.25;
      hightlightMaterial := None;
      hasGrabLock := false;
      this.body := body;
      originalParent := body.parent;
      stabbedCount := 0;
      this.jointedBodies := jointedBodies;
      jointedParents := [];
      this.tree := tree;
      nodeCount := |layers|;
      nodeLayers := layers;
      grabChildren := [];
      originalLayer := layers[tree.id];
      this.grabbingLayer := grabbingLayer;
      this.releasingLayer := releasingLayer;
      heldBy := [];
      beingHeld := false;
      beingGrabbed := false;
      throwing := false;
      hightlighting := false;
      wasIsGrabbable := false;
      beingDestroyed := false;
      pendingReset := None;
      events := [];
    }

    /** gameObject.layer: the layer of the root of the hierarchy. */
    function Layer(): int
      reads this`nodeLayers, this`beingHeld, this`heldBy
      requires Valid()
    {
      nodeLayers[tree.id]
    }

    /** The nodes SetLayerRecursive visits: the grab children and the whole tree. */
    function LayerNodes(): set<nat>
      reads this`grabChildren
    {
      Elems(grabChildren) + Ids(tree)
    }

    function HeldCount(): (n: nat)
      reads this
      requires Valid()
      ensures n > 0 <==> IsHeld()
    {
      |heldBy|
    }

    function IsHeld(): (r: bool)
      reads this
      requires Valid()
      ensures r <==> |heldBy| > 0
    {
      beingHeld
    }

    function BeingGrabbed(): bool
      reads this
    {
      beingGrabbed
    }

    method SetGrabbableChild(child: nat)
      modifies this`grabChildren
      ensures grabChildren == if child in old(grabChildren) then old(grabChildren) else old(grabChildren) + [child]
      ensures LayerNodes() == old(LayerNodes()) + {child}
    {
      if child !in grabChildren {
        grabChildren := grabChildren + [child];
      }
    }

    /** The local function SetChildrenLayers of SetLayerRecursive: a depth-first
        walk that moves every node on oldLayer to newLayer. */
    method SetChildrenLayers(t: Tree, oldLayer: int, newLayer: int)
      requires Within(t, |nodeLayers|)
      modifies this`nodeLayers
      ensures nodeLayers == Relayer(old(nodeLayers), Ids(t), oldLayer, newLayer)
      decreases t
    {
      if nodeLayers[t.id] == oldLayer {
        nodeLayers := nodeLayers[t.id := newLayer];
      }
      ghost var start := old(nodeLayers);
      assert nodeLayers == Relayer(start, {t.id}, oldLayer, newLayer);
      for i := 0 to |t.children|
        invariant |nodeLayers| == |start|
        invariant nodeLayers == Relayer(start, {t.id} + ForestIds(t.children[..i]), oldLayer, newLayer)
      {
        assert Within(t.children[i], |nodeLayers|);
        SetChildrenLayers(t.children[i], oldLayer, newLayer);
        RelayerUnion(start, {t.id} + ForestIds(t.children[..i]), Ids(t.children[i]), oldLayer, newLayer);
        ForestIdsSnoc(t.children, i);
      }
      assert t.children[..|t.children|] == t.children;
    }

    /** Moves every grab child and every node of the hierarchy that is on
        oldLayer to newLayer, and leaves all other nodes as they were. */
    method SetLayerRecursive(oldLayer: int, newLayer: int)
      requires Valid()
      modifies this`nodeLayers
      ensures Valid()
      ensures nodeLayers == Relayer(old(nodeLayers), LayerNodes(), oldLayer, newLayer)
    {
      ghost var start := nodeLayers;
      for i := 0 to |grabChildren|
        invariant |nodeLayers| == nodeCount
        invariant nodeLayers == Relayer(start, Elems(grabChildren[..i]), oldLayer, newLayer)
      {
        var c := grabChildren[i];
        if c < |nodeLayers| && nodeLayers[c] == oldLayer {
          nodeLayers := nodeLayers[c := newLayer];
        }
        assert nodeLayers == Relayer(Relayer(start, Elems(grabChildren[..i]), oldLayer, newLayer), {c}, oldLayer, newLayer);
        RelayerUnion(start, Elems(grabChildren[..i]), {c}, oldLayer, newLayer);
        assert Elems(grabChildren[..i + 1]) == Elems(grabChildren[..i]) + {c} by {
          assert grabChildren[..i + 1] == grabChildren[..i] + [c];
        }
      }
      assert grabChildren[..|grabChildren|] == grabChildren;
      SetChildrenLayers(tree, oldLayer, newLayer);
      RelayerUnion(start, Elems(grabChildren), Ids(tree), oldLayer, newLayer);
    }

    /** The ResetLayer coroutine when its delay has passed: the hierarchy goes
        back to the original layer only if the root is still on fromLayer. */
    method ResetLayer()
      requires Valid()
      modifies this`nodeLayers, this`pendingReset
      ensures Valid() && pendingReset == None
      ensures nodeLayers ==
        if old(pendingReset).Some? && old(Layer()) == old(pendingReset).value.fromLayer
        then Relayer(old(nodeLayers), LayerNodes(), old(pendingReset).value.fromLayer, originalLayer)
        else old(nodeLayers)
    {
      if pendingReset.Some? {
        var fromLayer := pendingReset.value.fromLayer;
        if Layer() == fromLayer {
          SetLayerRecursive(fromLayer, originalLayer);
        }
        pendingReset := None;
      }
    }

    /** Puts the body back under its original parent unless it is stabbed. */
    method SetOriginalParent()
      modifies body`parent
      ensures body.parent == if stabbedCount == 0 then originalParent else old(body.parent)
    {
      if stabbedCount == 0 {
        body.parent := originalParent;
      }
    }

    method AddJointedBody(b: RigidBody)
      requires Valid()
      modifies this`jointedBodies, this`jointedParents, b`parent
      ensures jointedBodies == old(jointedBodies) + [b]
      ensures jointedParents == old(jointedParents) + [old(b.parent)]
      ensures b.parent == if !b.isKinematic && |heldBy| > 0 then body.parent else old(b.parent)
    {
      jointedBodies := jointedBodies + [b];
      jointedParents := jointedParents + [b.parent];
      if !b.isKinematic && HeldCount() > 0 {
        b.parent := body.parent;
      }
    }

    /** `thrown` reports the exception the source raises: a null reference
        when the body carries no Grabbable (the guard lets it through to the
        dereference); an out-of-range index on jointedBodies when the body is
        not in the list, after the body has been reparented; and an
        out-of-range index on jointedParents when the body's index lies past
        that list, after the body has already left jointedBodies. */
    method RemoveJointedBody(b: RigidBody) returns (thrown: bool)
      modifies this`jointedBodies, this`jointedParents, b`parent
      ensures var i := IndexOf(old(jointedBodies), b);
        thrown <==> b.owner == null || i == -1 || i >= |old(jointedParents)|
      ensures b.owner == null ==> unchanged(this) && unchanged(b)
      ensures b.owner != null ==>
        b.parent == if |b.owner.heldBy| == 0 then b.owner.originalParent else old(b.parent)
      ensures var i := IndexOf(old(jointedBodies), b);
        jointedBodies == if b.owner != null && i != -1 then old(jointedBodies)[..i] + old(jointedBodies)[i + 1..] else old(jointedBodies)
      ensures var i := IndexOf(old(jointedBodies), b);
        jointedParents == if !thrown then old(jointedParents)[..i] + old(jointedParents)[i + 1..] else old(jointedParents)
    {
      var i := IndexOf(jointedBodies, b);
      if b.owner == null {
        return true;
      }
      if |b.owner.heldBy| == 0 {
        b.parent := b.owner.originalParent;
      }
      if i == -1 {
        return true;
      }
      jointedBodies := jointedBodies[..i] + jointedBodies[i + 1..];
      if i >= |jointedParents| {
        return true;
      }
      jointedParents := jointedParents[..i] + jointedParents[i + 1..];
      thrown := false;
    }

    method Highlight(hand: Hand, customMat: Option<Material>)
      modifies this`hightlighting, this`events
      ensures hightlighting
      ensures events == old(events) +
        if old(hightlighting) then []
        else [HighlightEvent(hand, if customMat.Some? then customMat else hightlightMaterial)]
    {
      if !hightlighting {
        hightlighting := true;
        var highlightMat := if customMat.Some? then customMat else hightlightMaterial;
        events := events + [HighlightEvent(hand, highlightMat)];
      }
    }

    method Unhighlight(hand: Hand)
      modifies this`hightlighting, this`events
      ensures !hightlighting
      ensures events == old(events) + if old(hightlighting) then [UnhighlightEvent(hand)] else []
    {
      if hightlighting {
        events := events + [UnhighlightEvent(hand)];
        hightlighting := false;
      }
    }

    method OnSqueeze(hand: Hand)
      modifies this`events
      ensures events == old(events) + [SqueezeEvent(hand)]
    {
      events := events + [SqueezeEvent(hand)];
    }

    method OnUnsqueeze(hand: Hand)
      modifies this`events
      ensures events == old(events) + [UnsqueezeEvent(hand)]
    {
      events := events + [UnsqueezeEvent(hand)];
    }

    /** The grab has begun: the reset-layer routine is stopped, and with
        parentOnGrab the body and every jointed body move under the hand's
        parent. */
    method OnBeforeGrab(hand: Hand)
      modifies this`events, this`beingGrabbed, this`pendingReset, body`parent, jointedBodies`parent
      ensures beingGrabbed && pendingReset == None
      ensures parentOnGrab ==>
        body.parent == hand.parentTransform && forall jb :: jb in jointedBodies ==> jb.parent == hand.parentTransform
      ensures !parentOnGrab ==>
        body.parent == old(body.parent) && forall jb :: jb in jointedBodies ==> jb.parent == old(jb.parent)
      ensures events == old(events) + [BeforeGrabEvent(hand)]
    {
      events := events + [BeforeGrabEvent(hand)];
      beingGrabbed := true;
      pendingReset := None;
      if parentOnGrab {
        body.parent := hand.parentTransform;
        for i := 0 to |jointedBodies|
          modifies jointedBodies`parent
          invariant body.parent == hand.parentTransform
          invariant forall j :: 0 <= j < i ==> jointedBodies[j].parent == hand.parentTransform
        {
          jointedBodies[i].parent := hand.parentTransform;
        }
      }
    }

    /** The hand holds this object: it joins heldBy, and the reset of the
        Grabbing layer is scheduled. */
    method OnGrab(hand: Hand)
      requires Valid()
      modifies this`heldBy, this`throwing, this`beingHeld, this`beingGrabbed, this`pendingReset, this`events
      modifies hand.body`isKinematic
      ensures Valid()
      ensures heldBy == old(heldBy) + [hand]
      ensures beingHeld && !beingGrabbed && !throwing
      ensures pendingReset == Some(ResetLayerRoutine(0.1, grabbingLayer))
      ensures hand.body.isKinematic == if lockHandOnGrab then true else old(hand.body.isKinematic)
      ensures events == old(events) + [GrabEvent(hand)]
    {
      if lockHandOnGrab {
        hand.body.isKinematic := true;
      }
      pendingReset := Some(ResetLayerRoutine(0.1, grabbingLayer));
      heldBy := heldBy + [hand];
      throwing := false;
      beingHeld := true;
      beingGrabbed := false;
      events := events + [GrabEvent(hand)];
    }

    /** The throw at the end of a release: the last hand out throws the object
        with the hand's throw velocities unless it is already being thrown,
        and a release that is not a throw stops the object. */
    method ApplyThrow(hand: Hand, throwIt: bool)
      modifies this`throwing, body`velocity, body`angularVelocity
      ensures var launched := !beingHeld && throwIt && !old(throwing);
        throwing == (old(throwing) || launched)
        && body.velocity == (if !throwIt then Zero else if launched then hand.ThrownVelocity().Scale(throwMultiplyer) else old(body.velocity))
        && body.angularVelocity ==
          (if !throwIt then Zero else if launched then hand.ThrownAngularVelocity().Scale(throwAngleMultiplyer) else old(body.angularVelocity))
    {
      if !beingHeld && throwIt && !throwing {
        throwing := true;
        var v := hand.ThrowVelocity();
        body.velocity := v.Scale(throwMultiplyer);
        var w := hand.ThrowAngularVelocity();
        body.angularVelocity := w.Scale(throwAngleMultiplyer);
      }
      if !throwIt {
        body.velocity := Zero;
        body.angularVelocity := Zero;
      }
    }

    /** The removal of one holder: the last hand out clears beingHeld and,
        unless the object is being destroyed, puts the body back under its
        original parent and, when the root was already on the Releasing
        layer, cancels the throw. */
    method RemoveHolder(hand: Hand, rootLayer: int, thrown: bool) returns (throwIt: bool)
      requires Valid() && hand in heldBy
      modifies this`heldBy, this`beingHeld, body`parent
      ensures Valid() && heldBy == RemoveFirst(old(heldBy), hand)
      ensures body.parent == (if heldBy == [] && !beingDestroyed && stabbedCount == 0 then originalParent else old(body.parent))
      ensures throwIt == (thrown && !(heldBy == [] && !beingDestroyed && rootLayer == releasingLayer))
    {
      throwIt := thrown;
      heldBy := RemoveFirst(heldBy, hand);
      if |heldBy| == 0 {
        beingHeld := false;
        if !beingDestroyed {
          SetOriginalParent();
          if rootLayer == releasingLayer {
            throwIt := false;
          }
        }
      }
    }

    /** The whole hierarchy moves to the Releasing layer, and its reset is
        scheduled after ignoreReleaseTime. */
    method MoveToReleasing(rootLayer: int)
      requires Valid()
      modifies this`nodeLayers, this`pendingReset
      ensures Valid()
      ensures nodeLayers == Relayer(old(nodeLayers), LayerNodes(), rootLayer, releasingLayer)
      ensures pendingReset == Some(ResetLayerRoutine(ignoreReleaseTime, releasingLayer))
    {
      SetLayerRecursive(rootLayer, releasingLayer);
      pendingReset := Some(ResetLayerRoutine(ignoreReleaseTime, releasingLayer));
    }

    /** The part of OnRelease after its guards, for a hand in heldBy. */
    method LetGo(hand: Hand, thrown: bool)
      requires Valid() && hand in heldBy
      modifies this`heldBy, this`beingHeld, this`nodeLayers, this`pendingReset, this`events, this`throwing
      modifies body`parent, body`velocity, body`angularVelocity
      ensures Valid()
      ensures heldBy == RemoveFirst(old(heldBy), hand)
      ensures events == old(events) + [ReleaseEvent(hand)]
      ensures body.parent == (if heldBy == [] && !beingDestroyed && stabbedCount == 0 then originalParent else old(body.parent))
      ensures nodeLayers == Relayer(old(nodeLayers), LayerNodes(), old(Layer()), releasingLayer)
      ensures pendingReset == Some(ResetLayerRoutine(ignoreReleaseTime, releasingLayer))
      ensures var throwIt := thrown && !(heldBy == [] && !beingDestroyed && old(Layer()) == releasingLayer);
        var launched := heldBy == [] && throwIt && !old(throwing);
        throwing == (old(throwing) || launched)
        && body.velocity ==
          (if !throwIt then Zero else if launched then hand.ThrownVelocity().Scale(throwMultiplyer) else old(body.velocity))
        && body.angularVelocity ==
          (if !throwIt then Zero else if launched then hand.ThrownAngularVelocity().Scale(throwAngleMultiplyer) else old(body.angularVelocity))
    {
      var rootLayer := Layer();
      var throwIt := RemoveHolder(hand, rootLayer, thrown);
      MoveToReleasing(rootLayer);
      events := events + [ReleaseEvent(hand)];
      ApplyThrow(hand, throwIt);
    }

    /** A hand lets go.  Nothing happens unless the object is held by that
        hand; otherwise one occurrence of the hand leaves heldBy, the hierarchy
        moves to the Releasing layer with its reset scheduled, and the last
        hand to let go throws the object, unless it was already on the
        Releasing layer. */
    method OnRelease(hand: Hand, thrown: bool)
      requires Valid()
      modifies this`heldBy, this`beingHeld, this`nodeLayers, this`pendingReset, this`events, this`throwing
      modifies body`parent, body`velocity, body`angularVelocity, hand.body`isKinematic
      ensures Valid()
      ensures hand.body.isKinematic == if old(beingHeld) && lockHandOnGrab then false else old(hand.body.isKinematic)
      ensures !old(beingHeld) || hand !in old(heldBy) ==> unchanged(this) && unchanged(body)
      ensures old(beingHeld) && hand in old(heldBy) ==>
        heldBy == RemoveFirst(old(heldBy), hand)
        && events == old(events) + [ReleaseEvent(hand)]
        && body.parent == (if heldBy == [] && !beingDestroyed && stabbedCount == 0 then originalParent else old(body.parent))
      ensures old(beingHeld) && hand in old(heldBy) ==>
        nodeLayers == Relayer(old(nodeLayers), LayerNodes(), old(Layer()), releasingLayer)
        && pendingReset == Some(ResetLayerRoutine(ignoreReleaseTime, releasingLayer))
      ensures old(beingHeld) && hand in old(heldBy) ==>
        var throwIt := thrown && !(heldBy == [] && !beingDestroyed && old(Layer()) == releasingLayer);
        var launched := heldBy == [] && throwIt && !old(throwing);
        throwing == (old(throwing) || launched)
        && body.velocity ==
          (if !throwIt then Zero else if launched then old(hand.ThrownVelocity()).Scale(throwMultiplyer) else old(body.velocity))
        && body.angularVelocity ==
          (if !throwIt then Zero else if launched then old(hand.ThrownAngularVelocity()).Scale(throwAngleMultiplyer) else old(body.angularVelocity))
    {
      if !beingHeld {
        return;
      }
      if lockHandOnGrab {
        hand.body.isKinematic := false;
      }
      if hand !in heldBy {
        return;
      }
      LetGo(hand, thrown);
    }

    /** What stays true while HandRelease walks `holders`, the list it started
        from: the object is valid, every current holder comes from that list,
        and every object a listed hand holds is valid. */
    ghost predicate HoldersOk(holders: seq<Hand>)
      reads this, holders, set h | h in holders && h.holdingObj != null :: h.holdingObj
    {
      Valid()
      && (forall h :: h in heldBy ==> h in holders)
      && (forall h :: h in holders ==> h.holdingObj != null ==> h.holdingObj.Valid())
    }

    /** When each listed hand appeared once and held this object: down to
        index i they still hold it and are heldBy, and above i they have let go. */
    ghost predicate ConsistentAt(holders: seq<Hand>, i: int)
      reads this, holders
    {
      NoDuplicates(holders) && -1 <= i < |holders| && heldBy == holders[..i + 1]
      && (forall j :: 0 <= j <= i ==> holders[j].holdingObj == this)
      && (forall j :: i < j < |holders| ==> holders[j].holdingObj == null)
    }

    /** The hand's ReleaseGrabLock as this object sees it: when the hand held
        this object and is among its holders, one occurrence of it leaves
        heldBy; otherwise heldBy is untouched. */
    method HandReleases(hand: Hand)
      requires Valid()
      requires hand.holdingObj != null ==> hand.holdingObj.Valid()
      modifies this, body, hand, hand.body, hand.HeldFrame()
      ensures Valid() && hand.holdingObj == null
      ensures old(hand.holdingObj) != null ==> old(hand.holdingObj).Valid()
      ensures heldBy == if old(hand.holdingObj) == this && hand in old(heldBy) then RemoveFirst(old(heldBy), hand) else old(heldBy)
    {
      if hand.holdingObj == this {
        hand.ReleaseGrabLock();
      } else {
        hand.ReleaseGrabLock();
        assert heldBy == old(heldBy);
      }
    }

    /** One turn of HandRelease, on heldBy[i]: the hand lets go, and every
        other listed hand holds what it held. */
    method ReleaseWalkStep(ghost holders: seq<Hand>, i: int)
      requires 0 <= i < |heldBy| && HoldersOk(holders)
      modifies this, body, heldBy[i], heldBy[i].body, heldBy[i].HeldFrame()
      ensures HoldersOk(holders) && old(heldBy[i]).holdingObj == null
      ensures heldBy ==
        if old(heldBy[i].holdingObj) == this then RemoveFirst(old(heldBy), old(heldBy[i])) else old(heldBy)
      ensures forall h :: h in holders && h != old(heldBy[i]) ==> h.holdingObj == old(h.holdingObj)
    {
      var hand := heldBy[i];
      assert hand in holders;
      ghost var g := hand.holdingObj;
      HandReleases(hand);
      forall h | h in holders && h != hand
        ensures unchanged(h)
        ensures h.holdingObj != null && h.holdingObj != this && h.holdingObj != g ==> unchanged(h.holdingObj)
      {
      }
    }

    /** The consistent part of a HandRelease turn: `held` is what each holder
        held before the turn; the hand at i has let go, and the others, which
        are different hands, hold what they held. */
    static lemma ConsistentTurn(me: Grabbable, holders: seq<Hand>, held: seq<Grabbable?>, i: int)
      requires NoDuplicates(holders) && 0 <= i < |holders| == |held|
      requires forall j :: 0 <= j <= i ==> held[j] == me
      requires forall j :: i < j < |holders| ==> held[j] == null
      requires holders[i].holdingObj == null
      requires forall j :: 0 <= j < |holders| && holders[j] != holders[i] ==> holders[j].holdingObj == held[j]
      ensures forall j :: 0 <= j <= i - 1 ==> holders[j].holdingObj == me
      ensures forall j :: i - 1 < j < |holders| ==> holders[j].holdingObj == null
    {
      forall j | 0 <= j < |holders| && j != i ensures holders[j].holdingObj == held[j] {
        assert holders[j] != holders[i];
      }
    }

    /** Every holder releases through its grab lock, last holder first; once
        each holder appears once and holds this object, none is left. */
    method HandRelease()
      requires Valid() && HoldersValid()
      modifies this, body, Holders()
      ensures Valid()
      ensures old(HeldConsistently()) ==> heldBy == [] && forall h :: h in old(heldBy) ==> h.holdingObj == null
    {
      ghost var holders := heldBy;
      ghost var consistent := HeldConsistently();
      if consistent {
        assert forall j :: 0 <= j < |holders| ==> holders[j] in holders;
      }
      var i := |heldBy| - 1;
      while i >= 0
        invariant -1 <= i && HoldersOk(holders)
        invariant consistent ==> ConsistentAt(holders, i)
        invariant forall h :: h in holders ==> h.holdingObj == null || h.holdingObj == old(h.holdingObj)
        decreases i + 1
      {
        if i >= |heldBy| {
          // heldBy[i] throws ArgumentOutOfRangeException
          break;
        }
        ghost var hand := heldBy[i];
        assert hand in holders;
        assert hand.HeldFrame() <= old(Holders());
        ghost var held := seq(|holders|, j requires 0 <= j < |holders| reads holders => holders[j].holdingObj);
        if consistent {
          PrefixTurn(holders, i);
        }
        ReleaseWalkStep(holders, i);
        if consistent {
          forall j | 0 <= j < |holders| && holders[j] != hand ensures holders[j].holdingObj == held[j] {
            assert holders[j] in holders;
          }
          ConsistentTurn(this, holders, held, i);
        }
        i := i - 1;
      }
    }

    /** What the object does once a hand has been made to let go: one
        occurrence of the hand leaves heldBy, the last hand out puts the body
        back under its original parent and moves the hierarchy to the
        Releasing layer (with its reset scheduled unless the object is being
        destroyed), and the forced-release event fires. */
    method ForcedDrop(hand: Hand)
      requires Valid()
      modifies this`heldBy, this`beingHeld, this`nodeLayers, this`pendingReset, this`events
      modifies body`parent, hand.body`isKinematic
      ensures Valid()
      ensures heldBy == RemoveFirst(old(heldBy), hand)
      ensures events == old(events) + [ForceReleaseEvent(hand)]
      ensures hand.body.isKinematic == if lockHandOnGrab then false else old(hand.body.isKinematic)
      ensures heldBy == [] ==>
        nodeLayers == Relayer(old(nodeLayers), LayerNodes(), old(Layer()), releasingLayer)
        && pendingReset == (if beingDestroyed then None else Some(ResetLayerRoutine(ignoreReleaseTime, releasingLayer)))
        && body.parent == (if !beingDestroyed && stabbedCount == 0 then originalParent else old(body.parent))
      ensures heldBy != [] ==>
        nodeLayers == old(nodeLayers) && pendingReset == old(pendingReset) && body.parent == old(body.parent)
    {
      if lockHandOnGrab {
        hand.body.isKinematic := false;
      }
      heldBy := RemoveFirst(heldBy, hand);
      if |heldBy| == 0 {
        beingHeld := false;
        if !beingDestroyed {
          SetOriginalParent();
        }
        var rootLayer := Layer();
        SetLayerRecursive(rootLayer, releasingLayer);
        pendingReset := if beingDestroyed then None else Some(ResetLayerRoutine(ignoreReleaseTime, releasingLayer));
      }
      events := events + [ForceReleaseEvent(hand)];
    }

    /** The hand's ForceReleaseGrab as this object sees it: when the hand held
        this object, the nested ForceHandRelease removed one occurrence of it
        from heldBy; otherwise heldBy is untouched.  Either way only forced
        events are added. */
    method HandLetsGo(hand: Hand)
      requires Valid()
      requires hand.holdingObj != null ==> hand.holdingObj.Valid()
      modifies this, body, hand, hand.body, hand.HeldFrame()
      ensures Valid() && hand.holdingObj == null
      ensures old(hand.holdingObj) != null ==> old(hand.holdingObj).Valid()
      ensures heldBy == if old(hand.holdingObj) == this then RemoveFirst(old(heldBy), hand) else old(heldBy)
      ensures beingDestroyed == old(beingDestroyed)
      ensures old(events) <= events && ForcedEventsOnly(events[|old(events)|..])
    {
      if hand.holdingObj == this {
        hand.ForceReleaseGrab();
        ghost var unsqueezed := old(events) + if old(hand.squeezing) then [UnsqueezeEvent(hand)] else [];
        ForcedAppend(old(events), old(events), UnsqueezeEvent(hand));
        ForcedAppend(old(events), unsqueezed, ForceReleaseEvent(hand));
        ForcedAppend(old(events), unsqueezed + [ForceReleaseEvent(hand)], ForceReleaseEvent(hand));
      } else {
        hand.ForceReleaseGrab();
        assert heldBy == old(heldBy) && events == old(events);
      }
    }

    /** One turn of ForceHandsRelease: the hand lets go, and while the object
        is still held, it drops the hand once more and is no longer being
        grabbed.  When the hand held this object, its own release already
        removed it from heldBy. */
    method ForceReleaseTurn(hand: Hand)
      requires Valid()
      requires hand.holdingObj != null ==> hand.holdingObj.Valid()
      modifies this, body, hand, hand.body, hand.HeldFrame()
      ensures Valid() && hand.holdingObj == null
      ensures old(hand.holdingObj) != null ==> old(hand.holdingObj).Valid()
      ensures beingDestroyed == old(beingDestroyed)
      ensures old(events) <= events && ForcedEventsOnly(events[|old(events)|..])
      ensures forall h :: h in heldBy ==> h in old(heldBy)
      ensures NoDuplicates(old(heldBy)) && old(heldBy) != [] && old(heldBy)[|old(heldBy)| - 1] == hand ==>
        heldBy == old(heldBy)[..|old(heldBy)| - 1]
    {
      if NoDuplicates(heldBy) && heldBy != [] && heldBy[|heldBy| - 1] == hand {
        RemoveLastTwice(heldBy, hand);
      }
      HandLetsGo(hand);
      ghost var mid := events;
      DropIfHeld(hand);
      if mid != events {
        ForcedAppend(old(events), mid, ForceReleaseEvent(hand));
      }
    }

    /** The rest of a ForceHandsRelease turn: only while the object is still
        held does it drop the hand and stop being grabbed. */
    method DropIfHeld(hand: Hand)
      requires Valid()
      modifies this`heldBy, this`beingHeld, this`nodeLayers, this`pendingReset, this`events, this`beingGrabbed
      modifies body`parent, hand.body`isKinematic
      ensures Valid()
      ensures heldBy == if old(beingHeld) then RemoveFirst(old(heldBy), hand) else old(heldBy)
      ensures events == old(events) + if old(beingHeld) then [ForceReleaseEvent(hand)] else []
    {
      if beingHeld {
        ForcedDrop(hand);
        beingGrabbed := false;
      }
    }

    /** What stays true while ForceHandsRelease walks `holders`, the list it
        started from, down to index i: every hand and every held object is
        valid, no hand holds anything new, and when the list had no
        duplicates, the hands above i have let go and the rest still hold on. */
    ghost predicate ForceWalk(holders: seq<Hand>, i: int)
      reads this, holders, set h | h in holders && h.holdingObj != null :: h.holdingObj
    {
      -1 <= i && Valid()
      && (forall h :: h in heldBy ==> h in holders)
      && (forall h :: h in holders ==> h.holdingObj != null ==> h.holdingObj.Valid())
      && (NoDuplicates(holders) ==>
            i < |holders| && heldBy == holders[..i + 1]
            && (forall j :: i < j < |holders| ==> holders[j].holdingObj == null))
    }

    /** One turn of ForceHandsRelease, on heldBy[i]. */
    method ForceWalkStep(ghost holders: seq<Hand>, i: int)
      requires 0 <= i < |heldBy| && ForceWalk(holders, i)
      modifies this, body, heldBy[i], heldBy[i].body, heldBy[i].HeldFrame()
      ensures ForceWalk(holders, i - 1)
      ensures forall h :: h in holders ==> h.holdingObj == null || h.holdingObj == old(h.holdingObj)
      ensures beingDestroyed == old(beingDestroyed)
      ensures old(events) <= events && ForcedEventsOnly(events[|old(events)|..])
    {
      var hand := heldBy[i];
      assert hand in holders;
      ghost var g := hand.holdingObj;
      ForceReleaseTurn(hand);
      forall h | h in holders && h != hand
        ensures unchanged(h)
        ensures h.holdingObj != null && h.holdingObj != this && h.holdingObj != g ==> unchanged(h.holdingObj)
      {
      }
      if NoDuplicates(holders) {
        assert holders[..i + 1][..i] == holders[..i];
      }
    }

    /** Every holder is made to let go without a throw, last holder first. */
    method ForceHandsRelease()
      requires Valid() && HoldersValid()
      modifies this, body, Holders()
      ensures Valid()
      ensures NoDuplicates(old(heldBy)) ==> heldBy == [] && forall h :: h in old(heldBy) ==> h.holdingObj == null
      ensures forall h :: h in old(heldBy) ==> h.holdingObj == null || h.holdingObj == old(h.holdingObj)
      ensures beingDestroyed == old(beingDestroyed)
      ensures old(events) <= events && ForcedEventsOnly(events[|old(events)|..])
    {
      ghost var holders := heldBy;
      var i := |heldBy| - 1;
      while i >= 0
        invariant ForceWalk(holders, i) && beingDestroyed == old(beingDestroyed)
        invariant forall h :: h in holders ==> h.holdingObj == null || h.holdingObj == old(h.holdingObj)
        invariant old(events) <= events && ForcedEventsOnly(events[|old(events)|..])
        decreases i + 1
      {
        if i >= |heldBy| {
          // heldBy[i] throws ArgumentOutOfRangeException
          break;
        }
        assert heldBy[i] in holders;
        assert heldBy[i].HeldFrame() <= old(Holders());
        ghost var mid := events;
        ForceWalkStep(holders, i);
        ForcedChain(old(events), mid, events);
        i := i - 1;
      }
    }

    /** One hand is made to let go without a throw.  The hand releases first,
        which, when it held this object, removes it from heldBy through the
        nested call; then one more occurrence goes, and the last hand out
        moves the hierarchy to the Releasing layer. */
    method ForceHandRelease(hand: Hand)
      requires Valid()
      requires hand.holdingObj != null ==> hand.holdingObj.Valid()
      modifies this, body, hand, hand.body, hand.HeldFrame()
      ensures Valid() && hand.holdingObj == null
      ensures old(events) <= events && ForcedEventsOnly(events[|old(events)|..])
      ensures heldBy ==
        if old(hand.holdingObj) == this then RemoveFirst(RemoveFirst(old(heldBy), hand), hand)
        else RemoveFirst(old(heldBy), hand)
      ensures old(hand.holdingObj) != this ==>
        events == old(events) + [ForceReleaseEvent(hand)]
        && (heldBy == [] ==>
              nodeLayers == Relayer(old(nodeLayers), LayerNodes(), old(Layer()), releasingLayer)
              && pendingReset == (if beingDestroyed then None else Some(ResetLayerRoutine(ignoreReleaseTime, releasingLayer))))
        && (heldBy != [] ==> nodeLayers == old(nodeLayers) && pendingReset == old(pendingReset))
      ensures old(hand.holdingObj) == null ==>
        unchanged(hand)
        && hand.body.isKinematic == (if lockHandOnGrab then false else old(hand.body.isKinematic))
        && body.parent == (if heldBy == [] && !beingDestroyed && stabbedCount == 0 then originalParent else old(body.parent))
      ensures old(hand.holdingObj) != null ==> hand.Released()
      ensures old(hand.holdingObj) != null && old(hand.holdingObj) != this ==> old(hand.holdingObj).Valid()
    {
      hand.ForceReleaseGrab();
      ghost var mid := events;
      ForcedDrop(hand);
      ForcedAppend(old(events), mid, ForceReleaseEvent(hand));
    }

    /** The hand's joint broke: the pull-apart events fire when the object is
        not restricted to pull-apart breaks or more than one hand holds it,
        and every holder lets go. */
    method OnHandJointBreak(hand: Hand)
      requires Valid() && HoldersValid()
      modifies this, body, Holders()
      ensures Valid()
      ensures old(!pullApartBreakOnly || |heldBy| > 1) ==> old(events) + [JointBreakEvent(hand)] <= events
      ensures !old(!pullApartBreakOnly || |heldBy| > 1) ==> old(events) <= events && JointBreakEvent(hand) !in events[|old(events)|..]
      ensures NoDuplicates(old(heldBy)) ==> heldBy == [] && forall h :: h in old(heldBy) ==> h.holdingObj == null
      ensures forall h :: h in old(heldBy) ==> h.holdingObj == null || h.holdingObj == old(h.holdingObj)
    {
      if !pullApartBreakOnly || |heldBy| > 1 {
        events := events + [JointBreakEvent(hand)];
        body.velocity := body.velocity.Scale(1.0 / 1000.0);
        body.angularVelocity := body.angularVelocity.Scale(1.0 / 1000.0);
      }
      ForceHandsRelease();
    }

    /** isGrabbable turned off since the last physics step: every holder lets go. */
    method FixedUpdate()
      requires Valid() && HoldersValid()
      modifies this, body, Holders()
      ensures Valid() && wasIsGrabbable == isGrabbable
      ensures !(old(wasIsGrabbable) && !old(isGrabbable)) ==> heldBy == old(heldBy) && events == old(events)
      ensures old(wasIsGrabbable) && !old(isGrabbable) && NoDuplicates(old(heldBy)) ==> heldBy == []
    {
      if wasIsGrabbable && !isGrabbable {
        ForceHandsRelease();
      }
      wasIsGrabbable := isGrabbable;
    }

    /** The object is destroyed: it is marked so, and every holder lets go
        without the object being reparented or scheduled for a layer reset. */
    method OnDestroy()
      requires Valid() && HoldersValid()
      modifies this, body, Holders()
      ensures Valid() && beingDestroyed
      ensures NoDuplicates(old(heldBy)) ==> heldBy == []
    {
      beingDestroyed := true;
      ForceHandsRelease();
    }
  }

  type Area = TA.HandTriggerAreaEvents<Hand>
  type Touch = TE.HandTouchEvent<Hand>

  /** A HandPoseArea component, compared by value: the game object it sits
      on, its pose index, the length of its poseAreas array and whether it
      has a pose for each hand. */
  datatype PoseArea = PoseArea(obj: nat, poseIndex: int, poseAreaCount: nat, hasLeftPose: bool, hasRightPose: bool)
  {
    predicate HasPose(isLeft: bool) { if isLeft then hasLeftPose else hasRightPose }
  }

  /** A game object the hand can touch or enter, with the components the hand
      looks for on it; grabChild is a GrabbableChild with its grabParent. */
  datatype GameObj = GameObj(
    id: nat, active: bool,
    area: Option<Area>, touch: Option<Touch>, poseArea: Option<PoseArea>,
    grabbable: Option<Grabbable>, grabChild: Option<Grabbable?>)

  /** The hand's own events and its calls into components that are not part
      of this model, in order. */
  datatype HandEvent =
    | TriggerGrabEvent
    | GrabLockPressedEvent(grab: Grabbable)
    | BeforeGrabbedEvent(grab: Grabbable)
    | GrabbedEvent(grab: Grabbable)
    | BeforeReleasedEvent(grab: Grabbable)
    | ReleasedEvent(grab: Grabbable)
    | ForcedReleaseEvent(grab: Grabbable)
    | HeldConnectionBreakEvent(held: Grabbable?)
    | SqueezedEvent(held: Grabbable?)
    | UnsqueezedEvent(held: Grabbable?)
    | CollisionStartEvent(obj: GameObj)
    | CollisionStopEvent(obj: GameObj)
    | TriggerStartEvent(obj: GameObj)
    | TriggerStopEvent(obj: GameObj)
    | PoseCancelled
    | AreaPoseApplied(area: PoseArea)
    | PrePoseRestored(area: PoseArea)
    | PrePoseSaved
    | HandLocationSet
    | BodyMovedToTarget
    | GrabObjectStarted(grab: Grabbable, point: Vec3, distanceGrab: bool)

  /** How the GrabObject coroutine's entry ends: it gives up, waits a frame
      for another hand to finish grabbing, first takes a single-handed object
      from its holders, or goes on to the grab. */
  datatype GrabEntry = Refused | Waiting | Swapped | Proceed

  /** Whether a grabbable's handType setting admits a hand of the given side. */
  function HandTypeAdmits(t: HandType, isLeft: bool): bool {
    match t
    case Both => true
    case Left => isLeft
    case Right => !isLeft
    case Neither => false
  }

  /** Only forced releases and unsqueezes: what a forced release fires on the object. */
  predicate ForcedEventsOnly(s: seq<GrabbableEvent>) {
    forall e :: e in s ==> e.ForceReleaseEvent? || e.UnsqueezeEvent?
  }

  /** In a list without duplicates, removing its last element once leaves the
      rest, and removing it again changes nothing. */
  lemma RemoveLastTwice<T>(s: seq<T>, x: T)
    requires NoDuplicates(s) && s != [] && s[|s| - 1] == x
    ensures RemoveFirst(s, x) == s[..|s| - 1]
    ensures RemoveFirst(s[..|s| - 1], x) == s[..|s| - 1]
  {
    assert s == s[..|s| - 1] + [x];
    RemoveFirstLast(s[..|s| - 1], x);
    RemoveFirstNoDuplicates(s, x);
  }

  /** The end of a walk that leaves its first i entries as `after` has them
      and the rest as `before` has them: stopped by a throw at k, or run to
      the end with no throw, it leaves the first k entries acted on. */
  lemma WalkDone<T>(states: seq<T>, before: seq<T>, after: seq<T>, k: int, i: int, thrown: bool)
    requires |states| == |before| == |after| && 0 <= i <= |states| && 0 <= k <= |states|
    requires forall j :: 0 <= j < i ==> states[j] == after[j]
    requires forall j :: i <= j < |states| ==> states[j] == before[j]
    requires if thrown then i == k + 1 && k < |states| && after[k] == before[k] else i <= k && i == |states|
    ensures forall j :: 0 <= j < |states| ==> states[j] == if j < k then after[j] else before[j]
  {
  }

  /** Walking a duplicate-free list back from index i: the prefix up to i has
      no duplicates, holds its last element, and dropping that element leaves
      the prefix below i. */
  lemma PrefixTurn<T>(s: seq<T>, i: int)
    requires NoDuplicates(s) && 0 <= i < |s|
    ensures NoDuplicates(s[..i + 1]) && s[i] in s[..i + 1]
    ensures RemoveFirst(s[..i + 1], s[i]) == s[..i]
  {
    var p := s[..i + 1];
    assert NoDuplicates(p) by {
      forall a, b | 0 <= a < b < |p| ensures p[a] != p[b] {
        assert p[a] == s[a] && p[b] == s[b];
      }
    }
    assert p[|p| - 1] == s[i];
    RemoveLastTwice(p, s[i]);
    assert p[..|p| - 1] == s[..i];
  }

  /** A forced event appended to a forced extension keeps it forced. */
  lemma ForcedAppend(base: seq<GrabbableEvent>, mid: seq<GrabbableEvent>, e: GrabbableEvent)
    requires base <= mid && ForcedEventsOnly(mid[|base|..])
    requires e.ForceReleaseEvent? || e.UnsqueezeEvent?
    ensures base <= mid + [e] && ForcedEventsOnly((mid + [e])[|base|..])
  {
    assert (mid + [e])[|base|..] == mid[|base|..] + [e];
  }

  /** Two forced extensions in a row make a forced extension. */
  lemma ForcedChain(a: seq<GrabbableEvent>, b: seq<GrabbableEvent>, c: seq<GrabbableEvent>)
    requires a <= b && ForcedEventsOnly(b[|a|..])
    requires b <= c && ForcedEventsOnly(c[|b|..])
    ensures a <= c && ForcedEventsOnly(c[|a|..])
  {
    assert c[|a|..] == b[|a|..] + c[|b|..];
  }


  /** tryMaxDistanceCount after one MoveTo: a teleport adds 2 while it is
      below 3, and every step takes 1 off a positive count. */
  function NextTryCount(count: int, farAway: bool, teleports: bool): (r: int)
    ensures 0 <= count <= 3 ==> 0 <= r <= 3
  {
    var c := if farAway && teleports && count < 3 then count + 2 else count;
    if c > 0 then c - 1 else c
  }

  /** Whether MoveTo force-releases: far away, holding, and not allowed to
      teleport once more. */
  predicate ForceReleases(count: int, farAway: bool, holding: bool, teleports: bool) {
    farAway && holding && !(teleports && count < 3)
  }

  /** tryMaxDistanceCount after n far-away steps with an object that may teleport. */
  function FarSteps(count: int, n: nat): int
    decreases n
  {
    if n == 0 then count else FarSteps(NextTryCount(count, true, true), n - 1)
  }

  /** With an object that may teleport, each far-away step below 3 adds one,
      so from a count c the step after 3 - c of them force-releases: at most
      the fourth in a row. */
  lemma {:induction false} FarStepsRelease(c: int, n: nat)
    requires 0 <= c <= 3 && n <= 3 - c
    ensures FarSteps(c, n) == c + n
    ensures !ForceReleases(c, true, true, true) <==> c < 3
    ensures n == 3 - c ==> ForceReleases(FarSteps(c, n), true, true, true)
    decreases n
  {
    if n > 0 {
      FarStepsRelease(c + 1, n - 1);
    }
  }

  /** In a list without duplicates the first index of the element at i is i. */
  lemma IndexOfNoDuplicates<T>(s: seq<T>, i: int)
    requires NoDuplicates(s) && 0 <= i < |s|
    ensures IndexOf(s, s[i]) == i
  {
    var r := IndexOf(s, s[i]);
    assert s[r] == s[i];
  }

  /** Appending a new element keeps the list free of duplicates and leaves
      the first index of every earlier element where it was. */
  lemma AppendKeepsIndices<T>(s: seq<T>, x: T)
    requires NoDuplicates(s) && x !in s
    ensures NoDuplicates(s + [x])
    ensures forall y :: y in s ==> IndexOf(s + [x], y) == IndexOf(s, y)
    ensures IndexOf(s + [x], x) == |s|
  {
    var t := s + [x];
    forall i, j | 0 <= i < j < |t| ensures t[i] != t[j] {
      if j == |s| {
        assert t[i] == s[i];
      }
    }
    forall y | y in s ensures IndexOf(t, y) == IndexOf(s, y) {
      var i := IndexOf(s, y);
      assert t[i] == y;
      IndexOfNoDuplicates(t, i);
      IndexOfNoDuplicates(s, i);
    }
    IndexOfNoDuplicates(t, |s|);
  }

  /** Removing the element at index k keeps the list free of duplicates and
      drops that element. */
  lemma RemoveAtNoDuplicates<T>(s: seq<T>, k: int)
    requires NoDuplicates(s) && 0 <= k < |s|
    ensures NoDuplicates(s[..k] + s[k + 1..])
    ensures s[k] !in s[..k] + s[k + 1..]
  {
    var t := s[..k] + s[k + 1..];
    forall i, j | 0 <= i < j < |t| ensures t[i] != t[j] {
      var i' := if i < k then i else i + 1;
      var j' := if j < k then j else j + 1;
      assert t[i] == s[i'] && t[j] == s[j'];
    }
    forall i | 0 <= i < |t| ensures t[i] != s[k] {
      var i' := if i < k then i else i + 1;
      assert t[i] == s[i'];
    }
  }

  /** After removing the element at index k, every other element is found at
      its old index, shifted down past k. */
  lemma RemoveAtKeepsIndices<T>(s: seq<T>, k: int)
    requires NoDuplicates(s) && 0 <= k < |s|
    ensures NoDuplicates(s[..k] + s[k + 1..])
    ensures s[k] !in s[..k] + s[k + 1..]
    ensures forall y :: y in s && y != s[k] ==>
      y in s[..k] + s[k + 1..]
      && IndexOf(s[..k] + s[k + 1..], y) == (if IndexOf(s, y) < k then IndexOf(s, y) else IndexOf(s, y) - 1)
  {
    RemoveAtNoDuplicates(s, k);
    var t := s[..k] + s[k + 1..];
    forall y | y in s && y != s[k]
      ensures y in t && IndexOf(t, y) == (if IndexOf(s, y) < k then IndexOf(s, y) else IndexOf(s, y) - 1)
    {
      var i := IndexOf(s, y);
      var j := if i < k then i else i - 1;
      assert t[j] == y;
      IndexOfNoDuplicates(t, j);
    }
  }

  /** The index of the first area on which the action throws, or the number
      of areas when none does. */
  ghost function FirstThrow(areas: seq<Area>, action: TA.Action): (k: nat)
    reads set a | a in areas
    ensures k <= |areas|
    ensures forall j :: 0 <= j < k ==> !areas[j].Throws(action)
    ensures k < |areas| ==> areas[k].Throws(action)
    decreases |areas|
  {
    if areas == [] then 0
    else if areas[0].Throws(action) then 0
    else
      var k := FirstThrow(areas[1..], action);
      assert forall j :: 1 <= j < 1 + k ==> areas[j] == areas[1..][j - 1];
      1 + k
  }

  class Hand {
    const left: bool
    const body: HandBody
    /** hand.transform.parent */
    const parentTransform: Parent
    var poseIndex: int
    var throwPower: real
    var throwVelocityExpireTime: real
    var grabTime: real
    var grabReturnTime: real

    var holdingObj: Grabbable?
    var grabbing: bool
    var grabLocked: bool
    var squeezing: bool
    /** grabPose != null */
    var hasGrabPose: bool
    var grabPositionOffset: Vec3
    var grabRotationOffset: Quat
    /** the generated grab point and the two fixed joints exist */
    var hasGrabPoint: bool
    var hasJoints: bool
    var freezePos: bool
    var freezeRot: bool
    var followPositionStrength: real
    var lookAssistSpeed: real

    var throwVelocities: seq<VelocityTimePair>
    var throwAngularVelocities: seq<VelocityTimePair>
    var triggerEventAreas: seq<Area>
    var triggerAreasCount: seq<int>
    var collisions: seq<GameObj>
    var handPoseArea: Option<PoseArea>
    var triggerCount: int
    var tryMaxDistanceCount: int
    var trace: seq<HandEvent>
    /** the startHoldingObj of the running GrabObject coroutine */
    var grabStart: Grabbable?

    ghost predicate Valid()
      reads this
    {
      Bookkept() && (grabLocked ==> holdingObj != null)
    }

    /** The hand's own registers: the two throw buffers sampled at the same
        instants, the trigger areas and their counts aligned and at least 1,
        and the pose-area count positive exactly while a pose area is set. */
    ghost predicate Bookkept()
      reads this`throwVelocities, this`throwAngularVelocities, this`triggerEventAreas, this`triggerAreasCount
      reads this`handPoseArea, this`triggerCount, this`tryMaxDistanceCount
    {
      Times(throwVelocities) == Times(throwAngularVelocities)
      && |triggerEventAreas| == |triggerAreasCount| && NoDuplicates(triggerEventAreas)
      && (forall i :: 0 <= i < |triggerAreasCount| ==> triggerAreasCount[i] >= 1)
      && (handPoseArea.None? ==> triggerCount == 0) && (handPoseArea.Some? ==> triggerCount >= 1)
      && 0 <= tryMaxDistanceCount <= 3
    }

    constructor (left: bool, body: HandBody, parentTransform: Parent)
      ensures Valid() && this.left == left && this.body == body && this.parentTransform == parentTransform
      ensures Released() && !grabbing && !squeezing && !freezePos && !freezeRot
      ensures lookAssistSpeed == 1.0
      ensures followPositionStrength == 80.0 && throwPower == 2.0 && throwVelocityExpireTime == 0.2 && grabTime == 0.0 && grabReturnTime == 0.0 && poseIndex == 0
      ensures throwVelocities == [] && throwAngularVelocities == [] && triggerEventAreas == [] && collisions == []
      ensures handPoseArea == None && tryMaxDistanceCount == 0 && trace == []
    {
      this.left := left;
      this.body := body;
      this.parentTransform := parentTransform;
      poseIndex := 0;
      throwPower := 2.0;
      throwVelocityExpireTime := 0.2;
      grabTime := 0.0;
      grabReturnTime := 0.0;
      holdingObj := null;
      grabbing := false;
      grabLocked := false;
      squeezing := false;
      hasGrabPose := false;
      grabPositionOffset := Zero;
      grabRotationOffset := Identity;
      hasGrabPoint := false;
      hasJoints := false;
      freezePos := false;
      freezeRot := false;
      followPositionStrength := 80.0;
      lookAssistSpeed := 1.0;
      throwVelocities := [];
      throwAngularVelocities := [];
      triggerEventAreas := [];
      triggerAreasCount := [];
      collisions := [];
      handPoseArea := None;
      triggerCount := 0;
      tryMaxDistanceCount := 0;
      trace := [];
      grabStart := null;
    }

    /** The held object and its body: what letting go of it may change. */
    ghost function HeldFrame(): set<object>
      reads this
    {
      if holdingObj == null then {} else {holdingObj, holdingObj.body}
    }

    ghost function HeldBody(): set<object>
      reads this
    {
      if holdingObj == null then {} else {holdingObj.body}
    }

    /** No grab connection is left: the state BreakGrabConnection leaves. */
    ghost predicate Released()
      reads this
    {
      holdingObj == null && !grabLocked && !hasGrabPose && grabPositionOffset == Zero
      && grabRotationOffset == Identity && !hasGrabPoint && !hasJoints
    }

    /** Whether this hand may grab the object, from the object's settings. */
    function CanGrab(grab: Grabbable): (r: bool)
      reads grab
      ensures r <==> grab.enabled && grab.isGrabbable && HandTypeAdmits(grab.handType, left)
                     && !(grab.beingHeld && grab.singleHandOnly && !grab.allowHeldSwapping)
    {
      var cantHandSwap := grab.beingHeld && grab.singleHandOnly && !grab.allowHeldSwapping;
      !(cantHandSwap || !grab.enabled || !grab.isGrabbable || grab.handType == Neither
        || (grab.handType == Left && !left) || (grab.handType == Right && left))
    }

    /** The grabbable of a hit object: its own component, else the parent of its
        GrabbableChild (which may be null), else none. */
    function HasGrabbable(obj: Option<GameObj>): (r: (bool, Grabbable?))
      ensures r.0 <==> obj.Some? && (obj.value.grabbable.Some? || obj.value.grabChild.Some?)
      ensures !r.0 ==> r.1 == null
      ensures obj.Some? && obj.value.grabbable.Some? ==> r.1 == obj.value.grabbable.value
      ensures obj.Some? && obj.value.grabbable.None? && obj.value.grabChild.Some? ==> r.1 == obj.value.grabChild.value
    {
      if obj.None? then (false, null)
      else if obj.value.grabbable.Some? then (true, obj.value.grabbable.value)
      else if obj.value.grabChild.Some? then (true, obj.value.grabChild.value)
      else (false, null)
    }

    /** The throw velocity: zero while grabbing, else the mean of the buffered
        velocities, or the body velocity when the buffer is empty, times throwPower. */
    function ThrownVelocity(): Vec3
      reads this, body`velocity
    {
      if grabbing then Zero
      else if |throwVelocities| > 0 then MeanVelocity(throwVelocities).Scale(throwPower)
      else body.velocity.Scale(throwPower)
    }

    /** The unscaled mean of the buffered angular velocities, zero when the
        buffer is empty or while grabbing. */
    function ThrownAngularVelocity(): Vec3
      reads this
    {
      if grabbing || |throwAngularVelocities| == 0 then Zero
      else MeanVelocity(throwAngularVelocities)
    }

    method ThrowVelocity() returns (v: Vec3)
      ensures v == ThrownVelocity()
    {
      if grabbing {
        return Zero;
      }
      var averageVelocity := Zero;
      if |throwVelocities| > 0 {
        var total := SumVelocities(throwVelocities);
        averageVelocity := total.Scale(1.0 / |throwVelocities| as real);
      } else {
        averageVelocity := body.velocity;
      }
      v := averageVelocity.Scale(throwPower);
    }

    method ThrowAngularVelocity() returns (v: Vec3)
      ensures v == ThrownAngularVelocity()
    {
      if grabbing {
        return Zero;
      }
      v := Zero;
      if |throwAngularVelocities| > 0 {
        var total := SumVelocities(throwAngularVelocities);
        v := total.Scale(1.0 / |throwAngularVelocities| as real);
      }
    }

    /** One physics step of the throw buffers: while holding and not grabbing,
        a sample of the hand velocity and of the held object's angular
        velocity is added and every sample that has reached the expiry age is
        dropped; otherwise both buffers are emptied. */
    method UpdateThrowing(now: real)
      requires Valid()
      modifies this`throwVelocities, this`throwAngularVelocities
      ensures Valid()
      ensures holdingObj == null || grabbing ==> throwVelocities == [] && throwAngularVelocities == []
      ensures holdingObj != null && !grabbing ==>
        throwVelocities == Fresh(old(throwVelocities) + [VelocityTimePair(now, body.velocity)], now, throwVelocityExpireTime)
        && throwAngularVelocities ==
           Fresh(old(throwAngularVelocities) + [VelocityTimePair(now, holdingObj.body.angularVelocity)], now, throwVelocityExpireTime)
      ensures forall p :: p in throwVelocities ==> now - p.time < throwVelocityExpireTime
      ensures forall p :: p in throwAngularVelocities ==> now - p.time < throwVelocityExpireTime
    {
      if holdingObj == null || grabbing {
        if |throwVelocities| > 0 {
          throwVelocities := [];
          throwAngularVelocities := [];
        }
        return;
      }
      var samples := throwVelocities + [VelocityTimePair(now, body.velocity)];
      throwVelocities := RemoveExpired(samples, now, throwVelocityExpireTime);
      var angular := throwAngularVelocities + [VelocityTimePair(now, holdingObj.body.angularVelocity)];
      throwAngularVelocities := RemoveExpired(angular, now, throwVelocityExpireTime);
      assert Times(samples) == Times(angular) by {
        assert Times(samples) == Times(old(throwVelocities)) + [now];
        assert Times(angular) == Times(old(throwAngularVelocities)) + [now];
      }
      FreshAligned(samples, angular, now, throwVelocityExpireTime);
      forall p | p in throwVelocities ensures now - p.time < throwVelocityExpireTime {
        FreshExactly(samples, now, throwVelocityExpireTime, p);
      }
      forall p | p in throwAngularVelocities ensures now - p.time < throwVelocityExpireTime {
        FreshExactly(angular, now, throwVelocityExpireTime, p);
      }
    }

    /** Ends the grab connection: the held object, when the hand was still
        grabbing it, is stopped and reparented; then every part of the
        connection is cleared. */
    method BreakGrabConnection()
      modifies this`holdingObj, this`grabLocked, this`hasGrabPose, this`grabPositionOffset
      modifies this`grabRotationOffset, this`hasGrabPoint, this`hasJoints, this`trace, HeldBody()
      ensures Released()
      ensures trace == old(trace) + [HeldConnectionBreakEvent(old(holdingObj))]
      ensures var g := old(holdingObj);
        g != null && old(grabbing) ==>
          g.body.velocity == Zero && g.body.angularVelocity == Zero
          && g.body.parent == (if g.stabbedCount == 0 then g.originalParent else old(g.body.parent))
      ensures old(holdingObj) != null && !old(grabbing) ==> unchanged(old(holdingObj).body)
    {
      if grabbing && holdingObj != null {
        holdingObj.body.velocity := Zero;
        holdingObj.body.angularVelocity := Zero;
        holdingObj.SetOriginalParent();
      }
      grabLocked := false;
      hasGrabPose := false;
      grabPositionOffset := Zero;
      grabRotationOffset := Identity;
      hasGrabPoint := false;
      hasJoints := false;
      trace := trace + [HeldConnectionBreakEvent(holdingObj)];
      holdingObj := null;
    }

    /** Lets go without a throw and without the release event; the object is
        told last, once holdingObj is already null.  The object's
        ForceHandRelease starts by calling back into this method, which then
        does nothing, so what it does for this hand is ForcedDrop, called here
        directly (ForceHandRelease states that equivalence for a hand that
        holds nothing). */
    method ForceReleaseGrab()
      requires holdingObj != null ==> holdingObj.Valid()
      modifies this`holdingObj, this`grabLocked, this`hasGrabPose, this`grabPositionOffset
      modifies this`grabRotationOffset, this`hasGrabPoint, this`hasJoints, this`trace, body`isKinematic, HeldFrame()
      ensures holdingObj == null
      ensures old(holdingObj) == null ==> unchanged(this) && unchanged(body)
      ensures var g := old(holdingObj);
        g != null ==>
          Released() && g.Valid()
          && trace == old(trace) + [ForcedReleaseEvent(g), HeldConnectionBreakEvent(g)]
          && g.heldBy == RemoveFirst(old(g.heldBy), this)
          && g.events == old(g.events) + (if old(squeezing) then [UnsqueezeEvent(this)] else [])
                        + [ForceReleaseEvent(this), ForceReleaseEvent(this)]
          && body.isKinematic == (if g.lockHandOnGrab then false else old(body.isKinematic))
          && g.beingDestroyed == old(g.beingDestroyed)
    {
      if holdingObj != null {
        var g := holdingObj;
        if squeezing {
          g.OnUnsqueeze(this);
        }
        trace := trace + [ForcedReleaseEvent(g)];
        g.events := g.events + [ForceReleaseEvent(this)];
        BreakGrabConnection();
        g.ForcedDrop(this);
      }
    }

    /** Lets go of the held object with the release event: the object is told
        first, then the grab connection is broken; `thrown` says whether the
        release may throw the object. */
    method ReleaseThrowing(thrown: bool)
      requires holdingObj != null ==> holdingObj.Valid()
      modifies this`holdingObj, this`grabLocked, this`hasGrabPose, this`grabPositionOffset
      modifies this`grabRotationOffset, this`hasGrabPoint, this`hasJoints, this`trace, body`isKinematic, HeldFrame()
      ensures Released()
      ensures old(holdingObj) == null ==> trace == old(trace) + [HeldConnectionBreakEvent(null)] && unchanged(body)
      ensures var g := old(holdingObj);
        g != null ==>
          var released := old(g.beingHeld) && this in old(g.heldBy);
          g.Valid()
          && trace == old(trace) + [BeforeReleasedEvent(g), ReleasedEvent(g), HeldConnectionBreakEvent(g)]
          && g.heldBy == (if released then RemoveFirst(old(g.heldBy), this) else old(g.heldBy))
          && g.events == old(g.events) + (if old(squeezing) then [UnsqueezeEvent(this)] else [])
                        + (if released then [ReleaseEvent(this)] else [])
          && (released && !thrown ==> g.body.velocity == Zero && g.body.angularVelocity == Zero)
    {
      if holdingObj != null {
        var g := holdingObj;
        trace := trace + [BeforeReleasedEvent(g)];
        if squeezing {
          g.OnUnsqueeze(this);
        }
        g.OnRelease(this, thrown);
        trace := trace + [ReleasedEvent(g)];
        BreakGrabConnection();
      } else {
        BreakGrabConnection();
      }
    }

    /** Releases with a throw, the path a grab lock takes. */
    method ReleaseGrabLock()
      requires holdingObj != null ==> holdingObj.Valid()
      modifies this`holdingObj, this`grabLocked, this`hasGrabPose, this`grabPositionOffset
      modifies this`grabRotationOffset, this`hasGrabPoint, this`hasJoints, this`trace, body`isKinematic, HeldFrame()
      ensures Released()
      ensures old(holdingObj) == null ==> trace == old(trace) + [HeldConnectionBreakEvent(null)] && unchanged(body)
      ensures var g := old(holdingObj);
        g != null ==>
          var released := old(g.beingHeld) && this in old(g.heldBy);
          g.Valid()
          && trace == old(trace) + [BeforeReleasedEvent(g), ReleasedEvent(g), HeldConnectionBreakEvent(g)]
          && g.heldBy == (if released then RemoveFirst(old(g.heldBy), this) else old(g.heldBy))
          && g.events == old(g.events) + (if old(squeezing) then [UnsqueezeEvent(this)] else [])
                        + (if released then [ReleaseEvent(this)] else [])
    {
      ReleaseThrowing(true);
    }

    /** The held part of the trigger release: an object with a grab lock keeps
        the hand on it, untouched; otherwise the hand lets go, throwing unless
        the object is still on the Grabbing layer. */
    method ReleaseHeld()
      requires holdingObj != null ==> holdingObj.Valid()
      modifies this`holdingObj, this`grabLocked, this`hasGrabPose, this`grabPositionOffset
      modifies this`grabRotationOffset, this`hasGrabPoint, this`hasJoints, this`trace, body`isKinematic, HeldFrame()
      ensures old(holdingObj) != null && old(holdingObj.hasGrabLock) ==>
        unchanged(this) && unchanged(body) && unchanged(old(holdingObj)) && unchanged(old(holdingObj).body)
      ensures !(old(holdingObj) != null && old(holdingObj.hasGrabLock)) ==> Released()
      ensures var g := old(holdingObj);
        g != null && !old(g.hasGrabLock) ==>
          var released := old(g.beingHeld) && this in old(g.heldBy);
          g.Valid()
          && trace == old(trace) + [BeforeReleasedEvent(g), ReleasedEvent(g), HeldConnectionBreakEvent(g)]
          && g.heldBy == (if released then RemoveFirst(old(g.heldBy), this) else old(g.heldBy))
          && (released && old(g.Layer()) == g.grabbingLayer ==> g.body.velocity == Zero && g.body.angularVelocity == Zero)
    {
      if holdingObj != null && holdingObj.hasGrabLock {
        return;
      }
      var thrown := holdingObj != null && holdingObj.Layer() != holdingObj.grabbingLayer;
      ReleaseThrowing(thrown);
    }

    /** The objects of the trigger areas the hand is in. */
    ghost function AreaSet(): set<Area>
      reads this`triggerEventAreas
    {
      set a | a in triggerEventAreas
    }

    ghost predicate AreasValid()
      reads this`triggerEventAreas, AreaSet()
    {
      NoDuplicates(triggerEventAreas) && forall a | a in triggerEventAreas :: a.Valid()
    }

    /** The held object, as a frame. */
    ghost function HeldObj(): set<object>
      reads this
    {
      if holdingObj == null then {} else {holdingObj}
    }

    /** The latches of the areas, in list order. */
    ghost function States(): (r: seq<TA.Latches<Hand>>)
      reads this`triggerEventAreas, AreaSet()
      ensures |r| == |triggerEventAreas|
      ensures forall j :: 0 <= j < |r| ==> r[j] == triggerEventAreas[j].State()
    {
      var areas := triggerEventAreas;
      seq(|areas|, j requires 0 <= j < |areas| reads set a | a in areas => areas[j].State())
    }

    /** What passing an action to the areas leaves: the areas before the first
        one that throws act on it, and that one and those after it keep their
        state. */
    ghost function Outcome(action: TA.Action): (r: seq<TA.Latches<Hand>>)
      reads this`triggerEventAreas, AreaSet()
      ensures |r| == |triggerEventAreas|
      ensures forall j :: 0 <= j < |r| ==>
        r[j] == if j < FirstThrow(triggerEventAreas, action) then triggerEventAreas[j].After(action, this)
                else triggerEventAreas[j].State()
    {
      var k := FirstThrow(triggerEventAreas, action);
      var areas := triggerEventAreas;
      seq(|areas|, j requires 0 <= j < |areas| reads set a | a in areas =>
        if j < k then areas[j].After(action, this) else areas[j].State())
    }

    /** How far AreasAct has come, against the states the areas had before
        it: the first i areas are in their state after the action; the rest
        are as they were, and would throw as recorded in `throws`. */
    ghost predicate AreaWalk(action: TA.Action, before: seq<TA.Latches<Hand>>, after: seq<TA.Latches<Hand>>,
                             throws: seq<bool>, i: int)
      reads this`triggerEventAreas, AreaSet()
    {
      |before| == |triggerEventAreas| && |after| == |triggerEventAreas| && |throws| == |triggerEventAreas|
      && 0 <= i <= |triggerEventAreas| && AreasValid()
      && (forall j :: 0 <= j < i ==> triggerEventAreas[j].State() == after[j])
      && (forall j :: i <= j < |triggerEventAreas| ==>
            triggerEventAreas[j].State() == before[j] && triggerEventAreas[j].After(action, this) == after[j]
            && triggerEventAreas[j].Throws(action) == throws[j])
    }

    /** One turn of AreasAct, on the area at i. */
    method AreaTurn(action: TA.Action, ghost before: seq<TA.Latches<Hand>>, ghost after: seq<TA.Latches<Hand>>,
                    ghost throws: seq<bool>, i: int) returns (thrown: bool)
      requires 0 <= i < |triggerEventAreas| && AreaWalk(action, before, after, throws, i)
      modifies triggerEventAreas[i]
      ensures AreaWalk(action, before, after, throws, i + 1)
      ensures thrown == throws[i]
    {
      var area := triggerEventAreas[i];
      thrown := area.Act(action, this);
      forall j | 0 <= j < |triggerEventAreas| && j != i ensures unchanged(triggerEventAreas[j]) {
        assert triggerEventAreas[j] != area;
      }
    }

    /** The loop of AreasAct, against its snapshots; k is the first area that throws. */
    method AreasLoop(action: TA.Action, ghost before: seq<TA.Latches<Hand>>, ghost after: seq<TA.Latches<Hand>>,
                     ghost throws: seq<bool>, ghost k: int) returns (thrown: bool)
      requires AreaWalk(action, before, after, throws, 0) && 0 <= k <= |triggerEventAreas|
      requires forall j :: 0 <= j < k ==> !throws[j]
      requires k < |triggerEventAreas| ==> throws[k]
      requires k < |triggerEventAreas| ==> after[k] == before[k]
      modifies AreaSet()
      ensures AreasValid() && thrown == (k < |triggerEventAreas|)
      ensures forall j :: 0 <= j < |triggerEventAreas| ==> States()[j] == if j < k then after[j] else before[j]
    {
      var i := 0;
      thrown := false;
      while i < |triggerEventAreas| && !thrown
        invariant AreaWalk(action, before, after, throws, i) && triggerEventAreas == old(triggerEventAreas)
        invariant if thrown then i == k + 1 else i <= k
        decreases |triggerEventAreas| - i
      {
        assert triggerEventAreas[i] in AreaSet();
        thrown := AreaTurn(action, before, after, throws, i);
        i := i + 1;
      }
      WalkDone(States(), before, after, k, i, thrown);
    }

    /** The foreach over triggerEventAreas that passes an action on: the areas
        before the first one that throws act, and the exception leaves the
        loop there. */
    method AreasAct(action: TA.Action) returns (thrown: bool)
      requires AreasValid()
      modifies AreaSet()
      ensures AreasValid()
      ensures thrown == old(FirstThrow(triggerEventAreas, action) < |triggerEventAreas|)
      ensures States() == old(Outcome(action))
    {
      ghost var k := FirstThrow(triggerEventAreas, action);
      ghost var n := |triggerEventAreas|;
      ghost var areas := triggerEventAreas;
      ghost var before := States();
      ghost var after := seq(n, j requires 0 <= j < |areas| reads set a | a in areas => areas[j].After(action, this));
      ghost var throws := seq(n, j requires 0 <= j < |areas| reads set a | a in areas => areas[j].Throws(action));
      assert forall j :: 0 <= j < k ==> !throws[j];
      assert k < n ==> throws[k] && after[k] == before[k];
      thrown := AreasLoop(action, before, after, throws, k);
    }

    /** The trigger press.  The areas are told first, and an exception from
        one of them is swallowed; then the hand itself reacts.  `thrown`
        reports the exception the hand's own part raises, which nothing in
        Grab() catches. */
    method Grab(hits: seq<Hit<Grabbable?>>, palm: Vec3, active: bool) returns (thrown: bool)
      requires AreasValid()
      modifies this`trace, AreaSet()
      ensures AreasValid()
      ensures States() == old(Outcome(TA.GrabAction))
      ensures thrown <==> !grabbing && holdingObj == null && NullHit(hits)
      ensures trace == old(trace) + [TriggerGrabEvent] + GrabPressed(hits, palm, active)
    {
      trace := trace + [TriggerGrabEvent];
      var _ := AreasAct(TA.GrabAction);
      thrown := GrabPress(hits, palm, active);
    }

    /** Whether some hit carries no grabbable: a GrabbableChild whose
        grabParent is unset, or a destroyed component.  HandClosestHit reads
        the grabDistancePriority of every hit's grabbable, so such a hit makes
        it throw. */
    predicate NullHit(hits: seq<Hit<Grabbable?>>) {
      exists i :: 0 <= i < |hits| && hits[i].grabbable == null
    }

    /** What the hand does on the trigger press, as events: an empty hand that
        is not grabbing starts GrabObject on the closest hit, when the mean
        direction to the hits is not zero and the hit has a grabbable, and a
        hand that holds an object with a grab lock presses that lock.  When a
        hit without a grabbable makes HandClosestHit throw, nothing starts. */
    function GrabPressed(hits: seq<Hit<Grabbable?>>, palm: Vec3, active: bool): (r: seq<HandEvent>)
      reads this, holdingObj
      ensures |r| <= 1
      ensures grabbing || holdingObj != null ==> forall e :: e in r ==> !e.GrabObjectStarted?
      ensures holdingObj == null ==> forall e :: e in r ==> !e.GrabLockPressedEvent?
      ensures NullHit(hits) ==> forall e :: e in r ==> !e.GrabObjectStarted?
    {
      if !grabbing && holdingObj == null then
        if !NullHit(hits) && hits != [] && OffsetSum(hits, palm).Scale(1.0 / |hits| as real) != Zero
           && hits[ClosestAsWritten(hits)].grabbable != null && active
        then [GrabObjectStarted(hits[ClosestAsWritten(hits)].grabbable, hits[ClosestAsWritten(hits)].point, false)] else []
      else if holdingObj != null && holdingObj.hasGrabLock then [GrabLockPressedEvent(holdingObj)]
      else []
    }

    /** The hand's part of Grab(): it changes nothing but its events, and
        reports the null reference HandClosestHit raises on a hit without a
        grabbable. */
    method GrabPress(hits: seq<Hit<Grabbable?>>, palm: Vec3, active: bool) returns (thrown: bool)
      modifies this`trace
      ensures thrown <==> !grabbing && holdingObj == null && NullHit(hits)
      ensures trace == old(trace) + GrabPressed(hits, palm, active)
    {
      thrown := false;
      if !grabbing && holdingObj == null {
        if exists i :: 0 <= i < |hits| && hits[i].grabbable == null {
          return true;
        }
        var dir, closest := HandClosestHit(hits, palm);
        if dir != Zero && closest.Some? && hits[closest.value].grabbable != null && active {
          trace := trace + [GrabObjectStarted(hits[closest.value].grabbable, hits[closest.value].point, false)];
        }
      } else if holdingObj != null {
        if holdingObj.hasGrabLock {
          trace := trace + [GrabLockPressedEvent(holdingObj)];
        }
      }
    }

    /** Whether Grab(hit, grab) starts GrabObject. */
    predicate GrabHitStarts(grab: Grabbable)
      reads this`grabbing, this`holdingObj, grab, grab.body
    {
      !grabbing && holdingObj == null && CanGrab(grab) && !grab.body.isKinematic && !grab.body.hasConstraints
    }

    /** Grab(hit, grab), the distance grabber's entry: GrabObject starts, as a
        distance grab, only for an empty hand that is not grabbing, an object it
        may grab and a body that is neither kinematic nor constrained. */
    method GrabHit(point: Vec3, grab: Grabbable)
      modifies this`trace
      ensures trace == old(trace) + if GrabHitStarts(grab) then [GrabObjectStarted(grab, point, true)] else []
    {
      var objectFree := !grab.body.isKinematic && !grab.body.hasConstraints;
      if !grabbing && holdingObj == null && CanGrab(grab) && objectFree {
        trace := trace + [GrabObjectStarted(grab, point, true)];
      }
    }

    /** The entry of GrabObject.  Nothing happens for an object this hand may
        not grab; while another hand is still grabbing the object the
        coroutine waits; a single-handed object that is still held is first
        taken from every holder. */
    method GrabObjectEntry(grab: Grabbable) returns (entry: GrabEntry)
      requires grab.Valid() && grab.HoldersValid()
      modifies grab, grab.body, grab.Holders()
      ensures entry == Refused <==> !old(CanGrab(grab))
      ensures entry == Waiting <==> old(CanGrab(grab)) && old(grab.beingGrabbed)
      ensures entry == Swapped <==> old(CanGrab(grab)) && !old(grab.beingGrabbed) && old(grab.singleHandOnly) && old(grab.HeldCount()) > 0
      ensures entry != Swapped ==> unchanged(grab) && unchanged(grab.body) && unchanged(old(grab.Holders()))
      ensures entry == Swapped ==>
        grab.Valid() && (NoDuplicates(old(grab.heldBy)) ==> grab.heldBy == [] && forall h :: h in old(grab.heldBy) ==> h.holdingObj == null)
    {
      if !CanGrab(grab) {
        return Refused;
      }
      if grab.beingGrabbed {
        return Waiting;
      }
      if grab.singleHandOnly && grab.HeldCount() > 0 {
        grab.ForceHandsRelease();
        return Swapped;
      }
      return Proceed;
    }

    /** GrabObject once past its entry: the hand takes hold of the object
        (TakeHold), the object's hierarchy moves from its layer to the
        Grabbing layer, the grab point is made and the hand is grabbing with
        its rotation frozen. */
    method BeginGrab(grab: Grabbable)
      requires Valid() && grab.Valid()
      modifies this`holdingObj, this`grabStart, this`grabbing, this`freezeRot, this`hasGrabPoint
      modifies this`handPoseArea, this`triggerCount, this`trace
      modifies grab`hightlighting, grab`events, grab`beingGrabbed, grab`pendingReset, grab`nodeLayers, grab.body`parent
      modifies grab.jointedBodies`parent
      ensures Valid() && grab.Valid()
      ensures grab.parentOnGrab ==>
        grab.body.parent == parentTransform && forall jb :: jb in grab.jointedBodies ==> jb.parent == parentTransform
      ensures holdingObj == grab && grabStart == grab && grabbing && freezeRot && hasGrabPoint
      ensures handPoseArea == None && triggerCount == 0
      ensures grab.beingGrabbed && !grab.hightlighting && grab.pendingReset == None
      ensures grab.nodeLayers == Relayer(old(grab.nodeLayers), grab.LayerNodes(), old(grab.Layer()), grab.grabbingLayer)
      ensures grab.events == old(grab.events) + (if old(grab.hightlighting) then [UnhighlightEvent(this)] else []) + [BeforeGrabEvent(this)]
      ensures trace == old(trace) + [BeforeGrabbedEvent(grab)]
    {
      TakeHold(grab);
      grab.SetLayerRecursive(grab.Layer(), grab.grabbingLayer);
      hasGrabPoint := true;
      grabbing := true;
      freezeRot := true;
    }

    /** The object is unhighlighted, the pose area is cleared, and the object
        becomes the held object and is told the grab has begun. */
    method TakeHold(grab: Grabbable)
      requires Valid() && grab.Valid()
      modifies this`holdingObj, this`grabStart, this`handPoseArea, this`triggerCount, this`trace
      modifies grab`hightlighting, grab`events, grab`beingGrabbed, grab`pendingReset, grab.body`parent
      modifies grab.jointedBodies`parent
      ensures Valid() && grab.Valid()
      ensures grab.parentOnGrab ==>
        grab.body.parent == parentTransform && forall jb :: jb in grab.jointedBodies ==> jb.parent == parentTransform
      ensures holdingObj == grab && grabStart == grab && handPoseArea == None && triggerCount == 0
      ensures grab.beingGrabbed && !grab.hightlighting && grab.pendingReset == None
      ensures grab.events == old(grab.events) + (if old(grab.hightlighting) then [UnhighlightEvent(this)] else []) + [BeforeGrabEvent(this)]
      ensures trace == old(trace) + [BeforeGrabbedEvent(grab)]
    {
      grab.Unhighlight(this);
      ClearPoseArea();
      holdingObj := grab;
      grabStart := grab;
      grab.OnBeforeGrab(this);
      trace := trace + [BeforeGrabbedEvent(grab)];
    }

    /** The abort path of GrabObject, taken when the held object was let go
        of while the hand was still reaching for it: the grab connection is
        broken, the object it started with is no longer being grabbed, and the
        hand stops grabbing and unfreezes. */
    method AbortGrab()
      requires grabStart != null && holdingObj == null
      modifies this`holdingObj, this`grabLocked, this`hasGrabPose, this`grabPositionOffset
      modifies this`grabRotationOffset, this`hasGrabPoint, this`hasJoints, this`trace
      modifies this`freezePos, this`freezeRot, this`grabbing, grabStart`beingGrabbed
      ensures Released() && !grabbing && !freezePos && !freezeRot && !grabStart.beingGrabbed
      ensures trace == old(trace) + [HeldConnectionBreakEvent(null)]
    {
      BreakGrabConnection();
      grabStart.beingGrabbed := false;
      freezePos := false;
      freezeRot := false;
      grabbing := false;
    }

    /** GrabObject after posing: aborts when the object was let go of;
        otherwise the two joints connect hand and object, the object is told
        it is held, and the hand is grab-locked. */
    method ConnectGrab()
      requires Valid() && grabStart != null && (holdingObj != null ==> holdingObj.Valid())
      modifies this`holdingObj, this`grabLocked, this`hasGrabPose, this`grabPositionOffset
      modifies this`grabRotationOffset, this`hasGrabPoint, this`hasJoints, this`trace
      modifies this`freezePos, this`freezeRot, this`grabbing, grabStart`beingGrabbed
      modifies HeldObj(), body`isKinematic
      ensures Valid()
      ensures old(holdingObj) == null ==>
        Released() && !grabbing && !freezePos && !freezeRot && !grabStart.beingGrabbed
        && trace == old(trace) + [HeldConnectionBreakEvent(null)]
      ensures var g := old(holdingObj);
        g != null ==>
          holdingObj == g && grabLocked && hasJoints && g.Valid()
          && g.heldBy == old(g.heldBy) + [this] && g.beingHeld && !g.beingGrabbed && !g.throwing
          && g.events == old(g.events) + [GrabEvent(this)]
          && trace == old(trace) + [GrabbedEvent(g)]
          && grabbing == old(grabbing) && freezePos == old(freezePos) && freezeRot == old(freezeRot)
    {
      if holdingObj == null {
        AbortGrab();
        return;
      }
      hasJoints := true;
      trace := trace + [GrabbedEvent(holdingObj)];
      holdingObj.OnGrab(this);
      grabLocked := true;
    }

    /** The last step of GrabObject: aborts when the object was let go of
        during the return of the hand; otherwise the hand stops grabbing and
        unfreezes, still holding the object. */
    method FinishGrab()
      requires grabStart != null
      modifies this`holdingObj, this`grabLocked, this`hasGrabPose, this`grabPositionOffset
      modifies this`grabRotationOffset, this`hasGrabPoint, this`hasJoints, this`trace
      modifies this`freezePos, this`freezeRot, this`grabbing, grabStart`beingGrabbed
      ensures !grabbing && !freezePos && !freezeRot
      ensures old(holdingObj) == null ==>
        Released() && !grabStart.beingGrabbed && trace == old(trace) + [HeldConnectionBreakEvent(null)]
      ensures old(holdingObj) != null ==>
        holdingObj == old(holdingObj) && grabLocked == old(grabLocked) && hasJoints == old(hasJoints)
        && trace == old(trace) && unchanged(grabStart)
    {
      if holdingObj == null {
        AbortGrab();
        return;
      }
      freezePos := false;
      freezeRot := false;
      grabbing := false;
    }

    /** The trigger release.  The areas are told first; an exception from one
        of them leaves Release before the held object is looked at. */
    method Release() returns (thrown: bool)
      requires AreasValid() && (holdingObj != null ==> holdingObj.Valid())
      modifies this`holdingObj, this`grabLocked, this`hasGrabPose, this`grabPositionOffset
      modifies this`grabRotationOffset, this`hasGrabPoint, this`hasJoints, this`trace, body`isKinematic, HeldFrame()
      modifies AreaSet()
      ensures AreasValid()
      ensures thrown == old(FirstThrow(triggerEventAreas, TA.ReleaseAction) < |triggerEventAreas|)
      ensures States() == old(Outcome(TA.ReleaseAction))
      ensures thrown || (old(holdingObj) != null && old(holdingObj.hasGrabLock)) ==>
        holdingObj == old(holdingObj) && trace == old(trace) && grabLocked == old(grabLocked) && unchanged(body)
        && (old(holdingObj) != null ==> unchanged(old(holdingObj)) && unchanged(old(holdingObj).body))
      ensures !thrown && !(old(holdingObj) != null && old(holdingObj.hasGrabLock)) ==> Released()
      ensures var g := old(holdingObj);
        !thrown && g != null && !old(g.hasGrabLock) ==>
          var released := old(g.beingHeld) && this in old(g.heldBy);
          g.Valid()
          && trace == old(trace) + [BeforeReleasedEvent(g), ReleasedEvent(g), HeldConnectionBreakEvent(g)]
          && g.heldBy == (if released then RemoveFirst(old(g.heldBy), this) else old(g.heldBy))
    {
      thrown := AreasAct(TA.ReleaseAction);
      if thrown {
        return;
      }
      ReleaseHeld();
    }

    /** The grip: the held object and the areas are told, and the hand is
        squeezing unless an area threw. */
    method Squeeze() returns (thrown: bool)
      requires AreasValid()
      modifies this`trace, this`squeezing, HeldObj(), AreaSet()
      ensures AreasValid()
      ensures thrown == old(FirstThrow(triggerEventAreas, TA.SqueezeAction) < |triggerEventAreas|)
      ensures States() == old(Outcome(TA.SqueezeAction))
      ensures trace == old(trace) + [SqueezedEvent(holdingObj)]
      ensures holdingObj != null ==> holdingObj.events == old(holdingObj.events) + [SqueezeEvent(this)]
      ensures squeezing == (old(squeezing) || !thrown)
    {
      NotifySqueeze();
      thrown := AreasAct(TA.SqueezeAction);
      if !thrown {
        squeezing := true;
      }
    }

    /** The hand's event and the held object's OnSqueeze, which leave the
        trigger areas alone. */
    method NotifySqueeze()
      modifies this`trace, HeldObj()
      ensures trace == old(trace) + [SqueezedEvent(holdingObj)]
      ensures holdingObj != null ==> holdingObj.events == old(holdingObj.events) + [SqueezeEvent(this)]
    {
      trace := trace + [SqueezedEvent(holdingObj)];
      if holdingObj != null {
        holdingObj.OnSqueeze(this);
      }
    }

    /** The ungrip: the hand stops squeezing first, then the held object and
        the areas are told. */
    method Unsqueeze() returns (thrown: bool)
      requires AreasValid()
      modifies this`trace, this`squeezing, HeldObj(), AreaSet()
      ensures AreasValid() && !squeezing
      ensures thrown == old(FirstThrow(triggerEventAreas, TA.UnsqueezeAction) < |triggerEventAreas|)
      ensures States() == old(Outcome(TA.UnsqueezeAction))
      ensures trace == old(trace) + [UnsqueezedEvent(holdingObj)]
      ensures holdingObj != null ==> holdingObj.events == old(holdingObj.events) + [UnsqueezeEvent(this)]
    {
      squeezing := false;
      NotifyUnsqueeze();
      thrown := AreasAct(TA.UnsqueezeAction);
    }

    /** The hand's event and the held object's OnUnsqueeze, which leave the
        trigger areas alone. */
    method NotifyUnsqueeze()
      modifies this`trace, HeldObj()
      ensures trace == old(trace) + [UnsqueezedEvent(holdingObj)]
      ensures holdingObj != null ==> holdingObj.events == old(holdingObj.events) + [UnsqueezeEvent(this)]
    {
      trace := trace + [UnsqueezedEvent(holdingObj)];
      if holdingObj != null {
        holdingObj.OnUnsqueeze(this);
      }
    }

    /** A joint of the grab broke: the joints go, the held object runs its
        pull-apart break, which makes every holder let go, and then the hand
        force-releases whatever it still holds. */
    method OnJointBreak()
      requires holdingObj != null ==> holdingObj.Valid() && holdingObj.HoldersValid()
      modifies this, body, HeldFrame(), if holdingObj == null then {} else holdingObj.Holders()
      ensures holdingObj == null
      ensures var g := old(holdingObj);
        g != null ==>
          g.Valid()
          && (old(!g.pullApartBreakOnly || |g.heldBy| > 1) ==> old(g.events) + [JointBreakEvent(this)] <= g.events)
    {
      hasJoints := false;
      if holdingObj != null {
        var g := holdingObj;
        g.OnHandJointBreak(this);
        assert holdingObj == null || holdingObj == g;
        ghost var mid := g.events;
        ForceReleaseGrab();
        assert mid <= g.events;
      }
    }

    /** A collider touches the hand.  collisions counts every contact, and a
        HandTouchEvent on the object is touched only on its first contact. */
    method OnCollisionEnter(obj: GameObj)
      requires obj.touch.Some? ==> obj.touch.value.Valid()
      modifies this`trace, this`collisions, if obj.touch.Some? then {obj.touch.value} else {}
      ensures collisions == old(collisions) + [obj]
      ensures multiset(collisions)[obj] == old(multiset(collisions)[obj]) + 1
      ensures trace == old(trace) + [CollisionStartEvent(obj)]
      ensures obj.touch.Some? && old(multiset(collisions)[obj]) == 0 ==>
        var t := obj.touch.value;
        t.Valid() && this in t.hands
        && t.hands == (if this in old(t.hands) then old(t.hands) else old(t.hands) + [this])
      ensures obj.touch.Some? && old(multiset(collisions)[obj]) > 0 ==> unchanged(obj.touch.value)
    {
      trace := trace + [CollisionStartEvent(obj)];
      if obj !in collisions {
        if obj.touch.Some? {
          obj.touch.value.Touch(this);
        }
      }
      collisions := collisions + [obj];
    }

    /** A collider stops touching the hand: one contact goes, and the touch
        event is untouched when the last contact has gone. */
    method OnCollisionExit(obj: GameObj)
      requires obj.touch.Some? ==> obj.touch.value.Valid()
      modifies this`trace, this`collisions, if obj.touch.Some? then {obj.touch.value} else {}
      ensures collisions == RemoveFirst(old(collisions), obj)
      ensures multiset(collisions)[obj] == if old(multiset(collisions)[obj]) > 0 then old(multiset(collisions)[obj]) - 1 else 0
      ensures trace == old(trace) + [CollisionStopEvent(obj)]
      ensures obj.touch.Some? && old(multiset(collisions)[obj]) == 1 ==>
        var t := obj.touch.value;
        t.Valid() && this !in t.hands && (this in old(t.hands) ==> t.hands == RemoveFirst(old(t.hands), this))
      ensures obj.touch.Some? && old(multiset(collisions)[obj]) != 1 ==> unchanged(obj.touch.value)
    {
      trace := trace + [CollisionStopEvent(obj)];
      if obj in collisions {
        collisions := RemoveFirst(collisions, obj);
        if obj !in collisions && obj.touch.Some? {
          obj.touch.value.Untouch(this);
        }
      }
    }

    /** How many of the hand's colliders are inside an area: its entry in
        triggerAreasCount, or 0 for an area the hand is not in. */
    function CountFor(area: Area): (n: int)
      reads this
      requires Bookkept()
      ensures n >= 1 <==> area in triggerEventAreas
      ensures n >= 0
    {
      var i := IndexOf(triggerEventAreas, area);
      if i == -1 then 0 else triggerAreasCount[i]
    }

    /** The trigger-area part of OnTriggerEnter: the area is entered when the
        first of the hand's colliders reaches it; later ones only count. */
    method AreaEnter(area: Area)
      requires Valid() && AreasValid() && area.Valid()
      modifies this`triggerEventAreas, this`triggerAreasCount, area`hands, area`events
      ensures Valid() && AreasValid()
      ensures CountFor(area) == old(CountFor(area)) + 1
      ensures forall b :: b in old(triggerEventAreas) && b != area ==> CountFor(b) == old(CountFor(b))
      ensures forall b :: b in triggerEventAreas ==> b in old(triggerEventAreas) || b == area
      ensures old(CountFor(area)) == 0 ==>
        area.hands == (if this in old(area.hands) then old(area.hands) else old(area.hands) + [this])
        && area.events == old(area.events) + (if this in old(area.hands) then [] else [TA.EnterEvent(this)])
      ensures old(CountFor(area)) > 0 ==> unchanged(area)
    {
      if area !in triggerEventAreas {
        area.Enter(this);
        AppendKeepsIndices(triggerEventAreas, area);
        triggerEventAreas := triggerEventAreas + [area];
        triggerAreasCount := triggerAreasCount + [1];
        assert IndexOf(triggerEventAreas, area) == |triggerEventAreas| - 1 by {
          IndexOfNoDuplicates(triggerEventAreas, |triggerEventAreas| - 1);
        }
      } else {
        var index := IndexOf(triggerEventAreas, area);
        triggerAreasCount := triggerAreasCount[index := triggerAreasCount[index] + 1];
        forall b | b != area && b in triggerEventAreas ensures CountFor(b) == old(CountFor(b)) {
          IndexOfNoDuplicates(triggerEventAreas, IndexOf(triggerEventAreas, b));
        }
      }
    }

    /** DelayTriggerExit, the continuation of OnTriggerExit after the next
        physics step: one collider fewer is in the area, and the area is left
        and its entry removed when the count reaches 0. */
    method DelayTriggerExit(other: GameObj)
      requires Valid() && AreasValid() && (other.area.Some? ==> other.area.value.Valid())
      modifies this`triggerEventAreas, this`triggerAreasCount, if other.area.Some? then {other.area.value} else {}
      ensures Valid() && AreasValid()
      ensures other.area.Some? ==>
        var area := other.area.value;
        CountFor(area) == (if old(CountFor(area)) > 0 then old(CountFor(area)) - 1 else 0)
        && (forall b :: b in old(triggerEventAreas) && b != area ==> CountFor(b) == old(CountFor(b)))
        && (forall b :: b in triggerEventAreas ==> b in old(triggerEventAreas))
        && (old(CountFor(area)) == 1 ==> area.Valid() && this !in area.hands)
        && (old(CountFor(area)) != 1 ==> unchanged(area))
      ensures other.area.None? ==> triggerEventAreas == old(triggerEventAreas) && triggerAreasCount == old(triggerAreasCount)
    {
      if other.area.Some? {
        AreaExit(other.area.value);
      }
    }

    /** The trigger-area part of DelayTriggerExit for one area. */
    method AreaExit(area: Area)
      requires Valid() && AreasValid() && area.Valid()
      modifies this`triggerEventAreas, this`triggerAreasCount, area
      ensures Valid() && AreasValid()
      ensures CountFor(area) == (if old(CountFor(area)) > 0 then old(CountFor(area)) - 1 else 0)
      ensures forall b :: b in old(triggerEventAreas) && b != area ==> CountFor(b) == old(CountFor(b))
      ensures forall b :: b in triggerEventAreas ==> b in old(triggerEventAreas)
      ensures old(CountFor(area)) == 1 ==> area.Valid() && this !in area.hands
      ensures old(CountFor(area)) != 1 ==> unchanged(area)
    {
      if area in triggerEventAreas {
        var index := IndexOf(triggerEventAreas, area);
        if triggerAreasCount[index] == 1 {
          AreaLeave(area, index);
        } else {
          triggerAreasCount := triggerAreasCount[index := triggerAreasCount[index] - 1];
          forall b | b != area && b in triggerEventAreas ensures CountFor(b) == old(CountFor(b)) {
            IndexOfNoDuplicates(triggerEventAreas, IndexOf(triggerEventAreas, b));
          }
        }
      }
    }

    /** The last of the hand's colliders has left the area at index: its entry
        goes and the area is exited. */
    method AreaLeave(area: Area, index: int)
      requires Valid() && AreasValid() && area.Valid()
      requires 0 <= index < |triggerEventAreas| && triggerEventAreas[index] == area && triggerAreasCount[index] == 1
      modifies this`triggerEventAreas, this`triggerAreasCount, area
      ensures Valid() && AreasValid()
      ensures area !in triggerEventAreas && area.Valid() && this !in area.hands
      ensures forall b :: b in old(triggerEventAreas) && b != area ==> CountFor(b) == old(CountFor(b))
      ensures forall b :: b in triggerEventAreas ==> b in old(triggerEventAreas)
    {
      RemoveAtKeepsIndices(triggerEventAreas, index);
      triggerEventAreas := triggerEventAreas[..index] + triggerEventAreas[index + 1..];
      triggerAreasCount := triggerAreasCount[..index] + triggerAreasCount[index + 1..];
      area.Exit(this);
    }

    /** A trigger collider is entered: the hand's event, the pose area and the
        trigger area of the object. */
    method OnTriggerEnter(other: GameObj)
      requires Valid() && AreasValid() && (other.area.Some? ==> other.area.value.Valid())
      modifies this`trace, this`handPoseArea, this`triggerCount, this`triggerEventAreas, this`triggerAreasCount
      modifies if other.area.Some? then {other.area.value} else {}
      ensures Valid() && AreasValid()
      ensures old(trace) + [TriggerStartEvent(other)] <= trace
      ensures other.area.Some? ==>
        CountFor(other.area.value) == old(CountFor(other.area.value)) + 1
        && (forall b :: b in old(triggerEventAreas) && b != other.area.value ==> CountFor(b) == old(CountFor(b)))
        && (forall b :: b in triggerEventAreas ==> b in old(triggerEventAreas) || b == other.area.value)
      ensures other.area.None? ==> triggerEventAreas == old(triggerEventAreas) && triggerAreasCount == old(triggerAreasCount)
    {
      trace := trace + [TriggerStartEvent(other)];
      CheckEnterPoseArea(other);
      if other.area.Some? {
        AreaEnter(other.area.value);
      }
    }

    /** A trigger collider is left: the hand's event and the pose area; the
        trigger area is handled by DelayTriggerExit after the next physics step. */
    method OnTriggerExit(other: GameObj)
      requires Valid()
      modifies this`trace, this`handPoseArea, this`triggerCount
      ensures Valid()
      ensures old(trace) + [TriggerStopEvent(other)] <= trace
    {
      trace := trace + [TriggerStopEvent(other)];
      CheckExitPoseArea(other);
    }

    /** Whether a collider entering the hand reaches CheckEnterPoseArea's body
        (usingPoseAreas is the constant true): an empty hand, an active object
        with a HandPoseArea that has poses and the hand's pose index.  Every
        turn of the source's loop over poseAreas does the same test. */
    predicate EntersPoseArea(other: GameObj)
      reads this
    {
      holdingObj == null && other.active && other.poseArea.Some?
      && other.poseArea.value.poseAreaCount > 0 && other.poseArea.value.poseIndex == poseIndex
    }

    /** A collider of the hand enters a pose area.  A new area with a pose for
        this hand becomes the hand's pose area, its pose is applied and its
        count starts again; every collider entering the current area counts. */
    method CheckEnterPoseArea(other: GameObj)
      requires Valid()
      modifies this`trace, this`handPoseArea, this`triggerCount
      ensures Valid() && old(trace) <= trace
      ensures !old(EntersPoseArea(other)) ==> handPoseArea == old(handPoseArea) && triggerCount == old(triggerCount) && trace == old(trace)
      ensures old(EntersPoseArea(other)) ==>
        var temp := other.poseArea.value;
        if temp.HasPose(left) && old(handPoseArea) != Some(temp) then
          handPoseArea == Some(temp) && triggerCount == 1
          && trace == old(trace) + (if old(handPoseArea).None? then [PrePoseSaved] else []) + [PrePoseSaved, AreaPoseApplied(temp)]
        else if old(handPoseArea) == Some(temp) then
          handPoseArea == old(handPoseArea) && triggerCount == old(triggerCount) + 1
        else
          handPoseArea == old(handPoseArea) && triggerCount == old(triggerCount)
    {
      if holdingObj != null || !other.active {
        return;
      }
      if other.poseArea.Some? {
        var tempPose := other.poseArea.value;
        if tempPose.poseAreaCount > 0 && tempPose.poseIndex == poseIndex {
          if handPoseArea.None? {
            trace := trace + [PrePoseSaved];
          }
          if tempPose.HasPose(left) && (handPoseArea.None? || handPoseArea != Some(tempPose)) {
            trace := trace + [PrePoseSaved];
            triggerCount := 0;
            handPoseArea := Some(tempPose);
            trace := trace + [AreaPoseApplied(tempPose)];
          }
          if Some(tempPose) == handPoseArea {
            triggerCount := triggerCount + 1;
          }
        }
      }
    }

    /** A collider of the hand leaves a pose area.  Leaving the hand's pose
        area counts down, and the last collider out clears the area, restoring
        the earlier pose when the hand is empty. */
    method CheckExitPoseArea(other: GameObj)
      requires Valid()
      modifies this`trace, this`handPoseArea, this`triggerCount
      ensures Valid()
      ensures var leaves := other.active && old(handPoseArea).Some? && old(handPoseArea).value.obj == other.id;
        (!leaves ==> handPoseArea == old(handPoseArea) && triggerCount == old(triggerCount) && trace == old(trace))
        && (leaves ==>
              triggerCount == old(triggerCount) - 1
              && handPoseArea == (if triggerCount == 0 then None else old(handPoseArea))
              && trace == old(trace) + if triggerCount == 0 && holdingObj == null then [PrePoseRestored(old(handPoseArea).value)] else [])
    {
      if !other.active {
        return;
      }
      if handPoseArea.Some? && handPoseArea.value.obj == other.id {
        triggerCount := triggerCount - 1;
        if triggerCount == 0 && holdingObj == null {
          trace := trace + [PrePoseRestored(handPoseArea.value)];
          handPoseArea := None;
        } else if triggerCount == 0 && holdingObj != null {
          handPoseArea := None;
        }
      }
    }

    method ClearPoseArea()
      modifies this`handPoseArea, this`triggerCount
      ensures handPoseArea == None && triggerCount == 0
    {
      triggerCount := 0;
      handPoseArea := None;
    }

    /** The far-away part of MoveTo, reached unless the position is frozen or
        the follow strength is not positive.  A hand farther than
        maxFollowDistance from its target teleports, with an object that
        allows it, while tryMaxDistanceCount is below 3 and adds 2 to it;
        otherwise it force-releases.  An empty hand jumps to the target.  The
        count then goes down by one. */
    method FollowDistance(farAway: bool)
      requires Valid() && (holdingObj != null ==> holdingObj.Valid())
      modifies this`holdingObj, this`grabLocked, this`hasGrabPose, this`grabPositionOffset
      modifies this`grabRotationOffset, this`hasGrabPoint, this`hasJoints, this`trace, body`isKinematic, HeldFrame()
      modifies this`tryMaxDistanceCount
      ensures Valid()
      ensures freezePos || followPositionStrength <= 0.0 ==> unchanged(this)
      ensures !freezePos && followPositionStrength > 0.0 ==>
        var teleports := old(holdingObj != null && !holdingObj.releaseOnTeleport);
        tryMaxDistanceCount == NextTryCount(old(tryMaxDistanceCount), farAway, teleports)
        && (ForceReleases(old(tryMaxDistanceCount), farAway, old(holdingObj) != null, teleports) <==> old(holdingObj) != null && holdingObj == null)
    {
      if freezePos || followPositionStrength <= 0.0 {
        return;
      }
      if farAway {
        if holdingObj != null {
          if !holdingObj.releaseOnTeleport && tryMaxDistanceCount < 3 {
            trace := trace + [HandLocationSet];
            tryMaxDistanceCount := tryMaxDistanceCount + 2;
          } else if tryMaxDistanceCount >= 3 {
            ForceReleaseGrab();
          } else {
            ForceReleaseGrab();
          }
        } else {
          trace := trace + [BodyMovedToTarget];
        }
      }
      if tryMaxDistanceCount > 0 {
        tryMaxDistanceCount := tryMaxDistanceCount - 1;
      }
    }
  }
}
