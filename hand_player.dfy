/** The locomotion body's bookkeeping: which pushable objects each hand is
    pushing against, which climbables the hands hold, which platforms the
    body stands in, the movement deadzone, the snap-turn latch and the
    collision mask of a layer.  The forces computed from this state are
    vector physics and are not part of the model. */
module Player {
  import opened Common
  import Interaction

  type Hand = Interaction.Hand

  /** A Pushable component; only its enabled flag matters here. */
  class Pushable {
    var enabled: bool
    constructor (enabled: bool)
      ensures this.enabled == enabled
    {
      this.enabled := enabled;
    }
  }

  /** A Climbable component; only its enabled flag matters here. */
  class Climbable {
    var enabled: bool
    constructor (enabled: bool)
      ensures this.enabled == enabled
    {
      this.enabled := enabled;
    }
  }

  /** A PlayerPlatform component with the pose of its transform. */
  class PlayerPlatform {
    var position: Vec3
    var rotation: Quat
    constructor (position: Vec3, rotation: Quat)
      ensures this.position == position && this.rotation == rotation
    {
      this.position := position;
      this.rotation := rotation;
    }
  }

  /** What the body does to the world outside its own state. */
  datatype PlayerEvent =
    | Rotated(angle: real)   // trackingContainer turned about the vertical axis
    | HandsRelocated         // both hands jumped to their follow targets

  const MovementDeadzone: real := 0.2
  const TurnDeadzone: real := 0.6
  const TurnResetzone: real := 0.3

  function Abs(x: real): real { if x < 0.0 then -x else x }

  /** One axis of Move: values within the deadzone count as no input. */
  function DeadzoneAxis(v: real): (r: real)
    ensures Abs(v) <= MovementDeadzone ==> r == 0.0
    ensures Abs(v) > MovementDeadzone ==> r == v
    ensures Abs(r) <= Abs(v)
  {
    if Abs(v) > MovementDeadzone then v else 0.0
  }

  /** The snap branch of UpdateTurn on one physics step: whether the body
      turns right (1), left (-1) or not at all (0), and the latch afterwards. */
  function SnapStep(reset: bool, axis: real): (r: (int, bool))
    ensures r.0 != 0 <==> reset && Abs(axis) > TurnDeadzone
    ensures r.0 == 1 <==> reset && axis > TurnDeadzone
    ensures r.1 <==> Abs(axis) < TurnResetzone || (reset && r.0 == 0)
  {
    var dir := if axis > TurnDeadzone && reset then 1 else if axis < -TurnDeadzone && reset then -1 else 0;
    var reset' := if dir != 0 then false else reset;
    (dir, if Abs(axis) < TurnResetzone then true else reset')
  }

  /** The yaw of one smooth-turn physics step, in degrees. */
  function SmoothAngle(fixedDeltaTime: real, turnSpeed: real, axis: real): real
  {
    fixedDeltaTime * turnSpeed * axis
  }

  /** How many snaps a run of turn-axis samples makes from a given latch. */
  function Snaps(reset: bool, axes: seq<real>): nat
    decreases axes
  {
    if axes == [] then 0
    else
      var (dir, reset') := SnapStep(reset, axes[0]);
      (if dir != 0 then 1 else 0) + Snaps(reset', axes[1..])
  }

  /** The latch: while the stick never comes back inside the reset zone, at
      most one snap happens, and none when the latch is already spent. */
  lemma {:induction false} SnapOncePerReset(reset: bool, axes: seq<real>)
    requires forall i :: 0 <= i < |axes| ==> Abs(axes[i]) >= TurnResetzone
    ensures Snaps(reset, axes) <= 1
    ensures !reset ==> Snaps(reset, axes) == 0
    decreases axes
  {
    if axes != [] {
      var (dir, reset') := SnapStep(reset, axes[0]);
      assert forall i :: 0 <= i < |axes[1..]| ==> Abs(axes[1..][i]) >= TurnResetzone by {
        forall i | 0 <= i < |axes[1..]| ensures Abs(axes[1..][i]) >= TurnResetzone {
          assert axes[1..][i] == axes[i + 1];
        }
      }
      SnapOncePerReset(reset', axes[1..]);
      if dir != 0 {
        // a snap spends the latch, and the stick never re-arms it
        assert !reset';
      } else {
        assert reset' == reset;
      }
    }
  }

  /** Holding the stick past the turn deadzone from a reset latch snaps on
      the first sample and never again while it stays out of the reset zone. */
  lemma SnapHeldStick(axes: seq<real>)
    requires |axes| > 0 && Abs(axes[0]) > TurnDeadzone
    requires forall i :: 0 <= i < |axes| ==> Abs(axes[i]) >= TurnResetzone
    ensures Snaps(true, axes) == 1
  {
    var (dir, reset') := SnapStep(true, axes[0]);
    assert dir != 0 && !reset';
    assert forall i :: 0 <= i < |axes[1..]| ==> Abs(axes[1..][i]) >= TurnResetzone by {
      forall i | 0 <= i < |axes[1..]| ensures Abs(axes[1..][i]) >= TurnResetzone {
        assert axes[1..][i] == axes[i + 1];
      }
    }
    SnapOncePerReset(false, axes[1..]);
  }

  /** Whether bit i of a 32-bit mask is set. */
  predicate Bit(mask: bv32, i: bv32)
    requires i < 32
  {
    mask & ((1 as bv32) << i) != 0
  }

  /** Setting bit i of a mask sets that bit and leaves the others alone. */
  lemma SetBit(mask: bv32, i: bv32, j: bv32)
    requires i < 32 && j < 32
    ensures Bit(mask | ((1 as bv32) << i), j) <==> Bit(mask, j) || i == j
  {
  }

  /** HandPlayer.GetPhysicsLayerMask: the layers a body on `currentLayer`
      collides with.  `ignored` is the physics settings' layer-collision
      matrix (Physics.GetIgnoreLayerCollision).  The int the source builds is
      this 32-bit pattern; bit 31 makes it negative. */
  method GetPhysicsLayerMask(currentLayer: int, ignored: (int, int) -> bool) returns (finalMask: bv32)
    ensures forall j: bv32 :: j < 32 ==> (Bit(finalMask, j) <==> !ignored(currentLayer, j as int))
  {
    finalMask := 0;
    var i: bv32 := 0;
    while i < 32
      invariant i <= 32
      invariant forall j: bv32 :: j < i ==> (Bit(finalMask, j) <==> !ignored(currentLayer, j as int))
      invariant forall j: bv32 :: i <= j < 32 ==> !Bit(finalMask, j)
    {
      if !ignored(currentLayer, i as int) {
        var previous := finalMask;
        finalMask := finalMask | ((1 as bv32) << i);
        forall j: bv32 | j < 32
          ensures Bit(finalMask, j) <==> Bit(previous, j) || i == j
        {
          SetBit(previous, i, j);
        }
      }
      i := i + 1;
    }
  }

  class HandPlayer {
    var allowClimbing: bool
    var allowBodyPushing: bool
    var allowPlatforms: bool
    var snapTurning: bool
    var turnSpeed: real

    var climbing: map<Hand, Climbable>
    var pushRight: map<Pushable, Hand>
    var pushRightCount: map<Pushable, int>
    var pushLeft: map<Pushable, Hand>
    var pushLeftCount: map<Pushable, int>

    var platforms: seq<PlayerPlatform>
    var platformsCount: map<PlayerPlatform, int>
    var platformPositions: map<PlayerPlatform, Vec3>
    var platformRotations: map<PlayerPlatform, Quat>

    var moveAxis: Vec3
    var turningAxis: real
    var axisReset: bool
    var events: seq<PlayerEvent>

    /** The push dictionaries of a side share their keys, the left counts are
        positive and the right ones are 1 (a right hand is only ever added
        once), each side holds hands of that side, and the four platform
        registers share one key set with positive counts. */
    ghost predicate Valid()
      reads this
    {
      pushLeft.Keys == pushLeftCount.Keys && pushRight.Keys == pushRightCount.Keys
      && (forall p :: p in pushLeftCount ==> pushLeftCount[p] >= 1)
      && (forall p :: p in pushRightCount ==> pushRightCount[p] == 1)
      && (forall p :: p in pushLeft ==> pushLeft[p].left)
      && (forall p :: p in pushRight ==> !pushRight[p].left)
      && NoDuplicates(platforms)
      && platformsCount.Keys == (set q | q in platforms)
      && platformsCount.Keys == platformPositions.Keys == platformRotations.Keys
      && (forall q :: q in platformsCount ==> platformsCount[q] >= 1)
    }

    /** Start with the inspector defaults. */
    constructor ()
      ensures Valid() && allowClimbing && allowBodyPushing && allowPlatforms && snapTurning && turnSpeed == 15.0
      ensures climbing == map[] && pushRight == map[] && pushLeft == map[] && platforms == []
      ensures moveAxis == Zero && turningAxis == 0.0 && axisReset && events == []
    {
      allowClimbing := true;
      allowBodyPushing := true;
      allowPlatforms := true;
      snapTurning := true;
      turnSpeed := 15.0;
      climbing := map[];
      pushRight := map[];
      pushRightCount := map[];
      pushLeft := map[];
      pushLeftCount := map[];
      platforms := [];
      platformsCount := map[];
      platformPositions := map[];
      platformRotations := map[];
      moveAxis := Zero;
      turningAxis := 0.0;
      axisReset := true;
      events := [];
    }

    /** How many of the left hand's colliders are inside a pushable: its count,
        or 0 when it is not being pushed. */
    function LeftCount(p: Pushable): (n: int)
      reads this
      requires Valid()
      ensures n >= 1 <==> p in pushLeft
      ensures n >= 0
    {
      if p in pushLeftCount then pushLeftCount[p] else 0
    }

    /** The same count for the right hand, which never exceeds 1. */
    function RightCount(p: Pushable): (n: int)
      reads this
      requires Valid()
      ensures n == 1 <==> p in pushRight
      ensures 0 <= n <= 1
    {
      if p in pushRightCount then pushRightCount[p] else 0
    }

    /** Some held climbable is enabled. */
    ghost predicate Climbs()
      reads this, climbing.Values
    {
      exists h :: h in climbing && climbing[h].enabled
    }

    /** Some pushed pushable is enabled. */
    ghost predicate Pushes()
      reads this, pushRight.Keys, pushLeft.Keys
    {
      (exists p :: p in pushRight && p.enabled) || (exists p :: p in pushLeft && p.enabled)
    }

    method IsClimbing() returns (isClimbing: bool)
      ensures isClimbing <==> Climbs()
    {
      isClimbing := false;
      var rest := climbing.Keys;
      while rest != {}
        invariant rest <= climbing.Keys
        invariant isClimbing <==> exists h :: h in climbing && h !in rest && climbing[h].enabled
        decreases rest
      {
        var h :| h in rest;
        if climbing[h].enabled {
          isClimbing := true;
        }
        rest := rest - {h};
      }
    }

    /** Whether any of the pushables in one push dictionary is enabled. */
    static method AnyEnabled(pushes: map<Pushable, Hand>) returns (found: bool)
      ensures found <==> exists p :: p in pushes && p.enabled
    {
      found := false;
      var rest := pushes.Keys;
      while rest != {}
        invariant rest <= pushes.Keys
        invariant found <==> exists p :: p in pushes && p !in rest && p.enabled
        decreases rest
      {
        var p :| p in rest;
        if p.enabled {
          found := true;
        }
        rest := rest - {p};
      }
    }

    method IsPushing() returns (isPushing: bool)
      ensures isPushing <==> Pushes()
    {
      var right := AnyEnabled(pushRight);
      var left := AnyEnabled(pushLeft);
      isPushing := right || left;
    }

    /** A hand collider enters an object.  With pushing allowed and no
        climbing, an enabled pushable counts one more left-hand contact, or
        registers the right hand once. */
    method StartPush(hand: Hand, push: Pushable?)
      requires Valid()
      modifies this`pushLeft, this`pushLeftCount, this`pushRight, this`pushRightCount
      ensures Valid()
      ensures var acts := old(allowBodyPushing && !Climbs()) && push != null && push.enabled;
        (!acts ==> pushLeft == old(pushLeft) && pushLeftCount == old(pushLeftCount)
                   && pushRight == old(pushRight) && pushRightCount == old(pushRightCount))
        && (acts && hand.left ==>
              LeftCount(push) == old(LeftCount(push)) + 1
              && pushLeft == (if push in old(pushLeft) then old(pushLeft) else old(pushLeft)[push := hand])
              && pushLeftCount - {push} == old(pushLeftCount) - {push}
              && pushRight == old(pushRight) && pushRightCount == old(pushRightCount))
        && (acts && !hand.left ==>
              pushRight == (if push in old(pushRight) then old(pushRight) else old(pushRight)[push := hand])
              && pushRightCount == (if push in old(pushRight) then old(pushRightCount) else old(pushRightCount)[push := 1])
              && pushLeft == old(pushLeft) && pushLeftCount == old(pushLeftCount))
    {
      if !allowBodyPushing {
        return;
      }
      var climbs := IsClimbing();
      if climbs {
        return;
      }
      if push != null && push.enabled {
        if hand.left {
          if push !in pushLeft {
            pushLeft := pushLeft[push := hand];
            pushLeftCount := pushLeftCount[push := 1];
          } else {
            pushLeftCount := pushLeftCount[push := pushLeftCount[push] + 1];
          }
        }
        if !hand.left && push !in pushRight {
          // the source repeats the test inside, so its increment branch never runs
          pushRight := pushRight[push := hand];
          pushRightCount := pushRightCount[push := 1];
        }
      }
    }

    /** A hand collider leaves an object: one contact of that side goes, and
        the entry leaves both dictionaries of the side when none is left. */
    method StopPush(hand: Hand, push: Pushable?)
      requires Valid()
      modifies this`pushLeft, this`pushLeftCount, this`pushRight, this`pushRightCount
      ensures Valid()
      ensures !allowBodyPushing || push == null ==>
        pushLeft == old(pushLeft) && pushLeftCount == old(pushLeftCount)
        && pushRight == old(pushRight) && pushRightCount == old(pushRightCount)
      ensures allowBodyPushing && push != null && hand.left ==>
        LeftCount(push) == (if old(LeftCount(push)) > 0 then old(LeftCount(push)) - 1 else 0)
        && (push in pushLeft <==> old(LeftCount(push)) > 1)
        && pushLeftCount - {push} == old(pushLeftCount) - {push} && pushLeft - {push} == old(pushLeft) - {push}
        && pushRight == old(pushRight) && pushRightCount == old(pushRightCount)
      ensures allowBodyPushing && push != null && !hand.left ==>
        pushRight == old(pushRight) - {push} && pushRightCount == old(pushRightCount) - {push}
        && pushLeft == old(pushLeft) && pushLeftCount == old(pushLeftCount)
    {
      if !allowBodyPushing {
        return;
      }
      if push != null {
        if hand.left && push in pushLeft {
          var count := pushLeftCount[push] - 1;
          pushLeftCount := pushLeftCount[push := count];
          if count == 0 {
            pushLeft := pushLeft - {push};
            pushLeftCount := pushLeftCount - {push};
          }
        }
        if !hand.left && push in pushRight {
          var count := pushRightCount[push] - 1;
          pushRightCount := pushRightCount[push := count];
          if count == 0 {
            pushRight := pushRight - {push};
            pushRightCount := pushRightCount - {push};
          }
        }
      }
    }

    /** The hand grabbed an object: a pushable on it is registered for the
        hand's side, without counting, unless it is already there. */
    method StartGrabPush(hand: Hand, push: Pushable?)
      requires Valid()
      modifies this`pushLeft, this`pushLeftCount, this`pushRight, this`pushRightCount
      ensures Valid()
      ensures var acts := old(allowBodyPushing && !Climbs()) && push != null && push.enabled;
        (!acts ==> pushLeft == old(pushLeft) && pushLeftCount == old(pushLeftCount)
                   && pushRight == old(pushRight) && pushRightCount == old(pushRightCount))
        && (acts && hand.left ==>
              pushLeft == (if push in old(pushLeft) then old(pushLeft) else old(pushLeft)[push := hand])
              && pushLeftCount == (if push in old(pushLeft) then old(pushLeftCount) else old(pushLeftCount)[push := 1])
              && pushRight == old(pushRight) && pushRightCount == old(pushRightCount))
        && (acts && !hand.left ==>
              pushRight == (if push in old(pushRight) then old(pushRight) else old(pushRight)[push := hand])
              && pushRightCount == (if push in old(pushRight) then old(pushRightCount) else old(pushRightCount)[push := 1])
              && pushLeft == old(pushLeft) && pushLeftCount == old(pushLeftCount))
    {
      if !allowBodyPushing {
        return;
      }
      var climbs := IsClimbing();
      if climbs {
        return;
      }
      if push != null && push.enabled {
        if hand.left && push !in pushLeft {
          pushLeft := pushLeft[push := hand];
          pushLeftCount := pushLeftCount[push := 1];
        }
        if !hand.left && push !in pushRight {
          pushRight := pushRight[push := hand];
          pushRightCount := pushRightCount[push := 1];
        }
      }
    }

    /** The hand's grab connection broke: the pushable on the object it held
        leaves the dictionaries of the hand's side, whatever its count. */
    method EndGrabPush(hand: Hand, push: Pushable?)
      requires Valid()
      modifies this`pushLeft, this`pushLeftCount, this`pushRight, this`pushRightCount
      ensures Valid()
      ensures push == null ==>
        pushLeft == old(pushLeft) && pushLeftCount == old(pushLeftCount)
        && pushRight == old(pushRight) && pushRightCount == old(pushRightCount)
      ensures push != null && hand.left ==>
        pushLeft == old(pushLeft) - {push} && pushLeftCount == old(pushLeftCount) - {push}
        && pushRight == old(pushRight) && pushRightCount == old(pushRightCount)
      ensures push != null && !hand.left ==>
        pushRight == old(pushRight) - {push} && pushRightCount == old(pushRightCount) - {push}
        && pushLeft == old(pushLeft) && pushLeftCount == old(pushLeftCount)
    {
      if push != null {
        if hand.left && push in pushLeft {
          pushLeft := pushLeft - {push};
          pushLeftCount := pushLeftCount - {push};
        } else if !hand.left && push in pushRight {
          pushRight := pushRight - {push};
          pushRightCount := pushRightCount - {push};
        }
      }
    }

    /** The hand grabbed an object: an enabled climbable on it is registered
        for a hand that is not climbing yet; the first climber ends every push. */
    method StartClimb(hand: Hand, climbable: Climbable?)
      requires Valid()
      modifies this`climbing, this`pushLeft, this`pushLeftCount, this`pushRight, this`pushRightCount
      ensures Valid()
      ensures var acts := allowClimbing && hand !in old(climbing) && climbable != null && climbable.enabled;
        (!acts ==> climbing == old(climbing) && pushLeft == old(pushLeft) && pushRight == old(pushRight)
                   && pushLeftCount == old(pushLeftCount) && pushRightCount == old(pushRightCount))
        && (acts ==> climbing == old(climbing)[hand := climbable])
        && (acts && old(climbing) == map[] ==>
              pushLeft == map[] && pushRight == map[] && pushLeftCount == map[] && pushRightCount == map[])
        && (acts && old(climbing) != map[] ==>
              pushLeft == old(pushLeft) && pushRight == old(pushRight)
              && pushLeftCount == old(pushLeftCount) && pushRightCount == old(pushRightCount))
    {
      if !allowClimbing {
        return;
      }
      if hand !in climbing && climbable != null && climbable.enabled {
        if |climbing| == 0 {
          pushRight := map[];
          pushRightCount := map[];
          pushLeft := map[];
          pushLeftCount := map[];
        }
        climbing := climbing[hand := climbable];
      }
    }

    /** The hand's grab connection broke: it stops climbing. */
    method EndClimb(hand: Hand)
      modifies this`climbing
      ensures climbing == if allowClimbing then old(climbing) - {hand} else old(climbing)
      ensures hand in climbing <==> !allowClimbing && hand in old(climbing)
    {
      if !allowClimbing {
        return;
      }
      if hand in climbing {
        climbing := climbing - {hand};
      }
    }

    /** DisableHand's bookkeeping: the hand stops climbing and every push of
        its side ends. */
    method DisableHand(hand: Hand)
      requires Valid()
      modifies this`climbing, this`pushLeft, this`pushLeftCount, this`pushRight, this`pushRightCount
      ensures Valid()
      ensures climbing == if allowClimbing then old(climbing) - {hand} else old(climbing)
      ensures allowBodyPushing && hand.left ==>
        pushLeft == map[] && pushLeftCount == map[] && pushRight == old(pushRight) && pushRightCount == old(pushRightCount)
      ensures allowBodyPushing && !hand.left ==>
        pushRight == map[] && pushRightCount == map[] && pushLeft == old(pushLeft) && pushLeftCount == old(pushLeftCount)
      ensures !allowBodyPushing ==>
        pushLeft == old(pushLeft) && pushLeftCount == old(pushLeftCount)
        && pushRight == old(pushRight) && pushRightCount == old(pushRightCount)
    {
      if allowClimbing && hand in climbing {
        climbing := climbing - {hand};
      }
      if allowBodyPushing {
        if hand.left {
          pushLeft := map[];
          pushLeftCount := map[];
        } else {
          pushRight := map[];
          pushRightCount := map[];
        }
      }
    }

    /** How many of the body's colliders are inside a platform, 0 when none. */
    function PlatformCount(q: PlayerPlatform): (n: int)
      reads this
      requires Valid()
      ensures n >= 1 <==> q in platforms
      ensures n >= 0
    {
      if q in platformsCount then platformsCount[q] else 0
    }

    /** The body enters a trigger: a platform is registered with its current
        pose on its first contact, and counted on the others. */
    method OnTriggerEnter(platform: PlayerPlatform?)
      requires Valid()
      modifies this`platforms, this`platformsCount, this`platformPositions, this`platformRotations
      ensures Valid()
      ensures !allowPlatforms || platform == null ==>
        platforms == old(platforms) && platformsCount == old(platformsCount)
        && platformPositions == old(platformPositions) && platformRotations == old(platformRotations)
      ensures allowPlatforms && platform != null ==>
        PlatformCount(platform) == old(PlatformCount(platform)) + 1
        && platformsCount - {platform} == old(platformsCount) - {platform}
        && platforms == (if platform in old(platforms) then old(platforms) else old(platforms) + [platform])
        && (platform !in old(platforms) ==>
              platformPositions == old(platformPositions)[platform := platform.position]
              && platformRotations == old(platformRotations)[platform := platform.rotation])
        && (platform in old(platforms) ==>
              platformPositions == old(platformPositions) && platformRotations == old(platformRotations))
    {
      if !allowPlatforms {
        return;
      }
      if platform != null {
        if platform !in platforms {
          RegisterPlatform(platform);
        } else {
          platformsCount := platformsCount[platform := platformsCount[platform] + 1];
        }
      }
    }

    /** The first contact with a platform: it joins the list and the three
        maps together, with its pose at this moment and a count of 1. */
    method RegisterPlatform(pl: PlayerPlatform)
      requires Valid() && pl !in platforms
      modifies this`platforms, this`platformsCount, this`platformPositions, this`platformRotations
      ensures Valid()
      ensures platforms == old(platforms) + [pl]
      ensures platformsCount == old(platformsCount)[pl := 1]
      ensures platformPositions == old(platformPositions)[pl := pl.position]
      ensures platformRotations == old(platformRotations)[pl := pl.rotation]
    {
      platforms := platforms + [pl];
      platformPositions := platformPositions[pl := pl.position];
      platformRotations := platformRotations[pl := pl.rotation];
      platformsCount := platformsCount[pl := 1];
      assert forall i :: 0 <= i < |old(platforms)| ==> platforms[i] == old(platforms)[i];
    }

    /** The body leaves a trigger: a platform's count goes down, and the
        platform leaves all four registers when its last contact goes. */
    method OnTriggerExit(platform: PlayerPlatform?)
      requires Valid()
      modifies this`platforms, this`platformsCount, this`platformPositions, this`platformRotations
      ensures Valid()
      ensures !allowPlatforms || platform == null || platform !in old(platforms) ==>
        platforms == old(platforms) && platformsCount == old(platformsCount)
        && platformPositions == old(platformPositions) && platformRotations == old(platformRotations)
      ensures allowPlatforms && platform != null && platform in old(platforms) && old(platformsCount[platform]) == 1 ==>
        platforms == RemoveFirst<PlayerPlatform>(old(platforms), platform) && platform !in platforms
        && platformsCount == old(platformsCount) - {platform}
        && platformPositions == old(platformPositions) - {platform}
        && platformRotations == old(platformRotations) - {platform}
      ensures allowPlatforms && platform != null && platform in old(platforms) && old(platformsCount[platform]) != 1 ==>
        platformsCount == old(platformsCount)[platform := old(platformsCount[platform]) - 1]
        && platforms == old(platforms)
        && platformPositions == old(platformPositions) && platformRotations == old(platformRotations)
    {
      if !allowPlatforms {
        return;
      }
      if platform != null && platform in platforms {
        if platformsCount[platform] - 1 == 0 {
          ForgetPlatform(platform);
        } else {
          platformsCount := platformsCount[platform := platformsCount[platform] - 1];
        }
      }
    }

    /** The last contact with a platform is gone: it leaves the list and the
        three maps together. */
    method ForgetPlatform(pl: PlayerPlatform)
      requires Valid() && pl in platforms
      modifies this`platforms, this`platformsCount, this`platformPositions, this`platformRotations
      ensures Valid()
      ensures platforms == RemoveFirst(old(platforms), pl) && pl !in platforms
      ensures platformsCount == old(platformsCount) - {pl}
      ensures platformPositions == old(platformPositions) - {pl}
      ensures platformRotations == old(platformRotations) - {pl}
    {
      RemoveFirstNoDuplicates(platforms, pl);
      RemoveFirstElements(platforms, pl);
      platforms := RemoveFirst(platforms, pl);
      platformPositions := platformPositions - {pl};
      platformRotations := platformRotations - {pl};
      platformsCount := platformsCount - {pl};
    }

    /** The movement input: each axis counts only outside the deadzone, and
        the stick's y drives the body's z. */
    method Move(axisX: real, axisY: real)
      modifies this`moveAxis
      ensures Abs(axisX) <= MovementDeadzone ==> moveAxis.x == 0.0
      ensures Abs(axisX) > MovementDeadzone ==> moveAxis.x == axisX
      ensures Abs(axisY) <= MovementDeadzone ==> moveAxis.z == 0.0
      ensures Abs(axisY) > MovementDeadzone ==> moveAxis.z == axisY
      ensures moveAxis.y == old(moveAxis.y)
    {
      var x := if Abs(axisX) > MovementDeadzone then axisX else 0.0;
      var z := if Abs(axisY) > MovementDeadzone then axisY else 0.0;
      moveAxis := Vec3(x, moveAxis.y, z);
    }

    method Turn(turnAxis: real)
      modifies this`turningAxis
      ensures turningAxis == turnAxis
    {
      turningAxis := turnAxis;
    }

    /** One physics step of turning.  Snap turning turns by turnSpeed, and
        relocates the hands, once per push of the stick past the deadzone:
        the latch re-arms only when the stick comes back inside the reset
        zone.  Smooth turning zeroes a stick inside the deadzone and turns in
        proportion to it and to the step length. */
    method UpdateTurn(fixedDeltaTime: real)
      modifies this`axisReset, this`turningAxis, this`events
      ensures snapTurning ==>
        var step := SnapStep(old(axisReset), old(turningAxis));
        axisReset == step.1 && turningAxis == old(turningAxis)
        && events == old(events) + (if step.0 == 0 then [] else [Rotated(if step.0 == 1 then turnSpeed else -turnSpeed), HandsRelocated])
      ensures !snapTurning ==>
        axisReset == old(axisReset)
        && turningAxis == (if Abs(old(turningAxis)) < TurnDeadzone then 0.0 else old(turningAxis))
        && events == old(events) + [Rotated(SmoothAngle(fixedDeltaTime, turnSpeed, turningAxis))]
    {
      if snapTurning {
        if turningAxis > TurnDeadzone && axisReset {
          events := events + [Rotated(turnSpeed)];
          axisReset := false;
          events := events + [HandsRelocated];
        } else if turningAxis < -TurnDeadzone && axisReset {
          events := events + [Rotated(-turnSpeed)];
          axisReset := false;
          events := events + [HandsRelocated];
        }
        if Abs(turningAxis) < TurnResetzone {
          axisReset := true;
        }
      } else {
        if Abs(turningAxis) < TurnDeadzone {
          turningAxis := 0.0;
        }
        events := events + [Rotated(SmoothAngle(fixedDeltaTime, turnSpeed, turningAxis))];
      }
    }
  }
}
