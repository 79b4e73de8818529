/** HandTriggerAreaEvents: a trigger volume that reports hands entering,
    leaving, grabbing and squeezing inside it.  In one-handed mode the first
    hand in the list owns the area and is the only one whose actions fire.
    The class is generic in the hand type so that it does not depend on the
    hand model. */
module TriggerAreaEvents {
  import opened Common

  /** The events the area invokes, in order.  EnterEvent, ExitEvent, ... are the
      HandEvent delegates (each also raises its UnityEvent); ExitUnityOnly is
      the HandExit UnityEvent raised on its own. */
  datatype AreaEvent<H> =
    | EnterEvent(hand: H)
    | ExitEvent(hand: H)
    | ExitUnityOnly
    | GrabEvent(hand: H)
    | ReleaseEvent(hand: H)
    | SqueezeEvent(hand: H)
    | UnsqueezeEvent(hand: H)

  /** The four hand actions an area passes on to its listeners. */
  datatype Action = GrabAction | ReleaseAction | SqueezeAction | UnsqueezeAction
  {
    /** Grab and squeeze set their latch; release and unsqueeze clear it. */
    predicate Sets() { GrabAction? || SqueezeAction? }
    /** Grab and release work on the grabbing latch, the others on squeezing. */
    predicate OnGrabbing() { GrabAction? || ReleaseAction? }
  }

  /** The part of an area's state the actions change. */
  datatype Latches<H> = Latches(grabbing: bool, squeezing: bool, events: seq<AreaEvent<H>>)

  /** The event an action fires. */
  function ActionEvent<H>(action: Action, hand: H): AreaEvent<H> {
    match action
    case GrabAction => GrabEvent(hand)
    case ReleaseAction => ReleaseEvent(hand)
    case SqueezeAction => SqueezeEvent(hand)
    case UnsqueezeAction => UnsqueezeEvent(hand)
  }

  class HandTriggerAreaEvents<H(==)> {
    var oneHanded: bool
    var exitTriggerRelease: bool
    var exitTriggerUnsqueeze: bool
    var hands: seq<H>
    var grabbing: bool
    var squeezing: bool
    var events: seq<AreaEvent<H>>

    ghost predicate Valid()
      reads this
    {
      NoDuplicates(hands)
    }

    /** OnEnable with the inspector settings. */
    constructor (oneHanded: bool, exitTriggerRelease: bool, exitTriggerUnsqueeze: bool)
      ensures Valid() && hands == [] && !grabbing && !squeezing && events == []
      ensures this.oneHanded == oneHanded && this.exitTriggerRelease == exitTriggerRelease
      ensures this.exitTriggerUnsqueeze == exitTriggerUnsqueeze
    {
      this.oneHanded := oneHanded;
      this.exitTriggerRelease := exitTriggerRelease;
      this.exitTriggerUnsqueeze := exitTriggerUnsqueeze;
      hands := [];
      grabbing := false;
      squeezing := false;
      events := [];
    }

    /** Whether a hand's grab, release, squeeze and unsqueeze fire (given a non-empty list). */
    predicate Acts(hand: H)
      reads this
    {
      !oneHanded || (|hands| > 0 && hands[0] == hand)
    }

    function State(): Latches<H>
      reads this
    {
      Latches(grabbing, squeezing, events)
    }

    /** The latch an action works on is still in the state the action undoes. */
    predicate Pending(action: Action)
      reads this
    {
      (if action.OnGrabbing() then grabbing else squeezing) != action.Sets()
    }

    /** A pending action on an empty one-handed area looks at hands[0] and throws. */
    predicate Throws(action: Action)
      reads this
    {
      Pending(action) && oneHanded && hands == []
    }

    /** What an action by `hand` leaves: when pending, not throwing and done by
        a hand that acts, the latch flips and the action's event fires;
        otherwise nothing changes. */
    function After(action: Action, hand: H): (r: Latches<H>)
      reads this
      ensures r.events == events || r.events == events + [ActionEvent(action, hand)]
      ensures action.OnGrabbing() ==> r.squeezing == squeezing
      ensures !action.OnGrabbing() ==> r.grabbing == grabbing
    {
      if !(Pending(action) && !Throws(action) && Acts(hand)) then State()
      else if action.OnGrabbing() then Latches(action.Sets(), squeezing, events + [ActionEvent(action, hand)])
      else Latches(grabbing, action.Sets(), events + [ActionEvent(action, hand)])
    }

    /** Grab, Release, Squeeze or Unsqueeze, chosen by `action`. */
    method Act(action: Action, hand: H) returns (thrown: bool)
      requires Valid()
      modifies this`grabbing, this`squeezing, this`events
      ensures Valid()
      ensures thrown == old(Throws(action))
      ensures State() == old(After(action, hand))
    {
      match action
      case GrabAction => thrown := Grab(hand);
      case ReleaseAction => thrown := Release(hand);
      case SqueezeAction => thrown := Squeeze(hand);
      case UnsqueezeAction => thrown := Unsqueeze(hand);
    }

    method Enter(hand: H)
      requires Valid()
      modifies this`hands, this`events
      ensures Valid()
      ensures hands == if hand in old(hands) then old(hands) else old(hands) + [hand]
      ensures events == old(events) + if hand in old(hands) then [] else [EnterEvent(hand)]
    {
      if hand !in hands {
        hands := hands + [hand];
        if oneHanded && |hands| == 1 {
          events := events + [EnterEvent(hand)];
        } else {
          events := events + [EnterEvent(hand)];
        }
        assert forall i :: 0 <= i < |old(hands)| ==> hands[i] == old(hands)[i];
      }
    }

    /** The part of Exit shared by the owner and the many-handed case: an exit
        releases and unsqueezes the area when its settings ask for it. */
    method ExitLatches(hand: H)
      modifies this`events, this`grabbing, this`squeezing
      ensures grabbing == (old(grabbing) && !exitTriggerRelease)
      ensures squeezing == (old(squeezing) && !exitTriggerUnsqueeze)
      ensures events == old(events)
        + (if old(grabbing) && exitTriggerRelease then [ReleaseEvent(hand)] else [])
        + (if old(squeezing) && exitTriggerUnsqueeze then [UnsqueezeEvent(hand)] else [])
    {
      if grabbing && exitTriggerRelease {
        events := events + [ReleaseEvent(hand)];
        grabbing := false;
      }
      if squeezing && exitTriggerUnsqueeze {
        events := events + [UnsqueezeEvent(hand)];
        squeezing := false;
      }
    }

    method Exit(hand: H)
      requires Valid()
      modifies this`hands, this`events, this`grabbing, this`squeezing
      ensures Valid()
      ensures hand !in old(hands) ==>
        hands == old(hands) && events == old(events) && grabbing == old(grabbing) && squeezing == old(squeezing)
      ensures hand in old(hands) ==> hands == RemoveFirst(old(hands), hand) && hand !in hands
      // one-handed: only the owner's exit fires, and lets the next hand in
      ensures hand in old(hands) && oneHanded && old(hands)[0] == hand ==>
        events == old(events) + [ExitUnityOnly]
          + (if old(grabbing) && exitTriggerRelease then [ReleaseEvent(hand)] else [])
          + (if old(squeezing) && exitTriggerUnsqueeze then [UnsqueezeEvent(hand)] else [])
          + (if |old(hands)| > 1 then [EnterEvent(hand)] else [])
      ensures hand in old(hands) && !oneHanded ==>
        events == old(events) + [ExitEvent(hand)]
          + (if old(grabbing) && exitTriggerRelease then [ReleaseEvent(hand)] else [])
          + (if old(squeezing) && exitTriggerUnsqueeze then [UnsqueezeEvent(hand)] else [])
      ensures hand in old(hands) && oneHanded && old(hands)[0] != hand ==>
        events == old(events) && grabbing == old(grabbing) && squeezing == old(squeezing)
      ensures hand in old(hands) && old(Acts(hand)) ==>
        grabbing == (old(grabbing) && !exitTriggerRelease) && squeezing == (old(squeezing) && !exitTriggerUnsqueeze)
    {
      if hand in hands {
        if oneHanded && hands[0] == hand {
          events := events + [ExitUnityOnly];
          ExitLatches(hand);
          // the source hands the exiting hand, not the new owner, to the enter event
          if |hands| > 1 {
            events := events + [EnterEvent(hand)];
          }
        } else if !oneHanded {
          events := events + [ExitEvent(hand)];
          ExitLatches(hand);
        }
        RemoveFirstNoDuplicates(hands, hand);
        hands := RemoveFirst(hands, hand);
      }
    }

    /** In one-handed mode the test of hands[0] throws on an empty list; `thrown`
        reports that, and the state is then unchanged. */
    method Grab(hand: H) returns (thrown: bool)
      requires Valid()
      modifies this`grabbing, this`events
      ensures Valid()
      ensures thrown <==> !old(grabbing) && oneHanded && hands == []
      ensures grabbing == (old(grabbing) || (!thrown && Acts(hand)))
      ensures events == old(events) + if !old(grabbing) && !thrown && Acts(hand) then [GrabEvent(hand)] else []
    {
      thrown := false;
      if grabbing {
        return;
      }
      if oneHanded && |hands| == 0 {
        thrown := true;
      } else if oneHanded && hands[0] == hand {
        events := events + [GrabEvent(hand)];
        grabbing := true;
      } else if !oneHanded {
        events := events + [GrabEvent(hand)];
        grabbing := true;
      }
    }

    method Release(hand: H) returns (thrown: bool)
      requires Valid()
      modifies this`grabbing, this`events
      ensures Valid()
      ensures thrown <==> old(grabbing) && oneHanded && hands == []
      ensures grabbing == (old(grabbing) && (thrown || !Acts(hand)))
      ensures events == old(events) + if old(grabbing) && !thrown && Acts(hand) then [ReleaseEvent(hand)] else []
    {
      thrown := false;
      if !grabbing {
        return;
      }
      if oneHanded && |hands| == 0 {
        thrown := true;
      } else if oneHanded && hands[0] == hand {
        events := events + [ReleaseEvent(hand)];
        grabbing := false;
      } else if !oneHanded {
        events := events + [ReleaseEvent(hand)];
        grabbing := false;
      }
    }

    method Squeeze(hand: H) returns (thrown: bool)
      requires Valid()
      modifies this`squeezing, this`events
      ensures Valid()
      ensures thrown <==> !old(squeezing) && oneHanded && hands == []
      ensures squeezing == (old(squeezing) || (!thrown && Acts(hand)))
      ensures events == old(events) + if !old(squeezing) && !thrown && Acts(hand) then [SqueezeEvent(hand)] else []
    {
      thrown := false;
      if squeezing {
        return;
      }
      if oneHanded && |hands| == 0 {
        thrown := true;
      } else if oneHanded && hands[0] == hand {
        events := events + [SqueezeEvent(hand)];
        squeezing := true;
      } else if !oneHanded {
        squeezing := true;
        events := events + [SqueezeEvent(hand)];
      }
    }

    method Unsqueeze(hand: H) returns (thrown: bool)
      requires Valid()
      modifies this`squeezing, this`events
      ensures Valid()
      ensures thrown <==> old(squeezing) && oneHanded && hands == []
      ensures squeezing == (old(squeezing) && (thrown || !Acts(hand)))
      ensures events == old(events) + if old(squeezing) && !thrown && Acts(hand) then [UnsqueezeEvent(hand)] else []
    {
      thrown := false;
      if !squeezing {
        return;
      }
      if oneHanded && |hands| == 0 {
        thrown := true;
      } else if oneHanded && hands[0] == hand {
        events := events + [UnsqueezeEvent(hand)];
        squeezing := false;
      } else if !oneHanded {
        squeezing := false;
        events := events + [UnsqueezeEvent(hand)];
      }
    }
  }
}
