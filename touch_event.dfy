/** HandTouchEvent: a solid object that reports hands touching it.  In
    one-handed mode only the first touching hand raises stop events. */
module TouchEvent {
  import opened Common

  datatype TouchEventKind<H> = StartTouch(hand: H) | StopTouch(hand: H)

  class HandTouchEvent<H(==)> {
    var oneHanded: bool
    var hands: seq<H>
    var events: seq<TouchEventKind<H>>

    ghost predicate Valid()
      reads this
    {
      NoDuplicates(hands)
    }

    constructor (oneHanded: bool)
      ensures Valid() && this.oneHanded == oneHanded && hands == [] && events == []
    {
      this.oneHanded := oneHanded;
      hands := [];
      events := [];
    }

    method Touch(hand: H)
      requires Valid()
      modifies this`hands, this`events
      ensures Valid()
      ensures hands == if hand in old(hands) then old(hands) else old(hands) + [hand]
      ensures events == old(events) + if hand in old(hands) then [] else [StartTouch(hand)]
    {
      if hand !in hands {
        if oneHanded && |hands| == 0 {
          events := events + [StartTouch(hand)];
        } else {
          events := events + [StartTouch(hand)];
        }
        hands := hands + [hand];
        assert forall i :: 0 <= i < |old(hands)| ==> hands[i] == old(hands)[i];
      }
    }

    method Untouch(hand: H)
      requires Valid()
      modifies this`hands, this`events
      ensures Valid()
      ensures hand !in old(hands) ==> hands == old(hands) && events == old(events)
      ensures hand in old(hands) ==> hands == RemoveFirst(old(hands), hand) && hand !in hands
      // one-handed: the owner stops, and the start event fires again if hands remain
      ensures hand in old(hands) && oneHanded ==>
        events == old(events) + if old(hands)[0] != hand then []
          else [StopTouch(hand)] + if |old(hands)| > 1 then [StartTouch(hand)] else []
      ensures hand in old(hands) && !oneHanded ==> events == old(events) + [StopTouch(hand)]
    {
      if hand in hands {
        if oneHanded && hands[0] == hand {
          events := events + [StopTouch(hand)];
          // as in the source, the start event is given the hand that left
          if |hands| > 1 {
            events := events + [StartTouch(hand)];
          }
        } else if !oneHanded {
          events := events + [StopTouch(hand)];
        }
        RemoveFirstNoDuplicates(hands, hand);
        hands := RemoveFirst(hands, hand);
      }
    }
  }
}
