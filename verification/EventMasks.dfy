/** The two event masks, the loop's own and epoll's, and the conversions between them. */
module EventMasks {
  const FD_EVENT_IN: bv32 := 0x1
  const FD_EVENT_OUT: bv32 := 0x2
  const EPOLLIN: bv32 := 0x1
  const EPOLLOUT: bv32 := 0x4

  function ConvertToEpollEvents(localEvents: bv32): bv32 {
    (if localEvents & FD_EVENT_IN != 0 then EPOLLIN else 0) | (if localEvents & FD_EVENT_OUT != 0 then EPOLLOUT else 0)
  }

  function ConvertToLocalEvents(epollEvents: bv32): bv32 {
    (if epollEvents & EPOLLIN != 0 then FD_EVENT_IN else 0) | (if epollEvents & EPOLLOUT != 0 then FD_EVENT_OUT else 0)
  }

  /** The mask `handleEpollEvent` computes from an event word and a handler's epoll mask. */
  function Delivered(events: bv32, handlerEvents: bv32): bv32 {
    ConvertToLocalEvents(events & handlerEvents)
  }

  /** What a local mask asks for of an event word, bit by bit: the local bit 1 for the event bit 1,
      and the local bit 2 for the event bit 4. */
  function Wanted(events: bv32, mask: bv32): bv32 {
    (if events & 0x1 != 0 && mask & 0x1 != 0 then 0x1 else 0) | (if events & 0x4 != 0 && mask & 0x2 != 0 then 0x2 else 0)
  }

  /** An epoll mask asks for exactly the events that a local mask asks for. */
  predicate AsksFor(epollMask: bv32, mask: bv32) {
    && (epollMask & 0x1 != 0 <==> mask & 0x1 != 0)
    && (epollMask & 0x4 != 0 <==> mask & 0x2 != 0)
    && epollMask & 0xFFFF_FFFA == 0
  }

  /** There is one such mask. */
  lemma OneMaskAsks(a: bv32, b: bv32, mask: bv32)
    requires AsksFor(a, mask)
    ensures AsksFor(b, mask) <==> a == b
  {
    assert a == (a & 0x1) | (a & 0x4) | (a & 0xFFFF_FFFA) && b == (b & 0x1) | (b & 0x4) | (b & 0xFFFF_FFFA);
  }

  lemma EpollBits(mask: bv32)
    ensures AsksFor(ConvertToEpollEvents(mask), mask)
  {
  }

  /** The other conversion: local bit 1 exactly for EPOLLIN, local bit 2 exactly for EPOLLOUT, and no
      other bit. */
  lemma LocalBits(events: bv32)
    ensures var r := ConvertToLocalEvents(events);
      && (r & 0x1 != 0 <==> events & 0x1 != 0)
      && (r & 0x2 != 0 <==> events & 0x4 != 0)
      && r & 0xFFFF_FFFC == 0
  {
  }

  /** There and back again: a converted mask keeps the two bits that the loop knows. */
  lemma ConversionsRoundTrip(mask: bv32)
    ensures ConvertToLocalEvents(ConvertToEpollEvents(mask)) == mask & 0x3
  {
    EpollBits(mask);
    LocalBits(ConvertToEpollEvents(mask));
    hide ConvertToEpollEvents, ConvertToLocalEvents;
    LowBits(ConvertToLocalEvents(ConvertToEpollEvents(mask)), mask);
  }

  lemma LowBits(a: bv32, b: bv32)
    requires a & 0x1 != 0 <==> b & 0x1 != 0
    requires a & 0x2 != 0 <==> b & 0x2 != 0
    requires a & 0xFFFF_FFFC == 0
    ensures a == b & 0x3
  {
    assert a == (a & 0x1) | (a & 0x2) | (a & 0xFFFF_FFFC) && b & 0x3 == (b & 0x1) | (b & 0x2);
  }

  /** A callback is called exactly when the event has a bit that the handler's mask has, and that is
      one of the two that the loop knows; it is handed the local names of just these bits. */
  lemma DeliveredIff(events: bv32, handlerEvents: bv32)
    ensures var mask := Delivered(events, handlerEvents);
      && (mask != 0 <==> events & handlerEvents & 0x5 != 0)
      && (mask & 0x1 != 0 <==> events & handlerEvents & 0x1 != 0)
      && (mask & 0x2 != 0 <==> events & handlerEvents & 0x4 != 0)
      && mask & 0xFFFF_FFFC == 0
  {
    var both := events & handlerEvents;
    LocalBits(both);
    assert both & 0x5 == (both & 0x1) | (both & 0x4);
  }

  /** What a callback is handed, for every event word and every requested mask: exactly the bits
      that were asked for. */
  lemma ConversionsCommuteWithMasking(events: bv32, mask: bv32)
    ensures Delivered(events, ConvertToEpollEvents(mask)) == Wanted(events, mask)
  {
    assert (events & ConvertToEpollEvents(mask)) & EPOLLIN == if mask & FD_EVENT_IN != 0 then events & EPOLLIN else 0;
    assert (events & ConvertToEpollEvents(mask)) & EPOLLOUT == if mask & FD_EVENT_OUT != 0 then events & EPOLLOUT else 0;
  }

  /** A mask is refused exactly when it asks for neither event. */
  lemma RefusedMask(mask: bv32)
    ensures ConvertToEpollEvents(mask) == 0 <==> mask & 0x3 == 0
  {
  }

  /** A handler whose mask is 0 is never handed an event. */
  lemma NoEventsThroughZero(events: bv32)
    ensures Delivered(events, 0) == 0
  {
    assert events & 0 == 0;
  }
}
