/**
 One exchange over a UDP socket (packages/miot-device/src/MiotTransport.ts:99-147 and 266-338): answer,
 socket error, failed send and timeout race, in any order and any number, to settle one promise.
 */
module MiotSocket {
  import opened Wrappers

  /** `parses` is whether the datagram is an acceptable response. */
  datatype Event = Message(parses: bool) | SocketError | SendFails | TimerFires

  datatype Result = Resolved | RejectedTransport | RejectedTimeout

  datatype Exchange = Exchange(result: Option<Result>, settled: bool, closes: nat, timerArmed: bool)

  const OPEN := Exchange(None, false, 0, true)

  /** The promise keeps its first outcome. */
  function Settle(x: Exchange, r: Result): Exchange {
    if x.result.Some? then x else x.(result := Some(r))
  }

  function Step(x: Exchange, e: Event): Exchange {
    match e
    case Message(parses) =>
      var y := x.(timerArmed := false);
      if x.settled then y
      else Settle(y.(settled := true, closes := x.closes + 1), if parses then Resolved else RejectedTransport)
    case TimerFires => if x.timerArmed then Done(x.(timerArmed := false), RejectedTimeout) else x
    case SocketError => Done(x.(timerArmed := false), RejectedTransport)
    case SendFails => Done(x.(timerArmed := false), RejectedTransport)
  }

  /** `done(err)`. */
  function Done(x: Exchange, r: Result): Exchange {
    if x.settled then x else Settle(x.(settled := true, closes := x.closes + 1), r)
  }

  /** The exchange with the events it has seen: its fields are at all times what these lead to. */
  class SocketExchange {
    var result: Option<Result>
    var settled: bool
    var closes: nat
    var timerArmed: bool
    ghost var events: seq<Event>

    ghost function State(): Exchange
      reads this
    {
      Exchange(result, settled, closes, timerArmed)
    }

    ghost predicate Valid()
      reads this
    {
      State() == Exec(events)
    }

    constructor ()
      ensures Valid() && events == []
    {
      events := [];
      result, settled, closes, timerArmed := None, false, 0, true;
    }

    method SettlePromise(r: Result)
      modifies this`result
      ensures State() == Settle(old(State()), r)
    {
      if result.None? {
        result := Some(r);
      }
    }

    method FinishWith(r: Result)
      modifies this`result, this`settled, this`closes
      ensures State() == Done(old(State()), r)
    {
      if settled {
        return;
      }
      settled := true;
      closes := closes + 1;
      SettlePromise(r);
    }

    method OnMessage(parses: bool)
      requires Valid()
      modifies this
      ensures Valid() && events == old(events) + [Message(parses)]
      ensures closes == 1 && !timerArmed
      ensures result == if old(events) == [] then Some(if parses then Resolved else RejectedTransport) else old(result)
    {
      FirstEventSettles(events);
      events := events + [Message(parses)];
      assert events[..|events| - 1] == old(events);
      timerArmed := false;
      if settled {
        return;
      }
      settled := true;
      closes := closes + 1;
      SettlePromise(if parses then Resolved else RejectedTransport);
    }

    /** A socket error or, if `sending`, a failed send. */
    method OnError(ghost sending: bool)
      requires Valid()
      modifies this
      ensures Valid() && events == old(events) + [if sending then SendFails else SocketError]
      ensures closes == 1 && !timerArmed
      ensures result == if old(events) == [] then Some(RejectedTransport) else old(result)
    {
      FirstEventSettles(events);
      events := events + [if sending then SendFails else SocketError];
      assert events[..|events| - 1] == old(events);
      timerArmed := false;
      FinishWith(RejectedTransport);
    }

    method OnTimeout()
      requires Valid() && timerArmed
      modifies this
      ensures Valid() && events == old(events) + [TimerFires]
      ensures closes == 1 && !timerArmed && result == Some(RejectedTimeout)
    {
      FirstEventSettles(events);
      events := events + [TimerFires];
      assert events[..|events| - 1] == old(events);
      timerArmed := false;
      FinishWith(RejectedTimeout);
    }
  }

  function Exec(es: seq<Event>): Exchange {
    if es == [] then OPEN else Step(Exec(es[..|es| - 1]), es[|es| - 1])
  }

  /** Whichever event comes first settles the exchange; the socket is closed exactly once and no timer is left. */
  lemma {:induction false} FirstEventSettles(es: seq<Event>)
    ensures Exec(es) ==
            if es == [] then OPEN
            else Exchange(Some(match es[0]
                               case Message(parses) => if parses then Resolved else RejectedTransport
                               case TimerFires => RejectedTimeout
                               case _ => RejectedTransport),
                          true, 1, false)
  {
    if es != [] {
      FirstEventSettles(es[..|es| - 1]);
    }
  }
}
