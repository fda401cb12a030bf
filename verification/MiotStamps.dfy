/**
 The stamp lifecycle of packages/miot-device/src/MiotDevice.ts:55-222 over the transport of
 packages/miot-device/src/MiotTransport.ts:96-339. Without a stamp store, one operation at a time.
 What the device answers, exchange by exchange, is given from outside; a script that has run out is
 silence. Every packet sent is logged.
 */
module MiotStamps {
  import opened Wrappers

  const MAX_UINT32 := 0xFFFF_FFFF

  datatype Item = Item(siid: int, piid: int, value: Option<string>, code: int)

  /** `Answer(None)` is a response without a `result`. */
  datatype Reply =
    | HelloReply(deviceId: nat, stamp: nat)
    | Answer(items: Option<seq<Item>>)
    | ErrorEnvelope(code: int)
    | Silence
    | Garbled

  datatype Kind = Timeout | DeviceError | TransportError

  datatype Method = Handshake | GetPropertiesMethod | SetPropertiesMethod | ActionMethod

  /** `Untyped` is any error that is not a MiotError. */
  datatype Failure = MiotFailure(kind: Kind, rpc: Method, code: Option<int>, stampRefreshed: bool) | Untyped

  /** A packet sent, or a stamp put in place by `setStampState`. */
  datatype Entry = Hello | Command(stamp: nat) | Seeded(stamp: nat)

  /** `sized` is whether a packet can be built at all: a token of 16 bytes, an id of 32 bits, a payload that fits. */
  datatype Operation =
    | GetProperty(siid: int, piid: int, sized: bool)
    | SetProperty(siid: int, piid: int, sized: bool)
    | CallAction(siid: int, aiid: int, sized: bool)
    | GetProperties(props: seq<(int, int)>, sized: bool)

  function MethodOf(op: Operation): Method {
    match op
    case GetProperty(_, _, _) => GetPropertiesMethod
    case SetProperty(_, _, _) => SetPropertiesMethod
    case CallAction(_, _, _) => ActionMethod
    case GetProperties(_, _) => GetPropertiesMethod
  }

  /** Whether the operation's packet with this stamp can be built. */
  predicate Builds(op: Operation, stamp: nat) {
    op.sized && stamp <= MAX_UINT32
  }

  /** Packets one execution of the operation's body needs. */
  function Packets(op: Operation): nat {
    if op.GetProperties? then |op.props| else 1
  }

  /** Whether the body goes on after this reply. */
  predicate Accepts(op: Operation, r: Reply) {
    r.Answer? && (op.GetProperty? || op.SetProperty? ==> r.items.Some? && r.items.value != [] && r.items.value[0].code == 0)
  }

  function Next(replies: seq<Reply>): Reply {
    if replies == [] then Silence else replies[0]
  }

  function Rest(replies: seq<Reply>): seq<Reply> {
    if replies == [] then [] else replies[1..]
  }

  function Drop(replies: seq<Reply>, n: nat): seq<Reply> {
    if n <= |replies| then replies[n..] else []
  }

  /** Consecutive command packets. */
  function Burst(stamp: nat, n: nat): seq<Entry> {
    if n == 0 then [] else Burst(stamp, n - 1) + [Command(stamp + n - 1)]
  }

  /** Packets a body of `n` packets gets to send: up to and including the first that is not accepted. */
  function Sent(op: Operation, n: nat, stamp: nat, replies: seq<Reply>): (k: nat)
    ensures k <= n
  {
    if n == 0 || !Builds(op, stamp) then 0
    else if Accepts(op, Next(replies)) then 1 + Sent(op, n - 1, stamp + 1, Rest(replies))
    else 1
  }

  predicate Completes(op: Operation, n: nat, stamp: nat, replies: seq<Reply>) {
    n == 0 || (Builds(op, stamp) && Accepts(op, Next(replies)) && Completes(op, n - 1, stamp + 1, Rest(replies)))
  }

  function ItemsIn(r: Reply): seq<Item> {
    if r.Answer? && r.items.Some? then r.items.value else []
  }

  function AllItems(replies: seq<Reply>): seq<Item> {
    if replies == [] then [] else AllItems(replies[..|replies| - 1]) + ItemsIn(replies[|replies| - 1])
  }

  /** What the operation returns once its packets have been answered. */
  function ResultOf(op: Operation, replies: seq<Reply>): seq<Item> {
    match op
    case GetProperty(_, _, _) => if ItemsIn(Next(replies)) != [] then [ItemsIn(Next(replies))[0]] else []
    case SetProperty(_, _, _) => []
    case CallAction(_, _, _) => []
    case GetProperties(props, _) => AllItems(if |props| <= |replies| then replies[..|props|] else replies)
  }

  /** The items of a whole sequence of replies: those of its parts, one after the other. */
  lemma {:induction false} ItemsInOrder(a: seq<Reply>, b: seq<Reply>)
    ensures AllItems(a + b) == AllItems(a) + AllItems(b)
    decreases |b|
  {
    if b == [] {
      assert a + b == a;
    } else {
      var n := |b| - 1;
      ItemsInOrder(a, b[..n]);
      var all := a + b;
      assert all[..|all| - 1] == a + b[..n] && all[|all| - 1] == b[n];
      assert AllItems(all) == AllItems(a + b[..n]) + ItemsIn(b[n]);
      assert AllItems(b) == AllItems(b[..n]) + ItemsIn(b[n]);
    }
  }

  lemma ItemsOfOne(r: Reply)
    ensures AllItems([r]) == if r.Answer? && r.items.Some? then r.items.value else []
  {
    assert [r][..0] == [];
  }

  /** What an operation returns: the one item read, nothing for a write or an action, or all items of all replies. */
  lemma ResultsByOperation(op: Operation, stamp: nat, replies: seq<Reply>)
    requires Completes(op, Packets(op), stamp, replies)
    ensures op.GetProperty? ==> replies != [] && replies[0].Answer? && replies[0].items.Some? && replies[0].items.value != []
                                && ResultOf(op, replies) == [replies[0].items.value[0]] && replies[0].items.value[0].code == 0
    ensures op.SetProperty? || op.CallAction? ==> ResultOf(op, replies) == []
    ensures op.GetProperties? ==> |op.props| <= |replies| && ResultOf(op, replies) == AllItems(replies[..|op.props|])
    ensures op.GetProperties? ==> forall k :: 0 <= k < |op.props| ==> replies[k].Answer?
  {
    if op.GetProperties? {
      CompletedReplies(op, |op.props|, stamp, replies);
      assert |op.props| == |replies| ==> replies[..|op.props|] == replies;
    }
  }

  lemma {:induction false} CompletedReplies(op: Operation, n: nat, stamp: nat, replies: seq<Reply>)
    requires Completes(op, n, stamp, replies)
    ensures n <= |replies| && forall k :: 0 <= k < n ==> replies[k].Answer?
  {
    if n > 0 {
      CompletedReplies(op, n - 1, stamp + 1, Rest(replies));
      assert forall k :: 1 <= k < n ==> replies[k] == replies[1..][k - 1];
    }
  }

  /** A body of `n` packets whose first `index` have been accepted. */
  ghost predicate Reaches(op: Operation, n: nat, index: nat, stamp: nat, replies: seq<Reply>)
    requires index <= n && index <= |replies|
  {
    && Sent(op, n, stamp, replies) == index + Sent(op, n - index, stamp + index, replies[index..])
    && Completes(op, n, stamp, replies) == Completes(op, n - index, stamp + index, replies[index..])
    && forall j :: 0 <= j < index ==> replies[j].Answer?
  }

  /** One more packet of a bulk read brings the body one packet further. */
  lemma BulkGoesOn(op: Operation, n: nat, index: nat, stamp: nat, replies: seq<Reply>)
    requires op.GetProperties? && index < n && index <= |replies| && Reaches(op, n, index, stamp, replies)
    requires Next(replies[index..]).Answer? && Builds(op, stamp + index)
    ensures Burst(stamp, index + 1) == Burst(stamp, index) + [Command(stamp + index)]
    ensures index < |replies| && Reaches(op, n, index + 1, stamp, replies)
    ensures Rest(replies[index..]) == replies[index + 1..]
    ensures AllItems(replies[..index + 1]) == AllItems(replies[..index]) + ItemsIn(replies[index])
  {
    assert replies[index + 1..] == replies[index..][1..];
    assert replies[..index + 1][..index] == replies[..index];
  }

  lemma BulkCompletes(op: Operation, stamp: nat, replies: seq<Reply>)
    requires op.GetProperties? && |op.props| <= |replies| && Reaches(op, |op.props|, |op.props|, stamp, replies)
    ensures var n := |op.props|;
            && Completes(op, n, stamp, replies) && Sent(op, n, stamp, replies) == n
            && Drop(replies, n) == replies[n..] && ResultOf(op, replies) == AllItems(replies[..n])
  {
  }

  /** Or it ends the body. */
  lemma BulkEnds(f: Failure, op: Operation, n: nat, index: nat, stamp: nat, replies: seq<Reply>)
    requires op.GetProperties? && index < n == |op.props| && index <= |replies| && Reaches(op, n, index, stamp, replies)
    requires !Next(replies[index..]).Answer? || !Builds(op, stamp + index)
    requires EndsWith(f, op, 0, stamp + index, replies[index..], false)
    ensures !Completes(op, n, stamp, replies)
    ensures var k := Sent(op, n, stamp, replies);
            && Drop(replies, k) == (if Builds(op, stamp + index) then Rest(replies[index..]) else replies[index..])
            && Burst(stamp, k) == Burst(stamp, index) + (if Builds(op, stamp + index) then [Command(stamp + index)] else [])
    ensures CausedBy(f, op, stamp, replies, false)
  {
    LaterPacketEnds(f, op, index, stamp, replies);
  }

  // ---------- which error a failure is ----------

  /** The k-th reply from now on; beyond the last there is silence. */
  function Nth(replies: seq<Reply>, k: nat): Reply {
    if k < |replies| then replies[k] else Silence
  }

  /**
   The error of a body that ends with its packet `k`, from what the device answered to that packet. A packet that
   cannot be built fails with an error of no kind, which becomes a transport error once the stamp has been refreshed.
   */
  ghost predicate EndsWith(f: Failure, op: Operation, k: nat, stamp: nat, replies: seq<Reply>, refreshed: bool) {
    var rpc := if op.SetProperty? then SetPropertiesMethod else if op.CallAction? then ActionMethod else GetPropertiesMethod;
    if !op.sized || stamp + k > 0xFFFF_FFFF then
      f == if refreshed then MiotFailure(TransportError, rpc, None, true) else Untyped
    else
      match Nth(replies, k)
      case ErrorEnvelope(c) => f == MiotFailure(DeviceError, rpc, Some(c), refreshed)
      case Silence => f == MiotFailure(Timeout, rpc, None, refreshed)
      case HelloReply(_, _) => f == MiotFailure(TransportError, rpc, None, refreshed)
      case Garbled => f == MiotFailure(TransportError, rpc, None, refreshed)
      case Answer(items) =>
        && (op.GetProperty? || op.SetProperty?)
        && if items.None? || items.value == [] then f == MiotFailure(DeviceError, rpc, None, refreshed)
           else items.value[0].code != 0 && f == MiotFailure(DeviceError, rpc, Some(items.value[0].code), refreshed)
  }

  /** A failing body ends with its first packet that is not answered as it should be. */
  ghost predicate CausedBy(f: Failure, op: Operation, stamp: nat, replies: seq<Reply>, refreshed: bool) {
    exists k :: 0 <= k < (if op.GetProperties? then |op.props| else 1)
             && (forall j :: 0 <= j < k ==> Nth(replies, j).Answer?)
             && EndsWith(f, op, k, stamp, replies, refreshed)
  }

  lemma LaterPacketEnds(f: Failure, op: Operation, k: nat, stamp: nat, replies: seq<Reply>)
    requires op.GetProperties? && k < |op.props| && k <= |replies|
    requires forall j :: 0 <= j < k ==> Nth(replies, j).Answer?
    requires EndsWith(f, op, 0, stamp + k, replies[k..], false)
    ensures CausedBy(f, op, stamp, replies, false)
  {
    assert Nth(replies[k..], 0) == Nth(replies, k);
    assert EndsWith(f, op, k, stamp, replies, false);
  }

  lemma RefreshKeepsTheCause(f: Failure, op: Operation, stamp: nat, replies: seq<Reply>)
    requires CausedBy(f, op, stamp, replies, false)
    ensures CausedBy(AfterStampRefresh(f, MethodOf(op)), op, stamp, replies, true)
  {
    var k :| 0 <= k < (if op.GetProperties? then |op.props| else 1)
             && (forall j :: 0 <= j < k ==> Nth(replies, j).Answer?)
             && EndsWith(f, op, k, stamp, replies, false);
    assert EndsWith(AfterStampRefresh(f, MethodOf(op)), op, k, stamp, replies, true);
  }

  class MiotTransport {
    var replies: seq<Reply>     // what the device will answer
    var log: seq<Entry>         // what has been sent

    constructor (replies: seq<Reply>)
      ensures this.replies == replies && log == []
    {
      this.replies, log := replies, [];
    }

    method Exchange(packet: Entry) returns (r: Reply)
      modifies this
      ensures r == Next(old(replies)) && replies == Rest(old(replies)) && log == old(log) + [packet]
    {
      log := log + [packet];
      if replies == [] {
        return Silence;
      }
      r := replies[0];
      replies := replies[1..];
    }

    method SayHello() returns (r: Result<(nat, nat), Failure>)
      modifies this
      ensures log == old(log) + [Hello] && replies == Rest(old(replies))
      ensures r == match Next(old(replies))
                   case HelloReply(id, stamp) => Success((id, stamp))
                   case Silence => Failure(MiotFailure(Timeout, Handshake, None, false))
                   case _ => Failure(MiotFailure(TransportError, Handshake, None, false))
    {
      var reply := Exchange(Hello);
      match reply {
        case HelloReply(id, stamp) => return Success((id, stamp));
        case Silence => return Failure(MiotFailure(Timeout, Handshake, None, false));
        case _ => return Failure(MiotFailure(TransportError, Handshake, None, false));
      }
    }

    /** A packet that cannot be built fails before anything is sent, with an error that is not a MiotError. */
    method SendCommand(op: Operation, stamp: nat) returns (r: Result<Option<seq<Item>>, Failure>)
      modifies this
      ensures !Builds(op, stamp) ==> unchanged(this) && r == Failure(Untyped)
      ensures Builds(op, stamp) ==>
                && log == old(log) + [Command(stamp)] && replies == Rest(old(replies))
                && r == match Next(old(replies))
                        case Answer(items) => Success(items)
                        case ErrorEnvelope(code) => Failure(MiotFailure(DeviceError, MethodOf(op), Some(code), false))
                        case Silence => Failure(MiotFailure(Timeout, MethodOf(op), None, false))
                        case _ => Failure(MiotFailure(TransportError, MethodOf(op), None, false))
    {
      var rpc := MethodOf(op);
      if !op.sized || stamp > MAX_UINT32 {
        return Failure(Untyped);
      }
      var reply := Exchange(Command(stamp));
      match reply {
        case Answer(items) => return Success(items);
        case ErrorEnvelope(code) => return Failure(MiotFailure(DeviceError, rpc, Some(code), false));
        case Silence => return Failure(MiotFailure(Timeout, rpc, None, false));
        case _ => return Failure(MiotFailure(TransportError, rpc, None, false));
      }
    }

    /** `getProperty`, `setProperty` and `callAction`: one packet; the first two also check the item's code. */
    method RunSingle(op: Operation, stamp: nat) returns (r: Result<seq<Item>, Failure>)
      requires !op.GetProperties?
      modifies this
      ensures log == old(log) + Burst(stamp, Sent(op, 1, stamp, old(replies)))
      ensures replies == Drop(old(replies), Sent(op, 1, stamp, old(replies)))
      ensures r.Success? <==> Completes(op, 1, stamp, old(replies))
      ensures r.Failure? && r.error.MiotFailure? ==> r.error.rpc == MethodOf(op) && !r.error.stampRefreshed
      ensures r.Success? ==> r.value == ResultOf(op, old(replies))
      ensures r.Failure? ==> EndsWith(r.error, op, 0, stamp, old(replies), false)
      // a refused property keeps the device's code
      ensures Builds(op, stamp) && !op.CallAction? && ItemsIn(Next(old(replies))) != []
                && ItemsIn(Next(old(replies)))[0].code != 0
              ==> r == Failure(MiotFailure(DeviceError, MethodOf(op), Some(ItemsIn(Next(old(replies)))[0].code), false))
    {
      var response := SendCommand(op, stamp);
      match response {
        case Failure(e) => return Failure(e);
        case Success(items) =>
          if op.CallAction? {
            return Success([]);
          }
          if items.None? || items.value == [] {
            return Failure(MiotFailure(DeviceError, MethodOf(op), None, false));
          }
          var item := items.value[0];
          if item.code != 0 {
            return Failure(MiotFailure(DeviceError, MethodOf(op), Some(item.code), false));
          }
          return Success(if op.GetProperty? then [item] else []);
      }
    }

    /** One packet of a bulk read: every item of a response is taken, whatever its code. */
    method ReadOne(op: Operation, stamp: nat) returns (r: Result<seq<Item>, Failure>)
      requires op.GetProperties?
      modifies this
      ensures !Builds(op, stamp) ==> unchanged(this) && r == Failure(Untyped)
      ensures Builds(op, stamp) ==> log == old(log) + [Command(stamp)] && replies == Rest(old(replies))
      ensures r.Success? <==> Builds(op, stamp) && Next(old(replies)).Answer?
      ensures r.Success? ==> r.value == ItemsIn(Next(old(replies)))
      ensures r.Failure? ==> EndsWith(r.error, op, 0, stamp, old(replies), false)
      ensures r.Failure? && r.error.MiotFailure? ==> r.error.rpc == GetPropertiesMethod && !r.error.stampRefreshed
    {
      var response := SendCommand(op, stamp);
      match response {
        case Failure(e) => return Failure(e);
        case Success(items) => return Success(if items.Some? then items.value else []);
      }
    }

    /** Packet `index` of a bulk read that began with these replies and stamp. */
    method ReadNext(op: Operation, currentStamp: nat, ghost index: nat, ghost stamp: nat, ghost start: seq<Reply>)
        returns (r: Result<seq<Item>, Failure>)
      requires op.GetProperties? && index < |op.props| && index <= |start| && currentStamp == stamp + index
      requires replies == start[index..] && Reaches(op, |op.props|, index, stamp, start)
      modifies this
      ensures r.Success? ==>
                && log == old(log) + [Command(stamp + index)] && index < |start| && replies == start[index + 1..]
                && Reaches(op, |op.props|, index + 1, stamp, start)
                && Burst(stamp, index + 1) == Burst(stamp, index) + [Command(stamp + index)]
                && AllItems(start[..index + 1]) == AllItems(start[..index]) + r.value
      ensures r.Failure? ==>
                && !Completes(op, |op.props|, stamp, start) && CausedBy(r.error, op, stamp, start, false)
                && (r.error.MiotFailure? ==> r.error.rpc == GetPropertiesMethod && !r.error.stampRefreshed)
                && var sent := Sent(op, |op.props|, stamp, start);
                   && replies == Drop(start, sent)
                   && log == old(log) + (if Builds(op, stamp + index) then [Command(stamp + index)] else [])
                   && Burst(stamp, sent) == Burst(stamp, index) + (if Builds(op, stamp + index) then [Command(stamp + index)] else [])
    {
      r := ReadOne(op, currentStamp);
      if r.Failure? {
        BulkEnds(r.error, op, |op.props|, index, stamp, start);
      } else {
        BulkGoesOn(op, |op.props|, index, stamp, start);
      }
    }

    /** `getProperties`: one packet per property, one stamp apart. */
    method RunBulk(op: Operation, stamp: nat) returns (r: Result<seq<Item>, Failure>, finalStamp: nat)
      requires op.GetProperties?
      modifies this
      ensures log == old(log) + Burst(stamp, Sent(op, |op.props|, stamp, old(replies)))
      ensures replies == Drop(old(replies), Sent(op, |op.props|, stamp, old(replies)))
      ensures r.Success? <==> Completes(op, |op.props|, stamp, old(replies))
      ensures r.Failure? && r.error.MiotFailure? ==> r.error.rpc == MethodOf(op) && !r.error.stampRefreshed
      ensures r.Success? ==> r.value == ResultOf(op, old(replies))
      ensures r.Failure? ==> CausedBy(r.error, op, stamp, old(replies), false)
      ensures r.Success? ==> finalStamp == if op.props == [] then stamp else stamp + |op.props| - 1
    {
      var n := |op.props|;
      var results: seq<Item> := [];
      var currentStamp := stamp;
      for index := 0 to n
        invariant index <= |old(replies)|
        invariant currentStamp == if index == n > 0 then stamp + n - 1 else stamp + index
        invariant log == old(log) + Burst(stamp, index)
        invariant replies == old(replies)[index..]
        invariant results == AllItems(old(replies)[..index])
        invariant Reaches(op, n, index, stamp, old(replies))
      {
        var response := ReadNext(op, currentStamp, index, stamp, old(replies));
        if response.Failure? {
          assert log == old(log) + Burst(stamp, Sent(op, n, stamp, old(replies)));
          return response, currentStamp;
        }
        results := results + response.value;
        if index < n - 1 {
          currentStamp := currentStamp + 1;
        }
      }
      BulkCompletes(op, stamp, old(replies));
      return Success(results), currentStamp;
    }

    method RunBody(op: Operation, stamp: nat) returns (r: Result<seq<Item>, Failure>, finalStamp: nat)
      modifies this
      ensures log == old(log) + Burst(stamp, Sent(op, Packets(op), stamp, old(replies)))
      ensures replies == Drop(old(replies), Sent(op, Packets(op), stamp, old(replies)))
      ensures r.Success? <==> Completes(op, Packets(op), stamp, old(replies))
      ensures r.Failure? && r.error.MiotFailure? ==> r.error.rpc == MethodOf(op) && !r.error.stampRefreshed
      ensures r.Success? ==> r.value == ResultOf(op, old(replies))
      ensures r.Failure? ==> CausedBy(r.error, op, stamp, old(replies), false)
      ensures r.Success? ==> finalStamp == FinalStamp(op, stamp)
    {
      if op.GetProperties? {
        r, finalStamp := RunBulk(op, stamp);
      } else {
        r := RunSingle(op, stamp);
        finalStamp := stamp;
      }
    }
  }

  /** The last stamp a completed body has used. */
  function FinalStamp(op: Operation, stamp: nat): nat {
    if Packets(op) == 0 then stamp else stamp + Packets(op) - 1
  }

  // ---------- the log ----------

  /** No handshake and no seeded stamp at positions lo <= i < hi. */
  ghost predicate SameStampCycle(log: seq<Entry>, lo: nat, hi: nat)
    requires hi <= |log|
  {
    forall i :: lo <= i < hi ==> log[i].Command?
  }

  /** Between two consecutive resynchronisations command stamps strictly increase. */
  ghost predicate StampsIncrease(log: seq<Entry>) {
    forall i, j :: 0 <= i < j < |log| && SameStampCycle(log, i, j + 1) ==> log[i].stamp < log[j].stamp
  }

  /** The same, told from neighbours alone. */
  ghost predicate InOrder(log: seq<Entry>) {
    forall i :: 0 <= i < |log| - 1 ==> Follows(log[i], log[i + 1])
  }

  ghost predicate Follows(first: Entry, second: Entry) {
    first.Command? && second.Command? ==> first.stamp < second.stamp
  }

  lemma {:induction false} NeighboursInOrder(log: seq<Entry>, i: nat, j: nat)
    requires InOrder(log) && i < j < |log| && SameStampCycle(log, i, j + 1)
    ensures log[i].stamp < log[j].stamp
    decreases j
  {
    assert Follows(log[j - 1], log[j - 1 + 1]);
    if i < j - 1 {
      NeighboursInOrder(log, i, j - 1);
    }
  }

  lemma OrderMeansIncrease(log: seq<Entry>)
    requires InOrder(log)
    ensures StampsIncrease(log)
  {
    forall i, j | 0 <= i < j < |log| && SameStampCycle(log, i, j + 1) ensures log[i].stamp < log[j].stamp {
      NeighboursInOrder(log, i, j);
    }
  }

  /** A command with this stamp, or a greater one, may come next. */
  ghost predicate Unused(log: seq<Entry>, stamp: nat) {
    log == [] || (log[|log| - 1].Command? ==> log[|log| - 1].stamp < stamp)
  }

  lemma {:induction false} BurstExtends(log: seq<Entry>, stamp: nat, n: nat)
    requires InOrder(log) && Unused(log, stamp)
    ensures InOrder(log + Burst(stamp, n)) && Unused(log + Burst(stamp, n), stamp + n)
  {
    if n == 0 {
      assert log + Burst(stamp, 0) == log;
    } else {
      BurstExtends(log, stamp, n - 1);
      assert log + Burst(stamp, n) == (log + Burst(stamp, n - 1)) + [Command(stamp + n - 1)];
    }
  }

  function Handshakes(log: seq<Entry>): nat {
    if log == [] then 0 else Handshakes(log[..|log| - 1]) + (if log[|log| - 1].Hello? then 1 else 0)
  }

  function Commands(log: seq<Entry>): nat {
    if log == [] then 0 else Commands(log[..|log| - 1]) + (if log[|log| - 1].Command? then 1 else 0)
  }

  lemma {:induction false} BurstCounts(log: seq<Entry>, stamp: nat, n: nat)
    ensures Handshakes(log + Burst(stamp, n)) == Handshakes(log)
    ensures Commands(log + Burst(stamp, n)) == Commands(log) + n
  {
    var after := log + Burst(stamp, n);
    if n > 0 {
      BurstCounts(log, stamp, n - 1);
      assert after == (log + Burst(stamp, n - 1)) + [Command(stamp + n - 1)];
      assert after[..|after| - 1] == log + Burst(stamp, n - 1);
    } else {
      assert after == log;
    }
  }

  /** Everything an operation can see or change. */
  datatype Session = Session(replies: seq<Reply>, log: seq<Entry>, stamp: Option<nat>)

  function AfterStampRefresh(f: Failure, rpc: Method): Failure {
    match f
    case MiotFailure(kind, call, code, _) => MiotFailure(kind, call, code, true)
    case Untyped => MiotFailure(TransportError, rpc, None, true)
  }

  /** One execution of the body starting at `stamp`. */
  function AfterBody(s: Session, op: Operation, stamp: nat): Session {
    var k := Sent(op, Packets(op), stamp, s.replies);
    Session(Drop(s.replies, k), s.log + Burst(stamp, k),
            if Completes(op, Packets(op), stamp, s.replies) then Some(FinalStamp(op, stamp)) else None)
  }

  /** A handshake and, if it is answered, one execution of the body. */
  function AfterFreshStamp(s: Session, op: Operation): Session {
    var greeted := Session(Rest(s.replies), s.log + [Hello], None);
    match Next(s.replies)
    case HelloReply(_, stamp) => AfterBody(greeted, op, stamp + 1)
    case _ => greeted
  }

  /** A body with the cached stamp if there is one, and on failure a fresh start. */
  function AfterOperation(s: Session, op: Operation): Session {
    var tried := Tried(s, op);
    if tried.stamp.Some? then tried else AfterFreshStamp(tried, op)
  }

  /** The session once the cached stamp, if there is one, has been tried. */
  function Tried(s: Session, op: Operation): Session {
    if s.stamp.Some? then AfterBody(s, op, s.stamp.value + 1) else s
  }

  /** The replies the successful execution of the body got, if there was one. */
  function Answering(s: Session, op: Operation): seq<Reply> {
    if Tried(s, op).stamp.Some? then s.replies else Rest(Tried(s, op).replies)
  }

  /**
   The error that reaches the caller, from the replies to the handshake and to the execution after it: the handshake's
   own, or the one that ended the execution, marked as having survived a stamp refresh.
   */
  ghost predicate SurfacesFrom(f: Failure, op: Operation, replies: seq<Reply>) {
    match Nth(replies, 0)
    case HelloReply(_, stamp) => CausedBy(f, op, stamp + 1, replies[1..], true)
    case Silence => f == MiotFailure(Timeout, Handshake, None, false)
    case _ => f == MiotFailure(TransportError, Handshake, None, false)
  }

  lemma FreshFailureSurfaces(f: Failure, op: Operation, replies: seq<Reply>)
    requires Next(replies).HelloReply? && CausedBy(f, op, Next(replies).stamp + 1, Rest(replies), false)
    ensures SurfacesFrom(AfterStampRefresh(f, MethodOf(op)), op, replies)
  {
    RefreshKeepsTheCause(f, op, Next(replies).stamp + 1, Rest(replies));
  }

  class MiotDevice {
    const transport: MiotTransport
    var deviceId: Option<nat>
    var stampState: Option<nat>

    ghost function State(): Session
      reads this, transport
    {
      Session(transport.replies, transport.log, stampState)
    }

    /** The invariant of every run: stamps increase, and the cached stamp is the highest used in its cycle. */
    ghost predicate Valid()
      reads this, transport
    {
      Increasing(State())
    }

    constructor (transport: MiotTransport, deviceId: Option<nat>)
      requires transport.log == []
      ensures Valid() && this.transport == transport && this.deviceId == deviceId && stampState == None
    {
      this.transport, this.deviceId, stampState := transport, deviceId, None;
    }

    method Discover() returns (r: Result<(nat, nat), Failure>)
      requires Valid()
      modifies this, transport
      ensures Valid()
      ensures transport.log == old(transport.log) + [Hello]
      ensures r.Success? <==> Next(old(transport.replies)).HelloReply?
      ensures r.Success? ==> deviceId == Some(r.value.0) && stampState == Some(r.value.1)
                             && r.value == (Next(old(transport.replies)).deviceId, Next(old(transport.replies)).stamp)
      ensures r.Failure? ==> deviceId == old(deviceId) && stampState == old(stampState)
    {
      r := transport.SayHello();
      if r.Success? {
        deviceId := Some(r.value.0);
        stampState := Some(r.value.1);
      }
    }

    method SetStampState(stamp: nat)
      requires Valid()
      modifies this`stampState, transport`log
      ensures Valid() && stampState == Some(stamp)
      ensures transport.log == old(transport.log) + [Seeded(stamp)]
    {
      stampState := Some(stamp);
      transport.log := transport.log + [Seeded(stamp)];
    }

    method RunWithStamp(op: Operation) returns (r: Result<seq<Item>, Failure>)
      requires Valid()
      modifies this, transport
      ensures Valid() && deviceId == old(deviceId)
      ensures deviceId.None? ==> State() == old(State()) && r == Failure(Untyped)
      ensures deviceId.Some? ==> State() == AfterOperation(old(State()), op)
      ensures deviceId.Some? ==> (r.Success? <==> stampState.Some?)
      ensures r.Success? ==> r.value == ResultOf(op, Answering(old(State()), op))
      // what surfaces after the retry keeps its classification and says it was retried
      ensures r.Failure? && deviceId.Some? ==> SurfacesFrom(r.error, op, Tried(old(State()), op).replies)
      ensures r.Failure? && deviceId.Some? ==>
                r.error.MiotFailure? && (r.error.stampRefreshed <==> !r.error.rpc.Handshake?)
    {
      if deviceId.None? {
        return Failure(Untyped);
      }
      OperationKeepsOrder(State(), op);
      r := RunConnected(op);
    }

    method RunConnected(op: Operation) returns (r: Result<seq<Item>, Failure>)
      modifies this`stampState, transport
      ensures State() == AfterOperation(old(State()), op)
      ensures r.Success? <==> stampState.Some?
      ensures r.Success? ==> r.value == ResultOf(op, Answering(old(State()), op))
      ensures r.Failure? ==> SurfacesFrom(r.error, op, Tried(old(State()), op).replies)
      ensures r.Failure? ==> r.error.MiotFailure? && (r.error.stampRefreshed <==> !r.error.rpc.Handshake?)
    {
      if stampState.Some? {
        r := Attempt(op, stampState.value + 1);
        if r.Success? {
          return;
        }
      }
      r := RunWithFreshStamp(op);
    }

    /** One execution of the body: its last stamp is cached if it completes, and none if it does not. */
    method Attempt(op: Operation, stamp: nat) returns (r: Result<seq<Item>, Failure>)
      modifies this`stampState, transport
      ensures State() == AfterBody(old(State()), op, stamp)
      ensures r.Success? <==> stampState.Some?
      ensures r.Success? ==> r.value == ResultOf(op, old(transport.replies))
      ensures r.Failure? ==> CausedBy(r.error, op, stamp, old(transport.replies), false)
      ensures r.Failure? && r.error.MiotFailure? ==> r.error.rpc == MethodOf(op) && !r.error.stampRefreshed
    {
      var result, finalStamp := transport.RunBody(op, stamp);
      stampState := if result.Success? then Some(finalStamp) else None;
      return result;
    }

    method RunWithFreshStamp(op: Operation) returns (r: Result<seq<Item>, Failure>)
      requires stampState.None?
      modifies this`stampState, transport
      ensures State() == AfterFreshStamp(old(State()), op)
      ensures r.Success? <==> stampState.Some?
      ensures r.Success? ==> r.value == ResultOf(op, Rest(old(transport.replies)))
      ensures r.Failure? ==> SurfacesFrom(r.error, op, old(transport.replies))
      ensures r.Failure? ==> r.error.MiotFailure? && (r.error.stampRefreshed <==> !r.error.rpc.Handshake?)
    {
      var hello := transport.SayHello();
      if hello.Failure? {
        assert AfterFreshStamp(old(State()), op) == State();
        return Failure(hello.error);
      }
      assert AfterFreshStamp(old(State()), op) == AfterBody(State(), op, hello.value.1 + 1);
      r := Attempt(op, hello.value.1 + 1);
      if r.Failure? {
        FreshFailureSurfaces(r.error, op, old(transport.replies));
        r := Failure(AfterStampRefresh(r.error, MethodOf(op)));
      }
    }
  }

  ghost predicate Increasing(s: Session) {
    InOrder(s.log) && (s.stamp.Some? ==> Unused(s.log, s.stamp.value + 1))
  }

  // ---------- what every operation keeps, and costs ----------

  lemma {:induction false} CompleteBodiesSendAll(op: Operation, n: nat, stamp: nat, replies: seq<Reply>)
    requires Completes(op, n, stamp, replies)
    ensures Sent(op, n, stamp, replies) == n
  {
    if n > 0 {
      CompleteBodiesSendAll(op, n - 1, stamp + 1, Rest(replies));
    }
  }

  lemma BodyKeepsOrder(s: Session, op: Operation, stamp: nat)
    requires InOrder(s.log) && Unused(s.log, stamp)
    ensures Increasing(AfterBody(s, op, stamp))
  {
    var n := Packets(op);
    BurstExtends(s.log, stamp, Sent(op, n, stamp, s.replies));
    if Completes(op, n, stamp, s.replies) {
      CompleteBodiesSendAll(op, n, stamp, s.replies);
      if n == 0 {
        assert s.log + Burst(stamp, 0) == s.log;
      }
    }
  }

  lemma FreshStartKeepsOrder(s: Session, op: Operation)
    requires InOrder(s.log)
    ensures Increasing(AfterFreshStamp(s, op))
  {
    var greeted := Session(Rest(s.replies), s.log + [Hello], None);
    var stamp := if Next(s.replies).HelloReply? then Next(s.replies).stamp + 1 else 0;
    if Next(s.replies).HelloReply? {
      assert AfterFreshStamp(s, op) == AfterBody(greeted, op, stamp);
      BodyKeepsOrder(greeted, op, Next(s.replies).stamp + 1);
    }
  }

  /** Command stamps strictly increase between consecutive handshakes, whatever is sent and answered. */
  lemma OperationKeepsOrder(s: Session, op: Operation)
    requires Increasing(s)
    ensures Increasing(AfterOperation(s, op))
  {
    var tried := Tried(s, op);
    if s.stamp.Some? {
      BodyKeepsOrder(s, op, s.stamp.value + 1);
    }
    FreshStartKeepsOrder(tried, op);
  }

  lemma BodyCost(s: Session, op: Operation, stamp: nat)
    ensures Handshakes(AfterBody(s, op, stamp).log) == Handshakes(s.log)
    ensures Commands(AfterBody(s, op, stamp).log) <= Commands(s.log) + Packets(op)
  {
    BurstCounts(s.log, stamp, Sent(op, Packets(op), stamp, s.replies));
  }

  lemma FreshStartCost(s: Session, op: Operation)
    ensures var after := AfterFreshStamp(s, op);
            Handshakes(after.log) == Handshakes(s.log) + 1 && Commands(after.log) <= Commands(s.log) + Packets(op)
  {
    var greeted := Session(Rest(s.replies), s.log + [Hello], None);
    assert greeted.log[..|s.log|] == s.log;
    assert Handshakes(greeted.log) == Handshakes(s.log) + 1 && Commands(greeted.log) == Commands(s.log);
    if Next(s.replies).HelloReply? {
      BodyCost(greeted, op, Next(s.replies).stamp + 1);
    }
  }

  lemma TryCost(s: Session, op: Operation)
    ensures Handshakes(Tried(s, op).log) == Handshakes(s.log)
    ensures Commands(Tried(s, op).log) <= Commands(s.log) + Packets(op)
  {
    if s.stamp.Some? {
      BodyCost(s, op, s.stamp.value + 1);
    }
  }

  /** Any operation costs at most one handshake and two executions of its body; a handshake exactly if the cached stamp does not work. */
  lemma OperationCost(s: Session, op: Operation)
    ensures Handshakes(AfterOperation(s, op).log) == Handshakes(s.log) + (if Tried(s, op).stamp.Some? then 0 else 1)
    ensures Commands(AfterOperation(s, op).log) <= Commands(s.log) + 2 * Packets(op)
    ensures Tried(s, op).stamp.Some? <==> s.stamp.Some? && Completes(op, Packets(op), s.stamp.value + 1, s.replies)
  {
    TryCost(s, op);
    TrySucceeds(s, op);
    SettleCost(Tried(s, op), op, AfterOperation(s, op));
  }

  lemma TrySucceeds(s: Session, op: Operation)
    ensures Tried(s, op).stamp.Some? <==> s.stamp.Some? && Completes(op, Packets(op), s.stamp.value + 1, s.replies)
    ensures AfterOperation(s, op) == if Tried(s, op).stamp.Some? then Tried(s, op) else AfterFreshStamp(Tried(s, op), op)
  {
  }

  lemma SettleCost(tried: Session, op: Operation, after: Session)
    requires after == if tried.stamp.Some? then tried else AfterFreshStamp(tried, op)
    ensures Handshakes(after.log) == Handshakes(tried.log) + (if tried.stamp.Some? then 0 else 1)
    ensures Commands(after.log) <= Commands(tried.log) + Packets(op)
  {
    if tried.stamp.None? {
      FreshStartCost(tried, op);
    }
  }

  /**
   A bulk read of n >= 1 properties that succeeds, at once or after a handshake, ends in exactly n consecutive stamps
   and caches the last. They start one above the cached stamp or, after a handshake, one above the device's.
   */
  lemma BulkReadUsesConsecutiveStamps(s: Session, op: Operation)
    requires op.GetProperties? && |op.props| >= 1
    requires AfterOperation(s, op).stamp.Some?
    ensures var after, n, tried := AfterOperation(s, op), |op.props|, Tried(s, op);
            && (tried.stamp.None? ==> Nth(tried.replies, 0).HelloReply?)
            && (tried.stamp.Some? ==> s.stamp.Some?)
            && |after.log| >= n
            && var known := if tried.stamp.Some? then s.stamp.value else Nth(tried.replies, 0).stamp;
               var before, sent := after.log[..|after.log| - n], after.log[|after.log| - n..];
               && (forall i :: 0 <= i < n ==> sent[i] == Command(known + 1 + i))
               && after.stamp == Some(known + n)
               && before == if tried.stamp.Some? then s.log else tried.log + [Hello]
  {
    var tried := Tried(s, op);
    if tried.stamp.Some? {
      CompletedBodyEndsTheLog(s, op, s.stamp.value + 1);
    } else {
      CompletedBodyEndsTheLog(Session(Rest(tried.replies), tried.log + [Hello], None), op, Next(tried.replies).stamp + 1);
    }
  }

  lemma CompletedBodyEndsTheLog(s: Session, op: Operation, stamp: nat)
    requires op.GetProperties? && |op.props| >= 1 && AfterBody(s, op, stamp).stamp.Some?
    ensures var after, n := AfterBody(s, op, stamp), |op.props|;
            && |after.log| == |s.log| + n && after.log[..|s.log|] == s.log
            && after.stamp == Some(stamp + n - 1)
            && var sent := after.log[|s.log|..];
               forall i :: 0 <= i < n ==> sent[i] == Command(stamp + i)
  {
    CompleteBodiesSendAll(op, |op.props|, stamp, s.replies);
    BurstStamps(stamp, |op.props|);
    assert (s.log + Burst(stamp, |op.props|))[|s.log|..] == Burst(stamp, |op.props|);
  }

  lemma {:induction false} BurstStamps(stamp: nat, n: nat)
    ensures |Burst(stamp, n)| == n && forall i :: 0 <= i < n ==> Burst(stamp, n)[i] == Command(stamp + i)
  {
    if n > 0 {
      BurstStamps(stamp, n - 1);
    }
  }

  function RunAll(s: Session, ops: seq<Operation>): Session {
    if ops == [] then s else AfterOperation(RunAll(s, ops[..|ops| - 1]), ops[|ops| - 1])
  }

  /** Whole runs: command stamps strictly increase between consecutive resynchronisations, at no more than one handshake an operation. */
  lemma {:induction false} RunsKeepOrder(s: Session, ops: seq<Operation>)
    requires Increasing(s)
    ensures Increasing(RunAll(s, ops)) && StampsIncrease(RunAll(s, ops).log)
    ensures Handshakes(RunAll(s, ops).log) <= Handshakes(s.log) + |ops|
  {
    if ops != [] {
      RunsKeepOrder(s, ops[..|ops| - 1]);
      OperationKeepsOrder(RunAll(s, ops[..|ops| - 1]), ops[|ops| - 1]);
      OperationCost(RunAll(s, ops[..|ops| - 1]), ops[|ops| - 1]);
    }
    OrderMeansIncrease(RunAll(s, ops).log);
  }
}
