/**
 * The receiving half of a connection (src/taps_connection.c) together with the
 * receiving half of a protocol connection (src/tcp/tcp.c), as a transition
 * system over the memory the messages describe.
 *
 * The protocol fills a posted list in order and reports a read at most once: a
 * read event whose `readv` fails or returns nothing is not reported, and not
 * armed again (src/tcp/tcp.c:141-149). As in SendEngine, a call made from
 * inside a callback is the next event.
 *
 * The repair: after a final or a failed receive the next one is started (or
 * `receiveReady` set), as it is after a partial one
 * (src/taps_connection.c:347-355).
 */
module ReceiveEngine {
  import opened Common
  import opened ScatterList
  import opened ItemQueue

  /** A receive as the application submits it: its context, its message, the list that describes, and the two lengths. */
  datatype Request = Request(app: int, message: nat, vec: seq<Iov>, minLength: nat, maxLength: nat)

  /** A queued receive, with the bytes already read into its message. */
  datatype Item = Item(req: Request, currLength: nat)

  /** What an iovec pointer is compared by: a message's own list, or the n-th that TAPS allocated. */
  datatype ListId = Own(message: nat) | Temporary(serial: nat)

  /** The protocol's pending read: for which queue position, and into which list. */
  datatype Op = Op(pos: nat, vec: seq<Iov>, list: ListId)

  datatype Kind = Received | ReceivedPartial | ReceiveError

  /** One callback to the application, with the bytes its message holds at that moment. */
  datatype Callback = Callback(req: Request, kind: Kind, bytes: seq<byte>)

  datatype State = State(
    queue: seq<Item>,          // rcvq, oldest first
    ready: bool,               // receiveReady
    op: Option<Op>,            // the pending read event
    mem: Memory,
    submitted: seq<Request>,   // history: what the application passed to Receive
    wire: seq<byte>,           // history: the bytes the protocol has read
    done: seq<Callback>,       // history: callbacks made
    busy: nat,                 // history: reads posted while one was pending
    finals: nat,               // history: received and receiveError events from the protocol
    lost: Option<Op>,          // history: a read whose event fired and was not reported
    made: nat,                 // history: lists allocated
    freed: seq<ListId>)        // history: lists freed

  datatype Event =
    | Submit(req: Request)      // tapsConnectionReceive
    | Partial(data: seq<byte>)  // _taps_received_partial
    | Final(data: seq<byte>)    // _taps_received
    | Failure                   // _taps_receive_error
    | Lost                      // the read event fires, and readv returns -1 or 0

  ghost function Init(mem: Memory): State {
    State([], true, None, mem, [], [], [], 0, 0, None, 0, [])
  }

  /** A message's buffers lie in memory and do not overlap each other. Different messages may share memory. */
  ghost predicate WellFormed(mem: Memory, req: Request) {
    InRange(mem, Addrs(req.vec)) && NoOverlap(Addrs(req.vec))
  }

  ghost predicate ItemFits(mem: Memory, item: Item) {
    WellFormed(mem, item.req) && item.currLength <= Total(item.req.vec)
  }

  /** What the steps below rely on; `OpFits` holds in every reachable state. */
  ghost predicate OpFits(s: State) {
    && (forall i :: 0 <= i < |s.queue| ==> ItemFits(s.mem, s.queue[i]))
    && (s.op.Some? ==>
          && s.op.value.pos < |s.queue|
          && InRange(s.mem, Addrs(s.op.value.vec))
          && s.queue[s.op.value.pos].currLength + Total(s.op.value.vec) <= Total(s.queue[s.op.value.pos].req.vec))
  }

  /** The bytes an item's message holds so far. */
  ghost function Held(mem: Memory, item: Item): (r: seq<byte>)
    requires ItemFits(mem, item)
    ensures |r| == item.currLength
  {
    View(mem, Addrs(item.req.vec)[..item.currLength])
  }

  /** The protocol's Receive (src/tcp/tcp.c:294-319). */
  function Post(s: State, op: Op): State {
    if s.op.Some? then s.(busy := s.busy + 1) else s.(op := Some(op))
  }

  /** The callbacks are checked before the item is made (src/taps_connection.c:372-377), so a Submit has all three. */
  function SubmitStep(s: State, req: Request): State {
    var s1 := s.(queue := s.queue + [Item(req, 0)], submitted := s.submitted + [req]);
    if s.ready then Post(s1.(ready := false), Op(|s.queue|, req.vec, Own(req.message))) else s1
  }

  /** Any list handed back that is not the message's own is freed. */
  function FreedBy(op: Op, req: Request): seq<ListId> {
    if op.list != Own(req.message) then [op.list] else []
  }

  /** The read event fires: it is no longer pending, and `data` lies in the list it was posted with. `final` tells a
      received or receiveError event from a partial one. */
  function ReadInto(s: State, data: seq<byte>, final: bool): State
    requires s.op.Some? && InRange(s.mem, Addrs(s.op.value.vec)) && |data| <= Total(s.op.value.vec)
    requires s.op.value.pos < |s.queue|
  {
    var op := s.op.value;
    var item := s.queue[op.pos];
    State(s.queue[op.pos := item.(currLength := item.currLength + |data|)], s.ready, None,
          Fill(s.mem, Addrs(op.vec), data), s.submitted, s.wire + data, s.done, s.busy,
          s.finals + (if final then 1 else 0), s.lost, s.made, s.freed + FreedBy(op, item.req))
  }

  function LostStep(s: State): State {
    s.(op := None, lost := s.op)
  }

  /** The item at `pos` leaves the queue and its callback is made. */
  ghost function Deliver(s: State, pos: nat, kind: Kind): State
    requires pos < |s.queue| && ItemFits(s.mem, s.queue[pos])
  {
    s.(queue := Without(s.queue, pos), done := s.done + [Callback(s.queue[pos].req, kind, Held(s.mem, s.queue[pos]))])
  }

  /** Start the receive now at `pos`, or be ready if there is none. (The C code posts it just before it unlinks the one
      ahead of it.) */
  function StartNext(s: State, pos: nat): State {
    if pos < |s.queue| then Post(s, Op(pos, s.queue[pos].req.vec, Own(s.queue[pos].req.message))) else s.(ready := true)
  }

  ghost predicate CanRead(s: State, data: seq<byte>) {
    OpFits(s) && s.op.Some? && |data| <= Total(s.op.value.vec)
  }

  lemma ReadFits(s: State, data: seq<byte>, final: bool)
    requires CanRead(s, data)
    ensures var s1 := ReadInto(s, data, final); forall i :: 0 <= i < |s1.queue| ==> ItemFits(s1.mem, s1.queue[i])
  {
  }

  ghost function PartialStep(s: State, data: seq<byte>): State
    requires CanRead(s, data) && data != []
  {
    ReadFits(s, data, false);
    var pos := s.op.value.pos;
    var s1 := ReadInto(s, data, false);
    var item := s1.queue[pos];
    if item.currLength < item.req.minLength then
      assert |item.req.vec| > 0;
      Post(s1.(made := s1.made + 1), Op(pos, DropVec(item.req.vec, item.currLength), Temporary(s1.made)))
    else
      StartNext(Deliver(s1, pos, ReceivedPartial), pos)
  }

  ghost function Conclude(v: Variant, s: State, pos: nat, kind: Kind): State
    requires pos < |s.queue| && ItemFits(s.mem, s.queue[pos])
  {
    var s1 := Deliver(s, pos, kind);
    if v.Repaired? then StartNext(s1, pos) else s1
  }

  ghost function FinalStep(v: Variant, s: State, data: seq<byte>): State
    requires CanRead(s, data)
  {
    ReadFits(s, data, true);
    var pos := s.op.value.pos;
    var s1 := ReadInto(s, data, true);
    var item := s1.queue[pos];
    Conclude(v, s1, pos, if item.currLength < item.req.minLength then ReceiveError else Received)
  }

  ghost function FailureStep(v: Variant, s: State): State
    requires CanRead(s, [])
  {
    ReadFits(s, [], true);
    Conclude(v, ReadInto(s, [], true), s.op.value.pos, ReceiveError)
  }

  /** Events the application or the protocol cannot produce change nothing. */
  ghost function Step(v: Variant, s: State, e: Event): State {
    match e
    case Submit(req) => if WellFormed(s.mem, req) then SubmitStep(s, req) else s
    case Partial(data) => if CanRead(s, data) && data != [] then PartialStep(s, data) else s
    case Final(data) => if CanRead(s, data) then FinalStep(v, s, data) else s
    case Failure => if CanRead(s, []) then FailureStep(v, s) else s
    case Lost => if s.op.Some? then LostStep(s) else s
  }

  ghost function Run(v: Variant, s: State, es: seq<Event>): State
    decreases |es|
  {
    if es == [] then s else Run(v, Step(v, s, es[0]), es[1..])
  }

  // ----- views of a state -----

  function Requests(cs: seq<Callback>): (r: seq<Request>)
    ensures |r| == |cs|
  {
    seq(|cs|, i requires 0 <= i < |cs| => cs[i].req)
  }

  function Waiting(q: seq<Item>): (r: seq<Request>)
    ensures |r| == |q|
  {
    seq(|q|, i requires 0 <= i < |q| => q[i].req)
  }

  /** The bytes of all callbacks, in the order they were made. */
  function Bytes(cs: seq<Callback>): seq<byte> {
    if cs == [] then [] else Bytes(cs[..|cs| - 1]) + cs[|cs| - 1].bytes
  }

  ghost function HeldAtHead(s: State): seq<byte>
    requires OpFits(s)
  {
    if s.queue == [] then [] else Held(s.mem, s.queue[0])
  }

  // ----- what every run keeps -----

  /** The receive under way, if any: its read is pending, or was lost. */
  function UnderWay(s: State): Option<Op> {
    if s.op.Some? then s.op else s.lost
  }

  /** Only the oldest receive is under way: its read goes to the rest of its message, into a temporary list exactly when
      some bytes have arrived, and never once there are enough. */
  ghost predicate HeadOnly(s: State) {
    && OpFits(s)
    && (forall i :: 1 <= i < |s.queue| ==> s.queue[i].currLength == 0)
    && match UnderWay(s) {
         case None => s.queue != [] ==> s.queue[0].currLength == 0
         case Some(op) =>
           && s.queue != [] && op.pos == 0
           && var item := s.queue[0];
              && Addrs(op.vec) == Addrs(item.req.vec)[item.currLength..]
              && (if item.currLength == 0 then op.list == Own(item.req.message) else op.list.Temporary?)
              && (item.currLength > 0 ==> item.currLength < item.req.minLength)
       }
  }

  /** The stream: what was delivered, followed by what the head holds, is what was read. */
  ghost predicate Reassembled(s: State) {
    OpFits(s) && Bytes(s.done) + HeldAtHead(s) == s.wire
  }

  ghost predicate FirstInFirstOut(s: State) {
    s.submitted == Requests(s.done) + Waiting(s.queue)
  }

  ghost predicate LongEnough(s: State) {
    forall i :: 0 <= i < |s.done| && s.done[i].kind != ReceiveError ==>
      s.done[i].req.minLength <= |s.done[i].bytes| <= Total(s.done[i].req.vec)
  }

  /** The first `n` lists TAPS allocated, in order. */
  function Lists(n: nat): (r: seq<ListId>)
    ensures |r| == n
  {
    seq(n, i requires 0 <= i < n => Temporary(i))
  }

  /** Lists are freed in the order they were allocated, all but the one under way. */
  ghost predicate Balanced(s: State) {
    && s.busy == 0 && s.freed == Lists(|s.freed|)
    && if UnderWay(s).Some? && UnderWay(s).value.list.Temporary?
       then UnderWay(s).value.list == Temporary(|s.freed|) && s.made == |s.freed| + 1
       else s.made == |s.freed|
  }

  /** There is a read pending exactly when something is queued, and the flag says so. */
  ghost predicate Live(s: State) {
    && (s.ready <==> s.queue == [])
    && (s.op.Some? <==> s.queue != [])
  }

  /** No read is pending and none will be posted. */
  ghost predicate Dead(s: State) {
    !s.ready && s.op.None?
  }

  ghost predicate FlagKept(v: Variant, s: State) {
    if s.lost.None? && (v.Repaired? || s.finals == 0) then Live(s) else Dead(s)
  }

  ghost predicate Inv(v: Variant, s: State) {
    && HeadOnly(s) && Reassembled(s) && FirstInFirstOut(s) && LongEnough(s) && Balanced(s) && FlagKept(v, s)
  }

  lemma SubmitStarts(v: Variant, s: State, req: Request)
    requires Inv(v, s) && WellFormed(s.mem, req) && s.ready
    ensures Inv(v, SubmitStep(s, req))
  {
    assert s.queue == [] && s.op.None?;
    StartedKeepsInv(v, s, req,
                    State([Item(req, 0)], false, Some(Op(0, req.vec, Own(req.message))), s.mem, s.submitted + [req],
                          s.wire, s.done, s.busy, s.finals, s.lost, s.made, s.freed));
  }

  lemma StartedKeepsInv(v: Variant, s: State, req: Request, t: State)
    requires Inv(v, s) && WellFormed(s.mem, req) && s.ready && s.queue == [] && s.op.None?
    requires t == State([Item(req, 0)], false, Some(Op(0, req.vec, Own(req.message))), s.mem, s.submitted + [req],
                        s.wire, s.done, s.busy, s.finals, s.lost, s.made, s.freed)
    ensures Inv(v, t)
  {
    assert FirstInFirstOut(t) by {
      assert Waiting(s.queue) == [] && Waiting(t.queue) == [req];
    }
    assert HeadOnly(t) by {
      assert Addrs(req.vec)[0..] == Addrs(req.vec);
    }
    assert Reassembled(t) by {
      assert Held(t.mem, t.queue[0]) == [];
    }
  }

  lemma SubmitWaits(v: Variant, s: State, req: Request)
    requires Inv(v, s) && WellFormed(s.mem, req) && !s.ready
    ensures Inv(v, SubmitStep(s, req))
  {
    WaitingKeepsInv(v, s, req,
                    State(s.queue + [Item(req, 0)], false, s.op, s.mem, s.submitted + [req],
                          s.wire, s.done, s.busy, s.finals, s.lost, s.made, s.freed));
  }

  lemma WaitingKeepsInv(v: Variant, s: State, req: Request, t: State)
    requires Inv(v, s) && WellFormed(s.mem, req) && !s.ready
    requires t == State(s.queue + [Item(req, 0)], false, s.op, s.mem, s.submitted + [req],
                        s.wire, s.done, s.busy, s.finals, s.lost, s.made, s.freed)
    ensures Inv(v, t)
  {
    assert FirstInFirstOut(t) by {
      assert Waiting(t.queue) == Waiting(s.queue) + [req];
      Associative(Requests(s.done), Waiting(s.queue), [req]);
    }
    assert OpFits(t) && HeldAtHead(t) == HeldAtHead(s) by {
      if s.queue == [] {
        assert Held(t.mem, t.queue[0]) == [];
      } else {
        assert t.queue[0] == s.queue[0];
      }
    }
  }

  lemma SubmitKeepsInv(v: Variant, s: State, req: Request)
    requires Inv(v, s) && WellFormed(s.mem, req)
    ensures Inv(v, SubmitStep(s, req))
  {
    if s.ready {
      SubmitStarts(v, s, req);
    } else {
      SubmitWaits(v, s, req);
    }
  }

  /** Between the read event and what is done about it: nothing pending, and the head holds every byte not delivered. */
  ghost predicate JustRead(s: State) {
    && OpFits(s) && s.op.None? && s.queue != []
    && (forall i :: 1 <= i < |s.queue| ==> s.queue[i].currLength == 0)
    && Reassembled(s) && FirstInFirstOut(s) && LongEnough(s)
    && !s.ready && s.busy == 0 && s.lost.None? && s.freed == Lists(s.made)
  }

  lemma ReadExtendsHead(s: State, data: seq<byte>, final: bool)
    requires HeadOnly(s) && CanRead(s, data)
    ensures var s1 := ReadInto(s, data, final);
            && OpFits(s1)
            && s1.queue[1..] == s.queue[1..]
            && s1.queue[0] == s.queue[0].(currLength := s.queue[0].currLength + |data|)
            && Held(s1.mem, s1.queue[0]) == Held(s.mem, s.queue[0]) + data
  {
    var item := s.queue[0];
    ReadFits(s, data, final);
    FillAppends(s.mem, Addrs(item.req.vec), item.currLength, data);
  }

  lemma ReadKeepsOthers(s: State, data: seq<byte>, final: bool)
    requires HeadOnly(s) && CanRead(s, data) && FirstInFirstOut(s)
    ensures var s1 := ReadInto(s, data, final);
            && FirstInFirstOut(s1)
            && (forall i :: 1 <= i < |s1.queue| ==> s1.queue[i].currLength == 0)
  {
    var s1 := ReadInto(s, data, final);
    assert Waiting(s1.queue) == Waiting(s.queue);
    assert forall i :: 1 <= i < |s.queue| ==> s1.queue[i] == s.queue[i];
  }

  lemma Associative<T>(a: seq<T>, b: seq<T>, c: seq<T>)
    ensures (a + b) + c == a + (b + c)
  {
  }

  lemma ReadReassembles(s: State, data: seq<byte>, final: bool)
    requires HeadOnly(s) && CanRead(s, data) && Reassembled(s)
    ensures Reassembled(ReadInto(s, data, final))
  {
    ReadExtendsHead(s, data, final);
    Associative(Bytes(s.done), HeldAtHead(s), data);
  }

  lemma ReadFrees(s: State, data: seq<byte>, final: bool)
    requires HeadOnly(s) && Balanced(s) && CanRead(s, data)
    ensures var s1 := ReadInto(s, data, final); s1.freed == Lists(s1.made)
  {
    assert Lists(|s.freed| + 1) == Lists(|s.freed|) + [Temporary(|s.freed|)];
  }

  lemma ReadIsClean(v: Variant, s: State, data: seq<byte>, final: bool)
    requires Inv(v, s) && CanRead(s, data)
    ensures JustRead(ReadInto(s, data, final))
  {
    ReadKeepsOthers(s, data, final);
    ReadReassembles(s, data, final);
    ReadFrees(s, data, final);
  }

  /** Nothing pending and nothing held: every byte read has been delivered. */
  ghost predicate Clear(s: State) {
    && OpFits(s) && s.op.None? && !s.ready
    && (forall i :: 0 <= i < |s.queue| ==> s.queue[i].currLength == 0)
    && Bytes(s.done) == s.wire && FirstInFirstOut(s) && LongEnough(s)
    && s.busy == 0 && s.lost.None? && s.freed == Lists(s.made)
  }

  lemma HeadLeavesInOrder(d: seq<Request>, q: seq<Item>)
    requires q != []
    ensures d + Waiting(q) == (d + [q[0].req]) + Waiting(q[1..])
  {
    assert Waiting(q) == [q[0].req] + Waiting(q[1..]);
    Associative(d, [q[0].req], Waiting(q[1..]));
  }

  lemma OneMoreCallback(cs: seq<Callback>, c: Callback)
    ensures Bytes(cs + [c]) == Bytes(cs) + c.bytes
    ensures Requests(cs + [c]) == Requests(cs) + [c.req]
  {
    assert (cs + [c])[..|cs|] == cs;
  }

  lemma DeliverHead(s: State, kind: Kind)
    requires JustRead(s) && (kind == ReceiveError || s.queue[0].currLength >= s.queue[0].req.minLength)
    ensures Clear(Deliver(s, 0, kind)) && Deliver(s, 0, kind).queue == s.queue[1..]
  {
    OneMoreCallback(s.done, Callback(s.queue[0].req, kind, Held(s.mem, s.queue[0])));
    HeadLeavesInOrder(Requests(s.done), s.queue);
    var t := Deliver(s, 0, kind);
    assert t.queue == s.queue[1..];
    assert forall i :: 0 <= i < |t.queue| ==> t.queue[i] == s.queue[i + 1];
  }

  lemma FreshHeadHoldsNothing(s: State)
    requires OpFits(s) && forall i :: 0 <= i < |s.queue| ==> s.queue[i].currLength == 0
    ensures HeldAtHead(s) == []
    ensures s.queue != [] ==> Addrs(s.queue[0].req.vec)[0..] == Addrs(s.queue[0].req.vec)
  {
  }

  lemma StartNextKeepsInv(v: Variant, s: State)
    requires Clear(s) && (v.AsWritten? ==> s.finals == 0)
    ensures Inv(v, StartNext(s, 0))
  {
    FreshHeadHoldsNothing(s);
    FreshHeadHoldsNothing(StartNext(s, 0).(op := None));
  }

  lemma DeadKeepsInv(s: State)
    requires Clear(s) && s.finals > 0
    ensures Inv(AsWritten, s)
  {
    FreshHeadHoldsNothing(s);
  }

  lemma PartialKeepsInv(v: Variant, s: State, data: seq<byte>)
    requires Inv(v, s) && CanRead(s, data) && data != []
    ensures Inv(v, PartialStep(s, data))
  {
    var s1 := ReadInto(s, data, false);
    ReadIsClean(v, s, data, false);
    var item := s1.queue[0];
    if item.currLength < item.req.minLength {
      DropVecAddrs(item.req.vec, item.currLength);
    } else {
      DeliverHead(s1, ReceivedPartial);
      StartNextKeepsInv(v, Deliver(s1, 0, ReceivedPartial));
    }
  }

  lemma ConcludeKeepsInv(v: Variant, s: State, kind: Kind)
    requires JustRead(s) && s.finals > 0
    requires kind == ReceiveError || s.queue[0].currLength >= s.queue[0].req.minLength
    ensures Inv(v, Conclude(v, s, 0, kind))
  {
    DeliverHead(s, kind);
    if v.Repaired? {
      StartNextKeepsInv(v, Deliver(s, 0, kind));
    } else {
      DeadKeepsInv(Deliver(s, 0, kind));
    }
  }

  lemma FinalKeepsInv(v: Variant, s: State, data: seq<byte>)
    requires Inv(v, s) && CanRead(s, data)
    ensures Inv(v, FinalStep(v, s, data))
  {
    var s1 := ReadInto(s, data, true);
    ReadIsClean(v, s, data, true);
    ConcludeKeepsInv(v, s1, if s1.queue[0].currLength < s1.queue[0].req.minLength then ReceiveError else Received);
  }

  lemma FailureKeepsInv(v: Variant, s: State)
    requires Inv(v, s) && CanRead(s, [])
    ensures Inv(v, FailureStep(v, s))
  {
    ReadIsClean(v, s, [], true);
    ConcludeKeepsInv(v, ReadInto(s, [], true), ReceiveError);
  }

  lemma LostKeepsInv(v: Variant, s: State)
    requires Inv(v, s) && s.op.Some?
    ensures Inv(v, LostStep(s))
  {
  }

  lemma StepKeepsInv(v: Variant, s: State, e: Event)
    requires Inv(v, s)
    ensures Inv(v, Step(v, s, e))
  {
    var t := Step(v, s, e);
    if t != s {
      match e {
        case Submit(req) =>
          assert t == SubmitStep(s, req);
          SubmitKeepsInv(v, s, req);
        case Partial(data) =>
          assert t == PartialStep(s, data);
          PartialKeepsInv(v, s, data);
        case Final(data) =>
          assert t == FinalStep(v, s, data);
          FinalKeepsInv(v, s, data);
        case Failure =>
          assert t == FailureStep(v, s);
          FailureKeepsInv(v, s);
        case Lost =>
          assert t == LostStep(s);
          LostKeepsInv(v, s);
      }
    }
  }

  lemma {:induction false} RunKeepsInv(v: Variant, s: State, es: seq<Event>)
    requires Inv(v, s)
    ensures Inv(v, Run(v, s, es))
    decreases |es|
  {
    if es != [] {
      StepKeepsInv(v, s, es[0]);
      RunKeepsInv(v, Step(v, s, es[0]), es[1..]);
    }
  }

  lemma InitInv(v: Variant, mem: Memory)
    ensures Inv(v, Init(mem))
  {
  }

  // ----- main results -----

  /** In every run of receives, partial completions, re-posts, final completions and failures: the bytes of the
      callbacks, in the order they were made, followed by the bytes the head holds, are the bytes read. */
  lemma StreamReassembly(v: Variant, mem: Memory, es: seq<Event>)
    ensures Reassembled(Run(v, Init(mem), es))
  {
    InitInv(v, mem);
    RunKeepsInv(v, Init(mem), es);
  }

  /** Each receive gets one callback, in the order of submission, and the pending read is always the oldest one's, into
      what is left of its message; so the protocol is never called with a read pending. */
  lemma OneReadAtATimeInOrder(v: Variant, mem: Memory, es: seq<Event>)
    ensures var s := Run(v, Init(mem), es); FirstInFirstOut(s) && HeadOnly(s) && s.busy == 0
  {
    InitInv(v, mem);
    RunKeepsInv(v, Init(mem), es);
  }

  /** No successful callback reports fewer than `minLength` bytes, or more than its message holds. */
  lemma MinimumLengthKept(v: Variant, mem: Memory, es: seq<Event>)
    ensures LongEnough(Run(v, Init(mem), es))
  {
    InitInv(v, mem);
    RunKeepsInv(v, Init(mem), es);
  }

  /** Each list that was allocated has been freed once, except the one under way; no message's own list ever is. */
  ghost predicate FreedOnce(s: State) {
    && (forall i, j :: 0 <= i < j < |s.freed| ==> s.freed[i] != s.freed[j])
    && (forall l :: l in s.freed <==>
          l.Temporary? && l.serial < s.made && (UnderWay(s).Some? ==> l != UnderWay(s).value.list))
  }

  lemma BalancedMeansFreedOnce(s: State)
    requires Balanced(s)
    ensures FreedOnce(s)
  {
    var n := |s.freed|;
    assert forall l :: l in Lists(n) ==> l.Temporary? && l.serial < n;
    assert forall l: ListId :: l.Temporary? && l.serial < n ==> Lists(n)[l.serial] == l;
  }

  lemma TemporaryListsFreedOnce(v: Variant, mem: Memory, es: seq<Event>)
    ensures FreedOnce(Run(v, Init(mem), es))
  {
    InitInv(v, mem);
    RunKeepsInv(v, Init(mem), es);
    BalancedMeansFreedOnce(Run(v, Init(mem), es));
  }

  /** A read is pending whenever a receive is queued, exactly until a read is lost or, as written, the protocol reports a
      received or a receiveError event. */
  lemma LiveIff(v: Variant, mem: Memory, es: seq<Event>)
    ensures var s := Run(v, Init(mem), es); Live(s) <==> s.lost.None? && (v.Repaired? || s.finals == 0)
  {
    InitInv(v, mem);
    RunKeepsInv(v, Init(mem), es);
  }

  lemma {:induction false} DeadStaysDead(v: Variant, s: State, es: seq<Event>)
    requires Dead(s)
    ensures var t := Run(v, s, es);
            && Dead(t) && t.wire == s.wire && t.done == s.done && s.queue <= t.queue
            && t.lost == s.lost && t.made == s.made && t.freed == s.freed
    decreases |es|
  {
    if es != [] {
      DeadStaysDead(v, Step(v, s, es[0]), es[1..]);
    }
  }

  lemma {:induction false} RunAppend(v: Variant, s: State, es: seq<Event>, fs: seq<Event>)
    ensures Run(v, s, es + fs) == Run(v, Run(v, s, es), fs)
    decreases |es|
  {
    if es == [] {
      assert es + fs == fs;
    } else {
      var t := Step(v, s, es[0]);
      assert (es + fs)[0] == es[0] && (es + fs)[1..] == es[1..] + fs;
      assert Run(v, s, es + fs) == Run(v, t, es[1..] + fs) && Run(v, s, es) == Run(v, t, es[1..]);
      RunAppend(v, t, es[1..], fs);
    }
  }

  /** After the first such event the connection reads nothing and calls nobody back, whatever comes: every receive queued
      then or later waits for the teardown. */
  lemma NothingIsReadAfterwards(v: Variant, mem: Memory, es: seq<Event>, fs: seq<Event>)
    requires !Live(Run(v, Init(mem), es))
    ensures var s, t := Run(v, Init(mem), es), Run(v, Init(mem), es + fs);
            t.wire == s.wire && t.done == s.done && s.queue <= t.queue
  {
    InitInv(v, mem);
    RunKeepsInv(v, Init(mem), es);
    RunAppend(v, Init(mem), es, fs);
    DeadStaysDead(v, Run(v, Init(mem), es), fs);
  }

  /** The failing family is not empty: a failed receive leaves the next one queued with no read pending. */
  lemma FailureStrandsNext(mem: Memory, a: Request, b: Request)
    requires WellFormed(mem, a) && WellFormed(mem, b)
    ensures var s := Run(AsWritten, Init(mem), [Submit(a), Failure, Submit(b)]);
            s.queue == [Item(b, 0)] && s.op.None? && !s.ready
  {
    var s1 := FirstSubmit(AsWritten, mem, a);
    RunTwo(AsWritten, s1, Failure, Submit(b));
    assert [Submit(a), Failure, Submit(b)][1..] == [Failure, Submit(b)];
  }

  /** The same when a read is lost, repaired or not. */
  lemma LostReadStrandsNext(v: Variant, mem: Memory, a: Request, b: Request)
    requires WellFormed(mem, a) && WellFormed(mem, b)
    ensures var s := Run(v, Init(mem), [Submit(a), Lost, Submit(b)]);
            s.queue == [Item(a, 0), Item(b, 0)] && s.op.None? && !s.ready
  {
    var s1 := FirstSubmit(v, mem, a);
    RunTwo(v, s1, Lost, Submit(b));
    assert [Submit(a), Lost, Submit(b)][1..] == [Lost, Submit(b)];
  }

  // ----- the minimum length and re-posts -----

  /** A partial completion either calls back or posts the rest of the same message; each re-post brings the item
      strictly closer to its minimum, so there are finitely many. */
  lemma RepostApproachesMinimum(v: Variant, s: State, data: seq<byte>)
    requires Inv(v, s) && CanRead(s, data) && data != []
    ensures var t, item := PartialStep(s, data), s.queue[0];
            if item.currLength + |data| >= item.req.minLength
            then t.done == s.done + [Callback(item.req, ReceivedPartial, Held(s.mem, item) + data)]
            else t.done == s.done && t.op.Some? && t.op.value.list == Temporary(s.made)
                 && t.queue[0] == item.(currLength := item.currLength + |data|)
                 && 0 < item.req.minLength - t.queue[0].currLength < item.req.minLength - item.currLength
  {
    ReadExtendsHead(s, data, false);
  }

  /** `minLength` is not checked against the message. A pending read can bring its receive to a partial callback exactly
      when the message has room left and is large enough for the minimum; otherwise it is re-posted until it is full,
      and then has no room to read into. */
  lemma PartialCanCompleteIff(v: Variant, s: State)
    requires Inv(v, s) && s.op.Some?
    ensures (exists data :: CanRead(s, data) && data != [] && |PartialStep(s, data).done| > |s.done|)
            <==> s.queue[0].currLength < Total(s.queue[0].req.vec) && s.queue[0].req.minLength <= Total(s.queue[0].req.vec)
  {
    var item := s.queue[0];
    assert Total(s.op.value.vec) == Total(item.req.vec) - item.currLength;
    forall data | CanRead(s, data) && data != []
      ensures |PartialStep(s, data).done| > |s.done| <==> item.currLength + |data| >= item.req.minLength
    {
      RepostApproachesMinimum(v, s, data);
    }
    if item.currLength < Total(item.req.vec) && item.req.minLength <= Total(item.req.vec) {
      var data: seq<byte> := seq(Total(item.req.vec) - item.currLength, i => 0);
      assert CanRead(s, data) && data != [];
    }
  }

  /** The failing family is not empty. A message smaller than its minimum is filled, and posted again with no room: the
      read of no bytes is lost, with the list made for it, and so is every receive behind it. */
  lemma MinimumBeyondMessageStrands(v: Variant, mem: Memory, req: Request, data: seq<byte>, fs: seq<Event>)
    requires WellFormed(mem, req) && 0 < |data| == Total(req.vec) < req.minLength
    ensures var s := Run(v, Init(mem), [Submit(req), Partial(data)]);
            s.op.Some? && Total(s.op.value.vec) == 0 && s.queue == [Item(req, |data|)] && s.done == []
    ensures var t := Run(v, Init(mem), [Submit(req), Partial(data), Lost] + fs);
            t.op.None? && t.queue != [] && t.queue[0].req == req && t.done == [] && t.made == 1 && t.freed == []
  {
    var s2 := FilledBelowMinimum(v, mem, req, data);
    var es := [Submit(req), Partial(data)];
    assert [Submit(req), Partial(data), Lost] + fs == es + ([Lost] + fs);
    RunAppend(v, Init(mem), es, [Lost] + fs);
    LostHeadStays(v, s2, fs);
  }

  lemma FirstSubmit(v: Variant, mem: Memory, req: Request) returns (s: State)
    requires WellFormed(mem, req)
    ensures s == Step(v, Init(mem), Submit(req)) && Inv(v, s)
    ensures s.queue == [Item(req, 0)] && s.op == Some(Op(0, req.vec, Own(req.message)))
    ensures s.done == [] && s.made == 0 && s.freed == []
  {
    s := SubmitStep(Init(mem), req);
    InitInv(v, mem);
    SubmitKeepsInv(v, Init(mem), req);
  }

  lemma RunTwo(v: Variant, s: State, a: Event, b: Event)
    ensures Run(v, s, [a, b]) == Step(v, Step(v, s, a), b)
  {
    assert [a, b][1..] == [b] && [b][1..] == [];
    assert Run(v, s, [a, b]) == Run(v, Step(v, s, a), [b]);
  }

  lemma FilledBelowMinimum(v: Variant, mem: Memory, req: Request, data: seq<byte>) returns (s: State)
    requires WellFormed(mem, req) && 0 < |data| == Total(req.vec) < req.minLength
    ensures s == Run(v, Init(mem), [Submit(req), Partial(data)])
    ensures Inv(v, s) && s.op.Some? && Total(s.op.value.vec) == 0 && s.queue == [Item(req, |data|)] && s.done == []
    ensures s.made == 1 && s.freed == []
  {
    var s1 := FirstSubmit(v, mem, req);
    RunTwo(v, Init(mem), Submit(req), Partial(data));
    RepostApproachesMinimum(v, s1, data);
    s := PartialStep(s1, data);
    PartialKeepsInv(v, s1, data);
    assert s.queue == [s.queue[0]];
  }

  lemma LostHeadStays(v: Variant, s: State, fs: seq<Event>)
    requires Inv(v, s) && s.op.Some? && s.queue != []
    ensures var t := Run(v, s, [Lost] + fs);
            && t.op.None? && t.queue != [] && t.queue[0] == s.queue[0]
            && t.done == s.done && t.made == s.made && t.freed == s.freed
  {
    assert ([Lost] + fs)[0] == Lost && ([Lost] + fs)[1..] == fs;
    DeadStaysDead(v, LostStep(s), fs);
  }

  /** A message with room, and enough of it for its minimum. */
  predicate CanBeMet(req: Request) {
    0 < Total(req.vec) && req.minLength <= Total(req.vec)
  }

  lemma EnoughAdvances(s: State, data: seq<byte>)
    requires HeadOnly(s) && CanRead(s, data) && data != []
    requires s.queue[0].currLength + |data| >= s.queue[0].req.minLength
    ensures PartialStep(s, data).queue == s.queue[1..] && PartialStep(s, data).finals == s.finals
  {
    ReadExtendsHead(s, data, false);
    assert Without(ReadInto(s, data, false).queue, 0) == s.queue[1..];
  }

  lemma FullReadAnswersHead(v: Variant, s: State) returns (data: seq<byte>)
    requires Inv(v, s) && s.op.Some? && CanBeMet(s.queue[0].req)
    ensures CanRead(s, data) && data != []
    ensures var t := PartialStep(s, data);
            && Inv(v, t) && Live(t) && t.queue == s.queue[1..]
            && t.done == s.done + [Callback(s.queue[0].req, ReceivedPartial, Held(s.mem, s.queue[0]) + data)]
  {
    var item := s.queue[0];
    assert Total(s.op.value.vec) == Total(item.req.vec) - item.currLength;
    data := seq(Total(item.req.vec) - item.currLength, i => 0);
    RepostApproachesMinimum(v, s, data);
    EnoughAdvances(s, data);
    PartialKeepsInv(v, s, data);
  }

  lemma RunCons(v: Variant, s: State, e: Event, rest: seq<Event>)
    ensures Run(v, s, [e] + rest) == Run(v, Step(v, s, e), rest)
  {
    assert ([e] + rest)[1..] == rest;
  }

  lemma DrainHead(v: Variant, s: State) returns (fill: Event)
    requires Inv(v, s) && s.op.Some? && CanBeMet(s.queue[0].req)
    ensures fill.Partial?
    ensures var t := Step(v, s, fill); Inv(v, t) && Live(t) && t.queue == s.queue[1..] && |t.done| == |s.done| + 1
  {
    var data := FullReadAnswersHead(v, s);
    fill := Partial(data);
  }

  /** No receive is stranded: from any point of a run in which a read is pending whenever a receive is queued, completions
      that fill each message in turn answer every queued receive, if each has a message that can meet its minimum, and
      leave the connection ready. */
  lemma {:induction false} ReceivesCanDrain(v: Variant, s: State) returns (fills: seq<Event>)
    requires Inv(v, s) && Live(s)
    requires forall i :: 0 <= i < |s.queue| ==> CanBeMet(s.queue[i].req)
    ensures |fills| == |s.queue| && forall i :: 0 <= i < |fills| ==> fills[i].Partial?
    ensures var t := Run(v, s, fills); t.queue == [] && t.ready && |t.done| == |s.done| + |s.queue|
    decreases |s.queue|
  {
    fills := [];
    if s.queue != [] {
      var fill := DrainHead(v, s);
      var rest := ReceivesCanDrain(v, Step(v, s, fill));
      RunCons(v, s, fill, rest);
      fills := [fill] + rest;
    }
  }

  lemma CompletionLength(v: Variant, s: State, data: seq<byte>)
    requires Inv(v, s) && CanRead(s, data)
    ensures var item, t := s.queue[0], FinalStep(v, s, data);
            && t.done == s.done + [Callback(item.req,
                                            if item.currLength + |data| < item.req.minLength then ReceiveError else Received,
                                            Held(s.mem, item) + data)]
    ensures data != [] ==>
              var item, t := s.queue[0], PartialStep(s, data);
              if item.currLength + |data| < item.req.minLength then t.done == s.done
              else t.done == s.done + [Callback(item.req, ReceivedPartial, Held(s.mem, item) + data)]
  {
    ReadExtendsHead(s, data, true);
    if data != [] {
      RepostApproachesMinimum(v, s, data);
    }
  }

  /** From `s` to `t` a receive was answered successfully, with more bytes than its maximum. */
  ghost predicate Exceeds(s: State, t: State) {
    && |t.done| > |s.done|
    && var c := t.done[|s.done|]; c.kind != ReceiveError && |c.bytes| > c.req.maxLength
  }

  /** What the message must be able to hold for that. */
  predicate CanExceed(req: Request, length: nat) {
    length >= req.minLength && length > req.maxLength
  }

  lemma ExceedsIff(v: Variant, s: State, data: seq<byte>)
    requires Inv(v, s) && CanRead(s, data)
    ensures Exceeds(s, FinalStep(v, s, data)) <==> CanExceed(s.queue[0].req, s.queue[0].currLength + |data|)
    ensures data != [] ==>
              (Exceeds(s, PartialStep(s, data)) <==> CanExceed(s.queue[0].req, s.queue[0].currLength + |data|))
  {
    CompletionLength(v, s, data);
  }

  lemma FullReadExists(s: State) returns (data: seq<byte>)
    requires HeadOnly(s) && s.op.Some?
    ensures CanRead(s, data) && s.queue[0].currLength + |data| == Total(s.queue[0].req.vec)
    ensures forall d :: CanRead(s, d) ==> |d| <= |data|
  {
    data := seq(Total(s.op.value.vec), i => 0);
    assert Total(s.op.value.vec) == Total(s.queue[0].req.vec) - s.queue[0].currLength;
  }

  /** `maxLength` is stored and never read: what bounds a callback is the message. Whatever has arrived already, the next
      completion, partial or final, can report more than `maxLength` exactly when the message is larger than it (and
      holds the minimum). */
  lemma MaxLengthExceededIff(v: Variant, s: State)
    requires Inv(v, s) && s.op.Some?
    ensures (exists data :: CanRead(s, data) && data != [] && Exceeds(s, PartialStep(s, data)))
            <==> CanExceed(s.queue[0].req, Total(s.queue[0].req.vec))
    ensures (exists data :: CanRead(s, data) && Exceeds(s, FinalStep(v, s, data)))
            <==> CanExceed(s.queue[0].req, Total(s.queue[0].req.vec))
  {
    var full := FullReadExists(s);
    forall data | CanRead(s, data)
      ensures Exceeds(s, FinalStep(v, s, data)) ==> Exceeds(s, FinalStep(v, s, full))
      ensures data != [] && Exceeds(s, PartialStep(s, data)) ==> full != [] && Exceeds(s, PartialStep(s, full))
    {
      ExceedsIff(v, s, data);
      ExceedsIff(v, s, full);
    }
    ExceedsIff(v, s, full);
    assert full == [] ==> !CanExceed(s.queue[0].req, Total(s.queue[0].req.vec));
  }

  // ----- what each event does -----

  /** The bytes the oldest receive's message can still take. */
  function Room(s: State): nat
    requires s.queue != [] && s.queue[0].currLength <= Total(s.queue[0].req.vec)
  {
    Total(s.queue[0].req.vec) - s.queue[0].currLength
  }

  lemma CanReadIff(s: State, data: seq<byte>)
    requires HeadOnly(s)
    ensures CanRead(s, data) <==> s.op.Some? && |data| <= Room(s)
  {
    if s.op.Some? {
      assert Total(s.op.value.vec) == Room(s);
    }
  }

  /** A receive is queued whatever is going on, and nothing else happens to the application or its memory. */
  lemma SubmitEffect(v: Variant, s: State, req: Request)
    requires InRange(s.mem, Addrs(req.vec)) && NoOverlap(Addrs(req.vec))
    ensures var t := Step(v, s, Submit(req));
            && t.queue == s.queue + [Item(req, 0)] && t.submitted == s.submitted + [req]
            && t.done == s.done && t.wire == s.wire && t.mem == s.mem
            && t.finals == s.finals && t.lost == s.lost && t.made == s.made && t.freed == s.freed
  {
  }

  /** Bytes arrive, and are enough or not: the oldest receive is answered with all it holds, or keeps them. */
  lemma PartialEffect(v: Variant, s: State, data: seq<byte>)
    requires Inv(v, s) && s.op.Some? && 0 < |data| <= Room(s)
    ensures var t, item := Step(v, s, Partial(data)), s.queue[0];
            && t.wire == s.wire + data && t.submitted == s.submitted && |t.mem| == |s.mem|
            && t.finals == s.finals && t.lost == None && Live(t)
            && if item.currLength + |data| >= item.req.minLength
               then t.queue == s.queue[1..]
                    && t.done == s.done + [Callback(item.req, ReceivedPartial, Held(s.mem, item) + data)]
               else t.queue == [item.(currLength := item.currLength + |data|)] + s.queue[1..] && t.done == s.done
  {
    CanReadIff(s, data);
    PartialKeepsInv(v, s, data);
    RepostApproachesMinimum(v, s, data);
    PartialKeepsOthers(v, s, data);
    assert Step(v, s, Partial(data)) == PartialStep(s, data);
  }

  lemma PartialKeepsOthers(v: Variant, s: State, data: seq<byte>)
    requires Inv(v, s) && CanRead(s, data) && data != []
    ensures var t, item := PartialStep(s, data), s.queue[0];
            && t.wire == s.wire + data && t.submitted == s.submitted && |t.mem| == |s.mem|
            && t.finals == s.finals && t.lost == None
            && t.queue == (if item.currLength + |data| >= item.req.minLength then [] else
                             [item.(currLength := item.currLength + |data|)]) + s.queue[1..]
  {
    var s1 := ReadInto(s, data, false);
    ReadExtendsHead(s, data, false);
    assert s1.queue == [s1.queue[0]] + s1.queue[1..];
    assert Without(s1.queue, 0) == [] + s.queue[1..];
  }

  lemma FinalKeepsOthers(v: Variant, s: State, data: seq<byte>)
    requires Inv(v, s) && CanRead(s, data)
    ensures var t := FinalStep(v, s, data);
            && t.wire == s.wire + data && t.submitted == s.submitted && |t.mem| == |s.mem|
            && t.finals == s.finals + 1 && t.lost == None && t.queue == s.queue[1..]
  {
    ReadExtendsHead(s, data, true);
    assert Without(ReadInto(s, data, true).queue, 0) == s.queue[1..];
  }

  /** The message is complete: its receive is answered, with an error if it is below the minimum. */
  lemma FinalEffect(v: Variant, s: State, data: seq<byte>)
    requires Inv(v, s) && s.op.Some? && |data| <= Room(s)
    ensures var t, item := Step(v, s, Final(data)), s.queue[0];
            && t.wire == s.wire + data && t.submitted == s.submitted && |t.mem| == |s.mem|
            && t.finals == s.finals + 1 && t.lost == None && t.queue == s.queue[1..]
            && t.done == s.done + [Callback(item.req,
                                            if item.currLength + |data| < item.req.minLength then ReceiveError else Received,
                                            Held(s.mem, item) + data)]
  {
    CanReadIff(s, data);
    CompletionLength(v, s, data);
    FinalKeepsOthers(v, s, data);
    assert Step(v, s, Final(data)) == FinalStep(v, s, data);
  }

  /** The read fails: its receive gets an error, with the bytes that had arrived, whatever its minimum. */
  lemma FailureEffect(v: Variant, s: State)
    requires Inv(v, s) && s.op.Some?
    ensures var t, item := Step(v, s, Failure), s.queue[0];
            && t.wire == s.wire && t.submitted == s.submitted && |t.mem| == |s.mem|
            && t.finals == s.finals + 1 && t.lost == None && t.queue == s.queue[1..]
            && t.done == s.done + [Callback(item.req, ReceiveError, Held(s.mem, item))]
  {
    CanReadIff(s, []);
    ReadExtendsHead(s, [], true);
    assert Held(s.mem, s.queue[0]) + [] == Held(s.mem, s.queue[0]);
    assert Without(ReadInto(s, [], true).queue, 0) == s.queue[1..];
  }

  /** The read is lost: nobody is told, and nothing is pending any more. */
  lemma LostEffect(v: Variant, s: State)
    requires s.op.Some?
    ensures var t := Step(v, s, Lost);
            && t.queue == s.queue && t.submitted == s.submitted && t.done == s.done && t.wire == s.wire
            && t.mem == s.mem && t.op == None && t.lost == s.op && t.finals == s.finals
  {
  }

  /** Without a pending read, or with more bytes than there is room for, the protocol has nothing to report. */
  lemma NothingElseHappens(v: Variant, s: State, e: Event)
    requires HeadOnly(s)
    requires match e
             case Submit(req) => !WellFormed(s.mem, req)
             case Partial(data) => s.op.None? || data == [] || |data| > Room(s)
             case Final(data) => s.op.None? || |data| > Room(s)
             case _ => s.op.None?
    ensures Step(v, s, e) == s
  {
    match e {
      case Partial(data) => CanReadIff(s, data);
      case Final(data) => CanReadIff(s, data);
      case _ =>
    }
  }

  /** The requests of the Submit events, in order, as far as they are well-formed. */
  ghost function Asked(mem: Memory, es: seq<Event>): seq<Request> {
    if es == [] then []
    else (if es[0].Submit? && WellFormed(mem, es[0].req) then [es[0].req] else []) + Asked(mem, es[1..])
  }

  /** The data of the Partial and Final events that find a read pending and room in its message, in order. */
  ghost function Arrived(v: Variant, s: State, es: seq<Event>): seq<byte>
    requires Inv(v, s)
    decreases |es|
  {
    if es == [] then []
    else
      StepKeepsInv(v, s, es[0]);
      Arrives(s, es[0]) + Arrived(v, Step(v, s, es[0]), es[1..])
  }

  ghost function Arrives(s: State, e: Event): seq<byte>
    requires HeadOnly(s)
  {
    if s.op.Some? && (e.Partial? || e.Final?) && |e.data| <= Room(s) then e.data else []
  }

  lemma EventHistories(v: Variant, s: State, e: Event)
    requires Inv(v, s)
    ensures var t := Step(v, s, e);
            && t.submitted == s.submitted + (if e.Submit? && WellFormed(s.mem, e.req) then [e.req] else [])
            && t.wire == s.wire + Arrives(s, e)
            && |t.mem| == |s.mem|
  {
    match e {
      case Submit(req) =>
        if WellFormed(s.mem, req) {
          SubmitEffect(v, s, req);
        }
      case Partial(data) =>
        if s.op.Some? && 0 < |data| <= Room(s) {
          PartialEffect(v, s, data);
        } else {
          NothingElseHappens(v, s, e);
        }
      case Final(data) =>
        if s.op.Some? && |data| <= Room(s) {
          FinalEffect(v, s, data);
        } else {
          NothingElseHappens(v, s, e);
        }
      case Failure =>
        if s.op.Some? {
          FailureEffect(v, s);
        } else {
          NothingElseHappens(v, s, e);
        }
      case Lost =>
    }
  }

  lemma {:induction false} HistoriesFrom(v: Variant, s: State, es: seq<Event>, mem: Memory)
    requires Inv(v, s) && |s.mem| == |mem|
    ensures Run(v, s, es).submitted == s.submitted + Asked(mem, es)
    ensures Run(v, s, es).wire == s.wire + Arrived(v, s, es)
    decreases |es|
  {
    if es != [] {
      var t := Step(v, s, es[0]);
      StepKeepsInv(v, s, es[0]);
      EventHistories(v, s, es[0]);
      assert es[0].Submit? ==> (WellFormed(s.mem, es[0].req) <==> WellFormed(mem, es[0].req));
      HistoriesFrom(v, t, es[1..], mem);
      Associative(s.submitted, if es[0].Submit? && WellFormed(mem, es[0].req) then [es[0].req] else [], Asked(mem, es[1..]));
      Associative(s.wire, Arrives(s, es[0]), Arrived(v, t, es[1..]));
    }
  }

  ghost function ArrivedInRun(v: Variant, mem: Memory, es: seq<Event>): seq<byte> {
    InitInv(v, mem);
    Arrived(v, Init(mem), es)
  }

  lemma NothingBefore<T>(a: seq<T>, b: seq<T>, c: seq<T>)
    requires a == [] && c == a + b
    ensures c == b
  {
  }

  lemma HistoriesFromNothing(v: Variant, s: State, es: seq<Event>, mem: Memory)
    requires Inv(v, s) && |s.mem| == |mem| && s.submitted == [] && s.wire == []
    ensures Run(v, s, es).submitted == Asked(mem, es)
    ensures Run(v, s, es).wire == Arrived(v, s, es)
  {
    HistoriesFrom(v, s, es, mem);
    var t := Run(v, s, es);
    NothingBefore(s.submitted, Asked(mem, es), t.submitted);
    NothingBefore(s.wire, Arrived(v, s, es), t.wire);
  }

  /** The histories are what happened: `submitted` is what the application asked for, and `wire` the bytes that arrived. */
  lemma HistoriesAreEvents(v: Variant, mem: Memory, es: seq<Event>)
    ensures Run(v, Init(mem), es).submitted == Asked(mem, es)
    ensures Run(v, Init(mem), es).wire == ArrivedInRun(v, mem, es)
  {
    InitInv(v, mem);
    HistoriesFromNothing(v, Init(mem), es, mem);
  }

  // ----- teardown (tapsConnectionFree) -----

  /** One error callback for each item. */
  ghost function Errors(mem: Memory, q: seq<Item>): (r: seq<Callback>)
    requires forall i :: 0 <= i < |q| ==> ItemFits(mem, q[i])
    ensures |r| == |q|
  {
    seq(|q|, i requires 0 <= i < |q| => Callback(q[i].req, ReceiveError, Held(mem, q[i])))
  }

  /** What the application may add from inside callbacks: new receives into messages that lie in memory. */
  ghost predicate NewReceives(mem: Memory, reactions: seq<seq<Item>>) {
    forall k, i :: 0 <= k < |reactions| && 0 <= i < |reactions[k]| ==>
      reactions[k][i].currLength == 0 && WellFormed(mem, reactions[k][i].req)
  }

  ghost predicate AllFit(mem: Memory, q: seq<Item>) {
    forall i :: 0 <= i < |q| ==> ItemFits(mem, q[i])
  }

  lemma {:induction false} AnsweredFit(mem: Memory, q: seq<Item>, reactions: seq<seq<Item>>)
    requires AllFit(mem, q) && NewReceives(mem, reactions)
    ensures AllFit(mem, Answered(q, reactions))
    decreases |reactions|, |q|
  {
    if q != [] {
      AnsweredFit(mem, q[..|q| - 1] + First(reactions), Rest(reactions));
    }
  }

  /** The teardown with its loop repaired: every queued receive gets receiveError, newest first. In the k-th of these
      callbacks the application submits `reactions[k]`, and those receives get theirs too. A list still under way is not
      freed. */
  ghost function Teardown(s: State, reactions: seq<seq<Item>>): State
    requires OpFits(s) && NewReceives(s.mem, reactions)
  {
    AnsweredFit(s.mem, s.queue, reactions);
    var answered := Answered(s.queue, reactions);
    s.(queue := [], op := None,
       submitted := s.submitted + Waiting(AddedDuring(|answered|, reactions)),
       done := s.done + Errors(s.mem, answered))
  }

  /** The teardown as written; None if it uses an item it has freed. */
  ghost function TeardownAsWritten(s: State, reactions: seq<seq<Item>>): Option<State>
    requires OpFits(s) && NewReceives(s.mem, reactions)
  {
    AnsweredFit(s.mem, s.queue, reactions);
    DrainLoopIff(s.queue, reactions);
    match DrainLoop(s.queue, false, reactions)
    case None => None
    case Some(answered) =>
      Some(s.(queue := [], op := None,
              submitted := s.submitted + Waiting(AddedDuring(|answered|, reactions)),
              done := s.done + Errors(s.mem, answered)))
  }

  lemma {:induction false} BytesAppend(a: seq<Callback>, b: seq<Callback>)
    ensures Bytes(a + b) == Bytes(a) + Bytes(b)
    decreases |b|
  {
    if b == [] {
      assert a + b == a;
    } else {
      var front, last := b[..|b| - 1], b[|b| - 1];
      BytesAppend(a, front);
      assert (a + b)[..|a + b| - 1] == a + front && (a + b)[|a + b| - 1] == last;
      Associative(Bytes(a), Bytes(front), last.bytes);
    }
  }

  lemma ErrorsCons(mem: Memory, item: Item, q: seq<Item>)
    requires ItemFits(mem, item) && AllFit(mem, q)
    ensures Bytes(Errors(mem, [item] + q)) == Held(mem, item) + Bytes(Errors(mem, q))
  {
    var c := Callback(item.req, ReceiveError, Held(mem, item));
    assert Errors(mem, [item] + q) == [c] + Errors(mem, q);
    BytesAppend([c], Errors(mem, q));
    assert Bytes([c]) == Bytes([c][..0]) + c.bytes;
  }

  lemma AnsweredBytesNext(mem: Memory, q: seq<Item>, reactions: seq<seq<Item>>, rest: seq<Item>)
    requires AllFit(mem, q) && AllFit(mem, rest) && q != []
    requires rest == Answered(q[..|q| - 1] + First(reactions), Rest(reactions))
    ensures AllFit(mem, Answered(q, reactions))
    ensures Bytes(Errors(mem, Answered(q, reactions))) == Held(mem, q[|q| - 1]) + Bytes(Errors(mem, rest))
  {
    AnsweredNext(q, reactions);
    ErrorsCons(mem, q[|q| - 1], rest);
  }

  /** However the callbacks come, what the oldest receive held is all they report. */
  lemma {:induction false} BytesOfAnswered(mem: Memory, q: seq<Item>, reactions: seq<seq<Item>>)
    requires AllFit(mem, q) && NewReceives(mem, reactions) && forall i :: 1 <= i < |q| ==> q[i].currLength == 0
    ensures AllFit(mem, Answered(q, reactions))
    ensures Bytes(Errors(mem, Answered(q, reactions))) == if q == [] then [] else Held(mem, q[0])
    decreases |reactions|, |q|
  {
    if q != [] {
      var next := q[..|q| - 1] + First(reactions);
      BytesOfAnswered(mem, next, Rest(reactions));
      AnsweredBytesNext(mem, q, reactions, Answered(next, Rest(reactions)));
      assert |q| > 1 ==> Held(mem, q[|q| - 1]) == [] && next[0] == q[0];
      assert |q| == 1 && next != [] ==> Held(mem, next[0]) == [];
    }
  }

  lemma WaitingWithout(q: seq<Item>, k: nat, rest: seq<Request>)
    requires k < |q| && multiset(Waiting(Without(q, k))) == multiset(rest)
    ensures multiset(Waiting(q)) == multiset([q[k].req] + rest)
  {
    WithoutRemovesOne(Waiting(q), k);
    assert Waiting(Without(q, k)) == Without(Waiting(q), k);
  }

  lemma {:induction false} WaitingPermuted(a: seq<Item>, b: seq<Item>)
    requires multiset(a) == multiset(b)
    ensures multiset(Waiting(a)) == multiset(Waiting(b))
    decreases |a|
  {
    if a == [] {
      assert |b| == |multiset(b)| == 0;
    } else {
      assert a[0] in multiset(b);
      var k :| 0 <= k < |b| && b[k] == a[0];
      WithoutRemovesOne(a, 0);
      WithoutRemovesOne(b, k);
      assert multiset(Without(a, 0)) == multiset(a) - multiset{a[0]};
      assert multiset(Without(b, k)) == multiset(b) - multiset{b[k]};
      WaitingPermuted(Without(a, 0), Without(b, k));
      WaitingWithout(b, k, Waiting(Without(a, 0)));
      WaitingWithout(a, 0, Waiting(Without(a, 0)));
    }
  }

  lemma SameElements<T>(before: seq<T>, a: seq<T>, b: seq<T>, c: seq<T>)
    requires multiset(a) == multiset(b + c)
    ensures multiset(before + a) == multiset((before + b) + c)
  {
  }

  lemma RequestsOfErrors(mem: Memory, done: seq<Callback>, q: seq<Item>)
    requires AllFit(mem, q)
    ensures Requests(done + Errors(mem, q)) == Requests(done) + Waiting(q)
  {
  }

  lemma AnsweredRequests(q: seq<Item>, reactions: seq<seq<Item>>)
    ensures var answered := Answered(q, reactions);
            multiset(Waiting(answered)) == multiset(Waiting(q) + Waiting(AddedDuring(|answered|, reactions)))
  {
    var answered := Answered(q, reactions);
    var added := AddedDuring(|answered|, reactions);
    AnsweredOnce(q, reactions);
    WaitingPermuted(answered, q + added);
    assert Waiting(q + added) == Waiting(q) + Waiting(added);
  }

  lemma TeardownRequests(s: State, reactions: seq<seq<Item>>)
    requires FirstInFirstOut(s) && OpFits(s) && NewReceives(s.mem, reactions)
    ensures multiset(Requests(Teardown(s, reactions).done)) == multiset(Teardown(s, reactions).submitted)
  {
    var answered := Answered(s.queue, reactions);
    AnsweredFit(s.mem, s.queue, reactions);
    RequestsOfErrors(s.mem, s.done, answered);
    AnsweredRequests(s.queue, reactions);
    SameElements(Requests(s.done), Waiting(answered), Waiting(s.queue), Waiting(AddedDuring(|answered|, reactions)));
  }

  lemma TeardownBytes(s: State, reactions: seq<seq<Item>>)
    requires HeadOnly(s) && Reassembled(s) && NewReceives(s.mem, reactions)
    ensures Bytes(Teardown(s, reactions).done) == s.wire
  {
    BytesOfAnswered(s.mem, s.queue, reactions);
    BytesAppend(s.done, Errors(s.mem, Answered(s.queue, reactions)));
  }

  /** With the repaired teardown, over the whole life of a connection, each receive has exactly one callback, and the
      bytes of all callbacks are the bytes read: what the head still held comes with its error. */
  lemma TeardownAnswersAll(v: Variant, mem: Memory, es: seq<Event>, reactions: seq<seq<Item>>)
    requires NewReceives(Run(v, Init(mem), es).mem, reactions)
    ensures var s := Run(v, Init(mem), es);
            && OpFits(s)
            && var t := Teardown(s, reactions);
               && t.queue == [] && s.done <= t.done
               && multiset(Requests(t.done)) == multiset(t.submitted)
               && Bytes(t.done) == s.wire
  {
    InitInv(v, mem);
    RunKeepsInv(v, Init(mem), es);
    TeardownRequests(Run(v, Init(mem), es), reactions);
    TeardownBytes(Run(v, Init(mem), es), reactions);
  }

  /** The lists TAPS allocated have then all been freed exactly when the receive under way, if any, was still at its
      message's own list. */
  lemma TeardownLeaksIff(v: Variant, mem: Memory, es: seq<Event>, reactions: seq<seq<Item>>)
    requires NewReceives(Run(v, Init(mem), es).mem, reactions)
    ensures var s := Run(v, Init(mem), es);
            && OpFits(s)
            && ((forall k: nat :: k < Teardown(s, reactions).made ==> Temporary(k) in Teardown(s, reactions).freed)
                <==> !(UnderWay(s).Some? && UnderWay(s).value.list.Temporary?))
  {
    InitInv(v, mem);
    RunKeepsInv(v, Init(mem), es);
    var s := Run(v, Init(mem), es);
    BalancedMeansFreedOnce(s);
    var t := Teardown(s, reactions);
    assert t.made == s.made && t.freed == s.freed;
    if UnderWay(s).Some? && UnderWay(s).value.list.Temporary? {
      assert Temporary(|s.freed|) !in s.freed && |s.freed| < s.made;
    }
  }

  /** Each of its callbacks is receiveError, newest receive first, with what the receive held; those before it stand. As
      written it makes the same ones, if it is sound. */
  lemma TeardownCallbacks(s: State, reactions: seq<seq<Item>>)
    requires OpFits(s) && NewReceives(s.mem, reactions)
    ensures var t, q := Teardown(s, reactions), Answered(s.queue, reactions);
            && t.queue == [] && t.op == None && |t.done| == |s.done| + |q| && s.done <= t.done
            && t.submitted == s.submitted + Waiting(AddedDuring(|q|, reactions)) && t.wire == s.wire && t.mem == s.mem
            && (forall i :: 0 <= i < |q| ==> ItemFits(s.mem, q[i]))
            && (forall i :: 0 <= i < |q| ==>
                  t.done[|s.done| + i].kind == ReceiveError && t.done[|s.done| + i].req == q[i].req
                  && t.done[|s.done| + i].bytes == Held(s.mem, q[i]))
    ensures TeardownAsWritten(s, reactions).Some? ==> TeardownAsWritten(s, reactions).value == Teardown(s, reactions)
  {
    AnsweredFit(s.mem, s.queue, reactions);
    TeardownAsWrittenIff(s, reactions);
  }

  /** As written it does the same exactly when at most one receive is queued, and its callback submits none. */
  lemma TeardownAsWrittenIff(s: State, reactions: seq<seq<Item>>)
    requires OpFits(s) && NewReceives(s.mem, reactions)
    ensures TeardownAsWritten(s, reactions)
            == if DrainFaults(|s.queue|, reactions) then None else Some(Teardown(s, reactions))
  {
    DrainLoopIff(s.queue, reactions);
  }
}
