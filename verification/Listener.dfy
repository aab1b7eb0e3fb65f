/**
 * The life of a listener (src/taps_listener.c) with the connections it spawns
 * (`_taps_closed`, `_taps_connection_error` and `tapsConnectionNew` of
 * src/taps_connection.c): a reference count, a Stopped event that waits for the
 * last connection, and a Free that must not come early.
 */
module Listeners {
  /** `ref_count` is a uint32_t. */
  const WIDTH: nat := 0x1_0000_0000

  /** `ref_count++` and `ref_count--`, which wrap. */
  function Inc(c: nat): nat {
    if c == WIDTH - 1 then 0 else c + 1
  }

  function Dec(c: nat): nat {
    if c == 0 then WIDTH - 1 else c - 1
  }

  lemma CountModulo(n: nat)
    ensures Inc(n % WIDTH) == (n + 1) % WIDTH
    ensures Dec((n + 1) % WIDTH) == n % WIDTH
  {
  }

  datatype State = State(
    holders: set<int>,    // connections whose `listener` is not NULL
    refCount: nat,        // ref_count
    readyToStop: bool,
    stopped: bool,        // `stopped` is not NULL
    freed: bool,
    seen: set<int>,       // history: connections accepted so far
    stopRequested: bool,  // history: the protocol's Stop was called
    protoStopped: bool,   // history: the protocol reported that it has stopped
    earlyFree: bool,      // history: a Free took the branch for a listener that was never stopped
    fired: nat,           // history: stopped callbacks made
    nullCalls: nat,       // history: calls through a NULL `stopped`
    strays: nat)          // history: uses of the freed listener

  datatype Event =
    | Accept(id: int, approved: bool)  // _taps_connection_received; does the application return its callbacks?
    | Terminate(id: int)               // _taps_closed or _taps_connection_error
    | Stop(callbackPresent: bool)      // tapsListenerStop
    | ProtocolStopped                  // _taps_stopped
    | Free                             // tapsListenerFree

  const Init := State({}, 0, false, false, false, {}, false, false, false, 0, 0, 0)

  /** The stopped callback is made through the pointer, which is cleared first. */
  function Fire(s: State): State {
    if s.stopped then s.(stopped := false, fired := s.fired + 1) else s.(nullCalls := s.nullCalls + 1)
  }

  /** tapsConnectionNew, and the reference it stands for. */
  function Hold(s: State, id: int): State {
    s.(holders := s.holders + {id}, seen := s.seen + {id}, refCount := Inc(s.refCount))
  }

  /** The connection lets go of the listener: tapsListenerDeref. */
  function Release(s: State, id: int): State {
    var s1 := s.(holders := s.holders - {id}, refCount := Dec(s.refCount));
    if s1.readyToStop && s1.refCount == 0 then Fire(s1) else s1
  }

  function AcceptStep(s: State, id: int, approved: bool): State {
    if approved then Hold(s, id) else Release(Hold(s, id), id)
  }

  function StopStep(s: State, callbackPresent: bool): State {
    if callbackPresent then s.(stopped := true, stopRequested := true) else s
  }

  function ProtocolStoppedStep(s: State): State {
    var s1 := s.(readyToStop := true, protoStopped := true);
    if s1.refCount == 0 then Fire(s1) else s1
  }

  function FreeStep(s: State): State {
    if !s.readyToStop && !s.stopped then s.(stopRequested := true, readyToStop := true, earlyFree := true)
    else if s.stopped then s
    else s.(freed := true)
  }

  function FreeCode(s: State): int {
    if s.stopped then -1 else 0
  }

  /** What the protocol and the application can do: connections are new, end once, and come only while the protocol has
      not stopped; it stops once, after it was told to; the application stops the listener once, and is done with it when
      Free has returned 0. A call through NULL ends the run. */
  predicate Enabled(s: State, e: Event) {
    s.nullCalls == 0 &&
    match e
    case Accept(id, _) => !s.protoStopped && id !in s.seen
    case Terminate(id) => id in s.holders
    case Stop(_) => !s.stopRequested
    case ProtocolStopped => s.stopRequested && !s.protoStopped
    case Free => !s.freed && !s.earlyFree
  }

  function Step(s: State, e: Event): State {
    if !Enabled(s, e) then s
    else
      var s := if s.freed then s.(strays := s.strays + 1) else s;
      match e
      case Accept(id, approved) => AcceptStep(s, id, approved)
      case Terminate(id) => Release(s, id)
      case Stop(callbackPresent) => StopStep(s, callbackPresent)
      case ProtocolStopped => ProtocolStoppedStep(s)
      case Free => FreeStep(s)
  }

  function Run(s: State, es: seq<Event>): State
    decreases |es|
  {
    if es == [] then s else Run(Step(s, es[0]), es[1..])
  }

  // ----- what every run keeps -----

  /** The count is the number of connections that still hold the listener, modulo its width. */
  ghost predicate Counted(s: State) {
    s.holders <= s.seen && s.refCount == |s.holders| % WIDTH
  }

  lemma HoldCounts(s: State, id: int)
    requires Counted(s) && id !in s.holders
    ensures Counted(Hold(s, id))
  {
    assert |s.holders + {id}| == |s.holders| + 1;
    CountModulo(|s.holders|);
  }

  lemma ReleaseCounts(s: State, id: int)
    requires Counted(s) && id in s.holders
    ensures Counted(Release(s, id))
  {
    assert |s.holders| == |s.holders - {id}| + 1;
    CountModulo(|s.holders - {id}|);
  }

  lemma AcceptKeepsCounted(s: State, id: int, approved: bool)
    requires Counted(s) && id !in s.holders
    ensures Counted(AcceptStep(s, id, approved))
  {
    HoldCounts(s, id);
    ReleaseCounts(Hold(s, id), id);
  }

  lemma StepKeepsCounted(s: State, e: Event)
    requires Counted(s)
    ensures Counted(Step(s, e))
  {
    if Enabled(s, e) {
      var s := if s.freed then s.(strays := s.strays + 1) else s;
      match e {
        case Accept(id, approved) => AcceptKeepsCounted(s, id, approved);
        case Terminate(id) => ReleaseCounts(s, id);
        case _ =>
      }
    }
  }

  lemma {:induction false} RunKeepsCounted(s: State, es: seq<Event>)
    requires Counted(s)
    ensures Counted(Run(s, es))
    decreases |es|
  {
    if es != [] {
      StepKeepsCounted(s, es[0]);
      RunKeepsCounted(Step(s, es[0]), es[1..]);
    }
  }

  /** Stopped waits for the protocol and the last connection, and fires once. */
  ghost predicate StoppedOnce(s: State) {
    && s.nullCalls == 0
    && s.fired == if s.protoStopped && s.holders == {} then 1 else 0
  }

  /** The protocol has stopped, and the count reads zero although connections remain: their number is a multiple of
      2^32. */
  ghost predicate CountWrapped(s: State) {
    s.protoStopped && s.holders != {} && |s.holders| % WIDTH == 0
  }

  /** The listener is used as it is meant to be, and the count has not been misread. */
  ghost predicate AsPromised(s: State) {
    && !s.earlyFree && StoppedOnce(s) && !CountWrapped(s) && s.strays == 0
    && (s.protoStopped ==> s.stopRequested)
    && s.readyToStop == s.protoStopped
    && s.stopped == (s.stopRequested && s.fired == 0)
    && (s.freed ==> s.fired == 1)
  }

  /** After a misread count: Stopped was called too early, and the last connection calls through NULL. */
  ghost predicate CalledEarly(s: State) {
    && !s.earlyFree && s.stopRequested && s.protoStopped && s.readyToStop && !s.stopped
    && s.fired == 1
    && (s.holders == {} ==> s.nullCalls == 1)
    && (s.strays > 0 ==> s.freed)
  }

  /** After a Free that came before any Stop. */
  ghost predicate FreedEarly(s: State) {
    && s.earlyFree && s.stopRequested && s.readyToStop && !s.stopped && !s.freed
    && s.fired == 0 && s.strays == 0
    && (s.protoStopped && s.holders == {} ==> s.nullCalls == 1)
  }

  ghost predicate Inv(s: State) {
    Counted(s) && (AsPromised(s) || CalledEarly(s) || FreedEarly(s))
  }

  predicate IsEarlyFree(s: State, e: Event) {
    e == Free && Enabled(s, e) && !s.stopRequested
  }

  /** What takes a state from one of the three kinds to another. */
  ghost predicate Leads(s: State, e: Event, t: State) {
    && Inv(t)
    && (t.earlyFree <==> s.earlyFree || IsEarlyFree(s, e))
    && (CalledEarly(t) <==> !t.earlyFree && (CalledEarly(s) || CountWrapped(t)))
  }

  lemma AcceptLeads(s: State, id: int, approved: bool)
    requires Inv(s) && Enabled(s, Accept(id, approved))
    ensures Leads(s, Accept(id, approved), Step(s, Accept(id, approved)))
  {
    StepKeepsCounted(s, Accept(id, approved));
    assert s.holders + {id} - {id} == s.holders;
  }

  lemma TerminateLeads(s: State, id: int)
    requires Inv(s) && Enabled(s, Terminate(id))
    ensures Leads(s, Terminate(id), Step(s, Terminate(id)))
  {
    StepKeepsCounted(s, Terminate(id));
    assert |s.holders| == |s.holders - {id}| + 1;
  }

  lemma StepLeads(s: State, e: Event)
    requires Inv(s)
    ensures Leads(s, e, Step(s, e))
  {
    if Enabled(s, e) {
      match e {
        case Accept(id, approved) => AcceptLeads(s, id, approved);
        case Terminate(id) => TerminateLeads(s, id);
        case _ => StepKeepsCounted(s, e);
      }
    }
  }

  /** A Free of the run comes before any Stop. */
  ghost predicate FreesUnstopped(s: State, es: seq<Event>)
    decreases |es|
  {
    es != [] && (IsEarlyFree(s, es[0]) || FreesUnstopped(Step(s, es[0]), es[1..]))
  }

  /** In some state of the run the count is misread. */
  ghost predicate Wraps(s: State, es: seq<Event>)
    decreases |es|
  {
    CountWrapped(s) || (es != [] && Wraps(Step(s, es[0]), es[1..]))
  }

  lemma {:induction false} RunLeads(s: State, es: seq<Event>)
    requires Inv(s)
    ensures var t := Run(s, es);
            && Inv(t)
            && (t.earlyFree <==> s.earlyFree || FreesUnstopped(s, es))
            && (CalledEarly(t) <==> !t.earlyFree && (CalledEarly(s) || Wraps(s, es)))
    decreases |es|
  {
    if es != [] {
      StepLeads(s, es[0]);
      RunLeads(Step(s, es[0]), es[1..]);
    }
  }

  // ----- main results -----

  /** In every run, the count is the number of connections holding the listener, modulo 2^32. */
  lemma RefCountIsHolders(es: seq<Event>)
    ensures var s := Run(Init, es); s.refCount == |s.holders| % 0x1_0000_0000
  {
    RunKeepsCounted(Init, es);
  }

  /** A connection the application takes holds the listener; one it does not take gives its reference back. */
  lemma AcceptEffect(es: seq<Event>, id: int, approved: bool)
    requires var s := Run(Init, es); s.nullCalls == 0 && !s.protoStopped && id !in s.seen
    ensures var s := Run(Init, es);
            var t := Step(s, Accept(id, approved));
            && t.holders == (if approved then s.holders + {id} else s.holders) && id !in s.holders
            && (!approved ==> t.refCount == s.refCount)
            && (!s.earlyFree ==> t.fired == s.fired && t.nullCalls == s.nullCalls)
            && t.seen == s.seen + {id}
  {
    RunLeads(Init, es);
    var s := Run(Init, es);
    AcceptLeads(s, id, approved);
    RunKeepsCounted(Init, es);
    StepKeepsCounted(s, Accept(id, approved));
    assert s.holders + {id} - {id} == s.holders;
  }

  /** A connection that ends lets go of the listener. */
  lemma TerminateEffect(es: seq<Event>, id: int)
    requires var s := Run(Init, es); s.nullCalls == 0 && id in s.holders
    ensures var s := Run(Init, es);
            var t := Step(s, Terminate(id));
            && t.holders == s.holders - {id} && t.seen == s.seen
            && t.refCount == (|s.holders| - 1) % 0x1_0000_0000
            && t.fired + t.nullCalls == s.fired + s.nullCalls + (if s.readyToStop && t.refCount == 0 then 1 else 0)
  {
    RunKeepsCounted(Init, es);
    StepKeepsCounted(Run(Init, es), Terminate(id));
    assert |Run(Init, es).holders| == |Run(Init, es).holders - {id}| + 1;
  }

  lemma HoldersNext(s: State, e: Event)
    requires Enabled(s, e)
    ensures Step(s, e).holders ==
            match e
            case Accept(id, approved) => if approved then s.holders + {id} else (s.holders + {id}) - {id}
            case Terminate(id) => s.holders - {id}
            case _ => s.holders
  {
  }

  lemma StepHolders(s: State, e: Event, id: int)
    requires Counted(s)
    ensures id in Step(s, e).holders
            <==> (Enabled(s, e) && e == Accept(id, true)) || (id in s.holders && !(Enabled(s, e) && e == Terminate(id)))
  {
    if Enabled(s, e) {
      HoldersNext(s, e);
    }
  }

  lemma StepFlags(s: State, e: Event)
    ensures var t := Step(s, e);
            && (t.protoStopped <==> s.protoStopped || (Enabled(s, e) && e == ProtocolStopped))
            && (s.earlyFree ==> t.earlyFree)
            && (t.stopRequested <==> s.stopRequested || (Enabled(s, e) && e == Stop(true)) || (!s.earlyFree && t.earlyFree))
  {
  }

  /** The k-th event of the run is one that can come then. */
  ghost predicate Happens(es: seq<Event>, k: int) {
    0 <= k < |es| && Enabled(Run(Init, es[..k]), es[k])
  }

  /** The connection was taken, and has not ended since. */
  ghost predicate IsOpen(es: seq<Event>, id: int) {
    exists j :: Happens(es, j) && es[j] == Accept(id, true)
                && forall k :: j < k && Happens(es, k) ==> es[k] != Terminate(id)
  }

  ghost predicate Happened(es: seq<Event>, e: Event) {
    exists j :: Happens(es, j) && es[j] == e
  }

  lemma RunSnoc(es: seq<Event>)
    requires es != []
    ensures Run(Init, es) == Step(Run(Init, es[..|es| - 1]), es[|es| - 1])
  {
    var front, last := es[..|es| - 1], [es[|es| - 1]];
    assert es == front + last;
    RunAppend(Init, front, last);
    assert last[1..] == [];
    assert Run(Run(Init, front), last) == Step(Run(Init, front), last[0]);
  }

  lemma HappensBefore(es: seq<Event>, k: nat)
    requires k + 1 < |es|
    ensures Happens(es, k) <==> Happens(es[..|es| - 1], k)
    ensures es[..|es| - 1][k] == es[k]
  {
    assert es[..|es| - 1][..k] == es[..k];
  }

  lemma OpenNext(es: seq<Event>, id: int)
    requires es != []
    ensures var front, e, now := es[..|es| - 1], es[|es| - 1], Happens(es, |es| - 1);
            IsOpen(es, id) <==> (now && e == Accept(id, true)) || (IsOpen(front, id) && !(now && e == Terminate(id)))
  {
    var n := |es| - 1;
    var front := es[..n];
    forall k | 0 <= k < n
      ensures Happens(es, k) <==> Happens(front, k)
      ensures front[k] == es[k]
    {
      HappensBefore(es, k);
    }
    if IsOpen(front, id) && !(Happens(es, n) && es[n] == Terminate(id)) {
      var j :| Happens(front, j) && front[j] == Accept(id, true)
               && forall k :: j < k && Happens(front, k) ==> front[k] != Terminate(id);
      assert Happens(es, j);
    }
    if IsOpen(es, id) {
      var j :| Happens(es, j) && es[j] == Accept(id, true)
               && forall k :: j < k && Happens(es, k) ==> es[k] != Terminate(id);
      if j < n {
        assert Happens(front, j);
      }
    }
  }

  lemma HappenedNext(es: seq<Event>, e: Event)
    requires es != []
    ensures Happened(es, e) <==> Happened(es[..|es| - 1], e) || (Happens(es, |es| - 1) && es[|es| - 1] == e)
  {
    forall k | 0 <= k < |es| - 1
      ensures Happens(es, k) <==> Happens(es[..|es| - 1], k)
      ensures es[..|es| - 1][k] == es[k]
    {
      HappensBefore(es, k);
    }
  }

  /** The connections that hold the listener are those that were taken and have not ended; the protocol has stopped when it
      said so; and it was told to by a Stop with a callback, or by a Free that came too early. */
  lemma {:induction false} HoldersAreOpen(es: seq<Event>)
    ensures var s := Run(Init, es);
            && (forall id :: id in s.holders <==> IsOpen(es, id))
            && (s.protoStopped <==> Happened(es, ProtocolStopped))
            && (s.stopRequested <==> Happened(es, Stop(true)) || s.earlyFree)
    decreases |es|
  {
    if es != [] {
      var front, e := es[..|es| - 1], es[|es| - 1];
      HoldersAreOpen(front);
      RunSnoc(es);
      var s := Run(Init, front);
      RunKeepsCounted(Init, front);
      assert Happens(es, |es| - 1) <==> Enabled(s, e);
      StepFlags(s, e);
      HappenedNext(es, ProtocolStopped);
      HappenedNext(es, Stop(true));
      forall id
        ensures id in Run(Init, es).holders <==> IsOpen(es, id)
      {
        OpenNext(es, id);
        StepHolders(s, e, id);
      }
    }
  }

  /** Over any interleaving of accepts, rejected accepts, closes, errors and one Stop: once the protocol has stopped and
      the last connection is gone, the stopped callback has been made exactly once, and never before. That holds exactly
      in the runs that do not Free a listener they have not stopped, and in which the count is never misread. */
  lemma StoppedFiresOnceIff(es: seq<Event>)
    ensures var s, fine := Run(Init, es), !FreesUnstopped(Init, es) && !Wraps(Init, es);
            && (fine ==> StoppedOnce(s))
            && (s.protoStopped && s.holders == {} ==> (StoppedOnce(s) <==> fine))
  {
    RunLeads(Init, es);
  }

  /** The promise holds in every state of the run. */
  ghost predicate AlwaysStoppedOnce(s: State, es: seq<Event>)
    decreases |es|
  {
    StoppedOnce(s) && (es == [] || AlwaysStoppedOnce(Step(s, es[0]), es[1..]))
  }

  lemma {:induction false} AlwaysFrom(s: State, es: seq<Event>)
    requires Inv(s) && !s.earlyFree && !FreesUnstopped(s, es)
    ensures AlwaysStoppedOnce(s, es) <==> AsPromised(s) && !Wraps(s, es)
    decreases |es|
  {
    if es != [] {
      StepLeads(s, es[0]);
      AlwaysFrom(Step(s, es[0]), es[1..]);
    }
  }

  /** Without such a Free, at every moment of the run, exactly when the count is never misread. */
  lemma AlwaysStoppedOnceIff(es: seq<Event>)
    requires !FreesUnstopped(Init, es)
    ensures AlwaysStoppedOnce(Init, es) <==> !Wraps(Init, es)
  {
    AlwaysFrom(Init, es);
  }

  /** After such a Free, the last event to be waited for ends in a call through NULL, and the callback is never made. */
  lemma EarlyFreeEndsInNullCall(es: seq<Event>)
    requires FreesUnstopped(Init, es)
    ensures var s := Run(Init, es);
            s.fired == 0 && !s.freed && (s.protoStopped && s.holders == {} ==> s.nullCalls == 1)
  {
    RunLeads(Init, es);
  }

  /** The failing family is not empty. */
  lemma FreeWithoutStopCallsNull()
    ensures FreesUnstopped(Init, [Free, ProtocolStopped])
    ensures Run(Init, [Free, ProtocolStopped]).nullCalls == 1
  {
    var s1 := Step(Init, Free);
    var s2 := Step(s1, ProtocolStopped);
    assert [Free, ProtocolStopped][1..] == [ProtocolStopped] && [ProtocolStopped][1..] == [];
    assert Run(s1, [ProtocolStopped]) == s2;
  }

  /** A listener that has been freed has delivered Stopped; unless the count was misread, no connection holds it, and
      nothing uses it afterwards. */
  lemma FreedMeansDone(es: seq<Event>)
    ensures var s := Run(Init, es);
            && (s.freed ==> s.protoStopped && s.fired == 1)
            && (!Wraps(Init, es) ==> s.strays == 0 && (s.freed ==> s.holders == {} && s.nullCalls == 0))
  {
    RunLeads(Init, es);
  }

  /** Free is refused, and changes nothing, exactly from the Stop until the stopped callback. */
  lemma FreeRefusedIff(es: seq<Event>)
    ensures var s := Run(Init, es);
            && (FreeCode(s) == -1 ==> Step(s, Free) == s)
            && (!s.earlyFree ==> FreeCode(s) == if s.stopRequested && s.fired == 0 then -1 else 0)
  {
    RunLeads(Init, es);
  }

  function Terminations(ids: seq<int>): (r: seq<Event>)
    ensures |r| == |ids|
  {
    seq(|ids|, i requires 0 <= i < |ids| => Terminate(ids[i]))
  }

  /** `ids` lists the connections that hold the listener, each once. */
  ghost predicate Lists(ids: seq<int>, holders: set<int>) {
    && (forall i, j :: 0 <= i < j < |ids| ==> ids[i] != ids[j])
    && (forall id :: id in holders <==> id in ids)
  }

  lemma ListsRest(ids: seq<int>, holders: set<int>)
    requires ids != [] && Lists(ids, holders)
    ensures ids[0] in holders && Lists(ids[1..], holders - {ids[0]})
    ensures Terminations(ids)[0] == Terminate(ids[0]) && Terminations(ids)[1..] == Terminations(ids[1..])
  {
    assert ids[0] in ids;
    forall id
      ensures id in holders - {ids[0]} <==> id in ids[1..]
    {
      assert id in ids <==> id == ids[0] || id in ids[1..];
    }
  }

  lemma ListsNone(ids: seq<int>, holders: set<int>)
    requires ids == [] && Lists(ids, holders)
    ensures holders == {}
  {
    assert forall id :: id in holders ==> id in ids;
  }

  lemma {:induction false} NullCallEndsRun(s: State, es: seq<Event>)
    requires s.nullCalls > 0
    ensures Run(s, es) == s
    decreases |es|
  {
    if es != [] {
      NullCallEndsRun(s, es[1..]);
    }
  }

  lemma {:induction false} LastConnectionEndsTheWait(s: State, ids: seq<int>)
    requires Inv(s) && !s.earlyFree && s.protoStopped && Lists(ids, s.holders)
    ensures var t := Run(s, Terminations(ids));
            if AsPromised(s) && |s.holders| < WIDTH then AsPromised(t) && t.holders == {} && t.freed == s.freed && t.protoStopped
            else CalledEarly(t) && t.nullCalls > 0
    decreases |ids|
  {
    if s.nullCalls > 0 {
      NullCallEndsRun(s, Terminations(ids));
    } else if ids == [] {
      ListsNone(ids, s.holders);
    } else {
      var t := Step(s, Terminate(ids[0]));
      ListsRest(ids, s.holders);
      TerminateLeads(s, ids[0]);
      assert t.holders == s.holders - {ids[0]} && |s.holders| == |t.holders| + 1;
      LastConnectionEndsTheWait(t, ids[1..]);
    }
  }

  /** The way it is meant to be used, from any point of any run: Stop, the protocol stops, the connections open then end in
      any order. Then the stopped callback has been made once, and Free succeeds, exactly when fewer than 2^32
      connections were open. */
  lemma StopThenFreeSucceedsIff(es: seq<Event>, ids: seq<int>)
    requires !Run(Init, es).stopRequested && Lists(ids, Run(Init, es).holders)
    ensures var s := Step(Step(Run(Init, es), Stop(true)), ProtocolStopped);
            var t := Run(s, Terminations(ids));
            (t.fired == 1 && t.nullCalls == 0 && FreeCode(t) == 0 && Step(t, Free).freed)
            <==> |Run(Init, es).holders| < 0x1_0000_0000
  {
    RunLeads(Init, es);
    var s0 := Run(Init, es);
    var s1 := Step(s0, Stop(true));
    StepLeads(s0, Stop(true));
    var s2 := Step(s1, ProtocolStopped);
    StepLeads(s1, ProtocolStopped);
    LastConnectionEndsTheWait(s2, ids);
  }

  // ----- 2^32 connections -----

  function Accepts(n: nat): (r: seq<Event>)
    ensures |r| == n
  {
    seq(n, i => Accept(i, true))
  }

  lemma {:induction false} RunAppend(s: State, es: seq<Event>, fs: seq<Event>)
    ensures Run(s, es + fs) == Run(Run(s, es), fs)
    decreases |es|
  {
    if es == [] {
      assert es + fs == fs;
    } else {
      assert (es + fs)[0] == es[0] && (es + fs)[1..] == es[1..] + fs;
      RunAppend(Step(s, es[0]), es[1..], fs);
    }
  }

  lemma {:induction false} AfterAccepts(n: nat)
    ensures var s := Run(Init, Accepts(n));
            && s == Init.(holders := s.holders, seen := s.holders, refCount := n % WIDTH)
            && |s.holders| == n && forall id :: id in s.holders <==> 0 <= id < n
  {
    if n > 0 {
      var s, e := Run(Init, Accepts(n - 1)), Accept(n - 1, true);
      AfterAccepts(n - 1);
      assert Accepts(n) == Accepts(n - 1) + [e];
      RunAppend(Init, Accepts(n - 1), [e]);
      assert [e][1..] == [] && Run(s, [e]) == Step(s, e);
      CountModulo(n - 1);
    }
  }

  /** The protocol stops with `n` connections open. */
  function StopAmid(n: nat): seq<Event> {
    Accepts(n) + [Stop(true), ProtocolStopped]
  }

  lemma AfterStopAmid(n: nat)
    ensures var s := Run(Init, StopAmid(n));
            && |s.holders| == n && (forall id :: id in s.holders <==> 0 <= id < n) && s.protoStopped && s.refCount == n % WIDTH
            && s.readyToStop && s.nullCalls == 0 && !s.earlyFree && !s.freed && s.strays == 0
            && (if n % WIDTH == 0 then s.fired == 1 && !s.stopped else s.fired == 0 && s.stopped)
  {
    AfterAccepts(n);
    var s := Run(Init, Accepts(n));
    RunAppend(Init, Accepts(n), [Stop(true), ProtocolStopped]);
    assert [Stop(true), ProtocolStopped][1..] == [ProtocolStopped] && [ProtocolStopped][1..] == [];
    assert Run(s, [Stop(true), ProtocolStopped]) == Step(Step(s, Stop(true)), ProtocolStopped);
  }

  /** Stopped comes with all of 2^32 connections open; Free then succeeds, and a connection that ends uses the freed
      listener. With one more, the first connection to end calls Stopped. */
  lemma WrappedCountFiresEarly()
    ensures var s := Run(Init, StopAmid(WIDTH)); |s.holders| == WIDTH && s.fired == 1
    ensures var t := Run(Run(Init, StopAmid(WIDTH)), [Free, Terminate(0)]); t.freed && t.strays == 1
    ensures var u := Run(Run(Init, StopAmid(WIDTH + 1)), [Terminate(0)]); |u.holders| == WIDTH && u.fired == 1
  {
    AfterStopAmid(WIDTH);
    AfterStopAmid(WIDTH + 1);
    var s, u := Run(Init, StopAmid(WIDTH)), Run(Init, StopAmid(WIDTH + 1));
    assert [Free, Terminate(0)][1..] == [Terminate(0)] && [Terminate(0)][1..] == [];
    assert Run(s, [Free, Terminate(0)]) == Step(Step(s, Free), Terminate(0));
    assert Run(u, [Terminate(0)]) == Step(u, Terminate(0));
    assert |u.holders - {0}| == WIDTH;
  }

  // ----- the structs -----

  class Listener {
    var refCount: nat
    var readyToStop: bool
    var stopped: bool  // the pointer is not NULL
    var freed: bool
    ghost var state: State

    ghost predicate Valid()
      reads this
    {
      refCount == state.refCount && readyToStop == state.readyToStop && stopped == state.stopped
      && freed == state.freed
    }

    /** The end of `tapsListenerNew`. */
    constructor ()
      ensures Valid() && state == Init
    {
      refCount, readyToStop, stopped, freed := 0, false, false, false;
      state := Init;
    }

    /** `(*stopped)(l->app_ctx)` through the pointer read beforehand; says whether there was a callback to make. */
    method CallStopped() returns (made: bool)
      requires Valid()
      modifies this
      ensures Valid() && state == Fire(old(state)) && made == old(stopped)
    {
      made := stopped;
      stopped := false;
      state := Fire(state);
    }

    /** The connection object, and the reference it stands for. */
    method NewConnection(id: int) returns (c: Connection)
      requires Valid()
      modifies this
      ensures Valid() && state == Hold(old(state), id)
      ensures fresh(c) && c.listener == this && c.id == id
    {
      c := new Connection(id, this);
      refCount := if refCount == WIDTH - 1 then 0 else refCount + 1;
      state := Hold(state, id);
    }

    /** `_taps_connection_received`: a connection the application does not return callbacks for is closed again. */
    method ConnectionReceived(id: int, approved: bool) returns (c: Connection?)
      requires Valid()
      modifies this
      ensures Valid() && state == AcceptStep(old(state), id, approved)
      ensures approved <==> c != null
      ensures approved ==> c.listener == this && c.id == id && c.closed
      ensures refCount == if approved then Inc(old(refCount)) else old(refCount)
    {
      var conn := NewConnection(id);
      if !approved {
        var called := conn.Closed();
        return null;
      }
      conn.Initialize();
      return conn;
    }

    /** `tapsListenerDeref`, by the connection `id`. */
    method Deref(ghost id: int)
      requires Valid()
      modifies this
      ensures Valid() && state == Release(old(state), id)
    {
      refCount := if refCount == 0 then WIDTH - 1 else refCount - 1;
      ghost var was := state;
      state := was.(holders := was.holders - {id}, refCount := Dec(was.refCount));
      if readyToStop && refCount == 0 {
        var made := CallStopped();
      }
    }

    /** `tapsListenerStop`, up to the call of the protocol's Stop. */
    method Stop(callbackPresent: bool) returns (ret: int)
      requires Valid()
      modifies this
      ensures Valid() && state == StopStep(old(state), callbackPresent)
      ensures ret == if callbackPresent then 0 else -1
    {
      if !callbackPresent {
        return -1;
      }
      stopped := true;
      state := StopStep(state, true);
      return 0;
    }

    /** `_taps_stopped`. */
    method ProtocolStopped()
      requires Valid()
      modifies this
      ensures Valid() && state == ProtocolStoppedStep(old(state))
    {
      readyToStop := true;
      ghost var was := state;
      state := was.(readyToStop := true, protoStopped := true);
      if refCount == 0 {
        var made := CallStopped();
      }
    }

    /** `tapsListenerFree`. */
    method Free() returns (ret: int)
      requires Valid() && !freed
      modifies this
      ensures Valid() && state == FreeStep(old(state)) && ret == FreeCode(old(state))
    {
      ghost var was := state;
      state := FreeStep(was);
      if !readyToStop && !stopped {
        readyToStop := true;
        return 0;
      }
      if stopped {
        return -1;
      }
      freed := true;
      return 0;
    }
  }

  class Connection {
    const id: int
    var listener: Listener?
    var closed: bool  // the application's `closed` callback is set

    constructor (id: int, listener: Listener)
      ensures this.id == id && this.listener == listener && !closed
    {
      this.id, this.listener, closed := id, listener, false;
    }

    /** `tapsConnectionInitialize`, when the application has returned its callbacks. */
    method Initialize()
      modifies this
      ensures closed && listener == old(listener)
    {
      closed := true;
    }

    /** `_taps_closed` (and, with `called` always true, `_taps_connection_error`): let go of the listener once. */
    method Closed() returns (called: bool)
      requires listener != null && listener.Valid()
      modifies this, listener
      ensures listener == null && old(listener).Valid()
      ensures old(listener).state == Release(old(listener.state), id)
      ensures called == old(closed)
    {
      listener.Deref(id);
      listener := null;
      called := closed;
    }
  }
}
