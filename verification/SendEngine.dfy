/**
 * The sending half of a connection (src/taps_connection.c) together with the
 * sending half of a protocol connection (src/tcp/tcp.c), as a transition
 * system.
 *
 * Every callback into the application is the last thing its C function does,
 * so a call the application makes from inside a callback is simply the next
 * event. The protocol completes an operation after the call that handed it
 * over has returned.
 *
 * The repair: `sendReady` is cleared when a send is handed over, as the comment
 * on the flag (src/taps_connection.c:81), the receive path and
 * docs/protocols.md say.
 */
module SendEngine {
  import opened Common
  import opened ItemQueue
  import opened ScatterList

  /** A message as the application submits it: its context, and the bytes in view. */
  datatype Msg = Msg(app: int, bytes: seq<byte>)

  datatype Outcome = Sent | Expired | SendError

  /** One callback to the application. */
  datatype Callback = Callback(msg: Msg, outcome: Outcome)

  datatype State = State(
    queue: seq<Msg>,           // sndq, oldest first
    ready: bool,               // sendReady
    outstanding: Option<nat>,  // the queue position the protocol's pending send event stands for
    submitted: seq<Msg>,       // history: what the application passed to Send
    handed: seq<Msg>,          // history: what the protocol accepted
    done: seq<Callback>,       // history: callbacks made
    busy: nat,                 // history: times the protocol was called with its event still pending
    refused: nat)              // history: times an idle protocol failed a write

  datatype Event =
    | Submit(msg: Msg, accept: bool)           // tapsConnectionSend
    | Complete(outcome: Outcome, accept: bool) // the pending event fires: _taps_sent, _taps_expired, _taps_send_error
  // `accept`: whether writev succeeds if this event makes TAPS call an idle protocol

  const Init := State([], true, None, [], [], [], 0, 0)

  /** The protocol's Send (src/tcp/tcp.c:265-292): -1 while its event is pending or when the write fails. */
  function Post(s: State, k: nat, accept: bool): State
    requires k < |s.queue|
  {
    if s.outstanding.Some? then s.(busy := s.busy + 1)
    else if !accept then s.(refused := s.refused + 1)
    else s.(outstanding := Some(k), handed := s.handed + [s.queue[k]])
  }

  function PostCode(s: State, k: nat, accept: bool): int
    requires k < |s.queue|
  {
    if s.outstanding.Some? || !accept then -1 else |s.queue[k].bytes|
  }

  function Enqueued(s: State, m: Msg): State {
    s.(queue := s.queue + [m], submitted := s.submitted + [m])
  }

  function SubmitStep(v: Variant, s: State, m: Msg, accept: bool): State {
    var s1 := Enqueued(s, m);
    if !s.ready then s1
    else Post(if v.Repaired? then s1.(ready := false) else s1, |s.queue|, accept)
  }

  /** What tapsConnectionSend returns. */
  function SubmitCode(s: State, m: Msg, accept: bool): int {
    if !s.ready then 0 else PostCode(Enqueued(s, m), |s.queue|, accept)
  }

  /** `_taps_send_common` and the callback after it, for the item at the outstanding position. */
  function CompleteStep(s: State, outcome: Outcome, accept: bool): State
    requires s.outstanding.Some? && s.outstanding.value < |s.queue|
  {
    var k := s.outstanding.value;
    var s1 := s.(queue := Without(s.queue, k), outstanding := None, done := s.done + [Callback(s.queue[k], outcome)]);
    if k == |s.queue| - 1 then s1.(ready := true) else Post(s1, k, accept)
  }

  lemma CompleteStepParts(s: State, outcome: Outcome, accept: bool)
    requires s.outstanding.Some? && s.outstanding.value < |s.queue|
    ensures var k, t := s.outstanding.value, CompleteStep(s, outcome, accept);
            var last := k == |s.queue| - 1;
            && t.queue == Without(s.queue, k)
            && t.ready == (last || s.ready)
            && t.outstanding == (if !last && accept then Some(k) else None)
            && t.done == s.done + [Callback(s.queue[k], outcome)]
  {
  }

  /** A completion with nothing outstanding cannot happen, and changes nothing here. */
  function Step(v: Variant, s: State, e: Event): State {
    match e
    case Submit(m, accept) => SubmitStep(v, s, m, accept)
    case Complete(outcome, accept) =>
      if s.outstanding.Some? && s.outstanding.value < |s.queue| then CompleteStep(s, outcome, accept) else s
  }

  function Run(v: Variant, s: State, es: seq<Event>): State
    decreases |es|
  {
    if es == [] then s else Run(v, Step(v, s, es[0]), es[1..])
  }

  function Messages(cs: seq<Callback>): (r: seq<Msg>)
    ensures |r| == |cs|
  {
    seq(|cs|, i requires 0 <= i < |cs| => cs[i].msg)
  }

  // ----- what every run keeps -----

  /** Each submitted message is still queued or has had its one callback. */
  ghost predicate Conserved(s: State) {
    && multiset(s.submitted) == multiset(Messages(s.done)) + multiset(s.queue)
    && (s.outstanding.Some? ==> s.outstanding.value < |s.queue|)
  }

  /** The callbacks answer the messages the protocol was handed, in that order, and the last one handed may be under way. */
  ghost predicate AnswersHanded(s: State) {
    && (s.outstanding.Some? ==> s.outstanding.value < |s.queue|)
    && s.handed == Messages(s.done) + if s.outstanding.Some? then [s.queue[s.outstanding.value]] else []
  }

  /** First in, first out: callbacks so far, then the queue, is the order of submission; the protocol was handed the
      same messages in the same order; and it is working on the oldest queued message whenever there is one. */
  ghost predicate InOrder(s: State) {
    && s.submitted == Messages(s.done) + s.queue
    && s.handed == Messages(s.done) + (if s.queue == [] then [] else [s.queue[0]])
    && s.outstanding == if s.queue == [] then None else Some(0)
  }

  /** The oldest queued message was never accepted, and no event can come for it. */
  ghost predicate HeadStuck(s: State) {
    s.queue != [] && s.outstanding != Some(0)
  }

  ghost predicate FlagKept(v: Variant, s: State) {
    match v
    case AsWritten => s.ready
    case Repaired => (s.ready <==> s.queue == []) && s.busy == 0 && (s.outstanding.Some? ==> s.outstanding == Some(0))
  }

  ghost predicate Inv(v: Variant, s: State) {
    Conserved(s) && FlagKept(v, s) && if s.refused == 0 then InOrder(s) else HeadStuck(s)
  }

  lemma SubmitKeepsInv(v: Variant, s: State, m: Msg, accept: bool)
    requires Inv(v, s)
    ensures Inv(v, SubmitStep(v, s, m, accept))
  {
  }

  lemma CompleteConserves(s: State, outcome: Outcome, accept: bool)
    requires Conserved(s) && s.outstanding.Some?
    ensures var t := CompleteStep(s, outcome, accept);
            Conserved(t) && Messages(t.done) == Messages(s.done) + [s.queue[s.outstanding.value]]
  {
    var k, t := s.outstanding.value, CompleteStep(s, outcome, accept);
    WithoutRemovesOne(s.queue, k);
    assert t.done == s.done + [Callback(s.queue[k], outcome)];
    assert Messages(t.done) == Messages(s.done) + [s.queue[k]];
  }

  lemma HeadMoves<T>(d: seq<T>, q: seq<T>)
    requires q != []
    ensures d + q == (d + [q[0]]) + q[1..]
    ensures Without(q, 0) == q[1..]
  {
  }

  lemma CompleteKeepsOrder(s: State, outcome: Outcome, accept: bool)
    requires Conserved(s) && InOrder(s) && s.outstanding.Some?
    ensures var t := CompleteStep(s, outcome, accept);
            t.queue == s.queue[1..] && if t.refused == s.refused then InOrder(t) else HeadStuck(t)
  {
    var t := CompleteStep(s, outcome, accept);
    HeadMoves(Messages(s.done), s.queue);
    assert Messages(t.done) == Messages(s.done) + [s.queue[0]] by {
      CompleteConserves(s, outcome, accept);
    }
    if t.queue == [] {
      assert t.handed == s.handed;
    } else if accept {
      assert t.handed == s.handed + [t.queue[0]];
    } else {
      assert t.outstanding == None;
    }
  }

  lemma CompleteKeepsInv(v: Variant, s: State, outcome: Outcome, accept: bool)
    requires Inv(v, s) && s.outstanding.Some?
    ensures Inv(v, CompleteStep(s, outcome, accept))
  {
    CompleteConserves(s, outcome, accept);
    if s.refused == 0 {
      CompleteKeepsOrder(s, outcome, accept);
    }
  }

  lemma {:induction false} RunKeepsInv(v: Variant, s: State, es: seq<Event>)
    requires Inv(v, s)
    ensures Inv(v, Run(v, s, es))
    decreases |es|
  {
    if es != [] {
      match es[0] {
        case Submit(m, accept) => SubmitKeepsInv(v, s, m, accept);
        case Complete(outcome, accept) =>
          if s.outstanding.Some? {
            CompleteKeepsInv(v, s, outcome, accept);
          }
      }
      RunKeepsInv(v, Step(v, s, es[0]), es[1..]);
    }
  }

  // ----- main results -----

  /** In every run, refused writes or not: nothing is lost, nothing gets two callbacks. */
  lemma ExactlyOnce(v: Variant, es: seq<Event>)
    ensures Conserved(Run(v, Init, es))
  {
    RunKeepsInv(v, Init, es);
  }

  /** A run is in order exactly when no write was refused by an idle protocol; after such a refusal the oldest queued
      message is stuck for good (a queued item whose send failed is never offered again). */
  lemma InOrderIffNoRefusedWrite(v: Variant, es: seq<Event>)
    ensures var s := Run(v, Init, es);
            && (InOrder(s) <==> s.refused == 0)
            && (HeadStuck(s) <==> s.refused > 0)
  {
    RunKeepsInv(v, Init, es);
  }

  /** The repair gives what docs/protocols.md promises in every run: one send at a time. */
  lemma RepairedNeverFindsProtocolBusy(es: seq<Event>)
    ensures var s := Run(Repaired, Init, es); s.busy == 0 && (s.ready <==> s.queue == [])
  {
    RunKeepsInv(Repaired, Init, es);
  }

  /** Every Send of the run finds no send event pending, that is, as long as no write has been refused, an empty queue. */
  ghost predicate OneSendAtATime(v: Variant, s: State, es: seq<Event>)
    decreases |es|
  {
    es == [] || ((es[0].Submit? ==> s.outstanding.None?) && OneSendAtATime(v, Step(v, s, es[0]), es[1..]))
  }

  lemma {:induction false} BusyGrows(v: Variant, s: State, es: seq<Event>)
    ensures Run(v, s, es).busy >= s.busy
    decreases |es|
  {
    if es != [] {
      BusyGrows(v, Step(v, s, es[0]), es[1..]);
    }
  }

  lemma {:induction false} BusyFrom(s: State, es: seq<Event>)
    requires Inv(AsWritten, s)
    ensures Run(AsWritten, s, es).busy == s.busy <==> OneSendAtATime(AsWritten, s, es)
    decreases |es|
  {
    if es != [] {
      var t := Step(AsWritten, s, es[0]);
      RunKeepsInv(AsWritten, s, [es[0]]);
      assert Run(AsWritten, s, [es[0]]) == t;
      BusyGrows(AsWritten, t, es[1..]);
      BusyFrom(t, es[1..]);
    }
  }

  /** The code as written calls a protocol whose event is pending exactly when the application sends while an earlier send
      is under way: `sendReady` never becomes false. */
  lemma BusyIffSendsOverlap(es: seq<Event>)
    ensures Run(AsWritten, Init, es).busy == 0 <==> OneSendAtATime(AsWritten, Init, es)
    ensures var s := Run(AsWritten, Init, es); s.refused == 0 ==> (s.outstanding.None? <==> s.queue == [])
  {
    BusyFrom(Init, es);
    RunKeepsInv(AsWritten, Init, es);
  }

  /** A Send that returns an error has nevertheless queued its message. That happens as written exactly while a send event
      is pending (as long as no write has been refused: while anything is queued) or when this write fails; repaired,
      exactly when a write into an empty queue fails. Otherwise it returns the length of its message, or 0 when that has
      to wait. */
  lemma SendErrorIff(v: Variant, es: seq<Event>, m: Msg, accept: bool)
    ensures var s := Run(v, Init, es);
            && SubmitStep(v, s, m, accept).queue == s.queue + [m]
            && SubmitCode(s, m, accept) == (
                 if v.AsWritten? then (if s.outstanding.Some? || !accept then -1 else |m.bytes|)
                 else if s.queue != [] then 0 else if accept then |m.bytes| else -1)
            && (s.refused == 0 ==> (s.outstanding.Some? <==> s.queue != []))
  {
    RunKeepsInv(v, Init, es);
  }

  // ----- what each event does -----

  /** A Send queues its message behind the others. The protocol is handed it at once if no event is pending, and, repaired,
      nothing is queued; it may then refuse it. */
  lemma SubmitEffect(v: Variant, s: State, m: Msg, accept: bool)
    requires Inv(v, s)
    ensures var t := Step(v, s, Submit(m, accept));
            var offered := s.outstanding.None? && (v.AsWritten? || s.queue == []);
            && t.queue == s.queue + [m] && t.submitted == s.submitted + [m] && t.done == s.done
            && t.outstanding == (if offered && accept then Some(|s.queue|) else s.outstanding)
            && t.handed == s.handed + (if offered && accept then [m] else [])
            && t.refused == s.refused + (if offered && !accept then 1 else 0)
  {
  }

  /** A completion answers the message handed over, and hands over the one queued behind it, if any. */
  lemma CompleteEffect(v: Variant, s: State, outcome: Outcome, accept: bool)
    requires Inv(v, s) && s.outstanding.Some?
    ensures var t, k := Step(v, s, Complete(outcome, accept)), s.outstanding.value;
            && k < |s.queue| && t.queue == s.queue[..k] + s.queue[k + 1..] && t.submitted == s.submitted
            && t.done == s.done + [Callback(s.queue[k], outcome)]
            && t.outstanding == (if k + 1 < |s.queue| && accept then Some(k) else None)
            && t.handed == s.handed + (if k + 1 < |s.queue| && accept then [s.queue[k + 1]] else [])
            && t.refused == s.refused + (if k + 1 < |s.queue| && !accept then 1 else 0)
  {
  }

  /** Without a pending event there is none to complete. */
  lemma NothingToComplete(v: Variant, s: State, outcome: Outcome, accept: bool)
    requires s.outstanding.None?
    ensures Step(v, s, Complete(outcome, accept)) == s
  {
  }

  function SentBy(e: Event): seq<Msg> {
    if e.Submit? then [e.msg] else []
  }

  function Sends(es: seq<Event>): seq<Msg> {
    if es == [] then [] else SentBy(es[0]) + Sends(es[1..])
  }

  function ReportedBy(s: State, e: Event): seq<Outcome> {
    if e.Complete? && s.outstanding.Some? then [e.outcome] else []
  }

  /** The outcomes of the Complete events that find an event pending. */
  ghost function Reported(v: Variant, s: State, es: seq<Event>): seq<Outcome>
    decreases |es|
  {
    if es == [] then []
    else ReportedBy(s, es[0]) + Reported(v, Step(v, s, es[0]), es[1..])
  }

  function OutcomesOf(cs: seq<Callback>): (r: seq<Outcome>)
    ensures |r| == |cs|
  {
    seq(|cs|, i requires 0 <= i < |cs| => cs[i].outcome)
  }

  /** Every message offered to an idle protocol is taken: one sent into an empty queue, and the one behind a completed
      one. */
  ghost predicate WritesTaken(v: Variant, s: State, es: seq<Event>)
    decreases |es|
  {
    es == [] ||
    ((match es[0]
      case Submit(_, accept) => s.queue == [] ==> accept
      case Complete(_, accept) => |s.queue| > 1 ==> accept)
     && WritesTaken(v, Step(v, s, es[0]), es[1..]))
  }

  lemma SubmitAnswersHanded(v: Variant, s: State, m: Msg, accept: bool)
    requires Inv(v, s) && AnswersHanded(s)
    ensures AnswersHanded(Step(v, s, Submit(m, accept)))
  {
    SubmitEffect(v, s, m, accept);
    var t := Step(v, s, Submit(m, accept));
    assert s.outstanding.Some? ==> t.queue[s.outstanding.value] == s.queue[s.outstanding.value];
    assert s.outstanding.None? ==> s.handed == Messages(s.done);
  }

  lemma CompleteAnswersHanded(v: Variant, s: State, outcome: Outcome, accept: bool)
    requires Inv(v, s) && AnswersHanded(s) && s.outstanding.Some?
    ensures AnswersHanded(Step(v, s, Complete(outcome, accept)))
  {
    CompleteEffect(v, s, outcome, accept);
    var t, k := Step(v, s, Complete(outcome, accept)), s.outstanding.value;
    assert Messages(t.done) == Messages(s.done) + [s.queue[k]];
    assert k + 1 < |s.queue| ==> t.queue[k] == s.queue[k + 1];
  }

  lemma Joined<T>(a: seq<T>, b: seq<T>, c: seq<T>)
    ensures (a + b) + c == a + (b + c)
  {
  }

  lemma EventHistories(v: Variant, s: State, e: Event)
    requires Inv(v, s) && AnswersHanded(s)
    ensures var t := Step(v, s, e);
            && Inv(v, t) && AnswersHanded(t)
            && t.submitted == s.submitted + SentBy(e)
            && OutcomesOf(t.done) == OutcomesOf(s.done) + ReportedBy(s, e)
  {
    match e {
      case Submit(m, accept) =>
        SubmitEffect(v, s, m, accept);
        SubmitKeepsInv(v, s, m, accept);
        SubmitAnswersHanded(v, s, m, accept);
      case Complete(outcome, accept) =>
        if s.outstanding.Some? {
          CompleteEffect(v, s, outcome, accept);
          CompleteKeepsInv(v, s, outcome, accept);
          CompleteAnswersHanded(v, s, outcome, accept);
        }
    }
  }

  lemma {:induction false} HistoriesFrom(v: Variant, s: State, es: seq<Event>)
    requires Inv(v, s) && AnswersHanded(s)
    ensures var t := Run(v, s, es);
            && AnswersHanded(t)
            && t.submitted == s.submitted + Sends(es)
            && OutcomesOf(t.done) == OutcomesOf(s.done) + Reported(v, s, es)
    decreases |es|
  {
    if es != [] {
      var t := Step(v, s, es[0]);
      EventHistories(v, s, es[0]);
      HistoriesFrom(v, t, es[1..]);
      Joined(s.submitted, SentBy(es[0]), Sends(es[1..]));
      Joined(OutcomesOf(s.done), ReportedBy(s, es[0]), Reported(v, t, es[1..]));
    }
  }

  /** In every run: `submitted` is what the application sent, the callbacks answer what the protocol was handed, in that
      order, with the outcomes it reported. */
  lemma HistoriesAreEvents(v: Variant, es: seq<Event>)
    ensures var s := Run(v, Init, es);
            && s.submitted == Sends(es)
            && AnswersHanded(s)
            && OutcomesOf(s.done) == Reported(v, Init, es)
  {
    HistoriesFrom(v, Init, es);
  }

  lemma {:induction false} RefusedStays(v: Variant, s: State, es: seq<Event>)
    requires Inv(v, s)
    ensures Run(v, s, es).refused >= s.refused
    decreases |es|
  {
    if es != [] {
      RunKeepsInv(v, s, [es[0]]);
      assert Run(v, s, [es[0]]) == Step(v, s, es[0]);
      RefusedStays(v, Step(v, s, es[0]), es[1..]);
    }
  }

  lemma {:induction false} RefusedFrom(v: Variant, s: State, es: seq<Event>)
    requires Inv(v, s) && s.refused == 0
    ensures Run(v, s, es).refused == 0 <==> WritesTaken(v, s, es)
    decreases |es|
  {
    if es != [] {
      var t := Step(v, s, es[0]);
      RunKeepsInv(v, s, [es[0]]);
      assert Run(v, s, [es[0]]) == t;
      match es[0] {
        case Submit(m, accept) => SubmitEffect(v, s, m, accept);
        case Complete(outcome, accept) =>
          if s.outstanding.Some? {
            CompleteEffect(v, s, outcome, accept);
          }
      }
      if t.refused == 0 {
        RefusedFrom(v, t, es[1..]);
      } else {
        RefusedStays(v, t, es[1..]);
      }
    }
  }

  /** What a run without a refused write is. */
  lemma NoRefusedWriteIff(v: Variant, es: seq<Event>)
    ensures Run(v, Init, es).refused == 0 <==> WritesTaken(v, Init, es)
  {
    RefusedFrom(v, Init, es);
  }

  /** What stays stuck after a refused write: the oldest queued message, whatever happens next. */
  lemma {:induction false} StuckForever(v: Variant, s: State, es: seq<Event>)
    requires Inv(v, s) && s.refused > 0
    ensures var t := Run(v, s, es); t.queue != [] && t.queue[0] == s.queue[0] && t.refused > 0
    decreases |es|
  {
    if es != [] {
      var t := Step(v, s, es[0]);
      RunKeepsInv(v, s, [es[0]]);
      assert Run(v, s, [es[0]]) == t;
      StuckForever(v, t, es[1..]);
    }
  }

  /** The failing family is not empty: after a single refused write its message stays at the head of the queue, in any
      continuation. */
  lemma RefusedWriteStrandsHead(v: Variant, m: Msg, es: seq<Event>)
    ensures SubmitCode(Init, m, false) == -1
    ensures var t := Run(v, Init, [Submit(m, false)] + es); t.queue != [] && t.queue[0] == m
  {
    var s := Step(v, Init, Submit(m, false));
    assert s.queue == [m] && s.refused == 1 && s.outstanding.None?;
    SubmitKeepsInv(v, Init, m, false);
    assert ([Submit(m, false)] + es)[0] == Submit(m, false) && ([Submit(m, false)] + es)[1..] == es;
    StuckForever(v, s, es);
  }

  /** The failing family is not empty: of two sends in a row, the second is reported as failed and yet goes out. */
  lemma SecondSendReportedFailedThenSent(a: Msg, b: Msg)
    ensures var s := Run(AsWritten, Init, [Submit(a, true)]);
            && SubmitCode(s, b, true) == -1
            && Run(AsWritten, Init, [Submit(a, true), Submit(b, true), Complete(Sent, true), Complete(Sent, true)]).done
               == [Callback(a, Sent), Callback(b, Sent)]
  {
    var e1 := [Submit(b, true), Complete(Sent, true), Complete(Sent, true)];
    var e2, e3 := [Complete(Sent, true), Complete(Sent, true)], [Complete(Sent, true)];
    var s1 := Step(AsWritten, Init, Submit(a, true));
    var s2 := Step(AsWritten, s1, e1[0]);
    var s3 := Step(AsWritten, s2, e2[0]);
    assert ([Submit(a, true)] + e1)[1..] == e1 && e1[1..] == e2 && e2[1..] == e3 && e3[1..] == [];
    assert Run(AsWritten, Init, [Submit(a, true)]) == Run(AsWritten, s1, []);
    assert Run(AsWritten, Init, [Submit(a, true)] + e1) == Run(AsWritten, s1, e1) == Run(AsWritten, s2, e2);
    assert Run(AsWritten, s2, e2) == Run(AsWritten, s3, e3) == Step(AsWritten, s3, e3[0]);
    assert [Submit(a, true)] + e1 == [Submit(a, true), Submit(b, true), Complete(Sent, true), Complete(Sent, true)];
    assert s2.queue == [a, b] && s3.queue == [b];
  }

  // ----- progress -----

  /** The protocol completing `|outcomes|` operations, with every write accepted. */
  function Completions(outcomes: seq<Outcome>): (r: seq<Event>)
    ensures |r| == |outcomes|
  {
    seq(|outcomes|, i requires 0 <= i < |outcomes| => Complete(outcomes[i], true))
  }

  function Outcomes(q: seq<Msg>, outcomes: seq<Outcome>): seq<Callback>
    requires |q| == |outcomes|
  {
    seq(|q|, i requires 0 <= i < |q| => Callback(q[i], outcomes[i]))
  }

  lemma CompletionAnswersHead(v: Variant, s: State, outcome: Outcome)
    requires Inv(v, s) && s.refused == 0 && s.queue != []
    ensures var t := Step(v, s, Complete(outcome, true));
            && Inv(v, t) && t.refused == 0
            && t.queue == s.queue[1..] && t.done == s.done + [Callback(s.queue[0], outcome)]
            && (t.queue == [] ==> t.ready)
  {
    CompleteKeepsInv(v, s, outcome, true);
    CompleteKeepsOrder(s, outcome, true);
  }

  lemma OutcomesCons(d: seq<Callback>, q: seq<Msg>, outcomes: seq<Outcome>)
    requires |q| == |outcomes| > 0
    ensures d + Outcomes(q, outcomes) == (d + [Callback(q[0], outcomes[0])]) + Outcomes(q[1..], outcomes[1..])
    ensures Completions(outcomes)[1..] == Completions(outcomes[1..])
  {
  }

  /** As many completions as there are queued messages empty the queue, answering them in order; the connection is
      ready for the next. */
  lemma {:induction false} CompletionsDrainQueue(v: Variant, s: State, outcomes: seq<Outcome>)
    requires Inv(v, s) && s.refused == 0 && |outcomes| == |s.queue|
    ensures var t := Run(v, s, Completions(outcomes));
            && Inv(v, t) && t.refused == 0
            && t.queue == [] && t.ready && t.done == s.done + Outcomes(s.queue, outcomes)
    decreases |outcomes|
  {
    if outcomes == [] {
      assert s.done + Outcomes(s.queue, outcomes) == s.done;
    } else {
      CompletionAnswersHead(v, s, outcomes[0]);
      OutcomesCons(s.done, s.queue, outcomes);
      CompletionsDrainQueue(v, Step(v, s, Complete(outcomes[0], true)), outcomes[1..]);
    }
  }

  // ----- the bytes on the wire -----

  function Bytes(ms: seq<Msg>): seq<byte> {
    if ms == [] then [] else Bytes(ms[..|ms| - 1]) + ms[|ms| - 1].bytes
  }

  lemma {:induction false} BytesOfPrefix(ms: seq<Msg>, k: nat)
    requires k <= |ms|
    ensures Bytes(ms[..k]) <= Bytes(ms)
    decreases |ms| - k
  {
    if k < |ms| {
      BytesOfPrefix(ms, k + 1);
      assert ms[..k + 1][..k] == ms[..k];
    } else {
      assert ms[..k] == ms;
    }
  }

  /** What the protocol was given to write is a prefix of what the application submitted, byte for byte. */
  lemma WireIsPrefixOfSubmitted(v: Variant, es: seq<Event>)
    requires Run(v, Init, es).refused == 0
    ensures Bytes(Run(v, Init, es).handed) <= Bytes(Run(v, Init, es).submitted)
  {
    RunKeepsInv(v, Init, es);
    var s := Run(v, Init, es);
    assert s.handed == s.submitted[..|s.handed|];
    BytesOfPrefix(s.submitted, |s.handed|);
  }

  // ----- teardown (tapsConnectionFree) -----

  function Errors(q: seq<Msg>): (r: seq<Callback>)
    ensures |r| == |q|
  {
    seq(|q|, i requires 0 <= i < |q| => Callback(q[i], SendError))
  }

  /** The teardown with its loop repaired: every queued message gets sendError, newest first. In the k-th of these
      callbacks the application sends `reactions[k]`, and those messages get theirs too. */
  function Teardown(s: State, reactions: seq<seq<Msg>>): State {
    var answered := Answered(s.queue, reactions);
    s.(queue := [], outstanding := None,
       submitted := s.submitted + AddedDuring(|answered|, reactions), done := s.done + Errors(answered))
  }

  /** The teardown as written; None if it uses an item it has freed. */
  function TeardownAsWritten(s: State, reactions: seq<seq<Msg>>): Option<State> {
    match DrainLoop(s.queue, false, reactions)
    case None => None
    case Some(answered) =>
      Some(s.(queue := [], outstanding := None,
              submitted := s.submitted + AddedDuring(|answered|, reactions), done := s.done + Errors(answered)))
  }

  lemma MessagesOfErrors(done: seq<Callback>, q: seq<Msg>)
    ensures Messages(done + Errors(q)) == Messages(done) + q
  {
  }

  lemma TeardownConserves(s: State, reactions: seq<seq<Msg>>)
    requires Conserved(s)
    ensures multiset(Messages(Teardown(s, reactions).done)) == multiset(Teardown(s, reactions).submitted)
  {
    var answered := Answered(s.queue, reactions);
    MessagesOfErrors(s.done, answered);
    AnsweredOnce(s.queue, reactions);
    CountsAdd(Messages(s.done), answered);
    CountsAdd(s.submitted, AddedDuring(|answered|, reactions));
  }

  /** With the repaired teardown, over the whole life of a connection, each submitted message has exactly one callback,
      those sent from inside its callbacks included; the callbacks made before it stand. */
  lemma TeardownAnswersAll(v: Variant, es: seq<Event>, reactions: seq<seq<Msg>>)
    ensures var s := Run(v, Init, es);
            && Teardown(s, reactions).queue == []
            && s.done <= Teardown(s, reactions).done
            && multiset(Messages(Teardown(s, reactions).done)) == multiset(Teardown(s, reactions).submitted)
  {
    RunKeepsInv(v, Init, es);
    TeardownConserves(Run(v, Init, es), reactions);
  }

  /** Each of its callbacks is sendError, newest message first; those before it stand. As written it makes the same ones,
      if it is sound. */
  lemma TeardownCallbacks(s: State, reactions: seq<seq<Msg>>)
    ensures var t, q := Teardown(s, reactions), Answered(s.queue, reactions);
            && t.queue == [] && t.outstanding == None && |t.done| == |s.done| + |q| && s.done <= t.done
            && t.submitted == s.submitted + AddedDuring(|q|, reactions)
            && (forall i :: 0 <= i < |q| ==> t.done[|s.done| + i].outcome == SendError && t.done[|s.done| + i].msg == q[i])
    ensures TeardownAsWritten(s, reactions).Some? ==> TeardownAsWritten(s, reactions).value == Teardown(s, reactions)
  {
    TeardownAsWrittenIff(s, reactions);
  }

  /** As written it does the same exactly when at most one message is queued, and its callback sends none. */
  lemma TeardownAsWrittenIff(s: State, reactions: seq<seq<Msg>>)
    ensures TeardownAsWritten(s, reactions)
            == if DrainFaults(|s.queue|, reactions) then None else Some(Teardown(s, reactions))
  {
    DrainLoopIff(s.queue, reactions);
  }
}
