/**
 * Reading protocol descriptors from a stream of YAML events (`tapsParseYaml`,
 * src/taps_cfg.c): a machine with a nesting level, a pending key and an array it
 * fills in place.
 */
module YamlConfig {
  import opened Common
  import opened Abilities

  /** libyaml's events; `Other` is any the code skips. */
  datatype Event =
    | StreamStart | StreamEnd | DocumentStart | DocumentEnd
    | MappingStart | MappingEnd | SequenceStart | SequenceEnd
    | Scalar(value: string) | Other

  datatype Level = NONE | STREAM | DOCUMENT | MAPPING | SEQUENCE

  /** `tapsProtocol`; a string may be NULL. */
  datatype Entry = Entry(name: Option<string>, protocol: Option<string>, libpath: Option<string>, properties: Word)

  function Blank(): Entry {
    Entry(None, None, None, Zero())
  }

  datatype Status = Running | Finished | Failed

  /** got_name, got_path, got_proto. */
  datatype Got = Got(name: bool, path: bool, proto: bool)

  datatype State = State(
    level: Level,
    key: Option<string>,
    got: Got,
    slots: seq<Entry>,  // the caller's array
    n: nat,             // descriptors finished; the slot being written
    status: Status)

  function Start(slots: seq<Entry>): State {
    State(NONE, None, Got(false, false, false), slots, 0, Running)
  }

  // ----- one event -----

  function Fail(s: State): State {
    State(s.level, s.key, s.got, s.slots, s.n, Failed)
  }

  function AtLevel(s: State, l: Level): State {
    State(l, s.key, s.got, s.slots, s.n, s.status)
  }

  /** The current slot and what is known about it change. */
  function Write(s: State, key: Option<string>, got: Got, e: Entry): State
    requires s.n < |s.slots|
  {
    State(s.level, key, got, s.slots[s.n := e], s.n, s.status)
  }

  function WithAbility(e: Entry, name: string): Entry {
    if Position(name) < COUNT then e.(properties := Or(e.properties, Mask(Position(name)))) else e
  }

  /** The keys the parser knows. */
  const KEYS: seq<string> := ["properties", "name", "protocol", "libpath"]
  const PROPERTIES: nat := 0
  const NAME: nat := 1
  const PROTOCOL: nat := 2
  const LIBPATH: nat := 3

  function KeyOf(key: string): (r: nat)
    ensures r <= |KEYS| && (r < |KEYS| ==> KEYS[r] == key)
    ensures r == |KEYS| <==> key !in KEYS
  {
    Find(KEYS, key, 0)
  }

  lemma KeyOfKeys(k: nat)
    requires k < |KEYS|
    ensures KeyOf(KEYS[k]) == k
  {
  }

  lemma KeyAt(key: string, k: nat)
    requires k < |KEYS|
    ensures KeyOf(key) == k <==> key == KEYS[k]
  {
    KeyOfKeys(k);
  }

  lemma KeysAre(key: string)
    ensures KeyOf(key) == PROPERTIES <==> key == "properties"
    ensures KeyOf(key) == NAME <==> key == "name"
    ensures KeyOf(key) == PROTOCOL <==> key == "protocol"
    ensures KeyOf(key) == LIBPATH <==> key == "libpath"
  {
    KeyAt(key, PROPERTIES);
    KeyAt(key, NAME);
    KeyAt(key, PROTOCOL);
    KeyAt(key, LIBPATH);
  }

  /** A scalar with a key pending: its value. Under "properties" the key stays. */
  function Value(s: State, key: nat, value: string): State
    requires s.n < |s.slots|
  {
    var e := s.slots[s.n];
    if key == PROPERTIES then Write(s, s.key, s.got, WithAbility(e, value))
    else if key == NAME then Write(s, None, s.got.(name := true), e.(name := Some(value)))
    else if key == PROTOCOL then Write(s, None, s.got.(proto := true), e.(protocol := Some(value)))
    else if key == LIBPATH then Write(s, None, s.got.(path := true), e.(libpath := Some(value)))
    else Write(s, None, s.got, e)
  }

  function Step(s: State, e: Event): State
    requires s.n < |s.slots|
  {
    match e
    case StreamStart => if s.level == NONE then AtLevel(s, STREAM) else Fail(s)
    case StreamEnd => if s.level == STREAM then State(NONE, s.key, s.got, s.slots, s.n, Finished) else Fail(s)
    case DocumentStart =>
      if s.level == STREAM then AtLevel(Write(s, s.key, Got(false, false, false), Blank()), DOCUMENT) else Fail(s)
    case DocumentEnd =>
      if s.level == DOCUMENT && s.got == Got(true, true, true)
      then State(STREAM, s.key, s.got, s.slots, s.n + 1, if s.n + 1 == |s.slots| then Finished else Running)
      else Fail(s)
    case MappingStart => if s.level == DOCUMENT then AtLevel(s, MAPPING) else Fail(s)
    case MappingEnd => if s.level == MAPPING then AtLevel(s, DOCUMENT) else Fail(s)
    case SequenceStart => if s.level == MAPPING then AtLevel(s, SEQUENCE) else Fail(s)
    case SequenceEnd => if s.level == SEQUENCE then State(MAPPING, None, s.got, s.slots, s.n, s.status) else Fail(s)
    case Scalar(v) =>
      if s.key.None? then State(s.level, Some(v), s.got, s.slots, s.n, s.status)
      else Value(s, KeyOf(s.key.value), v)
    case Other => s
  }

  /** All events up to the one that ends the parse. */
  function Steps(s: State, es: seq<Event>): State
    requires s.status == Running ==> s.n < |s.slots|
    decreases |es|
  {
    if s.status != Running || es == [] then s else Steps(Step(s, es[0]), es[1..])
  }

  /** The whole parse: events that run out are a parser failure. */
  function Parse(slots: seq<Entry>, es: seq<Event>): State
    requires slots != []
  {
    var s := Steps(Start(slots), es);
    if s.status == Running then Fail(s) else s
  }

  /** What `tapsParseYaml` returns. (The `fail` label frees strings first; see Cleanups.) */
  function Result(s: State): nat {
    if s.status == Finished then s.n else 0
  }

  lemma StepStaysInArray(s: State, e: Event)
    requires s.status == Running && s.n < |s.slots|
    ensures var t := Step(s, e);
            && |t.slots| == |s.slots| && (t.status == Running ==> t.n < |t.slots|)
            && (forall i :: 0 <= i < |s.slots| && i != s.n ==> t.slots[i] == s.slots[i])
  {
    match e {
      case Scalar(v) => assert s.key.Some? ==> |Value(s, KeyOf(s.key.value), v).slots| == |s.slots|;
      case _ =>
    }
  }

  lemma {:induction false} StepsStayInArray(s: State, es: seq<Event>)
    requires s.status == Running ==> s.n < |s.slots|
    ensures var t := Steps(s, es);
            && |t.slots| == |s.slots| && (t.status == Running ==> t.n < |t.slots|)
            && s.n <= t.n <= (if s.n <= |s.slots| then |s.slots| else s.n)
            && (forall i :: 0 <= i < s.n && i < |s.slots| ==> t.slots[i] == s.slots[i])
    decreases |es|
  {
    if s.status == Running && es != [] {
      StepStaysInArray(s, es[0]);
      StepsStayInArray(Step(s, es[0]), es[1..]);
    }
  }

  lemma {:induction false} StepsAppend(s: State, a: seq<Event>, b: seq<Event>)
    requires s.status == Running ==> s.n < |s.slots|
    ensures var t := Steps(s, a); (t.status == Running ==> t.n < |t.slots|) && Steps(s, a + b) == Steps(t, b)
    decreases |a|
  {
    StepsStayInArray(s, a);
    if a == [] {
      assert a + b == b;
    } else if s.status == Running {
      StepStaysInArray(s, a[0]);
      StepsAppend(Step(s, a[0]), a[1..], b);
      assert (a + b)[1..] == a[1..] + b;
    }
  }

  lemma OneStep(s: State, e: Event)
    requires s.status == Running && s.n < |s.slots|
    ensures Steps(s, [e]) == Step(s, e)
  {
    var t := Step(s, e);
    StepStaysInArray(s, e);
    assert [e][1..] == [];
    assert Steps(t, []) == t;
  }

  // ----- the loop -----

  /** The `YAML_SCALAR_EVENT` case, on the slot being written. */
  method ScalarCase(field: string, pending: Option<string>, slot: Entry, ghost s: State)
    returns (key: Option<string>, entry: Entry, name: bool, proto: bool, path: bool)
    requires s.status == Running && s.n < |s.slots| && s.slots[s.n] == slot && s.key == pending
    ensures Step(s, Scalar(field)) ==
            Write(s, key, Got(s.got.name || name, s.got.path || path, s.got.proto || proto), entry)
  {
    key, entry, name, proto, path := None, slot, false, false, false;
    assert s.slots[s.n := slot] == s.slots;
    if pending == None {
      return Some(field), slot, false, false, false;
    }
    if pending.value == KEYS[PROPERTIES] {
      var i := IndexOf(field);
      if i < COUNT {
        entry := slot.(properties := Or(slot.properties, Mask(i)));
      }
      return pending, entry, false, false, false;
    }
    if pending.value == KEYS[NAME] {
      entry, name := slot.(name := Some(field)), true;
    } else if pending.value == KEYS[PROTOCOL] {
      entry, proto := slot.(protocol := Some(field)), true;
    } else if pending.value == KEYS[LIBPATH] {
      entry, path := slot.(libpath := Some(field)), true;
    }
  }

  /** The STATE_MUST_BE checks: the level each event needs and the one it leads to. */
  method LevelCase(event: Event, level: Level) returns (ok: bool, next: Level)
    requires !event.Scalar? && !event.Other?
    ensures ok <==> level == Needs(event)
    ensures ok ==> next == LeadsTo(event)
  {
    match event {
      case StreamStart => ok, next := level == NONE, STREAM;
      case StreamEnd => ok, next := level == STREAM, NONE;
      case DocumentStart => ok, next := level == STREAM, DOCUMENT;
      case DocumentEnd => ok, next := level == DOCUMENT, STREAM;
      case MappingStart => ok, next := level == DOCUMENT, MAPPING;
      case MappingEnd => ok, next := level == MAPPING, DOCUMENT;
      case SequenceStart => ok, next := level == MAPPING, SEQUENCE;
      case SequenceEnd => ok, next := level == SEQUENCE, MAPPING;
    }
  }

  function Needs(e: Event): Level
    requires !e.Scalar? && !e.Other?
  {
    match e
    case StreamStart => NONE
    case StreamEnd | DocumentStart => STREAM
    case DocumentEnd | MappingStart => DOCUMENT
    case MappingEnd | SequenceStart => MAPPING
    case SequenceEnd => SEQUENCE
  }

  function LeadsTo(e: Event): Level
    requires !e.Scalar? && !e.Other?
  {
    match e
    case StreamEnd => NONE
    case StreamStart | DocumentEnd => STREAM
    case DocumentStart | MappingEnd => DOCUMENT
    case MappingStart | SequenceEnd => MAPPING
    case SequenceStart => SEQUENCE
  }

  /** The `switch`: one event, writing at most the slot at `at`. `stop` says that the parse is over. */
  method Switch(event: Event, protocol: array<Entry>, at: nat, space: nat,
                level: Level, key: Option<string>, got: Got, numProtos: nat, ghost s: State)
    returns (level': Level, key': Option<string>, got': Got, numProtos': nat, stop: bool, failed: bool)
    requires at < protocol.Length && numProtos < |s.slots| == space
    requires s == State(level, key, got, s.slots, numProtos, Running) && s.slots[numProtos] == protocol[at]
    modifies protocol
    ensures forall k :: 0 <= k < protocol.Length && k != at ==> protocol[k] == old(protocol[k])
    ensures failed <==> Step(s, event).status == Failed
    ensures failed ==> protocol[at] == old(protocol[at])
    ensures !failed ==>
              Step(s, event) == State(level', key', got', s.slots[numProtos := protocol[at]], numProtos',
                                      if stop then Finished else Running)
  {
    assert s.slots[numProtos := protocol[at]] == s.slots;
    level', key', got', numProtos', stop, failed := level, key, got, numProtos, false, false;
    if event.Scalar? {
      var entry, name, proto, path;
      key', entry, name, proto, path := ScalarCase(event.value, key, protocol[at], s);
      protocol[at] := entry;
      got' := Got(got.name || name, got.path || path, got.proto || proto);
      return;
    }
    if event.Other? {
      return;
    }
    var ok;
    ok, level' := LevelCase(event, level);
    if !ok {
      failed := true;
      return;
    }
    if event == StreamEnd {
      stop := true;
    } else if event == DocumentStart {
      protocol[at] := Blank();
      got' := Got(false, false, false);
    } else if event == DocumentEnd {
      if !got.name || !got.path || !got.proto {
        failed := true;
        return;
      }
      numProtos' := numProtos + 1;
      stop := numProtos' == space;
    } else if event == SequenceEnd {
      key' := None;
    }
  }

  /**
   * `tapsParseYaml` up to its labels: the event loop, writing the array in
   * place from `base` on. `failed` says that it went to `fail`.
   */
  method ParseYaml(events: seq<Event>, protocol: array<Entry>, base: nat, space: nat)
    returns (numProtos: nat, failed: bool)
    requires 0 < space && base + space <= protocol.Length
    modifies protocol
    ensures var s := Parse(old(protocol[base..base + space]), events);
            && |s.slots| == space
            && (forall k :: 0 <= k < protocol.Length ==>
                  protocol[k] == if base <= k < base + space then s.slots[k - base] else old(protocol[k]))
            && failed == (s.status == Failed) && numProtos == Result(s)
  {
    var level, key, got, i := NONE, None, Got(false, false, false), 0;
    numProtos, failed := 0, false;
    ghost var s := Start(protocol[base..base + space]);
    ghost var goal := Steps(s, events);
    while i < |events|
      invariant 0 <= i <= |events| && numProtos < space == |s.slots|
      invariant s == State(level, key, got, s.slots, numProtos, Running)
      invariant forall k :: 0 <= k < protocol.Length ==>
                  protocol[k] == if base <= k < base + space then s.slots[k - base] else old(protocol[k])
      invariant Steps(s, events[i..]) == goal
    {
      assert events[i..][0] == events[i] && events[i..][1..] == events[i + 1..];
      var stop, fail, n;
      StepStaysInArray(s, events[i]);
      ghost var t := Step(s, events[i]);
      assert Steps(t, events[i + 1..]) == goal;
      level, key, got, n, stop, fail :=
        Switch(events[i], protocol, base + numProtos, space, level, key, got, numProtos, s);
      s := t;
      if fail {
        return 0, true;
      }
      numProtos := n;
      if stop {
        return numProtos, false;
      }
      i := i + 1;
    }
    return 0, true;
  }

  // ----- discipline -----

  function Order(l: Level): nat {
    match l case NONE => 0 case STREAM => 1 case DOCUMENT => 2 case MAPPING => 3 case SEQUENCE => 4
  }

  predicate Opens(e: Event) {
    e.StreamStart? || e.DocumentStart? || e.MappingStart? || e.SequenceStart?
  }

  predicate Closes(e: Event) {
    e.StreamEnd? || e.DocumentEnd? || e.MappingEnd? || e.SequenceEnd?
  }

  /** How many openings a sequence of events leaves open. */
  function Depth(es: seq<Event>): int {
    if es == [] then 0
    else Depth(es[..|es| - 1]) + (if Opens(es[|es| - 1]) then 1 else if Closes(es[|es| - 1]) then -1 else 0)
  }

  /** The one depth at which an opening or closing event belongs: stream, document, mapping, sequence from the outside. */
  predicate Placed(e: Event, depth: int) {
    match e
    case StreamStart => depth == 0
    case DocumentStart => depth == 1
    case MappingStart => depth == 2
    case SequenceStart => depth == 3
    case StreamEnd => depth == 1
    case DocumentEnd => depth == 2
    case MappingEnd => depth == 3
    case SequenceEnd => depth == 4
    case _ => true
  }

  function Has(e: Entry): Got {
    Got(e.name.Some?, e.libpath.Some?, e.protocol.Some?)
  }

  predicate Complete(e: Entry) {
    e.name.Some? && e.protocol.Some? && e.libpath.Some?
  }

  /** The level is the depth; every finished descriptor is complete; and inside a document the flags say which strings the
      current one has. */
  ghost predicate Disciplined(s: State, es: seq<Event>) {
    && s.status == Running && s.n < |s.slots|
    && Order(s.level) == Depth(es)
    && (forall i :: 0 <= i < s.n ==> Complete(s.slots[i]))
    && (Order(s.level) >= 2 ==>
          s.got == Has(s.slots[s.n]))
  }

  lemma ValueEffect(s: State, key: nat, v: string)
    requires s.n < |s.slots|
    ensures var t := Value(s, key, v);
            && t == Write(s, t.key, t.got, t.slots[s.n])
            && (s.got == Has(s.slots[s.n]) ==> t.got == Has(t.slots[s.n]))
  {
  }

  lemma ScalarIsDisciplined(s: State, es: seq<Event>, v: string)
    requires Disciplined(s, es)
    ensures Disciplined(Step(s, Scalar(v)), es + [Scalar(v)])
  {
    assert (es + [Scalar(v)])[..|es|] == es;
    if s.key.Some? {
      ValueEffect(s, KeyOf(s.key.value), v);
    }
  }

  lemma StructureIsDisciplined(s: State, es: seq<Event>, e: Event)
    requires Disciplined(s, es) && !e.Scalar?
    ensures var t := Step(s, e);
            && (t.status == Failed <==> !Placed(e, Depth(es)) || (e == DocumentEnd && !Complete(s.slots[s.n])))
            && (t.status == Running ==> Disciplined(t, es + [e]))
            && (t.status == Finished ==> forall i :: 0 <= i < t.n <= |t.slots| ==> Complete(t.slots[i]))
  {
    assert (es + [e])[..|es|] == es;
  }

  lemma StepIsDisciplined(s: State, es: seq<Event>, e: Event)
    requires Disciplined(s, es)
    ensures var t := Step(s, e);
            && (t.status == Failed <==> !Placed(e, Depth(es)) || (e == DocumentEnd && !Complete(s.slots[s.n])))
            && (t.status == Running ==> Disciplined(t, es + [e]))
            && (t.status == Finished ==> forall i :: 0 <= i < t.n <= |t.slots| ==> Complete(t.slots[i]))
  {
    match e {
      case Scalar(v) => ScalarIsDisciplined(s, es, v);
      case _ => StructureIsDisciplined(s, es, e);
    }
  }

  lemma {:induction false} RunningIsDisciplined(slots: seq<Entry>, es: seq<Event>)
    requires slots != [] && Steps(Start(slots), es).status == Running
    ensures Disciplined(Steps(Start(slots), es), es)
    decreases |es|
  {
    if es != [] {
      var front, e := es[..|es| - 1], es[|es| - 1];
      assert es == front + [e];
      StepsAppend(Start(slots), front, [e]);
      var s := Steps(Start(slots), front);
      if s.status == Running {
        OneStep(s, e);
        RunningIsDisciplined(slots, front);
        StepIsDisciplined(s, front, e);
      }
    }
  }

  /**
   * On every event sequence: while the parse runs, the level is the nesting
   * depth, the slot being written is in the array and all finished descriptors
   * have their three strings; and the next event is rejected exactly when it is
   * out of place, or ends a document that lacks one of the three.
   */
  lemma RejectedIff(slots: seq<Entry>, es: seq<Event>, e: Event)
    requires slots != [] && Steps(Start(slots), es).status == Running
    ensures var s := Steps(Start(slots), es);
            && Disciplined(s, es)
            && (Step(s, e).status == Failed <==>
                  || !Placed(e, Depth(es))
                  || (e == DocumentEnd
                      && !(var d := s.slots[s.n]; d.name.Some? && d.protocol.Some? && d.libpath.Some?)))
  {
    RunningIsDisciplined(slots, es);
    StepIsDisciplined(Steps(Start(slots), es), es, e);
  }

  /** What an accepted event other than a scalar does: only a document's start touches the array, and blanks its slot; only
      a document's end moves on to the next; only a sequence's end drops the pending key; those the parser skips do nothing
      at all. */
  lemma StructureEffect(s: State, e: Event)
    requires s.status == Running && s.n < |s.slots| && !e.Scalar? && Step(s, e).status != Failed
    ensures var t := Step(s, e);
            && t.slots == (if e == DocumentStart then s.slots[s.n := Entry(None, None, None, Zero())] else s.slots)
            && t.n == (if e == DocumentEnd then s.n + 1 else s.n)
            && t.key == (if e == SequenceEnd then None else s.key)
            && (e == Other ==> t == s)
            && (t.status == Finished <==> e == StreamEnd || (e == DocumentEnd && s.n + 1 == |s.slots|))
  {
  }

  /** Wherever they come, events the parser skips make no difference. */
  lemma SkippedEventsDoNotMatter(slots: seq<Entry>, a: seq<Event>, b: seq<Event>)
    requires slots != []
    ensures Parse(slots, a + [Other] + b) == Parse(slots, a + b)
  {
    var s := Steps(Start(slots), a);
    StepsStayInArray(Start(slots), a);
    StepsAppend(Start(slots), a + [Other], b);
    StepsAppend(Start(slots), a, [Other]);
    StepsAppend(Start(slots), a, b);
    if s.status == Running {
      OneStep(s, Other);
    }
  }

  lemma {:induction false} StepsToEnd(slots: seq<Entry>, es: seq<Event>) returns (k: nat)
    requires slots != [] && Steps(Start(slots), es).status != Running
    ensures k < |es| && Steps(Start(slots), es[..k]).status == Running
    ensures Steps(Start(slots), es[..k]).n < |slots| == |Steps(Start(slots), es[..k]).slots|
    ensures Steps(Start(slots), es) == Step(Steps(Start(slots), es[..k]), es[k])
    decreases |es|
  {
    var front, e := es[..|es| - 1], es[|es| - 1];
    assert es == front + [e];
    StepsAppend(Start(slots), front, [e]);
    StepsStayInArray(Start(slots), front);
    var s := Steps(Start(slots), front);
    if s.status == Running {
      OneStep(s, e);
      k := |front|;
      assert es[..k] == front;
    } else {
      k := StepsToEnd(slots, front);
      assert es[..k] == front[..k];
    }
  }

  /** Whatever the events, every descriptor returned has a name, a protocol and a library, and there are at most as many
      as the array holds. */
  lemma ReturnedAreComplete(slots: seq<Entry>, es: seq<Event>)
    requires slots != []
    ensures var s := Parse(slots, es);
            && |s.slots| == |slots| && Result(s) <= |slots|
            && forall i :: 0 <= i < Result(s) ==>
                 s.slots[i].name.Some? && s.slots[i].protocol.Some? && s.slots[i].libpath.Some?
  {
    StepsStayInArray(Start(slots), es);
    if Steps(Start(slots), es).status == Finished {
      var k := StepsToEnd(slots, es);
      RunningIsDisciplined(slots, es[..k]);
      StepIsDisciplined(Steps(Start(slots), es[..k]), es[..k], es[k]);
    }
  }

  // ----- round trip -----

  /** A field of a document; `Unknown` has a key the parser does not know. */
  datatype Field =
    | Name(value: string) | Protocol(value: string) | Libpath(value: string)
    | Abilities(names: seq<string>)
    | Unknown(key: string, value: string)

  predicate WellFormed(f: Field) {
    f.Unknown? ==> f.key !in KEYS
  }

  function Scalars(names: seq<string>): seq<Event> {
    if names == [] then [] else [Scalar(names[0])] + Scalars(names[1..])
  }

  function RenderField(f: Field): seq<Event> {
    match f
    case Name(v) => [Scalar(KEYS[NAME]), Scalar(v)]
    case Protocol(v) => [Scalar(KEYS[PROTOCOL]), Scalar(v)]
    case Libpath(v) => [Scalar(KEYS[LIBPATH]), Scalar(v)]
    case Abilities(names) => [Scalar(KEYS[PROPERTIES]), SequenceStart] + Scalars(names) + [SequenceEnd]
    case Unknown(key, v) => [Scalar(key), Scalar(v)]
  }

  function RenderFields(fs: seq<Field>): seq<Event> {
    if fs == [] then [] else RenderField(fs[0]) + RenderFields(fs[1..])
  }

  /** A document as kernel.yaml has them: one mapping. */
  function RenderDocument(fs: seq<Field>): seq<Event> {
    [DocumentStart, MappingStart] + RenderFields(fs) + [MappingEnd, DocumentEnd]
  }

  function RenderDocuments(docs: seq<seq<Field>>): seq<Event> {
    if docs == [] then [] else RenderDocument(docs[0]) + RenderDocuments(docs[1..])
  }

  function RenderFile(docs: seq<seq<Field>>): seq<Event> {
    [StreamStart] + RenderDocuments(docs) + [StreamEnd]
  }

  function AddAbilities(e: Entry, names: seq<string>): Entry
    decreases |names|
  {
    if names == [] then e else AddAbilities(WithAbility(e, names[0]), names[1..])
  }

  /** What a field means. */
  function Apply(e: Entry, f: Field): Entry {
    match f
    case Name(v) => e.(name := Some(v))
    case Protocol(v) => e.(protocol := Some(v))
    case Libpath(v) => e.(libpath := Some(v))
    case Abilities(names) => AddAbilities(e, names)
    case Unknown(_, _) => e
  }

  function ApplyAll(e: Entry, fs: seq<Field>): Entry
    decreases |fs|
  {
    if fs == [] then e else ApplyAll(Apply(e, fs[0]), fs[1..])
  }

  /** What a document describes. */
  function EntryOf(fs: seq<Field>): Entry {
    ApplyAll(Blank(), fs)
  }

  /** The machine inside a mapping, between fields. */
  ghost predicate BetweenFields(s: State) {
    s.status == Running && s.n < |s.slots| && s.level == MAPPING && s.key == None
    && s.got == Has(s.slots[s.n])
  }

  /** The same machine with another entry in the current slot. */
  function Holding(s: State, e: Entry): State
    requires s.n < |s.slots|
  {
    Write(s, s.key, Has(e), e)
  }

  lemma TwoSteps(s: State, a: Event, b: Event)
    requires s.status == Running && s.n < |s.slots| && Step(s, a).status == Running
    ensures Step(s, a).n < |Step(s, a).slots| && Steps(s, [a, b]) == Step(Step(s, a), b)
  {
    StepsAppend(s, [a], [b]);
    assert [a] + [b] == [a, b];
    OneStep(s, a);
    OneStep(Step(s, a), b);
  }

  lemma TwoScalars(s: State, key: string, v: string)
    requires s.status == Running && s.n < |s.slots| && s.key == None
    ensures Steps(s, [Scalar(key), Scalar(v)]) ==
            Value(State(s.level, Some(key), s.got, s.slots, s.n, s.status), KeyOf(key), v)
  {
    TwoSteps(s, Scalar(key), Scalar(v));
  }

  /**
   * What each key means: in any running state with no key pending, a key and a
   * value set that string of the current entry, or add that ability, and
   * change nothing else; an unknown key changes nothing at all.
   */
  lemma KeyMeaning(s: State, key: string, v: string)
    requires s.status == Running && s.n < |s.slots| && s.key == None
    ensures var t, e := Steps(s, [Scalar(key), Scalar(v)]), s.slots[s.n];
            && (key == "name" ==>
                  t == State(s.level, None, Got(true, s.got.path, s.got.proto),
                             s.slots[s.n := Entry(Some(v), e.protocol, e.libpath, e.properties)], s.n, Running))
            && (key == "protocol" ==>
                  t == State(s.level, None, Got(s.got.name, s.got.path, true),
                             s.slots[s.n := Entry(e.name, Some(v), e.libpath, e.properties)], s.n, Running))
            && (key == "libpath" ==>
                  t == State(s.level, None, Got(s.got.name, true, s.got.proto),
                             s.slots[s.n := Entry(e.name, e.protocol, Some(v), e.properties)], s.n, Running))
            && (key == "properties" ==>
                  t == State(s.level, Some("properties"), s.got,
                             s.slots[s.n := Entry(e.name, e.protocol, e.libpath, Listed(e.properties, v))], s.n, Running))
            && (key != "name" && key != "protocol" && key != "libpath" && key != "properties" ==> t == s)
  {
    TwoScalars(s, key, v);
    KeysAre(key);
    assert s.slots[s.n := s.slots[s.n]] == s.slots;
    assert WithAbility(s.slots[s.n], v).properties == Listed(s.slots[s.n].properties, v);
  }

  /** The word with the ability of that name, if it is one. */
  function Listed(w: Word, name: string): Word {
    seq(COUNT, i requires 0 <= i < COUNT => w[i] || Position(name) == i)
  }

  lemma AbilityStep(s: State, name: string)
    requires s.status == Running && s.n < |s.slots| && s.key == Some(KEYS[PROPERTIES])
    ensures Step(s, Scalar(name)) == Write(s, s.key, s.got, WithAbility(s.slots[s.n], name))
  {
    var key := KeyOf(s.key.value);
    assert key == PROPERTIES by {
      KeyOfKeys(PROPERTIES);
    }
    assert Step(s, Scalar(name)) == Value(s, key, name);
  }

  lemma {:induction false} ScalarsAddAbilities(s: State, names: seq<string>)
    requires s.status == Running && s.n < |s.slots| && s.key == Some(KEYS[PROPERTIES])
    ensures Steps(s, Scalars(names)) == Write(s, s.key, s.got, AddAbilities(s.slots[s.n], names))
    decreases |names|
  {
    if names == [] {
      assert s.slots[s.n := s.slots[s.n]] == s.slots;
    } else {
      var t := Write(s, s.key, s.got, WithAbility(s.slots[s.n], names[0]));
      AbilityStep(s, names[0]);
      OneStep(s, Scalar(names[0]));
      StepsAppend(s, [Scalar(names[0])], Scalars(names[1..]));
      ScalarsAddAbilities(t, names[1..]);
    }
  }

  lemma {:induction false} AbilitiesKeepStrings(e: Entry, names: seq<string>)
    ensures var r := AddAbilities(e, names); r.name == e.name && r.protocol == e.protocol && r.libpath == e.libpath
    decreases |names|
  {
    if names != [] {
      AbilitiesKeepStrings(WithAbility(e, names[0]), names[1..]);
    }
  }

  /** The same machine inside the list of abilities. */
  function Listing(s: State): State {
    State(SEQUENCE, Some(KEYS[PROPERTIES]), s.got, s.slots, s.n, s.status)
  }

  lemma OpenAbilities(s: State)
    requires BetweenFields(s)
    ensures Steps(s, [Scalar(KEYS[PROPERTIES]), SequenceStart]) == Listing(s)
  {
    TwoSteps(s, Scalar(KEYS[PROPERTIES]), SequenceStart);
  }

  lemma CloseAbilities(s: State, names: seq<string>)
    requires BetweenFields(s)
    ensures var e := AddAbilities(s.slots[s.n], names);
            Steps(Write(Listing(s), Listing(s).key, s.got, e), [SequenceEnd]) == Holding(s, e)
  {
    AbilitiesKeepStrings(s.slots[s.n], names);
    OneStep(Write(Listing(s), Listing(s).key, s.got, AddAbilities(s.slots[s.n], names)), SequenceEnd);
  }

  lemma ThreeParts(s: State, a: seq<Event>, b: seq<Event>, c: seq<Event>)
    requires s.status == Running ==> s.n < |s.slots|
    ensures var t := Steps(s, a);
            && (t.status == Running ==> t.n < |t.slots|)
            && var u := Steps(t, b);
               (u.status == Running ==> u.n < |u.slots|) && Steps(s, a + b + c) == Steps(u, c)
  {
    StepsAppend(s, a + b, c);
    StepsAppend(s, a, b);
    StepsStayInArray(Steps(s, a), b);
  }

  lemma AbilitiesFieldSteps(s: State, names: seq<string>)
    requires BetweenFields(s)
    ensures Steps(s, [Scalar(KEYS[PROPERTIES]), SequenceStart] + Scalars(names) + [SequenceEnd])
            == Holding(s, AddAbilities(s.slots[s.n], names))
  {
    ThreeParts(s, [Scalar(KEYS[PROPERTIES]), SequenceStart], Scalars(names), [SequenceEnd]);
    OpenAbilities(s);
    ScalarsAddAbilities(Listing(s), names);
    CloseAbilities(s, names);
  }

  lemma FieldSteps(s: State, f: Field)
    requires BetweenFields(s) && WellFormed(f)
    ensures Steps(s, RenderField(f)) == Holding(s, Apply(s.slots[s.n], f))
  {
    KeyOfKeys(NAME);
    KeyOfKeys(PROTOCOL);
    KeyOfKeys(LIBPATH);
    match f {
      case Abilities(names) => AbilitiesFieldSteps(s, names);
      case Unknown(key, v) =>
        TwoSteps(s, Scalar(key), Scalar(v));
        assert s.slots[s.n := s.slots[s.n]] == s.slots;
      case Name(v) => TwoSteps(s, Scalar(KEYS[NAME]), Scalar(v));
      case Protocol(v) => TwoSteps(s, Scalar(KEYS[PROTOCOL]), Scalar(v));
      case Libpath(v) => TwoSteps(s, Scalar(KEYS[LIBPATH]), Scalar(v));
    }
  }

  lemma {:induction false} FieldsSteps(s: State, fs: seq<Field>)
    requires BetweenFields(s) && forall i :: 0 <= i < |fs| ==> WellFormed(fs[i])
    ensures Steps(s, RenderFields(fs)) == Holding(s, ApplyAll(s.slots[s.n], fs))
    decreases |fs|
  {
    if fs == [] {
      assert s.slots[s.n := s.slots[s.n]] == s.slots;
    } else {
      StepsAppend(s, RenderField(fs[0]), RenderFields(fs[1..]));
      FieldSteps(s, fs[0]);
      var t := Holding(s, Apply(s.slots[s.n], fs[0]));
      FieldsSteps(t, fs[1..]);
    }
  }

  // Documents

  ghost predicate BetweenDocuments(s: State) {
    s.status == Running && s.n < |s.slots| && s.level == STREAM && s.key == None
  }

  /** After a complete document: its entry is in the slot, and the next slot is current, if there is one. */
  function Filed(s: State, e: Entry): State
    requires s.n < |s.slots|
  {
    State(s.level, s.key, Got(true, true, true), s.slots[s.n := e], s.n + 1,
          if s.n + 1 == |s.slots| then Finished else Running)
  }

  lemma OpenDocument(s: State)
    requires BetweenDocuments(s)
    ensures var t := Steps(s, [DocumentStart, MappingStart]);
            BetweenFields(t) && t == AtLevel(Holding(s, Blank()), MAPPING)
  {
    TwoSteps(s, DocumentStart, MappingStart);
  }

  lemma CloseDocument(s: State, e: Entry)
    requires BetweenDocuments(s)
    ensures var t := Steps(AtLevel(Holding(s, e), MAPPING), [MappingEnd, DocumentEnd]);
            t == if Complete(e) then Filed(s, e) else Fail(AtLevel(Holding(s, e), DOCUMENT))
  {
    TwoSteps(AtLevel(Holding(s, e), MAPPING), MappingEnd, DocumentEnd);
  }

  lemma DocumentSteps(s: State, fs: seq<Field>)
    requires BetweenDocuments(s) && forall i :: 0 <= i < |fs| ==> WellFormed(fs[i])
    ensures var t := Steps(s, RenderDocument(fs));
            t == if Complete(EntryOf(fs)) then Filed(s, EntryOf(fs)) else Fail(AtLevel(Holding(s, EntryOf(fs)), DOCUMENT))
  {
    ThreeParts(s, [DocumentStart, MappingStart], RenderFields(fs), [MappingEnd, DocumentEnd]);
    OpenDocument(s);
    var t := Steps(s, [DocumentStart, MappingStart]);
    assert t.slots[t.n] == Blank();
    FieldsSteps(t, fs);
    assert Holding(t, EntryOf(fs)) == AtLevel(Holding(s, EntryOf(fs)), MAPPING);
    CloseDocument(s, EntryOf(fs));
  }

  function Entries(docs: seq<seq<Field>>): (r: seq<Entry>)
    ensures |r| == |docs|
  {
    seq(|docs|, i requires 0 <= i < |docs| => EntryOf(docs[i]))
  }

  ghost predicate AllWellFormed(docs: seq<seq<Field>>) {
    forall i, j :: 0 <= i < |docs| && 0 <= j < |docs[i]| ==> WellFormed(docs[i][j])
  }

  /** The documents that fit are all complete. */
  ghost predicate CompleteUpTo(docs: seq<seq<Field>>, k: nat) {
    forall i :: 0 <= i < k && i < |docs| ==> Complete(EntryOf(docs[i]))
  }

  lemma CompleteFirst(docs: seq<seq<Field>>, k: nat)
    requires docs != [] && k > 0
    ensures CompleteUpTo(docs, k) <==> Complete(EntryOf(docs[0])) && CompleteUpTo(docs[1..], k - 1)
    ensures Entries(docs) == [EntryOf(docs[0])] + Entries(docs[1..])
  {
    if CompleteUpTo(docs, k) {
      forall i | 0 <= i < k - 1 && i < |docs[1..]|
        ensures Complete(EntryOf(docs[1..][i]))
      {
        assert docs[1..][i] == docs[i + 1];
      }
    } else if Complete(EntryOf(docs[0])) {
      var i :| 0 <= i < k && i < |docs| && !Complete(EntryOf(docs[i]));
      assert docs[1..][i - 1] == docs[i];
    }
  }

  /** What the events of some documents do to the machine between documents. */
  ghost predicate DocumentsDone(s: State, docs: seq<seq<Field>>, t: State)
    requires s.n < |s.slots|
  {
    var room := |s.slots| - s.n;
    if !CompleteUpTo(docs, room) then t.status == Failed
    else if |docs| < room then
      BetweenDocuments(t) && t.n == s.n + |docs| && t.slots == s.slots[..s.n] + Entries(docs) + s.slots[t.n..]
    else
      t.status == Finished && t.n == |s.slots| && t.slots == s.slots[..s.n] + Entries(docs)[..room]
  }

  lemma FiledThenDone(s: State, docs: seq<seq<Field>>, t: State)
    requires BetweenDocuments(s) && docs != [] && Complete(EntryOf(docs[0])) && s.n + 1 < |s.slots|
    requires DocumentsDone(Filed(s, EntryOf(docs[0])), docs[1..], t)
    ensures DocumentsDone(s, docs, t)
  {
    var s1 := Filed(s, EntryOf(docs[0]));
    CompleteFirst(docs, |s.slots| - s.n);
    assert s1.slots[..s1.n] == s.slots[..s.n] + [EntryOf(docs[0])];
    if t.status == Running {
      assert s1.slots[t.n..] == s.slots[t.n..];
    }
  }

  lemma {:induction false} DocumentsSteps(s: State, docs: seq<seq<Field>>)
    requires BetweenDocuments(s) && AllWellFormed(docs)
    ensures DocumentsDone(s, docs, Steps(s, RenderDocuments(docs)))
    decreases |docs|
  {
    if docs == [] {
      assert s.slots == s.slots[..s.n] + Entries(docs) + s.slots[s.n..];
    } else {
      var e, rest := EntryOf(docs[0]), docs[1..];
      StepsAppend(s, RenderDocument(docs[0]), RenderDocuments(rest));
      DocumentSteps(s, docs[0]);
      CompleteFirst(docs, |s.slots| - s.n);
      if Complete(e) {
        if s.n + 1 < |s.slots| {
          DocumentsSteps(Filed(s, e), rest);
          FiledThenDone(s, docs, Steps(s, RenderDocuments(docs)));
        } else {
          assert Entries(docs)[..1] == [e];
          assert s.slots[s.n := e] == s.slots[..s.n] + [e];
        }
      }
    }
  }

  /** How many documents are begun, if there is room: an incomplete one is the last. */
  function Begun(docs: seq<seq<Field>>): (r: nat)
    ensures r <= |docs|
  {
    if docs == [] then 0 else if Complete(EntryOf(docs[0])) then 1 + Begun(docs[1..]) else 1
  }

  function Min(a: nat, b: nat): nat {
    if a <= b then a else b
  }

  /** The first documents begun, as far as they fit, are in the slots from the current one on. */
  ghost predicate Written(s: State, docs: seq<seq<Field>>, t: State)
    requires s.n < |s.slots|
  {
    var m := Min(Begun(docs), |s.slots| - s.n);
    t.slots == s.slots[..s.n] + Entries(docs)[..m] + s.slots[s.n + m..]
  }

  lemma FiledThenWritten(s: State, docs: seq<seq<Field>>, t: State)
    requires BetweenDocuments(s) && docs != [] && Complete(EntryOf(docs[0])) && s.n + 1 < |s.slots|
    requires Written(Filed(s, EntryOf(docs[0])), docs[1..], t)
    ensures Written(s, docs, t)
  {
    var s1, m := Filed(s, EntryOf(docs[0])), Min(Begun(docs[1..]), |s.slots| - s.n - 1);
    assert s1.slots[..s1.n] == s.slots[..s.n] + [EntryOf(docs[0])];
    assert s1.slots[s1.n + m..] == s.slots[s1.n + m..];
    assert Entries(docs)[..m + 1] == [EntryOf(docs[0])] + Entries(docs[1..])[..m];
  }

  lemma {:induction false} DocumentsWrite(s: State, docs: seq<seq<Field>>)
    requires BetweenDocuments(s) && AllWellFormed(docs)
    ensures Written(s, docs, Steps(s, RenderDocuments(docs)))
    decreases |docs|
  {
    if docs == [] {
      assert s.slots == s.slots[..s.n] + Entries(docs)[..0] + s.slots[s.n..];
    } else {
      var e, rest := EntryOf(docs[0]), docs[1..];
      StepsAppend(s, RenderDocument(docs[0]), RenderDocuments(rest));
      DocumentSteps(s, docs[0]);
      if Complete(e) && s.n + 1 < |s.slots| {
        DocumentsWrite(Filed(s, e), rest);
        FiledThenWritten(s, docs, Steps(s, RenderDocuments(docs)));
      } else {
        assert Entries(docs)[..1] == [e];
        assert s.slots[s.n := e] == s.slots[..s.n] + [e] + s.slots[s.n + 1..];
      }
    }
  }

  lemma DocumentsDecide(slots: seq<Entry>, docs: seq<seq<Field>>) returns (t: State)
    requires slots != [] && AllWellFormed(docs)
    ensures var s, s1 := Parse(slots, RenderFile(docs)), AtLevel(Start(slots), STREAM);
            && DocumentsDone(s1, docs, t) && Written(s1, docs, t)
            && s.slots == t.slots && s.n == t.n && (s.status == Finished <==> t.status != Failed) && s.status != Running
  {
    var s1 := AtLevel(Start(slots), STREAM);
    ThreeParts(Start(slots), [StreamStart], RenderDocuments(docs), [StreamEnd]);
    OneStep(Start(slots), StreamStart);
    DocumentsSteps(s1, docs);
    DocumentsWrite(s1, docs);
    t := Steps(s1, RenderDocuments(docs));
    if t.status == Running {
      OneStep(t, StreamEnd);
    }
  }

  lemma NothingBefore<T>(q: seq<T>, x: seq<T>)
    ensures q[..0] + x == x
  {
  }

  lemma DoneFromFirst(s: State, docs: seq<seq<Field>>, t: State)
    requires s.n == 0 < |s.slots| && DocumentsDone(s, docs, t)
    ensures var k := Min(|docs|, |s.slots|);
            && (t.status != Failed <==> CompleteUpTo(docs, k))
            && (t.status != Failed ==> t.n == k && t.slots == Entries(docs)[..k] + s.slots[k..])
  {
    NothingBefore(s.slots, Entries(docs));
    NothingBefore(s.slots, Entries(docs)[..Min(|docs|, |s.slots|)]);
    assert CompleteUpTo(docs, Min(|docs|, |s.slots|)) <==> CompleteUpTo(docs, |s.slots|);
  }

  lemma WrittenFromFirst(s: State, docs: seq<seq<Field>>, t: State)
    requires s.n == 0 < |s.slots| && Written(s, docs, t)
    ensures var m := Min(Begun(docs), |s.slots|); t.slots == Entries(docs)[..m] + s.slots[m..]
  {
    NothingBefore(s.slots, Entries(docs)[..Min(Begun(docs), |s.slots|)]);
  }

  /**
   * The round trip. For any documents with their fields in any order, repeated
   * or unknown fields included, rendered as the event stream of a file: the
   * parse returns what the first documents that fit describe, in order, exactly
   * when each of those has its three strings; otherwise it fails. Either way
   * the documents begun are in the first slots, and the other slots are left
   * alone.
   */
  lemma ParseRendered(slots: seq<Entry>, docs: seq<seq<Field>>)
    requires slots != [] && AllWellFormed(docs)
    ensures var k, m := Min(|docs|, |slots|), Min(Begun(docs), |slots|);
            var s := Parse(slots, RenderFile(docs));
            && (s.status == Finished <==> CompleteUpTo(docs, k))
            && (s.status == Finished ==> Result(s) == k && s.slots == Entries(docs)[..k] + slots[k..])
            && s.slots == Entries(docs)[..m] + slots[m..]
  {
    var t := DocumentsDecide(slots, docs);
    DoneFromFirst(AtLevel(Start(slots), STREAM), docs, t);
    WrittenFromFirst(AtLevel(Start(slots), STREAM), docs, t);
  }

  // What the abilities of a document are

  ghost predicate Lists(fs: seq<Field>, i: nat)
    requires i < COUNT
  {
    exists k :: 0 <= k < |fs| && fs[k].Abilities? && NAMES[i] in fs[k].names
  }

  lemma {:induction false} AddedAbilities(e: Entry, names: seq<string>, i: nat)
    requires i < COUNT
    ensures AddAbilities(e, names).properties[i] <==> e.properties[i] || NAMES[i] in names
    decreases |names|
  {
    if names != [] {
      PositionOfName(i);
      AddedAbilities(WithAbility(e, names[0]), names[1..], i);
    }
  }

  lemma {:induction false} AppliedAbilities(e: Entry, fs: seq<Field>, i: nat)
    requires i < COUNT
    ensures ApplyAll(e, fs).properties[i] <==> e.properties[i] || Lists(fs, i)
    decreases |fs|
  {
    if fs != [] {
      AppliedAbilities(Apply(e, fs[0]), fs[1..], i);
      if fs[0].Abilities? {
        AddedAbilities(e, fs[0].names, i);
      }
      if Lists(fs[1..], i) {
        var k :| 0 <= k < |fs[1..]| && fs[1..][k].Abilities? && NAMES[i] in fs[1..][k].names;
        assert fs[k + 1] == fs[1..][k];
      }
      if Lists(fs, i) {
        var k :| 0 <= k < |fs| && fs[k].Abilities? && NAMES[i] in fs[k].names;
        assert k > 0 ==> fs[1..][k - 1] == fs[k];
      }
    }
  }

  /** A descriptor's word has exactly the abilities its document lists, in any order, repeated or not; names that are no
      abilities are passed over. */
  lemma AbilitiesAreThoseListed(fs: seq<Field>, i: nat)
    requires i < COUNT
    ensures EntryOf(fs).properties[i] <==> Lists(fs, i)
  {
    AppliedAbilities(Blank(), fs, i);
  }
}
