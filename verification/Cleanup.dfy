/**
 * The strings a parse allocates, and the loop at `fail` that gives them back
 * (`tapsParseYaml`, src/taps_cfg.c:163-179).
 *
 * The repair: the loop advances `toDelete`, frees `name` too, and looks at the
 * slots of finished descriptors and at that of a document under way, no others.
 */
module Cleanups {
  import opened Common
  import opened YamlConfig

  /** A string pointer of the array: `field` is NAME, PROTOCOL or LIBPATH. */
  datatype Place = Place(slot: nat, field: nat)

  /** The copy made for the n-th event, or something the caller's memory held before. */
  datatype Pointer = Copy(event: nat) | Leftover(id: int)

  /** The pointers that are not NULL. */
  type Table = map<Place, Pointer>

  predicate IsField(field: nat) {
    field == NAME || field == PROTOCOL || field == LIBPATH
  }

  // ----- what the parse does to the pointers -----

  function WithoutSlot(t: Table, slot: nat): Table {
    map p | p in t && p.slot != slot :: t[p]
  }

  /** `memset` at the start of a document; a copied scalar is stored under the keys for strings. */
  function Store(s: State, t: Table, number: nat, e: Event): Table {
    match e
    case DocumentStart => if s.level == STREAM then WithoutSlot(t, s.n) else t
    case Scalar(_) =>
      if s.key.Some? && IsField(KeyOf(s.key.value)) then t[Place(s.n, KeyOf(s.key.value)) := Copy(number)] else t
    case _ => t
  }

  function Track(s: State, t: Table, number: nat, es: seq<Event>): Table
    requires s.status == Running ==> s.n < |s.slots|
    decreases |es|
  {
    if s.status != Running || es == [] then t
    else Track(Step(s, es[0]), Store(s, t, number, es[0]), number + 1, es[1..])
  }

  /** A document is under way. */
  predicate Open(s: State) {
    Order(s.level) >= 2
  }

  /** Copies lie in the slots up to the current one, each in one place only; finished slots and that of a document under
      way hold nothing else. */
  ghost predicate Kept(n: nat, open: bool, t: Table, number: nat) {
    && (forall p :: p in t ==> IsField(p.field))
    && (forall p :: p in t && t[p].Copy? ==> t[p].event < number && p.slot <= n)
    && (forall p, q :: p in t && q in t && t[p] == t[q] && t[p].Copy? ==> p == q)
    && (forall p :: p in t && (p.slot < n || (p.slot == n && open)) ==> t[p].Copy?)
  }

  /** No copy was stored outside a document. */
  ghost predicate NoStray(n: nat, open: bool, t: Table) {
    !open ==> forall p :: p in t && p.slot == n ==> !t[p].Copy?
  }

  /** How the current slot moves. */
  lemma StepMoves(s: State, e: Event)
    requires s.status == Running && s.n < |s.slots| && Step(s, e).status != Finished
    ensures var u := Step(s, e);
            if e == DocumentEnd && u.status == Running then Open(s) && !Open(u) && u.n == s.n + 1
            else if e == DocumentStart && s.level == STREAM then Open(u) && u.n == s.n
            else Open(u) == Open(s) && u.n == s.n
  {
    if e.Scalar? && s.key.Some? {
      ValueEffect(s, KeyOf(s.key.value), e.value);
    }
  }

  lemma ScalarKeeps(n: nat, open: bool, t: Table, number: nat, field: nat)
    requires Kept(n, open, t, number) && IsField(field)
    ensures Kept(n, open, t[Place(n, field) := Copy(number)], number + 1)
    ensures open ==> NoStray(n, open, t[Place(n, field) := Copy(number)])
  {
  }

  lemma StartKeeps(n: nat, open: bool, t: Table, number: nat)
    requires Kept(n, open, t, number)
    ensures Kept(n, true, WithoutSlot(t, n), number + 1)
  {
  }

  lemma EndKeeps(n: nat, t: Table, number: nat)
    requires Kept(n, true, t, number)
    ensures Kept(n + 1, false, t, number + 1) && NoStray(n + 1, false, t)
  {
  }

  lemma StoreKeeps(s: State, t: Table, number: nat, e: Event)
    requires s.status == Running && s.n < |s.slots| && Kept(s.n, Open(s), t, number)
    ensures var u, t1 := Step(s, e), Store(s, t, number, e);
            u.status != Finished ==>
              && Kept(u.n, Open(u), t1, number + 1)
              && (NoStray(s.n, Open(s), t) && (e.Scalar? ==> Open(s)) ==> NoStray(u.n, Open(u), t1))
  {
    if Step(s, e).status != Finished {
      StepMoves(s, e);
      match e {
        case Scalar(_) =>
          if s.key.Some? && IsField(KeyOf(s.key.value)) {
            ScalarKeeps(s.n, Open(s), t, number, KeyOf(s.key.value));
          }
        case DocumentStart => StartKeeps(s.n, Open(s), t, number);
        case DocumentEnd =>
          if Open(s) {
            EndKeeps(s.n, t, number);
          }
        case _ =>
      }
    }
  }

  /** libyaml's scalars come inside documents. */
  ghost predicate ScalarsInside(before: seq<Event>, es: seq<Event>) {
    forall i :: 0 <= i < |es| && es[i].Scalar? ==> Depth(before + es[..i]) >= 2
  }

  lemma PrefixShift(before: seq<Event>, es: seq<Event>, i: nat)
    requires i < |es|
    ensures (before + [es[0]]) + es[1..][..i] == before + es[..i + 1]
  {
    var prefix := es[..i + 1];
    assert prefix == [es[0]] + es[1..][..i];
    assert (before + [es[0]]) + es[1..][..i] == before + ([es[0]] + es[1..][..i]);
  }

  lemma ScalarsInsideNext(before: seq<Event>, es: seq<Event>)
    requires es != [] && ScalarsInside(before, es)
    ensures es[0].Scalar? ==> Depth(before) >= 2
    ensures ScalarsInside(before + [es[0]], es[1..])
  {
    assert before + es[..0] == before;
    forall i | 0 <= i < |es[1..]| && es[1..][i].Scalar?
      ensures Depth((before + [es[0]]) + es[1..][..i]) >= 2
    {
      PrefixShift(before, es, i);
      assert es[i + 1].Scalar?;
    }
  }

  lemma {:induction false} TrackKeeps(s: State, before: seq<Event>, t: Table, number: nat, es: seq<Event>)
    requires Disciplined(s, before) && Kept(s.n, Open(s), t, number)
    ensures var u, t1 := Steps(s, es), Track(s, t, number, es);
            u.status != Finished ==>
              && Kept(u.n, Open(u), t1, number + |es|)
              && (NoStray(s.n, Open(s), t) && ScalarsInside(before, es) ==> NoStray(u.n, Open(u), t1))
    decreases |es|
  {
    if es != [] {
      var s1, t1 := Step(s, es[0]), Store(s, t, number, es[0]);
      StoreKeeps(s, t, number, es[0]);
      StepIsDisciplined(s, before, es[0]);
      if ScalarsInside(before, es) {
        ScalarsInsideNext(before, es);
      }
      if s1.status == Running {
        TrackKeeps(s1, before + [es[0]], t1, number + 1, es[1..]);
      }
    }
  }

  /** A pointer is NULL exactly when the entry has no such string. */
  ghost predicate Matches(slots: seq<Entry>, t: Table) {
    forall k :: 0 <= k < |slots| ==>
      && (slots[k].name.Some? <==> Place(k, NAME) in t)
      && (slots[k].protocol.Some? <==> Place(k, PROTOCOL) in t)
      && (slots[k].libpath.Some? <==> Place(k, LIBPATH) in t)
  }

  lemma ScalarMatches(s: State, t: Table, number: nat, v: string)
    requires s.status == Running && s.n < |s.slots| && Matches(s.slots, t)
    ensures Matches(Step(s, Scalar(v)).slots, Store(s, t, number, Scalar(v)))
  {
  }

  lemma StoreMatches(s: State, t: Table, number: nat, e: Event)
    requires s.status == Running && s.n < |s.slots| && Matches(s.slots, t)
    ensures Matches(Step(s, e).slots, Store(s, t, number, e))
  {
    match e {
      case Scalar(v) => ScalarMatches(s, t, number, v);
      case _ =>
    }
  }

  lemma {:induction false} TrackMatches(s: State, t: Table, number: nat, es: seq<Event>)
    requires (s.status == Running ==> s.n < |s.slots|) && Matches(s.slots, t)
    ensures Matches(Steps(s, es).slots, Track(s, t, number, es))
    decreases |es|
  {
    if s.status == Running && es != [] {
      StepStaysInArray(s, es[0]);
      StoreMatches(s, t, number, es[0]);
      TrackMatches(Step(s, es[0]), Store(s, t, number, es[0]), number + 1, es[1..]);
    }
  }

  /** The string of an entry that a pointer of field `field` is. */
  function FieldOf(e: Entry, field: nat): Option<string> {
    if field == NAME then e.name else if field == PROTOCOL then e.protocol else e.libpath
  }

  /** A copy holds the scalar it was made of, and that is the string its entry has there. */
  ghost predicate HoldsStrings(slots: seq<Entry>, es: seq<Event>, t: Table) {
    forall p :: p in t && t[p].Copy? ==>
      && IsField(p.field) && p.slot < |slots| && t[p].event < |es| && es[t[p].event].Scalar?
      && FieldOf(slots[p.slot], p.field) == Some(es[t[p].event].value)
  }

  lemma StoreHolds(s: State, before: seq<Event>, t: Table, e: Event)
    requires s.status == Running && s.n < |s.slots| && HoldsStrings(s.slots, before, t)
    ensures HoldsStrings(Step(s, e).slots, before + [e], Store(s, t, |before|, e))
  {
    match e {
      case Scalar(v) =>
        if s.key.Some? {
          ValueStores(s.slots[s.n], KeyOf(s.key.value), v, s);
        }
      case _ =>
    }
  }

  lemma ValueStores(e: Entry, key: nat, v: string, s: State)
    requires s.n < |s.slots| && s.slots[s.n] == e
    ensures var u := Value(s, key, v);
            && |u.slots| == |s.slots|
            && (forall i :: 0 <= i < |s.slots| && i != s.n ==> u.slots[i] == s.slots[i])
            && (forall field :: IsField(field) ==>
                  FieldOf(u.slots[s.n], field) == if field == key then Some(v) else FieldOf(e, field))
  {
  }

  lemma {:induction false} TrackHolds(s: State, before: seq<Event>, t: Table, es: seq<Event>)
    requires (s.status == Running ==> s.n < |s.slots|) && HoldsStrings(s.slots, before, t)
    ensures HoldsStrings(Steps(s, es).slots, before + es, Track(s, t, |before|, es))
    decreases |es|
  {
    if s.status == Running && es != [] {
      StepStaysInArray(s, es[0]);
      StoreHolds(s, before, t, es[0]);
      TrackHolds(Step(s, es[0]), before + [es[0]], Store(s, t, |before|, es[0]), es[1..]);
      assert (before + [es[0]]) + es[1..] == before + es;
    }
  }

  /** On every event sequence, each copy in the array is of the scalar whose value the entry has in that place. */
  lemma CopiesAreTheStrings(slots: seq<Entry>, left: Table, es: seq<Event>)
    requires slots != [] && forall p :: p in left ==> left[p].Leftover?
    ensures HoldsStrings(Parse(slots, es).slots, es, Track(Start(slots), left, 0, es))
  {
    TrackHolds(Start(slots), [], left, es);
    assert [] + es == es;
  }

  // ----- the loop -----

  /** What `free` is called with for a pointer that is checked first. */
  function At(t: Table, p: Place): seq<Pointer> {
    if p in t then [t[p]] else []
  }

  /** The loop's variables, as distances from the start of the array, and what has been freed. */
  datatype Loop = Loop(toDelete: nat, proto: nat, freed: seq<Pointer>)

  predicate Guard(c: Loop) {
    c.toDelete <= c.proto
  }

  /** A round as written: `proto` advances. */
  function Round(t: Table, c: Loop): Loop {
    Loop(c.toDelete, c.proto + 1,
         c.freed + (At(t, Place(c.toDelete, PROTOCOL)) + At(t, Place(c.toDelete, LIBPATH))))
  }

  function Rounds(t: Table, c: Loop, k: nat): Loop {
    if k == 0 then c else Round(t, Rounds(t, c, k - 1))
  }

  ghost predicate Distinct<T>(q: seq<T>) {
    forall i, j :: 0 <= i < j < |q| ==> q[i] != q[j]
  }

  function OfFirstSlot(t: Table): seq<Pointer> {
    At(t, Place(0, PROTOCOL)) + At(t, Place(0, LIBPATH))
  }

  lemma {:induction false} RoundsStayAtFirst(t: Table, n: nat, k: nat)
    ensures var c := Rounds(t, Loop(0, n, []), k);
            && c.toDelete == 0 && c.proto == n + k
            && (forall x :: x in c.freed <==> k > 0 && x in OfFirstSlot(t))
            && (k > 0 ==> c.freed == Rounds(t, Loop(0, n, []), k - 1).freed + OfFirstSlot(t))
  {
    if k > 0 {
      RoundsStayAtFirst(t, n, k - 1);
    }
  }

  lemma RoundsRepeat(t: Table, n: nat, k: nat)
    requires k >= 2
    ensures var c := Rounds(t, Loop(0, n, []), k);
            && (!Distinct(c.freed) <==> OfFirstSlot(t) != [])
            && (Distinct(c.freed) ==> c.freed == [])
  {
    var before, after := Rounds(t, Loop(0, n, []), k - 1).freed, Rounds(t, Loop(0, n, []), k).freed;
    RoundsStayAtFirst(t, n, k - 1);
    RoundsStayAtFirst(t, n, k);
    if OfFirstSlot(t) != [] {
      var x := OfFirstSlot(t)[0];
      assert x in before;
      var i :| 0 <= i < |before| && before[i] == x;
      assert after[i] == x && after[|before|] == x;
    }
  }

  /**
   * As written, after any failed parse: however many rounds have been made, the
   * loop goes on; from the second round on, some pointer has been freed twice
   * exactly when the first entry has a protocol or a library, and otherwise
   * nothing has been freed.
   */
  lemma FreesTwiceIff(slots: seq<Entry>, left: Table, es: seq<Event>, k: nat)
    requires slots != [] && Matches(slots, left) && k >= 2
    ensures var s, t := Parse(slots, es), Track(Start(slots), left, 0, es);
            var c := Rounds(t, Loop(0, s.n, []), k);
            && Guard(c) && |s.slots| == |slots|
            && (!Distinct(c.freed) <==> s.slots[0].protocol.Some? || s.slots[0].libpath.Some?)
            && (Distinct(c.freed) ==> c.freed == [])
  {
    var s, t := Parse(slots, es), Track(Start(slots), left, 0, es);
    TrackMatches(Start(slots), left, 0, es);
    StepsStayInArray(Start(slots), es);
    RoundsStayAtFirst(t, s.n, k);
    RoundsRepeat(t, s.n, k);
  }

  // ----- the loop, repaired -----

  /** What `free` is called with for these places. */
  function Freed(t: Table, ps: seq<Place>): seq<Pointer> {
    if ps == [] then [] else Freed(t, ps[..|ps| - 1]) + At(t, ps[|ps| - 1])
  }

  function PlacesOf(slot: nat): seq<Place> {
    [Place(slot, NAME), Place(slot, PROTOCOL), Place(slot, LIBPATH)]
  }

  function PlacesBelow(m: nat): seq<Place> {
    if m == 0 then [] else PlacesBelow(m - 1) + PlacesOf(m - 1)
  }

  lemma FreedNext(t: Table, ps: seq<Place>, p: Place)
    ensures Freed(t, ps + [p]) == Freed(t, ps) + At(t, p)
  {
    assert (ps + [p])[..|ps|] == ps;
  }

  lemma FreedNextSlot(t: Table, slot: nat)
    ensures Freed(t, PlacesBelow(slot + 1)) ==
            Freed(t, PlacesBelow(slot)) + At(t, Place(slot, NAME)) + At(t, Place(slot, PROTOCOL)) + At(t, Place(slot, LIBPATH))
  {
    var ps := PlacesBelow(slot);
    FreedNext(t, ps, Place(slot, NAME));
    FreedNext(t, ps + [Place(slot, NAME)], Place(slot, PROTOCOL));
    FreedNext(t, ps + [Place(slot, NAME)] + [Place(slot, PROTOCOL)], Place(slot, LIBPATH));
    assert PlacesBelow(slot + 1) == ps + [Place(slot, NAME)] + [Place(slot, PROTOCOL)] + [Place(slot, LIBPATH)];
  }

  method CleanUp(t: Table, n: nat, underWay: bool) returns (freed: seq<Pointer>)
    ensures freed == Freed(t, PlacesBelow(if underWay then n + 1 else n))
  {
    freed := [];
    for toDelete := 0 to if underWay then n + 1 else n
      invariant freed == Freed(t, PlacesBelow(toDelete))
    {
      FreedNextSlot(t, toDelete);
      if Place(toDelete, NAME) in t {
        freed := freed + [t[Place(toDelete, NAME)]];
      }
      if Place(toDelete, PROTOCOL) in t {
        freed := freed + [t[Place(toDelete, PROTOCOL)]];
      }
      if Place(toDelete, LIBPATH) in t {
        freed := freed + [t[Place(toDelete, LIBPATH)]];
      }
    }
  }

  lemma {:induction false} FreedAre(t: Table, ps: seq<Place>)
    ensures forall x :: x in Freed(t, ps) <==> exists p :: p in ps && p in t && t[p] == x
  {
    if ps != [] {
      FreedAre(t, ps[..|ps| - 1]);
      assert ps == ps[..|ps| - 1] + [ps[|ps| - 1]];
    }
  }

  lemma {:induction false} FreedDistinct(t: Table, ps: seq<Place>)
    requires Distinct(ps)
    requires forall p, q :: p in ps && q in ps && p in t && q in t && t[p] == t[q] ==> p == q
    ensures Distinct(Freed(t, ps))
  {
    if ps != [] {
      var front, last := ps[..|ps| - 1], ps[|ps| - 1];
      assert ps == front + [last] && last !in front;
      FreedDistinct(t, front);
      FreedAre(t, front);
      if last in t {
        assert t[last] !in Freed(t, front);
      }
    }
  }

  lemma {:induction false} PlacesBelowAre(m: nat)
    ensures Distinct(PlacesBelow(m))
    ensures forall p :: p in PlacesBelow(m) <==> p.slot < m && IsField(p.field)
  {
    if m > 0 {
      PlacesBelowAre(m - 1);
      var ps, new3 := PlacesBelow(m - 1), PlacesOf(m - 1);
      assert Distinct(new3) && forall p :: p in new3 <==> p.slot == m - 1 && IsField(p.field);
      assert PlacesBelow(m) == ps + new3;
    }
  }

  /** Before the parse the array may hold anything, but no copies. */
  ghost predicate Leftovers(t: Table) {
    forall p :: p in t ==> IsField(p.field) && t[p].Leftover?
  }

  /** What the repaired loop frees after the parse. */
  function FreedAfter(s: State, t: Table): seq<Pointer> {
    Freed(t, PlacesBelow(if Open(s) then s.n + 1 else s.n))
  }

  /** Every copy that is in the array has been freed. */
  ghost predicate AllFreed(s: State, t: Table) {
    forall p :: p in t && t[p].Copy? ==> t[p] in FreedAfter(s, t)
  }

  lemma FreedOfKept(s: State, t: Table, number: nat)
    requires Kept(s.n, Open(s), t, number)
    ensures var freed := FreedAfter(s, t);
            && Distinct(freed)
            && (forall x :: x in freed ==> x.Copy? && exists p :: p in t && t[p] == x)
            && (AllFreed(s, t) <==> NoStray(s.n, Open(s), t))
  {
    var m := if Open(s) then s.n + 1 else s.n;
    PlacesBelowAre(m);
    FreedDistinct(t, PlacesBelow(m));
    FreedAre(t, PlacesBelow(m));
  }

  /**
   * Repaired, after any failed parse: each pointer freed is a copy the parse
   * made and is freed once; and every copy in the array is freed, exactly when
   * none was stored in the current slot outside a document, which cannot
   * happen with libyaml.
   */
  lemma RepairFreesEachOnce(slots: seq<Entry>, left: Table, es: seq<Event>)
    requires slots != [] && Leftovers(left) && Parse(slots, es).status == Failed
    ensures var s, t := Parse(slots, es), Track(Start(slots), left, 0, es);
            && Distinct(FreedAfter(s, t))
            && (forall x :: x in FreedAfter(s, t) ==> x.Copy? && exists p :: p in t && t[p] == x)
            && (AllFreed(s, t) <==> NoStray(s.n, Open(s), t))
            && (ScalarsInside([], es) ==> NoStray(s.n, Open(s), t))
  {
    TrackKeeps(Start(slots), [], left, 0, es);
    FreedOfKept(Parse(slots, es), Track(Start(slots), left, 0, es), |es|);
  }
}
