/**
 * Transport properties (src/taps_transport_properties.c): four bit vectors that
 * together hold one preference for each ability.
 */
module TransportProperties {
  import opened Abilities

  datatype Preference = Require | Prefer | Ignore | Avoid | Prohibit
  datatype ConnectionType = Listener | Initiate | Rendezvous
  datatype Multipath = Disabled | Active | Passive
  datatype Direction = Bidir | UnidirSend | UnidirRecv

  const USE_TEMPORARY_LOCAL_ADDRESS: nat := 10
  const MULTIPATH: nat := 11
  const ADVERTISES_ALTADDR: nat := 12
  const DIRECTION: nat := 13

  datatype Properties = Properties(
    require: Word, prefer: Word, avoid: Word, prohibit: Word, explicitlySet: Word,
    multipath: Multipath, direction: Direction, advertisesAltaddr: bool)

  /** A call of one of the setters. */
  datatype Call =
    | Set(name: string, preference: Preference)
    | SetMultipath(multipath: Multipath)
    | SetDirection(direction: Direction)
    | SetAdvertisesAltaddr(on: bool)

  // ----- what the code does -----

  function Put(w: Word, i: nat, on: bool): Word
    requires i < COUNT
  {
    if on then Or(w, Mask(i)) else And(w, Not(Mask(i)))
  }

  function New(t: ConnectionType): Properties {
    var required := Or(Or(Or(Mask(0), Mask(3)), Or(Mask(6), Mask(7))), Mask(8));
    match t
    case Listener =>
      Properties(required, Or(Mask(5), Mask(MULTIPATH)), Mask(USE_TEMPORARY_LOCAL_ADDRESS), Zero(), Zero(),
                 Passive, Bidir, false)
    case Initiate =>
      Properties(required, Or(Mask(5), Mask(USE_TEMPORARY_LOCAL_ADDRESS)), Zero(), Zero(), Zero(), Disabled, Bidir, false)
    case Rendezvous =>
      Properties(required, Mask(5), Mask(USE_TEMPORARY_LOCAL_ADDRESS), Zero(), Zero(), Disabled, Bidir, false)
  }

  function SetAt(p: Properties, i: nat, preference: Preference): Properties
    requires i < COUNT
  {
    p.(require := Put(p.require, i, preference == Require),
       prefer := Put(p.prefer, i, preference == Prefer),
       avoid := Put(p.avoid, i, preference == Avoid),
       prohibit := Put(p.prohibit, i, preference == Prohibit),
       explicitlySet := Or(p.explicitlySet, Mask(i)))
  }

  /** The dedicated setters touch only the `prefer` vector. */
  function PreferAt(p: Properties, i: nat, on: bool): Properties
    requires i < COUNT
  {
    p.(prefer := Put(p.prefer, i, on), explicitlySet := Or(p.explicitlySet, Mask(i)))
  }

  function Step(p: Properties, c: Call): Properties {
    match c
    case Set(name, preference) => if Position(name) < COUNT then SetAt(p, Position(name), preference) else p
    case SetMultipath(m) => PreferAt(p, MULTIPATH, m != Disabled).(multipath := m)
    case SetDirection(d) => PreferAt(p, DIRECTION, d != Bidir).(direction := d)
    case SetAdvertisesAltaddr(on) => PreferAt(p, ADVERTISES_ALTADDR, on).(advertisesAltaddr := on)
  }

  function Run(p: Properties, cs: seq<Call>): Properties {
    if cs == [] then p else Step(Run(p, cs[..|cs| - 1]), cs[|cs| - 1])
  }

  // ----- what the vectors mean -----

  /** Ability `i` has preference `x` and no other. */
  ghost predicate Says(p: Properties, i: nat, x: Preference)
    requires i < COUNT
  {
    p.require[i] == (x == Require) && p.prefer[i] == (x == Prefer)
    && p.avoid[i] == (x == Avoid) && p.prohibit[i] == (x == Prohibit)
  }

  ghost predicate InOneVector(p: Properties, i: nat)
    requires i < COUNT
  {
    exists x :: Says(p, i, x)
  }

  /** No ability is in two vectors. */
  ghost predicate Disjoint(p: Properties) {
    forall i :: 0 <= i < COUNT ==> InOneVector(p, i)
  }

  /** The ability a call is about (COUNT for an unknown name), and the preference it gives it. */
  function Target(c: Call): (r: nat)
    ensures r <= COUNT
  {
    match c
    case Set(name, _) => Position(name)
    case SetMultipath(_) => MULTIPATH
    case SetDirection(_) => DIRECTION
    case SetAdvertisesAltaddr(_) => ADVERTISES_ALTADDR
  }

  function Written(c: Call): Preference {
    match c
    case Set(_, preference) => preference
    case SetMultipath(m) => if m == Disabled then Ignore else Prefer
    case SetDirection(d) => if d == Bidir then Ignore else Prefer
    case SetAdvertisesAltaddr(on) => if on then Prefer else Ignore
  }

  /** The defaults of section 6.2 of draft-ietf-taps-interface, as `tapsTransportPropertiesNew` reads them. */
  function Default(t: ConnectionType, i: nat): Preference {
    if i in {0, 3, 6, 7, 8} then Require
    else if i == 5 then Prefer
    else if i == USE_TEMPORARY_LOCAL_ADDRESS then (if t == Initiate then Prefer else Avoid)
    else if i == MULTIPATH && t == Listener then Prefer
    else Ignore
  }

  /** Last write wins. */
  function Wanted(t: ConnectionType, cs: seq<Call>, i: nat): Preference
    requires i < COUNT
  {
    if cs == [] then Default(t, i)
    else if Target(cs[|cs| - 1]) == i then Written(cs[|cs| - 1])
    else Wanted(t, cs[..|cs| - 1], i)
  }

  /** The last preference given by name, which is all that three of the vectors know. */
  function Named(t: ConnectionType, cs: seq<Call>, i: nat): Preference
    requires i < COUNT
  {
    if cs == [] then Default(t, i)
    else if cs[|cs| - 1].Set? && Target(cs[|cs| - 1]) == i then Written(cs[|cs| - 1])
    else Named(t, cs[..|cs| - 1], i)
  }

  /** The last call for ability `i` is to a setter of its own. */
  predicate SetByItself(cs: seq<Call>, i: nat) {
    cs != [] && if Target(cs[|cs| - 1]) == i then !cs[|cs| - 1].Set? else SetByItself(cs[..|cs| - 1], i)
  }

  /** That setter was called last, and left in place what the last call by name had put in another vector. */
  predicate Stale(t: ConnectionType, cs: seq<Call>, i: nat)
    requires i < COUNT
  {
    SetByItself(cs, i) && Named(t, cs, i) in {Require, Avoid, Prohibit}
  }

  /** The abilities that have a setter of their own. */
  predicate Dedicated(i: nat) {
    i == MULTIPATH || i == DIRECTION || i == ADVERTISES_ALTADDR
  }

  /** `Set` is used for the thirteen names the header lists for it, or for no name at all. */
  predicate Documented(c: Call) {
    c.Set? ==> !Dedicated(Target(c))
  }

  lemma DefaultsSay(t: ConnectionType, i: nat)
    requires i < COUNT
    ensures Says(New(t), i, Default(t, i)) && !New(t).explicitlySet[i]
  {
  }

  lemma SetBits(p: Properties, j: nat, preference: Preference, i: nat)
    requires i < COUNT && j < COUNT
    ensures var q := SetAt(p, j, preference);
            && q.require[i] == (if i == j then preference == Require else p.require[i])
            && q.prefer[i] == (if i == j then preference == Prefer else p.prefer[i])
            && q.avoid[i] == (if i == j then preference == Avoid else p.avoid[i])
            && q.prohibit[i] == (if i == j then preference == Prohibit else p.prohibit[i])
            && (q.explicitlySet[i] <==> p.explicitlySet[i] || i == j)
  {
  }

  lemma CallBits(p: Properties, c: Call, i: nat)
    requires i < COUNT
    ensures var q, named := Step(p, c), c.Set? && Target(c) == i;
            && q.require[i] == (if named then Written(c) == Require else p.require[i])
            && q.avoid[i] == (if named then Written(c) == Avoid else p.avoid[i])
            && q.prohibit[i] == (if named then Written(c) == Prohibit else p.prohibit[i])
            && q.prefer[i] == (if Target(c) == i then Written(c) == Prefer else p.prefer[i])
            && (q.explicitlySet[i] <==> p.explicitlySet[i] || Target(c) == i)
  {
    match c {
      case Set(name, preference) =>
        if Position(name) < COUNT {
          SetBits(p, Position(name), preference, i);
        }
      case _ =>
    }
  }

  /** The defaults, by name; nothing is explicitly set. */
  lemma DefaultsByName(t: ConnectionType, name: string)
    requires Position(name) < COUNT
    ensures Says(New(t), Position(name),
                 if name == "reliability" || name == "preserveOrder" || name == "FullChecksumSend"
                    || name == "FullChecksumRecv" || name == "congestionControl" then Require
                 else if name == "multistreaming" then Prefer
                 else if name == "useTemporaryLocalAddress" then (if t == Initiate then Prefer else Avoid)
                 else if name == "multipath" && t == Listener then Prefer
                 else Ignore)
    ensures !New(t).explicitlySet[Position(name)]
    ensures New(t).multipath == (if t == Listener then Passive else Disabled)
    ensures New(t).direction == Bidir && !New(t).advertisesAltaddr
  {
    NamesStandForBits(name);
    DefaultsSay(t, Position(name));
  }

  /** What the three setters store, and whether they prefer their abilities (multipath, direction, advertises_altaddr). */
  lemma OwnSetterEffect(p: Properties, m: Multipath, d: Direction, on: bool)
    ensures var q := Step(p, SetMultipath(m));
            && q.multipath == m && q.direction == p.direction && q.advertisesAltaddr == p.advertisesAltaddr
            && (q.prefer[11] <==> m == Active || m == Passive)
    ensures var q := Step(p, SetDirection(d));
            && q.direction == d && q.multipath == p.multipath && q.advertisesAltaddr == p.advertisesAltaddr
            && (q.prefer[13] <==> d == UnidirSend || d == UnidirRecv)
    ensures var q := Step(p, SetAdvertisesAltaddr(on));
            && q.advertisesAltaddr == on && q.multipath == p.multipath && q.direction == p.direction
            && (q.prefer[12] <==> on)
  {
  }

  /** The values given last to the three setters. */
  function LastMultipath(t: ConnectionType, cs: seq<Call>): Multipath {
    if cs == [] then (if t == Listener then Passive else Disabled)
    else if cs[|cs| - 1].SetMultipath? then cs[|cs| - 1].multipath else LastMultipath(t, cs[..|cs| - 1])
  }

  function LastDirection(cs: seq<Call>): Direction {
    if cs == [] then Bidir
    else if cs[|cs| - 1].SetDirection? then cs[|cs| - 1].direction else LastDirection(cs[..|cs| - 1])
  }

  function LastAltaddr(cs: seq<Call>): bool {
    cs != [] && if cs[|cs| - 1].SetAdvertisesAltaddr? then cs[|cs| - 1].on else LastAltaddr(cs[..|cs| - 1])
  }

  lemma {:induction false} StoredAreLast(t: ConnectionType, cs: seq<Call>)
    ensures var p := Run(New(t), cs);
            p.multipath == LastMultipath(t, cs) && p.direction == LastDirection(cs) && p.advertisesAltaddr == LastAltaddr(cs)
    decreases |cs|
  {
    if cs != [] {
      StoredAreLast(t, cs[..|cs| - 1]);
    }
  }

  /** One call, for the ability it is about and for all others. A dedicated setter leaves its ability with the preference
      it gives exactly when the ability is in none of the three vectors it does not touch. */
  lemma CallEffect(p: Properties, c: Call, i: nat)
    requires i < COUNT
    ensures Target(c) != i ==> forall x :: Says(Step(p, c), i, x) <==> Says(p, i, x)
    ensures Target(c) == i && c.Set? ==> Says(Step(p, c), i, Written(c))
    ensures Target(c) == i && !c.Set? ==>
              (Says(Step(p, c), i, Written(c)) <==> !p.require[i] && !p.avoid[i] && !p.prohibit[i])
    ensures Step(p, c).explicitlySet[i] <==> p.explicitlySet[i] || Target(c) == i
  {
    CallBits(p, c, i);
  }

  /** The failing family is not empty: a multipath once required stays required when multipath is disabled. */
  lemma DisabledMultipathStaysRequired(p: Properties)
    ensures Step(Step(p, Set(NAMES[MULTIPATH], Require)), SetMultipath(Disabled)).require[MULTIPATH]
  {
    PositionOfName(MULTIPATH);
    CallBits(p, Set(NAMES[MULTIPATH], Require), MULTIPATH);
  }

  /** What the vectors hold: three of them what was last named, `prefer` what was last written. */
  ghost predicate Holds(t: ConnectionType, cs: seq<Call>, i: nat)
    requires i < COUNT
  {
    var p, named := Run(New(t), cs), Named(t, cs, i);
    && p.require[i] == (named == Require) && p.avoid[i] == (named == Avoid) && p.prohibit[i] == (named == Prohibit)
    && p.prefer[i] == (Wanted(t, cs, i) == Prefer)
    && (p.explicitlySet[i] <==> Mentioned(cs, i))
    && (if SetByItself(cs, i) then Wanted(t, cs, i) in {Prefer, Ignore} else Wanted(t, cs, i) == named)
  }

  ghost predicate Mentioned(cs: seq<Call>, i: nat) {
    exists c :: c in cs && Target(c) == i
  }

  lemma MentionedLast(cs: seq<Call>, i: nat)
    requires cs != []
    ensures Mentioned(cs, i) <==> Mentioned(cs[..|cs| - 1], i) || Target(cs[|cs| - 1]) == i
  {
    assert cs == cs[..|cs| - 1] + [cs[|cs| - 1]];
  }

  lemma {:induction false} RunHolds(t: ConnectionType, cs: seq<Call>, i: nat)
    requires i < COUNT
    ensures Holds(t, cs, i)
    decreases |cs|
  {
    if cs == [] {
      DefaultsSay(t, i);
    } else {
      var front, c := cs[..|cs| - 1], cs[|cs| - 1];
      RunHolds(t, front, i);
      CallBits(Run(New(t), front), c, i);
      MentionedLast(cs, i);
    }
  }

  /**
   * After any calls at all, by name or not, documented or not: an ability has
   * the preference last written for it (or its default), and no other, exactly
   * unless its own setter was called last and it had been required, avoided or
   * prohibited by the last call that named it. It is then in two vectors
   * exactly if that setter preferred it. `explicitlySet` is always what was
   * written.
   */
  lemma LastWriteWinsIff(t: ConnectionType, cs: seq<Call>, i: nat)
    requires i < COUNT
    ensures Says(Run(New(t), cs), i, Wanted(t, cs, i)) <==> !Stale(t, cs, i)
    ensures InOneVector(Run(New(t), cs), i) <==> !(Stale(t, cs, i) && Wanted(t, cs, i) == Prefer)
    ensures Run(New(t), cs).explicitlySet[i] <==> Mentioned(cs, i)
  {
    RunHolds(t, cs, i);
    var p := Run(New(t), cs);
    assert Stale(t, cs, i) && Wanted(t, cs, i) != Prefer ==> Says(p, i, Named(t, cs, i));
    assert !Stale(t, cs, i) ==> Says(p, i, Wanted(t, cs, i));
  }

  /** What was last written, and what was last named, for the abilities without a setter of their own, is the same. */
  lemma {:induction false} OrdinaryIsNamed(t: ConnectionType, cs: seq<Call>, i: nat)
    requires i < COUNT && !Dedicated(i)
    ensures Named(t, cs, i) == Wanted(t, cs, i) && !SetByItself(cs, i)
    decreases |cs|
  {
    if cs != [] {
      OrdinaryIsNamed(t, cs[..|cs| - 1], i);
    }
  }

  /** So the thirteen abilities without a setter of their own always have the preference last written. */
  lemma OrdinaryAbilitiesEncodeLastWrites(t: ConnectionType, cs: seq<Call>, i: nat)
    requires i < COUNT && !Dedicated(i)
    ensures Says(Run(New(t), cs), i, Wanted(t, cs, i))
  {
    OrdinaryIsNamed(t, cs, i);
    LastWriteWinsIff(t, cs, i);
  }

  ghost predicate AllDocumented(cs: seq<Call>) {
    forall k :: 0 <= k < |cs| ==> Documented(cs[k])
  }

  lemma {:induction false} DocumentedNamesNone(t: ConnectionType, cs: seq<Call>, i: nat)
    requires i < COUNT && Dedicated(i) && AllDocumented(cs)
    ensures Named(t, cs, i) == Default(t, i)
    decreases |cs|
  {
    if cs != [] {
      DocumentedNamesNone(t, cs[..|cs| - 1], i);
    }
  }

  /**
   * After any sequence of documented setter calls, the four vectors are
   * disjoint and give every one of the sixteen abilities the preference last
   * written for it (or its default).
   */
  lemma VectorsEncodeLastWrites(t: ConnectionType, cs: seq<Call>)
    requires AllDocumented(cs)
    ensures Disjoint(Run(New(t), cs))
    ensures forall i :: 0 <= i < COUNT ==> Says(Run(New(t), cs), i, Wanted(t, cs, i))
  {
    forall i | 0 <= i < COUNT
      ensures Says(Run(New(t), cs), i, Wanted(t, cs, i)) && InOneVector(Run(New(t), cs), i)
    {
      LastWriteWinsIff(t, cs, i);
      if Dedicated(i) {
        DocumentedNamesNone(t, cs, i);
      } else {
        OrdinaryIsNamed(t, cs, i);
      }
    }
  }

  // ----- the struct -----

  class TransportPropertiesObject {
    var require: Word
    var prefer: Word
    var avoid: Word
    var prohibit: Word
    var explicitlySet: Word
    var multipath: Multipath
    var direction: Direction
    var advertisesAltaddr: bool

    function Value(): Properties
      reads this
    {
      Properties(require, prefer, avoid, prohibit, explicitlySet, multipath, direction, advertisesAltaddr)
    }

    /** `tapsTransportPropertiesNew`. */
    constructor (t: ConnectionType)
      ensures Value() == New(t)
    {
      require := Or(Or(Or(Mask(0), Mask(3)), Or(Mask(6), Mask(7))), Mask(8));
      var preferred, avoided, mode := Mask(5), Zero(), Disabled;
      match t {
        case Listener =>
          avoided := Mask(USE_TEMPORARY_LOCAL_ADDRESS);
          mode := Passive;
          preferred := Or(preferred, Mask(MULTIPATH));
        case Initiate => preferred := Or(preferred, Mask(USE_TEMPORARY_LOCAL_ADDRESS));
        case Rendezvous => avoided := Mask(USE_TEMPORARY_LOCAL_ADDRESS);
      }
      prefer, avoid, multipath := preferred, avoided, mode;
      prohibit, explicitlySet := Zero(), Zero();
      direction, advertisesAltaddr := Bidir, false;
    }

    /** `tapsTransportPropertiesSetMultipath`, `...SetDirection` and `...SetAdvertises_altaddr`. */
    method SetMultipath(preference: Multipath)
      modifies this
      ensures Value() == Step(old(Value()), Call.SetMultipath(preference))
    {
      multipath := preference;
      prefer := Put(prefer, MULTIPATH, preference != Disabled);
      explicitlySet := Or(explicitlySet, Mask(MULTIPATH));
    }

    method SetDirection(preference: Direction)
      modifies this
      ensures Value() == Step(old(Value()), Call.SetDirection(preference))
    {
      direction := preference;
      prefer := Put(prefer, DIRECTION, preference != Bidir);
      explicitlySet := Or(explicitlySet, Mask(DIRECTION));
    }

    method SetAdvertisesAltaddr(preference: bool)
      modifies this
      ensures Value() == Step(old(Value()), Call.SetAdvertisesAltaddr(preference))
    {
      advertisesAltaddr := preference;
      prefer := Put(prefer, ADVERTISES_ALTADDR, preference);
      explicitlySet := Or(explicitlySet, Mask(ADVERTISES_ALTADDR));
    }

    /** `tapsTransportPropertiesSet`: clear the bit everywhere, then set it where the preference says. */
    method Set(propertyName: string, preference: Preference) returns (ret: int)
      modifies this
      ensures ret == if propertyName in NAMES then 1 else 0
      ensures Value() == Step(old(Value()), Call.Set(propertyName, preference))
    {
      var i := IndexOf(propertyName);
      if i == COUNT {
        return 0;
      }
      var mask := Mask(i);
      require := And(require, Not(mask));
      prefer := And(prefer, Not(mask));
      avoid := And(avoid, Not(mask));
      prohibit := And(prohibit, Not(mask));
      explicitlySet := Or(explicitlySet, mask);
      match preference {
        case Require => require := Or(require, mask);
        case Prefer => prefer := Or(prefer, mask);
        case Avoid => avoid := Or(avoid, mask);
        case Prohibit => prohibit := Or(prohibit, mask);
        case Ignore =>
      }
      ClearThenSet(old(require), i);
      ClearThenSet(old(prefer), i);
      ClearThenSet(old(avoid), i);
      ClearThenSet(old(prohibit), i);
      return 1;
    }
  }

  lemma ClearThenSet(w: Word, i: nat)
    requires i < COUNT
    ensures Or(And(w, Not(Mask(i))), Mask(i)) == Or(w, Mask(i))
  {
    WordsEqualIff(Or(And(w, Not(Mask(i))), Mask(i)), Or(w, Mask(i)));
  }
}
