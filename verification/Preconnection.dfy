/** Choosing candidate protocols, and letting go of them (src/taps_preconnection.c). */
module Preconnections {
  import opened Abilities
  import opened YamlConfig
  import opened ItemQueue
  import T = TransportProperties

  const TAPS_MAX_PROTOCOL_CANDIDATES: nat := 256
  const TAPS_MAX_ENDPOINTS: nat := 8
  /** The size of the array `tapsUpdateProtocols` fills. */
  const DISCOVERED: nat := 255

  // ----- what a candidate is -----

  /** The test of the loop, on the words. */
  predicate Passes(e: Entry, require: Word, prohibit: Word) {
    And(e.properties, prohibit) == Zero() && And(e.properties, require) == require
  }

  /** What it means: every required ability, and no prohibited one. */
  lemma PassesIff(e: Entry, require: Word, prohibit: Word)
    ensures Passes(e, require, prohibit) <==>
            SetOf(require) <= SetOf(e.properties) && SetOf(e.properties) !! SetOf(prohibit)
  {
    CoversIff(e.properties, require);
    AvoidsIff(e.properties, prohibit);
  }

  /** Those that pass, in order. */
  function Passing(es: seq<Entry>, require: Word, prohibit: Word): (r: seq<Entry>)
    ensures |r| <= |es|
  {
    if es == [] then []
    else
      var front := Passing(es[..|es| - 1], require, prohibit);
      if Passes(es[|es| - 1], require, prohibit) then front + [es[|es| - 1]] else front
  }

  function Failing(es: seq<Entry>, require: Word, prohibit: Word): seq<Entry> {
    if es == [] then []
    else
      var front := Failing(es[..|es| - 1], require, prohibit);
      if Passes(es[|es| - 1], require, prohibit) then front else front + [es[|es| - 1]]
  }

  /** The candidates are exactly the descriptors that pass, each once and in the order of discovery: `at` says where each
      comes from. */
  lemma {:induction false} PassingIsSubsequence(es: seq<Entry>, require: Word, prohibit: Word) returns (at: seq<nat>)
    ensures |at| == |Passing(es, require, prohibit)|
    ensures forall k :: 0 <= k < |at| ==> at[k] < |es| && Passing(es, require, prohibit)[k] == es[at[k]]
    ensures forall j, k :: 0 <= j < k < |at| ==> at[j] < at[k]
    ensures forall i :: 0 <= i < |es| ==> (i in at <==> Passes(es[i], require, prohibit))
    decreases |es|
  {
    if es == [] {
      at := [];
    } else {
      var n := |es| - 1;
      at := PassingIsSubsequence(es[..n], require, prohibit);
      if Passes(es[n], require, prohibit) {
        at := at + [n];
      }
    }
  }

  /** Making more abilities required or prohibited only ever takes candidates away. */
  lemma {:induction false} StrongerKeepsSome(es: seq<Entry>, require: Word, prohibit: Word, require': Word, prohibit': Word)
    requires SetOf(require) <= SetOf(require') && SetOf(prohibit) <= SetOf(prohibit')
    ensures Passing(es, require', prohibit') == Passing(Passing(es, require, prohibit), require', prohibit')
    decreases |es|
  {
    if es != [] {
      var front, e := es[..|es| - 1], es[|es| - 1];
      StrongerKeepsSome(front, require, prohibit, require', prohibit');
      PassesIff(e, require, prohibit);
      PassesIff(e, require', prohibit');
      var some := Passing(front, require, prohibit);
      assert (some + [e])[..|some|] == some;
    }
  }

  /** Preferences that neither require nor prohibit do not matter: moving an ability among them changes no candidate. */
  lemma MildPreferencesDoNotMatter(es: seq<Entry>, p: T.Properties, i: nat, x: T.Preference)
    requires i < COUNT && !p.require[i] && !p.prohibit[i] && x != T.Require && x != T.Prohibit
    ensures var q := T.SetAt(p, i, x); Passing(es, q.require, q.prohibit) == Passing(es, p.require, p.prohibit)
  {
    var q := T.SetAt(p, i, x);
    WordsEqualIff(q.require, p.require);
    WordsEqualIff(q.prohibit, p.prohibit);
  }

  /** A descriptor has every ability required and none prohibited, by the preferences last named, and by those last
      written. */
  ghost predicate MeetsNamed(e: Entry, t: T.ConnectionType, cs: seq<T.Call>) {
    forall i :: 0 <= i < COUNT ==>
      && (T.Named(t, cs, i) == T.Require ==> e.properties[i]) && (T.Named(t, cs, i) == T.Prohibit ==> !e.properties[i])
  }

  ghost predicate MeetsWanted(e: Entry, t: T.ConnectionType, cs: seq<T.Call>) {
    forall i :: 0 <= i < COUNT ==>
      && (T.Wanted(t, cs, i) == T.Require ==> e.properties[i]) && (T.Wanted(t, cs, i) == T.Prohibit ==> !e.properties[i])
  }

  lemma PassesIffBits(e: Entry, require: Word, prohibit: Word)
    ensures Passes(e, require, prohibit) <==>
            forall i :: 0 <= i < COUNT ==> (require[i] ==> e.properties[i]) && (prohibit[i] ==> !e.properties[i])
  {
    PassesIff(e, require, prohibit);
    forall i | 0 <= i < COUNT
      ensures i in SetOf(require) <==> require[i]
      ensures i in SetOf(prohibit) <==> prohibit[i]
      ensures i in SetOf(e.properties) <==> e.properties[i]
    {
    }
  }

  /** From the setter calls straight to the candidates, after any calls at all: the preferences last named decide. */
  lemma PassesIffNamed(e: Entry, t: T.ConnectionType, cs: seq<T.Call>)
    ensures var p := T.Run(T.New(t), cs); Passes(e, p.require, p.prohibit) <==> MeetsNamed(e, t, cs)
  {
    var p := T.Run(T.New(t), cs);
    PassesIffBits(e, p.require, p.prohibit);
    forall i | 0 <= i < COUNT
      ensures p.require[i] == (T.Named(t, cs, i) == T.Require) && p.prohibit[i] == (T.Named(t, cs, i) == T.Prohibit)
    {
      T.RunHolds(t, cs, i);
    }
  }

  /** An ability that its own setter has set since still counts as required or prohibited. */
  ghost predicate Outlives(t: T.ConnectionType, cs: seq<T.Call>, i: nat)
    requires i < COUNT
  {
    T.Stale(t, cs, i) && T.Named(t, cs, i) != T.Avoid
  }

  function WithAbilities(w: Word): Entry {
    Blank().(properties := w)
  }

  lemma OutlivingDecides(t: T.ConnectionType, cs: seq<T.Call>, i: nat) returns (e: Entry)
    requires i < COUNT && Outlives(t, cs, i)
    ensures MeetsWanted(e, t, cs) && !MeetsNamed(e, t, cs)
  {
    var on := T.Named(t, cs, i) == T.Prohibit;
    e := WithAbilities(seq(COUNT, j requires 0 <= j < COUNT => if j == i then on else T.Named(t, cs, j) == T.Require));
    forall j | 0 <= j < COUNT
      ensures T.Wanted(t, cs, j) == T.Require ==> e.properties[j]
      ensures T.Wanted(t, cs, j) == T.Prohibit ==> !e.properties[j]
    {
      T.RunHolds(t, cs, j);
    }
  }

  /** The candidates are those with every ability last required and none last prohibited, whatever the descriptors, exactly
      when no ability's own setter was called after it was required or prohibited by name. */
  lemma PassesIffWanted(t: T.ConnectionType, cs: seq<T.Call>)
    ensures var p := T.Run(T.New(t), cs);
            (forall e: Entry :: Passes(e, p.require, p.prohibit) <==> MeetsWanted(e, t, cs))
            <==> (forall i :: 0 <= i < COUNT ==> !Outlives(t, cs, i))
  {
    var p := T.Run(T.New(t), cs);
    forall e: Entry
      ensures Passes(e, p.require, p.prohibit) <==> MeetsNamed(e, t, cs)
    {
      PassesIffNamed(e, t, cs);
    }
    if i :| 0 <= i < COUNT && Outlives(t, cs, i) {
      var e := OutlivingDecides(t, cs, i);
    } else {
      forall i | 0 <= i < COUNT
        ensures T.Named(t, cs, i) == T.Require <==> T.Wanted(t, cs, i) == T.Require
        ensures T.Named(t, cs, i) == T.Prohibit <==> T.Wanted(t, cs, i) == T.Prohibit
      {
        T.RunHolds(t, cs, i);
        assert !Outlives(t, cs, i);
      }
    }
  }

  lemma OneMore(all: seq<Entry>, e: seq<Entry>, a: seq<Entry>, b: seq<Entry>)
    requires multiset(a) + multiset(b) == multiset(all)
    ensures multiset(a + e) + multiset(b) == multiset(all + e)
    ensures multiset(a) + multiset(b + e) == multiset(all + e)
  {
    CountsAdd(all, e);
    CountsAdd(a, e);
    CountsAdd(b, e);
  }

  /** No descriptor is lost or used twice between the candidates and those let go. */
  lemma {:induction false} PassingAndFailing(es: seq<Entry>, require: Word, prohibit: Word)
    ensures multiset(Passing(es, require, prohibit)) + multiset(Failing(es, require, prohibit)) == multiset(es)
    decreases |es|
  {
    if es != [] {
      var front, last := es[..|es| - 1], [es[|es| - 1]];
      PassingAndFailing(front, require, prohibit);
      assert es == front + last;
      OneMore(front, last, Passing(front, require, prohibit), Failing(front, require, prohibit));
    }
  }

  // ----- the filter loop -----

  /** The candidate array, the count, the descriptors whose strings were freed, and whether a write went beside the
      array. */
  datatype Selection = Selection(list: seq<Entry>, count: int, freed: seq<Entry>, outside: bool)

  function SelectOne(s: Selection, e: Entry, require: Word, prohibit: Word): Selection {
    if s.outside then s
    else if !Passes(e, require, prohibit) || s.count == TAPS_MAX_PROTOCOL_CANDIDATES
    then Selection(s.list, s.count, s.freed + [e], false)
    else if 0 <= s.count < |s.list| then Selection(s.list[s.count := e], s.count + 1, s.freed, false)
    else Selection(s.list, s.count, s.freed, true)
  }

  function SelectAll(list: seq<Entry>, start: int, es: seq<Entry>, require: Word, prohibit: Word): Selection {
    if es == [] then Selection(list, start, [], false)
    else SelectOne(SelectAll(list, start, es[..|es| - 1], require, prohibit), es[|es| - 1], require, prohibit)
  }

  /** From a count of zero the loop leaves exactly the passing descriptors, and frees exactly the others. */
  lemma {:induction false} SelectFromZero(list: seq<Entry>, es: seq<Entry>, require: Word, prohibit: Word)
    requires |list| == TAPS_MAX_PROTOCOL_CANDIDATES && |es| <= DISCOVERED
    ensures var s, r := SelectAll(list, 0, es, require, prohibit), Passing(es, require, prohibit);
            && !s.outside && |s.list| == |list|
            && s.count == |r| && s.list[..|r|] == r
            && s.freed == Failing(es, require, prohibit)
    decreases |es|
  {
    if es != [] {
      SelectFromZero(list, es[..|es| - 1], require, prohibit);
    }
  }

  lemma {:induction false} SelectFromStale(list: seq<Entry>, start: int, es: seq<Entry>, require: Word, prohibit: Word)
    requires |list| == TAPS_MAX_PROTOCOL_CANDIDATES
    ensures var s, n := SelectAll(list, start, es, require, prohibit), |Passing(es, require, prohibit)|;
            && |s.list| == |list|
            && if 0 <= start <= |list| then !s.outside && s.count == (if start + n <= |list| then start + n else |list|)
               else s.count == start && (s.outside <==> n > 0)
    decreases |es|
  {
    if es != [] {
      SelectFromStale(list, start, es[..|es| - 1], require, prohibit);
    }
  }

  /**
   * `memset(pc, 0, sizeof(pc))` clears the size of a pointer, so the count
   * starts as whatever the memory held. The candidates are the passing
   * descriptors, whatever the array held, exactly when that is zero; and with
   * a descriptor passing, nothing is written beside the array exactly when it
   * is between 0 and 256.
   */
  lemma CandidatesIffCountStartsAtZero(list: seq<Entry>, start: int, es: seq<Entry>, require: Word, prohibit: Word)
    requires |list| == 256 && |es| <= 255
    ensures var s, r := SelectAll(list, start, es, require, prohibit), Passing(es, require, prohibit);
            && ((!s.outside && s.count == |r| && |r| <= |s.list| && s.list[..|r|] == r) <==> start == 0)
            && (r != [] ==> (s.outside <==> !(0 <= start <= 256)))
  {
    SelectFromStale(list, start, es, require, prohibit);
    SelectFromZero(list, es, require, prohibit);
  }

  // ----- the struct -----

  class Preconnection {
    const protocol: array<Entry>
    var numProtocols: int

    /** The malloc; `stale` is what the memory of the count held. */
    constructor (stale: int)
      ensures numProtocols == stale && fresh(protocol) && protocol.Length == TAPS_MAX_PROTOCOL_CANDIDATES
    {
      numProtocols := stale;
      protocol := new Entry[TAPS_MAX_PROTOCOL_CANDIDATES](_ => Blank());
    }

    /** The loop of `tapsPreconnectionNew`. */
    method Select(proto: seq<Entry>, require: Word, prohibit: Word) returns (freed: seq<Entry>, outside: bool)
      requires protocol.Length == TAPS_MAX_PROTOCOL_CANDIDATES
      modifies this, protocol
      ensures Selection(protocol[..], numProtocols, freed, outside)
              == SelectAll(old(protocol[..]), old(numProtocols), proto, require, prohibit)
    {
      freed, outside := [], false;
      var i := 0;
      ghost var list, start := protocol[..], numProtocols;
      while i < |proto|
        invariant 0 <= i <= |proto|
        invariant Selection(protocol[..], numProtocols, freed, outside)
                  == SelectAll(list, start, proto[..i], require, prohibit)
        invariant !outside
      {
        assert proto[..i + 1][..i] == proto[..i];
        if And(proto[i].properties, prohibit) != Zero() || And(proto[i].properties, require) != require
           || numProtocols == TAPS_MAX_PROTOCOL_CANDIDATES
        {
          freed := freed + [proto[i]];
        } else if 0 <= numProtocols < protocol.Length {
          protocol[numProtocols] := proto[i];
          numProtocols := numProtocols + 1;
        } else {
          OutsideStays(list, start, proto, i + 1, require, prohibit);
          return freed, true;
        }
        i := i + 1;
      }
      assert proto[..i] == proto;
    }

    /** The loop of `tapsPreconnectionFree`: every candidate's strings are freed, last first. */
    method Free() returns (freed: seq<Entry>)
      requires 0 <= numProtocols <= protocol.Length
      modifies this
      ensures numProtocols == 0 && freed == Reversed(protocol[..old(numProtocols)])
    {
      freed := [];
      ghost var all := protocol[..numProtocols];
      assert all[..numProtocols] == all;
      while numProtocols != 0
        invariant 0 <= numProtocols <= |all| && all == protocol[..|all|]
        invariant freed + Reversed(all[..numProtocols]) == Reversed(all)
        decreases numProtocols
      {
        assert all[..numProtocols][..numProtocols - 1] == all[..numProtocols - 1];
        freed := freed + [protocol[numProtocols - 1]];
        numProtocols := numProtocols - 1;
      }
      assert all[..|all|] == all;
    }
  }

  /** A write beside the array ends the model of the loop. */
  lemma {:induction false} OutsideStays(list: seq<Entry>, start: int, es: seq<Entry>, k: nat, require: Word, prohibit: Word)
    requires k <= |es| && SelectAll(list, start, es[..k], require, prohibit).outside
    ensures SelectAll(list, start, es, require, prohibit) == SelectAll(list, start, es[..k], require, prohibit)
    decreases |es|
  {
    if k < |es| {
      assert es[..|es| - 1][..k] == es[..k];
      OutsideStays(list, start, es[..|es| - 1], k, require, prohibit);
    } else {
      assert es[..k] == es;
    }
  }

  /**
   * `tapsPreconnectionNew` followed by `tapsPreconnectionFree`, with a count
   * that starts at zero: the preconnection is refused without a candidate, and
   * over its life every discovered descriptor is freed exactly once.
   */
  method NewThenFree(proto: seq<Entry>, require: Word, prohibit: Word, numLocal: nat, numRemote: nat)
    returns (created: bool, freed: seq<Entry>)
    requires |proto| <= 255
    ensures created <==> numLocal <= 8 && numRemote <= 8
                         && Passing(proto, require, prohibit) != []
    ensures numLocal <= 8 && numRemote <= 8 ==> multiset(freed) == multiset(proto)
  {
    if numLocal > TAPS_MAX_ENDPOINTS || numRemote > TAPS_MAX_ENDPOINTS {
      return false, [];
    }
    var pc := new Preconnection(0);
    SelectFromZero(pc.protocol[..], proto, require, prohibit);
    var rejected, outside := pc.Select(proto, require, prohibit);
    created := pc.numProtocols != 0;
    ghost var candidates := pc.protocol[..pc.numProtocols];
    var released := pc.Free();
    freed := rejected + released;
    PassingAndFailing(proto, require, prohibit);
    ReversedKeepsAll(candidates);
  }
}
