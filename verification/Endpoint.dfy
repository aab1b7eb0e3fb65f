/** Endpoint alias chains (src/taps_endpoint.c). */
module Endpoints {
  class Endpoint {
    var prevAlias: Endpoint?
    var nextAlias: Endpoint?

    constructor ()
      ensures prevAlias == null && nextAlias == null
      ensures Chain([this])
    {
      prevAlias, nextAlias := null, null;
    }
  }

  /** Neighbours in `s` point at each other. */
  ghost predicate Linked(s: seq<Endpoint>)
    reads s
  {
    && (forall i, j :: 0 <= i < j < |s| ==> s[i] != s[j])
    && (forall i {:trigger s[i].nextAlias} :: 0 <= i < |s| - 1 ==> s[i].nextAlias == s[i + 1])
    && (forall i {:trigger s[i].prevAlias} :: 0 < i < |s| ==> s[i].prevAlias == s[i - 1])
  }

  /** `s` is a whole chain of aliases: linked both ways, and ending at both ends. */
  ghost predicate Chain(s: seq<Endpoint>)
    reads s
  {
    |s| > 0 && Linked(s) && s[0].prevAlias == null && s[|s| - 1].nextAlias == null
  }

  /** `s` bites its own tail. */
  ghost predicate Ring(s: seq<Endpoint>)
    reads s
  {
    |s| > 0 && Linked(s) && s[0].prevAlias == s[|s| - 1] && s[|s| - 1].nextAlias == s[0]
  }

  lemma {:induction false} AgreeBefore(s: seq<Endpoint>, t: seq<Endpoint>, i: nat, j: nat)
    requires Chain(s) && Chain(t) && i < |s| && j < |t| && s[i] == t[j]
    ensures i == j && s[..i + 1] == t[..j + 1]
  {
    assert s[i].prevAlias == null <==> i == 0;
    if i > 0 {
      AgreeBefore(s, t, i - 1, j - 1);
    }
  }

  lemma {:induction false} AgreeAfter(s: seq<Endpoint>, t: seq<Endpoint>, i: nat, j: nat)
    requires Chain(s) && Chain(t) && i < |s| && j < |t| && s[i] == t[j]
    ensures s[i..] == t[j..]
    decreases |s| - i
  {
    assert s[i].nextAlias == null <==> i == |s| - 1;
    if i < |s| - 1 {
      AgreeAfter(s, t, i + 1, j + 1);
    }
  }

  /** An endpoint is in one chain only: two chains that share a member are the same chain. */
  lemma ChainsAreEqualOrDisjoint(s: seq<Endpoint>, t: seq<Endpoint>)
    requires Chain(s) && Chain(t)
    ensures s == t || forall i, j :: 0 <= i < |s| && 0 <= j < |t| ==> s[i] != t[j]
  {
    if i, j :| 0 <= i < |s| && 0 <= j < |t| && s[i] == t[j] {
      AgreeBefore(s, t, i, j);
      AgreeAfter(s, t, i, j);
      assert s == s[..i] + s[i..] && t == t[..j] + t[j..];
    }
  }

  /** No sequence of endpoints lies both in a ring and in a chain, so a ring is never well-formed. */
  lemma RingIsNoChain(r: seq<Endpoint>, s: seq<Endpoint>)
    requires Ring(r) && Chain(s)
    ensures r[0] !in s
  {
    if r[0] in s {
      var k :| 0 <= k < |s| && s[k] == r[0];
      RingWalk(r, s, k);
    }
  }

  lemma {:induction false} RingWalk(r: seq<Endpoint>, s: seq<Endpoint>, k: nat)
    requires Ring(r) && Chain(s) && k < |s| && s[k] in r
    ensures false
    decreases |s| - k
  {
    var i :| 0 <= i < |r| && r[i] == s[k];
    assert r[i].nextAlias == if i == |r| - 1 then r[0] else r[i + 1];
    if k < |s| - 1 {
      assert s[k].nextAlias == s[k + 1];
      RingWalk(r, s, k + 1);
    }
  }

  /**
   * `tapsAddAlias`. From `endp1` it walks to the end of its chain, from `endp2`
   * to the start of the other, both in one loop. Two chains become one; an
   * endpoint aliased with a member of its own chain closes that chain into a
   * ring, on which no later call could find an end.
   */
  method AddAlias(endp1: Endpoint, endp2: Endpoint, ghost s1: seq<Endpoint>, ghost s2: seq<Endpoint>)
    requires Chain(s1) && Chain(s2) && endp1 in s1 && endp2 in s2
    modifies s1[|s1| - 1], s2[0]
    ensures s1 != s2 ==> Chain(s1 + s2)
    ensures s1 == s2 ==> Ring(s1)
  {
    ChainsAreEqualOrDisjoint(s1, s2);
    ghost var i :| 0 <= i < |s1| && s1[i] == endp1;
    ghost var j :| 0 <= j < |s2| && s2[j] == endp2;
    var ep1, ep2 := endp1, endp2;
    while ep1.nextAlias != null || ep2.prevAlias != null
      invariant 0 <= i < |s1| && s1[i] == ep1
      invariant 0 <= j < |s2| && s2[j] == ep2
      decreases |s1| - i + j
    {
      assert ep1.nextAlias == null ==> i == |s1| - 1;
      assert ep2.prevAlias == null ==> j == 0;
      if ep1.nextAlias != null {
        assert i < |s1| - 1;
        ep1 := ep1.nextAlias;
        i := i + 1;
      }
      if ep2.prevAlias != null {
        assert j > 0;
        ep2 := ep2.prevAlias;
        j := j - 1;
      }
    }
    assert i == |s1| - 1 && j == 0;
    ep1.nextAlias := ep2;
    ep2.prevAlias := ep1;
    if s1 != s2 {
      ghost var s := s1 + s2;
      assert forall k {:trigger s[k]} :: 0 <= k < |s1| ==> s[k] == s1[k];
      assert forall k {:trigger s[k]} :: |s1| <= k < |s| ==> s[k] == s2[k - |s1|];
    }
  }

  /** An endpoint aliased within its own chain is left in no chain at all: the ring has no end to walk to. */
  method AliasOwnChain(e: Endpoint, ghost s: seq<Endpoint>)
    requires Chain(s) && e in s
    modifies s[|s| - 1], s[0]
    ensures Ring(s) && forall t :: Chain(t) ==> s[0] !in t
  {
    AddAlias(e, e, s, s);
    forall t: seq<Endpoint> | Chain(t)
      ensures s[0] !in t
    {
      RingIsNoChain(s, t);
    }
  }
}
