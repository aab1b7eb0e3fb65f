/**
 * Scatter/gather lists (`struct iovec` arrays) and the memory they describe.
 *
 * A list stands for the sequence of byte addresses it covers, in order.
 * Shortening a list from the front or from the back is `drop` or `take` on
 * that sequence, and a `readv` that fills a list writes along it.
 */
module ScatterList {
  newtype byte = x: int | 0 <= x < 256

  type Memory = seq<byte>

  /** One `struct iovec`: `len` bytes starting at address `base`. */
  datatype Iov = Iov(base: nat, len: nat)

  function Span(v: Iov): (r: seq<nat>)
    ensures |r| == v.len
  {
    seq(v.len, i requires 0 <= i < v.len => v.base + i)
  }

  function Total(vs: seq<Iov>): nat {
    if vs == [] then 0 else vs[0].len + Total(vs[1..])
  }

  /** The addresses a list covers, in the order `readv` fills them. */
  function Addrs(vs: seq<Iov>): (r: seq<nat>)
    ensures |r| == Total(vs)
  {
    if vs == [] then [] else Span(vs[0]) + Addrs(vs[1..])
  }

  // ----- leaving off the first bytes (_taps_trunc_iovec) -----

  /** The list that leaves off the first `len` bytes: whole entries go while more than one entry's worth remains,
      and the first survivor is advanced. It may start with an empty entry. */
  function DropVec(vs: seq<Iov>, len: nat): (r: seq<Iov>)
    requires |vs| > 0 && len <= Total(vs)
    ensures |r| > 0
  {
    assert Total(vs) == vs[0].len + Total(vs[1..]);
    if len > vs[0].len then DropVec(vs[1..], len - vs[0].len)
    else [Iov(vs[0].base + len, vs[0].len - len)] + vs[1..]
  }

  lemma {:induction false} DropVecAddrs(vs: seq<Iov>, len: nat)
    requires |vs| > 0 && len <= Total(vs)
    ensures Addrs(DropVec(vs, len)) == Addrs(vs)[len..]
    ensures Total(DropVec(vs, len)) == Total(vs) - len
    ensures |DropVec(vs, len)| <= |vs|
  {
    if len > vs[0].len {
      DropVecAddrs(vs[1..], len - vs[0].len);
    } else {
      assert DropVec(vs, len)[1..] == vs[1..];
      assert Span(Iov(vs[0].base + len, vs[0].len - len)) == Span(vs[0])[len..];
    }
  }

  /** Dropping `a` bytes and then `b` gives the very list that dropping `a + b` gives. */
  lemma {:induction false} DropVecCompose(vs: seq<Iov>, a: nat, b: nat)
    requires |vs| > 0 && a + b <= Total(vs)
    ensures Total(DropVec(vs, a)) == Total(vs) - a
    ensures DropVec(DropVec(vs, a), b) == DropVec(vs, a + b)
  {
    DropVecAddrs(vs, a);
    if a > vs[0].len {
      DropVecCompose(vs[1..], a - vs[0].len, b);
    } else {
      assert DropVec(vs, a)[1..] == vs[1..];
    }
  }

  /** What the C function does: hand back a fresh list, or read entries past the end of the one it was given. */
  datatype DropResult = Fresh(vec: seq<Iov>, iovcnt: nat) | ReadsPastEnd

  /**
   * `_taps_trunc_iovec`. Its exit for a list that is too short tests the
   * pointer `iovcnt`, not the count, so it is never taken: when `len` exceeds
   * the list the loop reads on past the last entry. That is exactly when.
   */
  method TruncIovec(orig: seq<Iov>, len: nat) returns (r: DropResult)
    ensures r.Fresh? <==> |orig| > 0 && len <= Total(orig)
    ensures r.Fresh? ==> r.vec == DropVec(orig, len) && r.iovcnt == |r.vec|
  {
    var remaining, ptr, iovcnt := len, 0, |orig|;
    while ptr < |orig| && remaining > orig[ptr].len
      invariant 0 <= ptr <= |orig| && 0 <= remaining && iovcnt == |orig| - ptr
      invariant ptr < |orig| && remaining <= Total(orig[ptr..]) <==> |orig| > 0 && len <= Total(orig)
      invariant ptr < |orig| && remaining <= Total(orig[ptr..]) ==> DropVec(orig[ptr..], remaining) == DropVec(orig, len)
      decreases |orig| - ptr
    {
      assert orig[ptr..][1..] == orig[ptr + 1..];
      iovcnt := iovcnt - 1;
      remaining := remaining - orig[ptr].len;
      ptr := ptr + 1;
    }
    if ptr == |orig| {
      return ReadsPastEnd;
    }
    assert orig[ptr..][1..] == orig[ptr + 1..];
    return Fresh([Iov(orig[ptr].base + remaining, orig[ptr].len - remaining)] + orig[ptr + 1..], iovcnt);
  }

  // ----- keeping the first bytes (tapsMessageTruncate) -----

  /** The list that keeps just the first `len` bytes. */
  function TakeVec(vs: seq<Iov>, len: nat): (r: seq<Iov>)
    requires |vs| > 0 && len <= Total(vs)
    ensures |r| > 0
  {
    assert Total(vs) == vs[0].len + Total(vs[1..]);
    if len > vs[0].len then [vs[0]] + TakeVec(vs[1..], len - vs[0].len) else [Iov(vs[0].base, len)]
  }

  lemma {:induction false} TakeVecAddrs(vs: seq<Iov>, len: nat)
    requires |vs| > 0 && len <= Total(vs)
    ensures Addrs(TakeVec(vs, len)) == Addrs(vs)[..len]
    ensures Total(TakeVec(vs, len)) == len
  {
    if len > vs[0].len {
      TakeVecAddrs(vs[1..], len - vs[0].len);
      assert TakeVec(vs, len)[1..] == TakeVec(vs[1..], len - vs[0].len);
    } else {
      assert Addrs([]) == [];
      assert Addrs(TakeVec(vs, len)) == Span(Iov(vs[0].base, len));
      assert Span(Iov(vs[0].base, len)) == Span(vs[0])[..len];
    }
  }

  /** Cutting a list at `len`: what truncation keeps followed by what dropping leaves is the whole list. */
  lemma SplitLaw(vs: seq<Iov>, len: nat)
    requires |vs| > 0 && len <= Total(vs)
    ensures Addrs(TakeVec(vs, len)) + Addrs(DropVec(vs, len)) == Addrs(vs)
  {
    TakeVecAddrs(vs, len);
    DropVecAddrs(vs, len);
  }

  /** A cut between two entries leaves an empty entry in front, and none behind. */
  lemma CutBetweenEntries()
    ensures Total([Iov(10, 2), Iov(90, 3)]) == 5
    ensures DropVec([Iov(10, 2), Iov(90, 3)], 2) == [Iov(12, 0), Iov(90, 3)]
    ensures TakeVec([Iov(10, 2), Iov(90, 3)], 2) == [Iov(10, 2)]
  {
    var vs := [Iov(10, 2), Iov(90, 3)];
    assert vs[1..] == [Iov(90, 3)] && [Iov(90, 3)][1..] == [];
    assert Total([Iov(90, 3)]) == 3 + Total([]);
  }

  // ----- memory -----

  ghost predicate InRange(mem: Memory, addrs: seq<nat>) {
    forall i :: 0 <= i < |addrs| ==> addrs[i] < |mem|
  }

  /** No byte of memory is covered twice. */
  ghost predicate NoOverlap(addrs: seq<nat>) {
    addrs == [] || (addrs[0] !in addrs[1..] && NoOverlap(addrs[1..]))
  }

  lemma {:induction false} NoOverlapAt(addrs: seq<nat>, c: nat)
    requires NoOverlap(addrs) && c <= |addrs|
    ensures NoOverlap(addrs[c..]) && forall i :: 0 <= i < c ==> addrs[i] !in addrs[c..]
    decreases c
  {
    if c == 0 {
      assert addrs[0..] == addrs;
    } else {
      var rest := addrs[1..];
      NoOverlapAt(rest, c - 1);
      assert rest[c - 1..] == addrs[c..];
      forall i | 0 <= i < c
        ensures addrs[i] !in addrs[c..]
      {
        if i > 0 {
          assert addrs[i] == rest[i - 1];
        }
      }
    }
  }

  ghost function View(mem: Memory, addrs: seq<nat>): (r: seq<byte>)
    requires InRange(mem, addrs)
    ensures |r| == |addrs|
  {
    seq(|addrs|, i requires 0 <= i < |addrs| => mem[addrs[i]])
  }

  /** The effect of `readv`: the bytes of `data` land along `addrs`, in order. */
  function Fill(mem: Memory, addrs: seq<nat>, data: seq<byte>): (r: Memory)
    requires InRange(mem, addrs)
    requires |data| <= |addrs|
    ensures |r| == |mem|
    decreases |data|
  {
    if data == [] then mem else Fill(mem[addrs[0] := data[0]], addrs[1..], data[1..])
  }

  lemma {:induction false} FillEffect(mem: Memory, addrs: seq<nat>, data: seq<byte>)
    requires InRange(mem, addrs) && NoOverlap(addrs) && |data| <= |addrs|
    ensures forall i :: 0 <= i < |data| ==> Fill(mem, addrs, data)[addrs[i]] == data[i]
    ensures forall a :: 0 <= a < |mem| && a !in addrs[..|data|] ==> Fill(mem, addrs, data)[a] == mem[a]
    decreases |data|
  {
    if data != [] {
      var mem', rest, tail := mem[addrs[0] := data[0]], addrs[1..], data[1..];
      FillEffect(mem', rest, tail);
      assert addrs[..|data|] == [addrs[0]] + rest[..|tail|];
      assert Fill(mem, addrs, data) == Fill(mem', rest, tail);
      assert addrs[0] !in rest;
      forall i | 0 <= i < |data|
        ensures Fill(mem, addrs, data)[addrs[i]] == data[i]
      {
        if i > 0 {
          assert addrs[i] == rest[i - 1] && data[i] == tail[i - 1];
        }
      }
    }
  }

  /** Filling the list that leaves off the first `c` addresses keeps those `c` bytes and appends the new ones. */
  lemma FillAppends(mem: Memory, addrs: seq<nat>, c: nat, data: seq<byte>)
    requires InRange(mem, addrs) && NoOverlap(addrs) && c + |data| <= |addrs|
    ensures InRange(mem, addrs[c..]) && InRange(mem, addrs[..c])
    ensures var mem' := Fill(mem, addrs[c..], data);
            InRange(mem', addrs[..c + |data|]) &&
            View(mem', addrs[..c + |data|]) == View(mem, addrs[..c]) + data
  {
    var mem' := Fill(mem, addrs[c..], data);
    NoOverlapAt(addrs, c);
    FillEffect(mem, addrs[c..], data);
    var got, want := View(mem', addrs[..c + |data|]), View(mem, addrs[..c]) + data;
    forall i | 0 <= i < c + |data|
      ensures got[i] == want[i]
    {
      if i < c {
        assert addrs[i] !in addrs[c..][..|data|];
      } else {
        assert addrs[i] == addrs[c..][i - c];
      }
    }
  }
}
