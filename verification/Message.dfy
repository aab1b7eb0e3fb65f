/** Messages: a view of application memory as one buffer or a list of them (src/taps_message.c). */
module Messages {
  import opened ScatterList

  /** What truncating a list leaves: its first `len` bytes, or nothing at all when the list is shorter than `len`. */
  function TruncatedVec(vs: seq<Iov>, len: nat): seq<Iov> {
    if |vs| > 0 && len <= Total(vs) then TakeVec(vs, len) else []
  }

  /**
   * Truncation means "at most the first `length` bytes stay in view". It does
   * that exactly when the message holds that many bytes (or none): asked for
   * more than there is, it empties the message instead of leaving it alone.
   */
  lemma TruncateKeepsPrefixIff(vs: seq<Iov>, len: nat)
    ensures Addrs(TruncatedVec(vs, len)) == Addrs(vs)[..if len <= Total(vs) then len else Total(vs)]
            <==> len <= Total(vs) || Total(vs) == 0
    ensures len > Total(vs) ==> Addrs(TruncatedVec(vs, len)) == []
  {
    if |vs| > 0 && len <= Total(vs) {
      TakeVecAddrs(vs, len);
    } else {
      assert Addrs([]) == [];
    }
  }

  /** The failing family is not empty: a 3-byte message truncated to 5 bytes loses all three. */
  lemma TruncateBeyondEndEmpties()
    ensures Addrs([Iov(100, 3)]) == [100, 101, 102]
    ensures Addrs(TruncatedVec([Iov(100, 3)], 5)) == []
  {
    assert [Iov(100, 3)][1..] == [];
    assert Addrs([]) == [];
    assert Addrs([Iov(100, 3)]) == Span(Iov(100, 3));
  }

  /** Within bounds, the shorter of two truncations wins. */
  lemma TruncateTwice(vs: seq<Iov>, a: nat, b: nat)
    requires b <= a <= Total(vs)
    ensures Addrs(TruncatedVec(TruncatedVec(vs, a), b)) == Addrs(TruncatedVec(vs, b))
  {
    if |vs| > 0 {
      TakeVecAddrs(vs, a);
      TakeVecAddrs(vs, b);
      TakeVecAddrs(TakeVec(vs, a), b);
    }
  }

  /** Past an entry that is kept whole. */
  lemma KeepWhole(vs: seq<Iov>, row: nat, remaining: nat)
    requires row < |vs| && remaining > vs[row].len
    ensures remaining <= Total(vs[row..]) <==> row + 1 < |vs| && remaining - vs[row].len <= Total(vs[row + 1..])
    ensures remaining <= Total(vs[row..]) ==>
              vs[..row] + TakeVec(vs[row..], remaining) == vs[..row + 1] + TakeVec(vs[row + 1..], remaining - vs[row].len)
  {
    assert vs[row..][1..] == vs[row + 1..];
    assert vs[..row + 1] == vs[..row] + [vs[row]];
  }

  /** `tapsMessage`: the single buffer `buf` unless `list` is there, and how many entries are in view. */
  class Message {
    var buf: Iov
    var list: array?<Iov>
    var iovcnt: nat

    ghost predicate Valid()
      reads this
    {
      (list != null ==> list.Length > 0) && iovcnt <= if list != null then list.Length else 1
    }

    /** The list `tapsMessageGetIovec` hands out. */
    function Vec(): (r: seq<Iov>)
      requires Valid()
      reads this, if list != null then {list} else {}
      ensures |r| == iovcnt
    {
      if list != null then list[..iovcnt] else if iovcnt == 0 then [] else [buf]
    }

    constructor (data: nat, len: nat)
      ensures Valid() && Vec() == [Iov(data, len)]
    {
      buf := Iov(data, len);
      list := null;
      iovcnt := 1;
    }

    /** `tapsMessageGetFirstBuf`: the first entry, in view or not. What it covers is where the view begins, exactly unless
        truncation has left nothing in view. */
    method GetFirstBuf() returns (base: nat, len: nat)
      requires Valid()
      ensures Iov(base, len) == if list != null then list[0] else buf
      ensures iovcnt > 0 ==> Vec()[0] == Iov(base, len)
      ensures Span(Iov(base, len)) <= Addrs(Vec()) <==> iovcnt > 0 || len == 0
    {
      var first := if list != null then list[0] else buf;
      base, len := first.base, first.len;
      assert |Span(first)| == len;
    }

    /**
     * `tapsMessageTruncate`. The C loop reads the length of the entry after the
     * last one before it checks the count; whatever it reads, it then leaves
     * the loop, so the check comes first here.
     */
    method Truncate(length: nat)
      requires Valid()
      modifies this, if list != null then {list} else {}
      ensures Valid() && list == old(list)
      ensures Vec() == TruncatedVec(old(Vec()), length)
      ensures length > Total(old(Vec())) ==> iovcnt == 0
    {
      ghost var vs := Vec();
      var remaining, row := length, 0;
      while row < iovcnt && remaining > (if list != null then list[row] else buf).len
        invariant 0 <= row <= iovcnt == |vs| && 0 <= remaining
        invariant unchanged(this) && (list != null ==> unchanged(list))
        invariant row < |vs| && remaining <= Total(vs[row..]) <==> |vs| > 0 && length <= Total(vs)
        invariant row < |vs| && remaining <= Total(vs[row..]) ==>
                    vs[..row] + TakeVec(vs[row..], remaining) == TakeVec(vs, length)
        decreases iovcnt - row
      {
        assert vs[row] == (if list != null then list[row] else buf);
        KeepWhole(vs, row, remaining);
        remaining := remaining - (if list != null then list[row] else buf).len;
        row := row + 1;
      }
      if row == iovcnt {
        iovcnt := 0;
        return;
      }
      assert vs[row] == (if list != null then list[row] else buf);
      assert TakeVec(vs[row..], remaining) == [Iov(vs[row].base, remaining)];
      iovcnt := row + 1;
      if list != null {
        list[row] := list[row].(len := remaining);
        assert list[..row] == vs[..row];
      } else {
        buf := buf.(len := remaining);
      }
    }
  }
}
