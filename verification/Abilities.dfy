/** The sixteen transport abilities and the 16-bit words that hold one bit for each (src/taps_internals.h, src/taps.h). */
module Abilities {
  const COUNT: nat := 16

  /** `tapsPropertyNames`: position i names bit i. */
  const NAMES: seq<string> := [
    "reliability", "preserveMsgBoundaries", "perMsgReliability", "preserveOrder",
    "zeroRttMsg", "multistreaming", "FullChecksumSend", "FullChecksumRecv",
    "congestionControl", "keepAlive", "useTemporaryLocalAddress", "multipath",
    "advertises_altaddr", "direction", "softErrorNotify", "activeReadBeforeSend"]

  /** A uint16_t, least significant bit first; C's bit operators work on it bit by bit. */
  type Word = w: seq<bool> | |w| == COUNT witness seq(COUNT, i => false)

  function Zero(): Word {
    seq(COUNT, i => false)
  }

  /** `0x1 << i`. */
  function Mask(i: nat): Word
    requires i < COUNT
  {
    seq(COUNT, j => j == i)
  }

  function And(v: Word, w: Word): Word {
    seq(COUNT, i requires 0 <= i < COUNT => v[i] && w[i])
  }

  function Or(v: Word, w: Word): Word {
    seq(COUNT, i requires 0 <= i < COUNT => v[i] || w[i])
  }

  function Not(v: Word): Word {
    seq(COUNT, i requires 0 <= i < COUNT => !v[i])
  }

  /** A word as the set of abilities it stands for. */
  function SetOf(v: Word): set<nat> {
    set i | 0 <= i < COUNT && v[i]
  }

  lemma WordsEqualIff(v: Word, w: Word)
    ensures v == w <==> forall i :: 0 <= i < COUNT ==> v[i] == w[i]
  {
  }

  /** `(v & need) == need` says that `v` has every ability of `need`. */
  lemma CoversIff(v: Word, need: Word)
    ensures And(v, need) == need <==> SetOf(need) <= SetOf(v)
  {
    WordsEqualIff(And(v, need), need);
    if SetOf(need) <= SetOf(v) {
      forall i | 0 <= i < COUNT && need[i]
        ensures v[i]
      {
        assert i in SetOf(need);
      }
    }
  }

  /** `v & bar` is zero when `v` has none of the abilities of `bar`. */
  lemma AvoidsIff(v: Word, bar: Word)
    ensures And(v, bar) == Zero() <==> SetOf(v) !! SetOf(bar)
  {
    WordsEqualIff(And(v, bar), Zero());
    if And(v, bar) == Zero() {
      forall i | i in SetOf(v)
        ensures i !in SetOf(bar)
      {
        assert !And(v, bar)[i];
      }
    } else {
      var i :| 0 <= i < COUNT && And(v, bar)[i];
      assert i in SetOf(v) && i in SetOf(bar);
    }
  }

  // ----- names -----

  lemma NamesDistinct(i: nat, j: nat)
    requires i < COUNT && j < COUNT && NAMES[i] == NAMES[j]
    ensures i == j
  {
  }

  /** The first position of `name` in a table, from `i` on; the table's length if there is none. */
  function Find(table: seq<string>, name: string, i: nat): (r: nat)
    requires i <= |table|
    ensures i <= r <= |table| && (r < |table| ==> table[r] == name)
    ensures forall k :: i <= k < r ==> table[k] != name
    decreases |table| - i
  {
    if i == |table| || table[i] == name then i else Find(table, name, i + 1)
  }

  /** The bit a name stands for, or COUNT. */
  function Position(name: string): (r: nat)
    ensures r <= COUNT && (r < COUNT ==> NAMES[r] == name)
    ensures r == COUNT <==> name !in NAMES
  {
    Find(NAMES, name, 0)
  }

  lemma PositionOfName(i: nat)
    requires i < COUNT
    ensures Position(NAMES[i]) == i
  {
    NamesDistinct(i, Position(NAMES[i]));
  }

  lemma NameAt(name: string, i: nat)
    requires i < COUNT
    ensures Position(name) == i <==> name == NAMES[i]
  {
    PositionOfName(i);
  }

  /** The bit each name stands for: the order of the fields of `tapsAbilitiesByName`, least significant first. */
  lemma NamesStandForBits(name: string)
    ensures Position(name) == 0 <==> name == "reliability"
    ensures Position(name) == 1 <==> name == "preserveMsgBoundaries"
    ensures Position(name) == 2 <==> name == "perMsgReliability"
    ensures Position(name) == 3 <==> name == "preserveOrder"
    ensures Position(name) == 4 <==> name == "zeroRttMsg"
    ensures Position(name) == 5 <==> name == "multistreaming"
    ensures Position(name) == 6 <==> name == "FullChecksumSend"
    ensures Position(name) == 7 <==> name == "FullChecksumRecv"
    ensures Position(name) == 8 <==> name == "congestionControl"
    ensures Position(name) == 9 <==> name == "keepAlive"
    ensures Position(name) == 10 <==> name == "useTemporaryLocalAddress"
    ensures Position(name) == 11 <==> name == "multipath"
    ensures Position(name) == 12 <==> name == "advertises_altaddr"
    ensures Position(name) == 13 <==> name == "direction"
    ensures Position(name) == 14 <==> name == "softErrorNotify"
    ensures Position(name) == 15 <==> name == "activeReadBeforeSend"
    ensures Position(name) <= 16
  {
    NameAt(name, 0);
    NameAt(name, 1);
    NameAt(name, 2);
    NameAt(name, 3);
    NameAt(name, 4);
    NameAt(name, 5);
    NameAt(name, 6);
    NameAt(name, 7);
    NameAt(name, 8);
    NameAt(name, 9);
    NameAt(name, 10);
    NameAt(name, 11);
    NameAt(name, 12);
    NameAt(name, 13);
    NameAt(name, 14);
    NameAt(name, 15);
  }

  /** The lookup loop of the parser and of the setter. */
  method IndexOf(name: string) returns (i: nat)
    ensures i == Position(name)
  {
    i := 0;
    while i < COUNT && name != NAMES[i]
      invariant i <= COUNT && Find(NAMES, name, i) == Position(name)
    {
      i := i + 1;
    }
  }
}
