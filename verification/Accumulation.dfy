/**
 * Reading files one after another into one array (the loop of
 * `tapsUpdateProtocols`, src/taps_cfg.c), whatever the files and the entries are.
 */
module Accumulation {
  import opened Common

  /** The array and the running count. */
  datatype Progress<E> = Progress(list: seq<E>, n: nat)

  /** What reading a file into some slots leaves in them, and the number of entries found. */
  type Reader<!E(!new), !C(!new)> = f: (seq<E>, C) -> (seq<E>, nat) | KeepsSizes(f) ghost witness (s, c) => (s, 0)

  ghost predicate KeepsSizes<E(!new), C(!new)>(f: (seq<E>, C) -> (seq<E>, nat)) {
    forall s, c :: |f(s, c).0| == |s| && f(s, c).1 <= |s|
  }

  /** The running count after a file: the code assigns, the repair adds. */
  function Count(v: Variant, n: nat, found: nat): nat {
    if v.AsWritten? then found else n + found
  }

  /** One file, read into the slots from the count on. */
  ghost function ReadFile<E(!new), C(!new)>(reader: Reader<E, C>, v: Variant, p: Progress<E>, c: C): (r: Progress<E>)
    requires p.n < |p.list|
    ensures |r.list| == |p.list| && r.n <= |p.list|
  {
    var (slots, found) := reader(p.list[p.n..], c);
    Progress(p.list[..p.n] + slots, Count(v, p.n, found))
  }

  /** All files, until the array is full. */
  ghost function ReadAll<E(!new), C(!new)>(reader: Reader<E, C>, v: Variant, p: Progress<E>, cs: seq<C>): (r: Progress<E>)
    requires p.n <= |p.list|
    ensures |r.list| == |p.list| && r.n <= |p.list|
    decreases |cs|
  {
    if cs == [] || p.n == |p.list| then p else ReadAll(reader, v, ReadFile(reader, v, p, cs[0]), cs[1..])
  }

  // ----- what the files hold -----

  /** The entries a file gives when there is room for so many. */
  type Yield<!E(!new), !C(!new)> = f: (C, nat) -> seq<E> | Fits(f) ghost witness (c, room) => []

  ghost predicate Fits<E(!new), C(!new)>(f: (C, nat) -> seq<E>) {
    forall c, room :: |f(c, room)| <= room
  }

  ghost predicate Correct<E(!new), C(!new)>(reader: Reader<E, C>, gives: Yield<E, C>) {
    forall slots, c {:trigger reader(slots, c)} ::
      var (r, found) := reader(slots, c);
      found == |gives(c, |slots|)| && r[..found] == gives(c, |slots|)
  }

  /** The concatenation in order, cut at the limit. */
  ghost function Expected<E(!new), C(!new)>(gives: Yield<E, C>, cs: seq<C>, room: nat): (r: seq<E>)
    ensures |r| <= room
    decreases |cs|
  {
    if cs == [] then [] else gives(cs[0], room) + Expected(gives, cs[1..], room - |gives(cs[0], room)|)
  }

  /** The progress after the first file, if there is room for it. */
  lemma FirstFile<E(!new), C(!new)>(reader: Reader<E, C>, gives: Yield<E, C>, v: Variant, p: Progress<E>, cs: seq<C>)
    returns (q: Progress<E>, g: seq<E>)
    requires Correct(reader, gives) && cs != [] && p.n < |p.list|
    ensures g == gives(cs[0], |p.list| - p.n) && |g| <= |p.list| - p.n
    ensures |q.list| == |p.list| && q.n == Count(v, p.n, |g|)
    ensures q.list[..p.n + |g|] == p.list[..p.n] + g
    ensures ReadAll(reader, v, p, cs) == ReadAll(reader, v, q, cs[1..])
    ensures Expected(gives, cs, |p.list| - p.n) == g + Expected(gives, cs[1..], |p.list| - p.n - |g|)
  {
    q, g := ReadFile(reader, v, p, cs[0]), gives(cs[0], |p.list| - p.n);
    var (slots, found) := reader(p.list[p.n..], cs[0]);
    assert q.list == p.list[..p.n] + slots;
    assert q.list[..p.n + |g|] == p.list[..p.n] + slots[..|g|];
  }

  /** Repaired, the result is the concatenation in order of what each file gives, cut at the limit; nothing found earlier
      is overwritten. */
  lemma {:induction false} RepairedAccumulates<E(!new), C(!new)>(reader: Reader<E, C>, gives: Yield<E, C>,
                                                                 p: Progress<E>, cs: seq<C>)
    requires Correct(reader, gives) && p.n <= |p.list|
    ensures var r, e := ReadAll(reader, Repaired, p, cs), Expected(gives, cs, |p.list| - p.n);
            r.n == p.n + |e| && r.list[..r.n] == p.list[..p.n] + e
    decreases |cs|
  {
    if cs == [] || p.n == |p.list| {
      assert Expected(gives, cs, |p.list| - p.n) == [];
    } else {
      var q, g := FirstFile(reader, gives, Repaired, p, cs);
      RepairedAccumulates(reader, gives, q, cs[1..]);
      var e := Expected(gives, cs[1..], |q.list| - q.n);
      assert (p.list[..p.n] + g) + e == p.list[..p.n] + (g + e);
    }
  }

  // ----- when the code as written agrees -----

  /** Each file gives a fixed list, as far as there is room. */
  ghost predicate Holds<E(!new), C(!new)>(gives: Yield<E, C>, holds: C -> seq<E>, cs: seq<C>) {
    forall i, room: nat {:trigger gives(cs[i], room)} :: 0 <= i < |cs| ==>
      gives(cs[i], room) == if |holds(cs[i])| <= room then holds(cs[i]) else holds(cs[i])[..room]
  }

  function Concat<E, C>(holds: C -> seq<E>, cs: seq<C>): seq<E> {
    if cs == [] then [] else holds(cs[0]) + Concat(holds, cs[1..])
  }

  function Cut<E>(es: seq<E>, room: nat): seq<E> {
    if |es| <= room then es else es[..room]
  }

  /** Such files, read one after another, give their concatenation, cut at the limit. */
  lemma {:induction false} ExpectedIsConcat<E(!new), C(!new)>(gives: Yield<E, C>, holds: C -> seq<E>, cs: seq<C>, room: nat)
    requires Holds(gives, holds, cs)
    ensures Expected(gives, cs, room) == Cut(Concat(holds, cs), room)
    decreases |cs|
  {
    if cs != [] {
      var first, rest := gives(cs[0], room), Concat(holds, cs[1..]);
      assert first == Cut(holds(cs[0]), room);
      TailHolds(gives, holds, cs);
      ExpectedIsConcat(gives, holds, cs[1..], room - |first|);
    }
  }

  /** No entry is in two files. */
  ghost predicate Unique<E, C(!new)>(holds: C -> seq<E>, cs: seq<C>) {
    forall i, j, a, b :: 0 <= i < j < |cs| && 0 <= a < |holds(cs[i])| && 0 <= b < |holds(cs[j])| ==>
      holds(cs[i])[a] != holds(cs[j])[b]
  }

  /** Only the last file holds anything, unless the first that does fills every slot. */
  ghost predicate OneFileYields<E, C>(holds: C -> seq<E>, cs: seq<C>, slots: nat)
    decreases |cs|
  {
    cs == [] || if holds(cs[0]) == [] then OneFileYields(holds, cs[1..], slots) else |cs| == 1 || |holds(cs[0])| >= slots
  }

  lemma TailHolds<E(!new), C(!new)>(gives: Yield<E, C>, holds: C -> seq<E>, cs: seq<C>)
    requires Holds(gives, holds, cs) && cs != []
    ensures Holds(gives, holds, cs[1..])
    ensures Unique(holds, cs) ==> Unique(holds, cs[1..])
  {
    assert forall i :: 0 <= i < |cs[1..]| ==> cs[1..][i] == cs[i + 1];
  }

  /** As written, the count is that of the last file read, whose entries start where the count of the file before it
      ended. */
  lemma {:induction false} LastFileWins<E(!new), C(!new)>(reader: Reader<E, C>, gives: Yield<E, C>, p: Progress<E>,
                                                          cs: seq<C>) returns (j: nat, at: nat)
    requires Correct(reader, gives) && p.n < |p.list| && cs != []
    ensures j < |cs| && at < |p.list|
    ensures var r, g := ReadAll(reader, AsWritten, p, cs), gives(cs[j], |p.list| - at);
            r.n == |g| && at + r.n <= |r.list| && r.list[at..at + r.n] == g
    decreases |cs|
  {
    var q, g := FirstFile(reader, gives, AsWritten, p, cs);
    if |cs| == 1 || q.n == |q.list| {
      j, at := 0, p.n;
      assert q.list[at..at + q.n] == q.list[..p.n + |g|][p.n..] == g;
    } else {
      j, at := LastFileWins(reader, gives, q, cs[1..]);
      j := j + 1;
    }
  }

  /** The result is at least as long as what any one file holds, or full. */
  lemma {:induction false} ExpectedLength<E(!new), C(!new)>(gives: Yield<E, C>, holds: C -> seq<E>, cs: seq<C>, room: nat,
                                                            j: nat)
    requires Holds(gives, holds, cs) && j < |cs|
    ensures |Expected(gives, cs, room)| == room || |Expected(gives, cs, room)| >= |holds(cs[j])|
    decreases |cs|
  {
    var first := gives(cs[0], room);
    if j > 0 && |first| < room {
      TailHolds(gives, holds, cs);
      ExpectedLength(gives, holds, cs[1..], room - |first|, j - 1);
    }
  }

  ghost predicate Agrees<E(!new), C(!new)>(reader: Reader<E, C>, gives: Yield<E, C>, p: Progress<E>, cs: seq<C>) {
    p.n < |p.list| &&
    var r := ReadAll(reader, AsWritten, p, cs);
    r.list[..r.n] == Expected(gives, cs, |p.list|)
  }

  lemma OneFileAgrees<E(!new), C(!new)>(reader: Reader<E, C>, gives: Yield<E, C>, holds: C -> seq<E>, p: Progress<E>,
                                        cs: seq<C>)
    requires Correct(reader, gives) && Holds(gives, holds, cs) && p.n == 0 < |p.list| && cs != []
    requires |cs| == 1 || |holds(cs[0])| >= |p.list|
    ensures Agrees(reader, gives, p, cs)
  {
    var q, g := FirstFile(reader, gives, AsWritten, p, cs);
    var rest := cs[1..];
    NothingLeft(reader, gives, q, rest, |p.list| - |g|);
    assert p.list[..0] + g == g && g + [] == g;
  }

  lemma NothingLeft<E(!new), C(!new)>(reader: Reader<E, C>, gives: Yield<E, C>, q: Progress<E>, cs: seq<C>, room: nat)
    requires q.n <= |q.list| && (cs == [] || (room == 0 && q.n == |q.list|))
    ensures ReadAll(reader, AsWritten, q, cs) == q && Expected(gives, cs, room) == []
  {
  }

  /** What the last file leaves can only be as long as everything together if it fills the array from the first slot. */
  lemma SameLengthOnlyIfFull<E(!new), C(!new)>(gives: Yield<E, C>, holds: C -> seq<E>, cs: seq<C>, slots: nat, j: nat,
                                               at: nat)
    requires Holds(gives, holds, cs) && |cs| > 1 && 0 < |holds(cs[0])| < slots && j < |cs| - 1 && at < slots
    requires |gives(cs[1..][j], slots - at)| == |Expected(gives, cs, slots)|
    ensures at == 0 && gives(cs[1..][j], slots) != []
    ensures gives(cs[1..][j], slots)[0] == holds(cs[j + 1])[0]
    ensures Expected(gives, cs, slots)[0] == holds(cs[0])[0]
  {
    assert gives(cs[0], slots) == holds(cs[0]);
    assert cs[1..][j] == cs[j + 1];
    TailHolds(gives, holds, cs);
    ExpectedLength(gives, holds, cs[1..], slots - |holds(cs[0])|, j);
  }

  lemma SeveralFilesDisagree<E(!new), C(!new)>(reader: Reader<E, C>, gives: Yield<E, C>, holds: C -> seq<E>,
                                               p: Progress<E>, cs: seq<C>)
    requires Correct(reader, gives) && Holds(gives, holds, cs) && Unique(holds, cs)
    requires p.n == 0 < |p.list| && |cs| > 1 && 0 < |holds(cs[0])| < |p.list|
    ensures !Agrees(reader, gives, p, cs)
  {
    var slots := |p.list|;
    var q, g := FirstFile(reader, gives, AsWritten, p, cs);
    assert g == holds(cs[0]);
    var j, at := LastFileWins(reader, gives, q, cs[1..]);
    var r, e := ReadAll(reader, AsWritten, p, cs), Expected(gives, cs, slots);
    if r.n == |e| {
      SameLengthOnlyIfFull(gives, holds, cs, slots, j, at);
      assert r.list[..r.n][0] == r.list[at..at + r.n][0];
      assert holds(cs[0])[0] != holds(cs[j + 1])[0];
    }
  }

  /**
   * As written, the result is the concatenation exactly when only the last
   * file holds any entry, or the first that does fills every slot: the count is
   * overwritten after every file, and with it the place where the next is put.
   */
  lemma {:induction false} AgreesIff<E(!new), C(!new)>(reader: Reader<E, C>, gives: Yield<E, C>, holds: C -> seq<E>,
                                                       p: Progress<E>, cs: seq<C>)
    requires Correct(reader, gives) && Holds(gives, holds, cs) && Unique(holds, cs) && p.n == 0 < |p.list|
    ensures Agrees(reader, gives, p, cs) <==> OneFileYields(holds, cs, |p.list|)
    decreases |cs|
  {
    if cs == [] {
      assert p.list[..0] == [];
    } else if holds(cs[0]) == [] {
      var q, g := FirstFile(reader, gives, AsWritten, p, cs);
      TailHolds(gives, holds, cs);
      assert g == [];
      AgreesIff(reader, gives, holds, q, cs[1..]);
    } else if |cs| == 1 || |holds(cs[0])| >= |p.list| {
      OneFileAgrees(reader, gives, holds, p, cs);
    } else {
      SeveralFilesDisagree(reader, gives, holds, p, cs);
    }
  }

  // ----- which runs write the last slot -----

  /** What a file puts into the slots: the entries it begins, whether or not it is counted in the end. */
  ghost predicate Begins<E(!new), C(!new)>(reader: Reader<E, C>, begun: C -> seq<E>) {
    forall slots, c {:trigger reader(slots, c)} ::
      var m := if |begun(c)| <= |slots| then |begun(c)| else |slots|;
      reader(slots, c).0 == begun(c)[..m] + slots[m..]
  }

  /** What it adds to the count, if it leaves a slot. */
  ghost predicate Finds<E(!new), C(!new)>(reader: Reader<E, C>, begun: C -> seq<E>, given: C -> nat) {
    forall slots, c {:trigger reader(slots, c)} ::
      |begun(c)| < |slots| ==> reader(slots, c).1 == given(c) <= |begun(c)|
  }

  /** From `n` entries on, some file begins so many that it reaches the last of `size` slots. */
  ghost predicate Reaches<E(!new), C(!new)>(begun: C -> seq<E>, given: C -> nat, v: Variant, n: nat, size: nat, cs: seq<C>)
    decreases |cs|
  {
    cs != [] && (n + |begun(cs[0])| >= size || Reaches(begun, given, v, Count(v, n, given(cs[0])), size, cs[1..]))
  }

  /** What is in the last slot after reading these files. */
  ghost function LastAfter<E(!new), C(!new)>(reader: Reader<E, C>, v: Variant, p: Progress<E>, cs: seq<C>): E
    requires p.n <= |p.list| && p.list != []
  {
    ReadAll(reader, v, p, cs).list[|p.list| - 1]
  }

  lemma LastAfterOne<E(!new), C(!new)>(reader: Reader<E, C>, begun: C -> seq<E>, v: Variant, p: Progress<E>, c: C)
    requires Begins(reader, begun) && p.n < |p.list|
    ensures var k, q := |p.list| - 1, ReadFile(reader, v, p, c);
            q.list[k] == if p.n + |begun(c)| > k then begun(c)[k - p.n] else p.list[k]
  {
    var slots := p.list[p.n..];
    assert reader(slots, c).0[|slots| - 1] == if |begun(c)| >= |slots| then begun(c)[|slots| - 1] else slots[|slots| - 1];
  }

  lemma {:induction false} LastKept<E(!new), C(!new)>(reader: Reader<E, C>, begun: C -> seq<E>, given: C -> nat, v: Variant,
                                                      p: Progress<E>, cs: seq<C>)
    requires Begins(reader, begun) && Finds(reader, begun, given) && p.n < |p.list|
    requires !Reaches(begun, given, v, p.n, |p.list|, cs)
    ensures LastAfter(reader, v, p, cs) == p.list[|p.list| - 1]
    decreases |cs|
  {
    if cs != [] {
      LastAfterOne(reader, begun, v, p, cs[0]);
      assert reader(p.list[p.n..], cs[0]).1 == given(cs[0]);
      LastKept(reader, begun, given, v, ReadFile(reader, v, p, cs[0]), cs[1..]);
    }
  }

  /** The array does not influence the counts. */
  ghost predicate CountsAlone<E(!new), C(!new)>(reader: Reader<E, C>) {
    forall a, b, c {:trigger reader(a, c), reader(b, c)} :: |a| == |b| ==> reader(a, c).1 == reader(b, c).1
  }

  lemma {:induction false} LastStaysSame<E(!new), C(!new)>(reader: Reader<E, C>, begun: C -> seq<E>, v: Variant,
                                                           p: Progress<E>, q: Progress<E>, cs: seq<C>)
    requires Begins(reader, begun) && CountsAlone(reader) && p.n == q.n <= |p.list| == |q.list| && p.list != []
    requires p.list[|p.list| - 1] == q.list[|q.list| - 1]
    ensures ReadAll(reader, v, p, cs).list[|p.list| - 1] == ReadAll(reader, v, q, cs).list[|q.list| - 1]
    decreases |cs|
  {
    if cs != [] && p.n < |p.list| {
      LastAfterOne(reader, begun, v, p, cs[0]);
      LastAfterOne(reader, begun, v, q, cs[0]);
      assert reader(p.list[p.n..], cs[0]).1 == reader(q.list[q.n..], cs[0]).1;
      LastStaysSame(reader, begun, v, ReadFile(reader, v, p, cs[0]), ReadFile(reader, v, q, cs[0]), cs[1..]);
    }
  }

  /** The last slot is reached: whatever it held before is gone. */
  lemma {:induction false} LastWritten<E(!new), C(!new)>(reader: Reader<E, C>, begun: C -> seq<E>, given: C -> nat,
                                                         v: Variant, p: Progress<E>, q: Progress<E>, cs: seq<C>)
    requires Begins(reader, begun) && Finds(reader, begun, given) && CountsAlone(reader)
    requires p.n == q.n < |p.list| == |q.list| && Reaches(begun, given, v, p.n, |p.list|, cs)
    ensures ReadAll(reader, v, p, cs).list[|p.list| - 1] == ReadAll(reader, v, q, cs).list[|q.list| - 1]
    decreases |cs|
  {
    var p1, q1 := ReadFile(reader, v, p, cs[0]), ReadFile(reader, v, q, cs[0]);
    LastAfterOne(reader, begun, v, p, cs[0]);
    LastAfterOne(reader, begun, v, q, cs[0]);
    assert reader(p.list[p.n..], cs[0]).1 == reader(q.list[q.n..], cs[0]).1;
    if p.n + |begun(cs[0])| >= |p.list| {
      LastStaysSame(reader, begun, v, p1, q1, cs[1..]);
    } else {
      LastWritten(reader, begun, given, v, p1, q1, cs[1..]);
    }
  }

  function Sum<C>(given: C -> nat, cs: seq<C>): nat {
    if cs == [] then 0 else given(cs[0]) + Sum(given, cs[1..])
  }

  /** Where the i-th file is put, from `n` on: as written, behind the file before it alone. */
  function PutAt<C>(given: C -> nat, v: Variant, n: nat, cs: seq<C>, i: nat): nat
    requires i < |cs|
  {
    if i == 0 then n else if v.AsWritten? then given(cs[i - 1]) else n + Sum(given, cs[..i])
  }

  /** Some file, from where it is put, begins so many entries that it reaches the last of `size` slots. */
  ghost predicate SomeFileReaches<E, C(!new)>(begun: C -> seq<E>, given: C -> nat, v: Variant, n: nat, size: nat, cs: seq<C>) {
    exists i :: 0 <= i < |cs| && PutAt(given, v, n, cs, i) + |begun(cs[i])| >= size
  }

  lemma PutAtNext<C(!new)>(given: C -> nat, v: Variant, n: nat, cs: seq<C>, i: nat)
    requires i + 1 < |cs|
    ensures PutAt(given, v, Count(v, n, given(cs[0])), cs[1..], i) == PutAt(given, v, n, cs, i + 1)
  {
    assert cs[..i + 1][1..] == cs[1..][..i];
    assert Sum(given, cs[1..][..0]) == 0;
  }

  lemma {:induction false} ReachesIff<E(!new), C(!new)>(begun: C -> seq<E>, given: C -> nat, v: Variant, n: nat, size: nat,
                                                        cs: seq<C>)
    ensures Reaches(begun, given, v, n, size, cs) <==> SomeFileReaches(begun, given, v, n, size, cs)
    decreases |cs|
  {
    if cs != [] {
      var n1, rest := Count(v, n, given(cs[0])), cs[1..];
      ReachesIff(begun, given, v, n1, size, rest);
      forall i | 0 <= i < |rest|
        ensures PutAt(given, v, n1, rest, i) == PutAt(given, v, n, cs, i + 1) && rest[i] == cs[i + 1]
      {
        PutAtNext(given, v, n, cs, i);
      }
      if i :| 0 <= i < |rest| && PutAt(given, v, n1, rest, i) + |begun(rest[i])| >= size {
        assert PutAt(given, v, n, cs, i + 1) + |begun(cs[i + 1])| >= size;
      }
      if i :| 0 <= i < |cs| && PutAt(given, v, n, cs, i) + |begun(cs[i])| >= size {
        if i > 0 {
          assert PutAt(given, v, n1, rest, i - 1) + |begun(rest[i - 1])| >= size;
        } else {
          assert PutAt(given, v, n, cs, 0) == n;
        }
      }
    }
  }

  /** Reading these files changes what is in the last slot. */
  ghost predicate WritesLast<E(!new), C(!new)>(reader: Reader<E, C>, v: Variant, size: nat, cs: seq<C>) {
    exists list: seq<E> :: |list| == size > 0 && LastAfter(reader, v, Progress(list, 0), cs) != list[size - 1]
  }

  lemma ReachingWrites<E(!new), C(!new)>(reader: Reader<E, C>, begun: C -> seq<E>, given: C -> nat, v: Variant, size: nat,
                                         cs: seq<C>, a: seq<E>, b: seq<E>)
    requires Begins(reader, begun) && Finds(reader, begun, given) && CountsAlone(reader)
    requires |a| == |b| == size > 0 && a[size - 1] != b[size - 1] && Reaches(begun, given, v, 0, size, cs)
    ensures WritesLast(reader, v, size, cs)
  {
    var p, q := Progress(a, 0), Progress(b, 0);
    LastWritten(reader, begun, given, v, p, q, cs);
    assert LastAfter(reader, v, p, cs) == LastAfter(reader, v, q, cs);
  }

  /** It does so exactly when some file begins so many entries that, from where it is put, they reach that slot. */
  lemma WritesLastIff<E(!new), C(!new)>(reader: Reader<E, C>, begun: C -> seq<E>, given: C -> nat, v: Variant, size: nat,
                                        cs: seq<C>, x: E, y: E)
    requires Begins(reader, begun) && Finds(reader, begun, given) && CountsAlone(reader) && size > 0 && x != y
    ensures WritesLast(reader, v, size, cs) <==> SomeFileReaches(begun, given, v, 0, size, cs)
  {
    ReachesIff(begun, given, v, 0, size, cs);
    if Reaches(begun, given, v, 0, size, cs) {
      ReachingWrites(reader, begun, given, v, size, cs, seq(size, i => x), seq(size, i => y));
    } else {
      forall list: seq<E> | |list| == size
        ensures LastAfter(reader, v, Progress(list, 0), cs) == list[size - 1]
      {
        LastKept(reader, begun, given, v, Progress(list, 0), cs);
      }
    }
  }

  // When every file gives what it begins

  function SumOf(lengths: seq<nat>): nat {
    if lengths == [] then 0 else lengths[0] + SumOf(lengths[1..])
  }

  /** `lengths` are those of the files. */
  ghost predicate AllGiven<E, C(!new)>(begun: C -> seq<E>, given: C -> nat, cs: seq<C>, lengths: seq<nat>) {
    |lengths| == |cs| && forall i :: 0 <= i < |cs| ==> |begun(cs[i])| == given(cs[i]) == lengths[i]
  }

  /** Some file, alone or with the one before it, fills `size` slots. */
  predicate PairReaches(lengths: seq<nat>, size: nat) {
    exists i :: 0 <= i < |lengths| && Before(lengths, i) + lengths[i] >= size
  }

  function Before(lengths: seq<nat>, i: nat): nat
    requires i < |lengths|
  {
    if i == 0 then 0 else lengths[i - 1]
  }

  lemma PairTooLong<E, C(!new)>(begun: C -> seq<E>, given: C -> nat, cs: seq<C>, lengths: seq<nat>, size: nat)
    requires AllGiven(begun, given, cs, lengths)
    ensures SomeFileReaches(begun, given, AsWritten, 0, size, cs) <==> PairReaches(lengths, size)
  {
    forall i | 0 <= i < |cs|
      ensures PutAt(given, AsWritten, 0, cs, i) + |begun(cs[i])| == Before(lengths, i) + lengths[i]
    {
    }
  }

  lemma {:induction false} SumGrows<E, C(!new)>(begun: C -> seq<E>, given: C -> nat, cs: seq<C>, lengths: seq<nat>, i: nat)
    requires AllGiven(begun, given, cs, lengths) && i < |cs|
    ensures Sum(given, cs[..i]) + given(cs[i]) <= SumOf(lengths)
    ensures i == |cs| - 1 ==> Sum(given, cs[..i]) + given(cs[i]) == SumOf(lengths)
    decreases |cs|
  {
    if i > 0 {
      assert cs[..i][1..] == cs[1..][..i - 1];
      SumGrows(begun, given, cs[1..], lengths[1..], i - 1);
    }
  }

  lemma AllTooLong<E, C(!new)>(begun: C -> seq<E>, given: C -> nat, cs: seq<C>, lengths: seq<nat>, size: nat)
    requires size > 0 && AllGiven(begun, given, cs, lengths)
    ensures SomeFileReaches(begun, given, Repaired, 0, size, cs) <==> SumOf(lengths) >= size
  {
    forall i | 0 <= i < |cs|
      ensures PutAt(given, Repaired, 0, cs, i) + |begun(cs[i])| <= SumOf(lengths)
      ensures i == |cs| - 1 ==> PutAt(given, Repaired, 0, cs, i) + |begun(cs[i])| == SumOf(lengths)
    {
      SumGrows(begun, given, cs, lengths, i);
      assert Sum(given, cs[..0]) == 0;
    }
    if SumOf(lengths) >= size {
      assert PutAt(given, Repaired, 0, cs, |cs| - 1) + |begun(cs[|cs| - 1])| >= size;
    }
  }

  /** When every file gives what it begins: as written, exactly when one file, alone or with the one read just before it, is
      too long; repaired, when all together are. */
  lemma CompleteFilesWriteLastIff<E(!new), C(!new)>(reader: Reader<E, C>, begun: C -> seq<E>, given: C -> nat, size: nat,
                                                    cs: seq<C>, lengths: seq<nat>, x: E, y: E)
    requires Begins(reader, begun) && Finds(reader, begun, given) && CountsAlone(reader) && size > 0 && x != y
    requires AllGiven(begun, given, cs, lengths)
    ensures WritesLast(reader, AsWritten, size, cs) <==> PairReaches(lengths, size)
    ensures WritesLast(reader, Repaired, size, cs) <==> SumOf(lengths) >= size
  {
    WritesLastIff(reader, begun, given, AsWritten, size, cs, x, y);
    WritesLastIff(reader, begun, given, Repaired, size, cs, x, y);
    PairTooLong(begun, given, cs, lengths, size);
    AllTooLong(begun, given, cs, lengths, size);
  }
}
