/** Collecting the protocols of all configuration files (`tapsUpdateProtocols`, src/taps_cfg.c). */
module Discovery {
  import opened Common
  import opened YamlConfig
  import opened Accumulation

  /** What a file holds. */
  type Documents = d: seq<seq<Field>> | AllWellFormed(d) witness []

  /** A directory entry: its name, whether it can be opened, and the documents it holds. */
  datatype File = File(name: string, readable: bool, docs: Documents)

  /** The names the loop skips, and the files it cannot open. */
  predicate IsRead(f: File) {
    |f.name| >= 6 && f.name[|f.name| - 4..] == "yaml" && f.readable
  }

  function FilesRead(fs: seq<File>): seq<Documents> {
    if fs == [] then [] else (if IsRead(fs[0]) then [fs[0].docs] else []) + FilesRead(fs[1..])
  }

  /** A name that ends in "yaml" after two characters or more. */
  ghost predicate HasYamlName(name: string) {
    exists stem: string :: |stem| >= 2 && name == stem + "yaml"
  }

  lemma IsReadIff(f: File)
    ensures IsRead(f) <==> f.readable && HasYamlName(f.name)
  {
    var n := |f.name|;
    if IsRead(f) {
      var stem := f.name[..n - 4];
      assert |stem| >= 2 && f.name == stem + "yaml";
    }
    if HasYamlName(f.name) {
      var stem :| |stem| >= 2 && f.name == stem + "yaml";
      assert f.name[n - 4..] == "yaml";
    }
  }

  lemma {:induction false} FilesReadLast(fs: seq<File>)
    requires fs != []
    ensures var front, f := fs[..|fs| - 1], fs[|fs| - 1];
            FilesRead(fs) == FilesRead(front) + if IsRead(f) then [f.docs] else []
  {
    if |fs| > 1 {
      assert fs[1..][..|fs| - 2] == fs[..|fs| - 1][1..];
      FilesReadLast(fs[1..]);
    }
  }

  lemma {:induction false} FilesReadAt(fs: seq<File>) returns (at: seq<nat>)
    ensures |at| == |FilesRead(fs)|
    ensures forall k :: 0 <= k < |at| ==> at[k] < |fs| && FilesRead(fs)[k] == fs[at[k]].docs
    ensures forall j, k :: 0 <= j < k < |at| ==> at[j] < at[k]
    ensures forall i :: 0 <= i < |fs| ==> (i in at <==> IsRead(fs[i]))
  {
    at := [];
    if fs != [] {
      var n := |fs| - 1;
      at := FilesReadAt(fs[..n]);
      FilesReadLast(fs);
      if IsRead(fs[n]) {
        at := at + [n];
      }
    }
  }

  /** The files read are exactly those that can be opened and whose name ends in "yaml" after two characters or more, each
      once and in directory order: `at` says where each stands. */
  lemma FilesReadAre(fs: seq<File>) returns (at: seq<nat>)
    ensures |at| == |FilesRead(fs)|
    ensures forall k :: 0 <= k < |at| ==> at[k] < |fs| && FilesRead(fs)[k] == fs[at[k]].docs
    ensures forall j, k :: 0 <= j < k < |at| ==> at[j] < at[k]
    ensures forall i :: 0 <= i < |fs| ==>
              (i in at <==> fs[i].readable && exists stem: string :: |stem| >= 2 && fs[i].name == stem + "yaml")
  {
    at := FilesReadAt(fs);
    forall i | 0 <= i < |fs|
      ensures IsRead(fs[i]) <==> fs[i].readable && HasYamlName(fs[i].name)
    {
      IsReadIff(fs[i]);
    }
  }

  lemma FilesReadFirst(f: File, rest: seq<File>)
    ensures FilesRead([f] + rest) == (if IsRead(f) then [f.docs] else []) + FilesRead(rest)
  {
    assert ([f] + rest)[1..] == rest;
  }

  /** A directory with files of each kind: only kernel.yaml is read. */
  lemma KernelYamlIsRead(a: Documents, b: Documents)
    ensures FilesRead([File("kernel.conf", true, b), File("kernel.yaml", true, a), File("xyaml", true, b),
                       File("other.yaml", false, b), File("yaml.old", true, b)]) == [a]
  {
    var f1, f2, f3 := File("kernel.conf", true, b), File("kernel.yaml", true, a), File("xyaml", true, b);
    var f4, f5 := File("other.yaml", false, b), File("yaml.old", true, b);
    assert f1.name[7..] == "conf" && f2.name[7..] == "yaml" && f5.name[4..] == ".old";
    assert !IsRead(f1) && IsRead(f2) && !IsRead(f3) && !IsRead(f4) && !IsRead(f5);
    FilesReadFirst(f5, []);
    FilesReadFirst(f4, [f5] + []);
    FilesReadFirst(f3, [f4] + ([f5] + []));
    FilesReadFirst(f2, [f3] + ([f4] + ([f5] + [])));
    FilesReadFirst(f1, [f2] + ([f3] + ([f4] + ([f5] + []))));
    assert [f1] + ([f2] + ([f3] + ([f4] + ([f5] + [])))) == [f1, f2, f3, f4, f5];
  }

  /** `tapsParseYaml` on the events of a file. */
  function ParseFile(slots: seq<Entry>, docs: Documents): (r: (seq<Entry>, nat))
    ensures |r.0| == |slots| && r.1 <= |slots|
  {
    if slots == [] then (slots, 0)
    else
      ReturnedAreComplete(slots, RenderFile(docs));
      var s := Parse(slots, RenderFile(docs));
      (s.slots, Result(s))
  }

  ghost const READER: Reader<Entry, Documents> := ParseFile

  lemma NextFile(v: Variant, p: Progress<Entry>, files: seq<File>)
    requires p.n < |p.list| && files != []
    ensures var q := if IsRead(files[0]) then ReadFile(READER, v, p, files[0].docs) else p;
            ReadAll(READER, v, p, FilesRead(files)) == ReadAll(READER, v, q, FilesRead(files[1..]))
  {
    var reader := READER;
    var rest := FilesRead(files[1..]);
    if IsRead(files[0]) {
      assert FilesRead(files) == [files[0].docs] + rest;
      assert ([files[0].docs] + rest)[1..] == rest;
      assert ReadAll(reader, v, p, [files[0].docs] + rest) == ReadAll(reader, v, ReadFile(reader, v, p, files[0].docs), rest);
    } else {
      assert FilesRead(files) == [] + rest == rest;
    }
  }

  /** `tapsUpdateProtocols`, the directory listing given (it returns -1 when there is no directory). */
  method UpdateProtocols(v: Variant, directory: Option<seq<File>>, list: array<Entry>) returns (ret: int)
    requires list.Length > 0
    modifies list
    ensures directory.None? ==> ret == -1 && list[..] == old(list[..])
    ensures directory.Some? ==>
              var r := ReadAll(READER, v, Progress(old(list[..]), 0), FilesRead(directory.value));
              list[..] == r.list && ret == r.n
  {
    if directory.None? {
      return -1;
    }
    var files, i := directory.value, 0;
    var numProtos: nat := 0;
    ghost var p := Progress(list[..], 0);
    ghost var goal := ReadAll(READER, v, p, FilesRead(files));
    while i < |files|
      invariant 0 <= i <= |files| && numProtos < list.Length
      invariant p == Progress(list[..], numProtos) && ReadAll(READER, v, p, FilesRead(files[i..])) == goal
    {
      NextFile(v, p, files[i..]);
      assert files[i..][1..] == files[i + 1..];
      if IsRead(files[i]) {
        p := ReadFile(READER, v, p, files[i].docs);
        numProtos := ReadOne(v, files[i].docs, list, numProtos);
        if numProtos == list.Length {
          return numProtos;
        }
      }
      i := i + 1;
    }
    return numProtos;
  }

  /** The body of the loop. */
  method ReadOne(v: Variant, docs: Documents, list: array<Entry>, numProtos: nat) returns (n: nat)
    requires numProtos < list.Length
    modifies list
    ensures Progress(list[..], n) == ReadFile(READER, v, Progress(old(list[..]), numProtos), docs)
  {
    ghost var was := list[..];
    var space := list.Length - numProtos;
    assert list[numProtos..numProtos + space] == was[numProtos..];
    var found, failed := ParseYaml(RenderFile(docs), list, numProtos, space);
    n := if v.AsWritten? then found else numProtos + found;
    ghost var (slots, k) := ParseFile(was[numProtos..], docs);
    assert list[..] == was[..numProtos] + slots;
  }

  // ----- what the files give -----

  /** The descriptors one file adds when there is room for `room` more: none if one of the documents that fit lacks a
      string. */
  ghost function Gives(docs: Documents, room: nat): (r: seq<Entry>)
    ensures |r| <= room
  {
    if !CompleteUpTo(docs, room) then [] else if |docs| <= room then Entries(docs) else Entries(docs)[..room]
  }

  ghost const GIVES: Yield<Entry, Documents> := Gives

  lemma ParseFileGives(slots: seq<Entry>, docs: Documents)
    ensures var (r, found) := ParseFile(slots, docs);
            found == |Gives(docs, |slots|)| && r[..found] == Gives(docs, |slots|)
  {
    if slots != [] {
      ParseRendered(slots, docs);
      var k := if |docs| < |slots| then |docs| else |slots|;
      assert CompleteUpTo(docs, k) <==> CompleteUpTo(docs, |slots|);
      assert |docs| <= |slots| ==> Entries(docs)[..k] == Entries(docs);
    }
  }

  lemma ParseFileIsCorrect()
    ensures Correct(READER, GIVES)
  {
    forall slots: seq<Entry>, docs: Documents
      ensures var (r, found) := ParseFile(slots, docs);
              found == |Gives(docs, |slots|)| && r[..found] == Gives(docs, |slots|)
    {
      ParseFileGives(slots, docs);
    }
  }

  /** Repaired, the result is the concatenation in directory order of what each file gives, cut at the limit. */
  lemma RepairedDiscovery(list: seq<Entry>, fs: seq<File>)
    ensures var r := ReadAll(READER, Repaired, Progress(list, 0), FilesRead(fs));
            r.list[..r.n] == Expected(GIVES, FilesRead(fs), |list|)
  {
    ParseFileIsCorrect();
    RepairedAccumulates(READER, GIVES, Progress(list, 0), FilesRead(fs));
    assert list[..0] == [];
  }

  ghost predicate AllComplete(cs: seq<Documents>) {
    forall i :: 0 <= i < |cs| ==> CompleteUpTo(cs[i], |cs[i]|)
  }

  function AllOf(docs: Documents): seq<Entry> {
    Entries(docs)
  }

  lemma CompleteFilesHold(cs: seq<Documents>)
    requires AllComplete(cs)
    ensures Holds(GIVES, AllOf, cs)
  {
    forall i, room: nat | 0 <= i < |cs|
      ensures Gives(cs[i], room) == if |AllOf(cs[i])| <= room then AllOf(cs[i]) else AllOf(cs[i])[..room]
    {
      assert CompleteUpTo(cs[i], room);
    }
  }

  /** For complete files: all their descriptors in order, as far as they fit. */
  lemma CompleteDiscovery(list: seq<Entry>, fs: seq<File>)
    requires AllComplete(FilesRead(fs))
    ensures var r := ReadAll(READER, Repaired, Progress(list, 0), FilesRead(fs));
            r.list[..r.n] == Cut(Concat(AllOf, FilesRead(fs)), |list|)
  {
    var gives, cs := GIVES, FilesRead(fs);
    RepairedDiscovery(list, fs);
    CompleteFilesHold(cs);
    ExpectedIsConcat(gives, AllOf, cs, |list|);
  }

  /**
   * As written, for complete files with distinct descriptors (`name` is a
   * unique name, docs/protocols.md): the result is that concatenation exactly
   * when only the last file read has any document, or the first that has fills
   * every slot. `cs` is what the files read hold.
   */
  lemma DiscoveryIffOneFileYields(list: seq<Entry>, cs: seq<Documents>)
    requires list != [] && AllComplete(cs) && Unique(AllOf, cs)
    ensures Agrees(READER, GIVES, Progress(list, 0), cs) <==> OneFileYields(AllOf, cs, |list|)
  {
    var reader, gives, p := READER, GIVES, Progress(list, 0);
    ParseFileIsCorrect();
    CompleteFilesHold(cs);
    AgreesIff(reader, gives, AllOf, p, cs);
  }

  /** The failing family is not empty: of two files with one protocol each, only one protocol is returned. */
  lemma SecondFileHidesFirst(list: seq<Entry>, a: Documents, b: Documents)
    requires |list| > 1 && AllComplete([a, b]) && |a| == |b| == 1
    ensures ReadAll(READER, AsWritten, Progress(list, 0), [a, b]).n == 1
  {
    var cs := [a, b];
    ParseFileIsCorrect();
    var q, g := FirstFile(READER, GIVES, AsWritten, Progress(list, 0), cs);
    assert CompleteUpTo(cs[0], |list|) && CompleteUpTo(cs[1], |list| - 1);
    var t, h := FirstFile(READER, GIVES, AsWritten, q, cs[1..]);
  }

  // ----- the caller's array -----

  // The array of `tapsPreconnectionNew` has 255 slots, and it passes a limit of 256 (src/taps_preconnection.c:141, 180).

  /** The entries a file begins, whether or not it is counted in the end. */
  function BegunEntries(docs: Documents): seq<Entry> {
    Entries(docs)[..Begun(docs)]
  }

  /** What it adds to the count when there is room for more. */
  ghost function Given(docs: Documents): nat {
    if CompleteUpTo(docs, |docs|) then |docs| else 0
  }

  lemma {:induction false} CompleteMeansBegun(docs: seq<seq<Field>>)
    ensures CompleteUpTo(docs, |docs|) ==> Begun(docs) == |docs|
    ensures forall k: nat :: !CompleteUpTo(docs, |docs|) && k >= Begun(docs) ==> !CompleteUpTo(docs, k)
    decreases |docs|
  {
    if docs != [] {
      CompleteMeansBegun(docs[1..]);
      CompleteFirst(docs, |docs|);
      forall k: nat | !CompleteUpTo(docs, |docs|) && k >= Begun(docs)
        ensures !CompleteUpTo(docs, k)
      {
        CompleteFirst(docs, k);
      }
    }
  }

  lemma ParseFileBegins(slots: seq<Entry>, docs: Documents)
    ensures var m := Min(|BegunEntries(docs)|, |slots|);
            && ParseFile(slots, docs).0 == BegunEntries(docs)[..m] + slots[m..]
            && (Begun(docs) < |slots| ==> ParseFile(slots, docs).1 == Given(docs))
  {
    var m := Min(Begun(docs), |slots|);
    assert Entries(docs)[..m] == BegunEntries(docs)[..m];
    if slots != [] {
      ParseRendered(slots, docs);
      ParseFileGives(slots, docs);
      CompleteMeansBegun(docs);
      assert CompleteUpTo(docs, |docs|) ==> CompleteUpTo(docs, |slots|);
    } else {
      assert BegunEntries(docs)[..0] + slots == slots;
    }
  }

  ghost const BEGUN: Documents -> seq<Entry> := BegunEntries
  ghost const GIVEN: Documents -> nat := Given

  lemma ReaderBegins()
    ensures Begins(READER, BEGUN) && Finds(READER, BEGUN, GIVEN) && CountsAlone(READER)
  {
    forall slots: seq<Entry>, docs: Documents
      ensures var m := if |BEGUN(docs)| <= |slots| then |BEGUN(docs)| else |slots|;
              READER(slots, docs).0 == BEGUN(docs)[..m] + slots[m..]
      ensures |BEGUN(docs)| < |slots| ==> READER(slots, docs).1 == GIVEN(docs) <= |BEGUN(docs)|
      ensures READER(slots, docs).1 == |Gives(docs, |slots|)|
    {
      ParseFileBegins(slots, docs);
      ParseFileGives(slots, docs);
      CompleteMeansBegun(docs);
    }
  }

  /**
   * With the limit of 256, for any files, the memory behind the 255 slots is
   * written exactly when a file begins so many documents that it ends behind
   * the 255th slot: counted, as written, from where the file before it ended,
   * and repaired, from where all files before it did. (An incomplete document
   * is begun, and its file gives none.)
   */
  lemma LimitBeyondArrayIff(v: Variant, cs: seq<Documents>)
    ensures WritesLast(READER, v, 256, cs) <==> SomeFileReaches(BEGUN, GIVEN, v, 0, 256, cs)
  {
    ReaderBegins();
    WritesLastIff(READER, BEGUN, GIVEN, v, 256, cs, Blank(), Blank().(name := Some("")));
  }

  function Lengths(cs: seq<Documents>): (r: seq<nat>)
    ensures |r| == |cs|
  {
    seq(|cs|, i requires 0 <= i < |cs| => |cs[i]|)
  }

  lemma CompleteFilesGiveAll(cs: seq<Documents>)
    requires AllComplete(cs)
    ensures AllGiven(BEGUN, GIVEN, cs, Lengths(cs))
  {
    forall i | 0 <= i < |cs|
      ensures |BEGUN(cs[i])| == GIVEN(cs[i]) == |cs[i]|
    {
      CompleteMeansBegun(cs[i]);
    }
  }

  /** Of complete files: as written, when one file, alone or with the one read just before it, has more than 255
      documents; repaired, when all together have. */
  lemma CompleteFilesBeyondArrayIff(cs: seq<Documents>, lengths: seq<nat>)
    requires AllComplete(cs) && lengths == Lengths(cs)
    ensures WritesLast(READER, AsWritten, 256, cs) <==> PairReaches(lengths, 256)
    ensures WritesLast(READER, Repaired, 256, cs) <==> SumOf(lengths) >= 256
  {
    CompleteFilesGiveAll(cs);
    ReaderBegins();
    CompleteFilesWriteLastIff(READER, BEGUN, GIVEN, 256, cs, lengths, Blank(), Blank().(name := Some("")));
  }

  /** The failing family is not empty, though no file alone is too long: of two files with 200 and 56 documents, the last
      document lies behind the array. */
  lemma TwoFilesGoBeyondArray(a: Documents, b: Documents)
    requires AllComplete([a, b]) && |a| == 200 && |b| == 56
    ensures WritesLast(READER, AsWritten, 256, [a, b])
  {
    var lengths := Lengths([a, b]);
    CompleteFilesBeyondArrayIff([a, b], lengths);
    assert Before(lengths, 1) + lengths[1] >= 256;
  }
}
