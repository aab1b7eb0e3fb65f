/** The configuration file that comes with the system (kernel.yaml): its events, and what they parse to. */
module KernelConfig {
  import opened Common
  import opened Abilities
  import opened YamlConfig

  /** A document of that file: one mapping, its last field a sequence. */
  function Document(name: string, protocol: string, libpath: string, abilities: seq<Event>): seq<Event> {
    [DocumentStart, MappingStart,
     Scalar("name"), Scalar(name),
     Scalar("protocol"), Scalar(protocol),
     Scalar("libpath"), Scalar(libpath),
     Scalar("properties"), SequenceStart]
    + abilities
    + [SequenceEnd, MappingEnd, DocumentEnd]
  }

  function Tcp(): seq<Event> {
    [Scalar("reliability"), Scalar("preserveOrder"), Scalar("zeroRttMsg"), Scalar("FullChecksumSend"),
     Scalar("FullChecksumRecv"), Scalar("activeReadBeforeSend"), Scalar("congestionControl"), Scalar("keepAlive"),
     Scalar("activeReadBeforeSend")]
  }

  function Udp(): seq<Event> {
    [Scalar("preserveMsgBoundaries"), Scalar("zeroRttMsg"), Scalar("FullChecksumSend"), Scalar("FullChecksumRecv"),
     Scalar("activeReadBeforeSend")]
  }

  const TCP_LIBPATH := "/usr/lib/x86_64-linux-gnu/libtaps_tcp.so"
  const UDP_LIBPATH := "/usr/lib/x86_64-linux-gnu/libtaps_udp.so"

  function KernelYaml(): seq<Event> {
    [StreamStart]
    + Document("_kernel_TCP", "TCP", TCP_LIBPATH, Tcp())
    + Document("_kernel_UDP", "UDP", UDP_LIBPATH, Udp())
    + [StreamEnd]
  }

  /** A document with the fields in this order. */
  function Fields(name: string, protocol: string, libpath: string, names: seq<string>): seq<Field> {
    [Name(name), Protocol(protocol), Libpath(libpath), Abilities(names)]
  }

  lemma {:induction false} ScalarsAre(names: seq<string>)
    ensures |Scalars(names)| == |names| && forall i :: 0 <= i < |names| ==> Scalars(names)[i] == Scalar(names[i])
  {
    if names != [] {
      ScalarsAre(names[1..]);
    }
  }

  lemma RenderedFields(name: string, protocol: string, libpath: string, names: seq<string>)
    ensures RenderFields(Fields(name, protocol, libpath, names)) ==
            [Scalar("name"), Scalar(name), Scalar("protocol"), Scalar(protocol), Scalar("libpath"), Scalar(libpath),
             Scalar("properties"), SequenceStart] + Scalars(names) + [SequenceEnd]
  {
    var a, p, l, n := Abilities(names), Protocol(protocol), Libpath(libpath), Name(name);
    assert RenderFields([]) == [] && [a][1..] == [] && [l, a][1..] == [a] && [p, l, a][1..] == [l, a];
    assert [n, p, l, a][1..] == [p, l, a];
    assert RenderFields([a]) == RenderField(a);
    assert RenderFields([l, a]) == RenderField(l) + RenderField(a);
    assert RenderFields([p, l, a]) == RenderField(p) + RenderFields([l, a]);
    assert RenderFields([n, p, l, a]) == RenderField(n) + RenderFields([p, l, a]);
  }

  lemma EntryOfFields(name: string, protocol: string, libpath: string, names: seq<string>)
    ensures EntryOf(Fields(name, protocol, libpath, names))
            == AddAbilities(Entry(Some(name), Some(protocol), Some(libpath), Zero()), names)
  {
    var fs := Fields(name, protocol, libpath, names);
    var e1, e2 := Apply(Blank(), fs[0]), Apply(Apply(Blank(), fs[0]), fs[1]);
    var e3 := Apply(e2, fs[2]);
    assert fs[1..][1..][1..] == [fs[3]] && [fs[3]][1..] == [];
    assert ApplyAll(e3, [fs[3]]) == Apply(e3, fs[3]);
    assert ApplyAll(e2, fs[1..][1..]) == ApplyAll(e3, [fs[3]]);
    assert ApplyAll(e1, fs[1..]) == ApplyAll(e2, fs[1..][1..]);
  }

  lemma OneAbility(e: Entry, name: string, i: nat)
    requires i < COUNT
    ensures WithAbility(e, name).properties[i] <==> e.properties[i] || i == Position(name)
  {
  }

  lemma MemberNext(bits: seq<nat>, i: nat)
    requires bits != []
    ensures i in bits <==> i == bits[0] || i in bits[1..]
  {
    assert bits == [bits[0]] + bits[1..];
  }

  lemma {:induction false} BitAdded(e: Entry, names: seq<string>, bits: seq<nat>, i: nat)
    requires |bits| == |names| && (forall k :: 0 <= k < |names| ==> Position(names[k]) == bits[k]) && i < COUNT
    ensures AddAbilities(e, names).properties[i] <==> e.properties[i] || i in bits
    decreases |names|
  {
    if names != [] {
      OneAbility(e, names[0], i);
      MemberNext(bits, i);
      BitAdded(WithAbility(e, names[0]), names[1..], bits[1..], i);
    }
  }

  /** The entry of such a document, given the bits of its abilities. */
  lemma EntryWithBits(name: string, protocol: string, libpath: string, names: seq<string>, bits: seq<nat>, w: Word)
    requires |bits| == |names| && forall k :: 0 <= k < |names| ==> Position(names[k]) == bits[k]
    requires forall i :: 0 <= i < COUNT ==> w[i] == (i in bits)
    ensures EntryOf(Fields(name, protocol, libpath, names)) == Entry(Some(name), Some(protocol), Some(libpath), w)
  {
    var e := Entry(Some(name), Some(protocol), Some(libpath), Zero());
    EntryOfFields(name, protocol, libpath, names);
    AbilitiesKeepStrings(e, names);
    forall i | 0 <= i < COUNT
      ensures AddAbilities(e, names).properties[i] == w[i]
    {
      BitAdded(e, names, bits, i);
    }
    WordsEqualIff(AddAbilities(e, names).properties, w);
  }

  lemma TwoDocuments(slots: seq<Entry>, a: seq<Field>, b: seq<Field>)
    requires |slots| >= 2 && AllWellFormed([a]) && AllWellFormed([b]) && Complete(EntryOf(a)) && Complete(EntryOf(b))
    ensures var s := Parse(slots, [StreamStart] + RenderDocument(a) + RenderDocument(b) + [StreamEnd]);
            s.status == Finished && Result(s) == 2 && s.slots == [EntryOf(a), EntryOf(b)] + slots[2..]
  {
    var docs := [a, b];
    assert [a][0] == a && [b][0] == b && AllWellFormed(docs);
    assert docs[1..] == [b] && [b][1..] == [];
    assert RenderDocuments([b]) == RenderDocument(b) + RenderDocuments([]);
    assert RenderDocuments(docs) == RenderDocument(a) + RenderDocument(b);
    assert RenderFile(docs) == [StreamStart] + RenderDocument(a) + RenderDocument(b) + [StreamEnd];
    ParseRendered(slots, docs);
    assert Entries(docs)[..2] == [EntryOf(a), EntryOf(b)];
  }

  lemma RenderedDocument(name: string, protocol: string, libpath: string, names: seq<string>, abilities: seq<Event>)
    requires |abilities| == |names| && forall i :: 0 <= i < |names| ==> abilities[i] == Scalar(names[i])
    ensures RenderDocument(Fields(name, protocol, libpath, names)) == Document(name, protocol, libpath, abilities)
  {
    RenderedFields(name, protocol, libpath, names);
    ScalarsAre(names);
    assert Scalars(names) == abilities;
  }

  lemma BitOf(name: string, bit: nat)
    requires bit < COUNT && NAMES[bit] == name
    ensures Position(name) == bit
  {
    NameAt(name, bit);
  }

  lemma TcpAbilities() returns (names: seq<string>, bits: seq<nat>)
    ensures |names| == |Tcp()| == |bits| && forall i :: 0 <= i < |names| ==> Tcp()[i] == Scalar(names[i])
    ensures bits == [0, 3, 4, 6, 7, 15, 8, 9, 15] && forall i :: 0 <= i < |names| ==> Position(names[i]) == bits[i]
  {
    names := ["reliability", "preserveOrder", "zeroRttMsg", "FullChecksumSend", "FullChecksumRecv", "activeReadBeforeSend",
              "congestionControl", "keepAlive", "activeReadBeforeSend"];
    bits := [0, 3, 4, 6, 7, 15, 8, 9, 15];
    forall i | 0 <= i < |names|
      ensures Position(names[i]) == bits[i]
    {
      BitOf(names[i], bits[i]);
    }
  }

  lemma UdpAbilities() returns (names: seq<string>, bits: seq<nat>)
    ensures |names| == |Udp()| == |bits| && forall i :: 0 <= i < |names| ==> Udp()[i] == Scalar(names[i])
    ensures bits == [1, 4, 6, 7, 15] && forall i :: 0 <= i < |names| ==> Position(names[i]) == bits[i]
  {
    names := ["preserveMsgBoundaries", "zeroRttMsg", "FullChecksumSend", "FullChecksumRecv", "activeReadBeforeSend"];
    bits := [1, 4, 6, 7, 15];
    forall i | 0 <= i < |names|
      ensures Position(names[i]) == bits[i]
    {
      BitOf(names[i], bits[i]);
    }
  }

  function WordOf(bits: set<nat>): Word {
    seq(COUNT, i requires 0 <= i < COUNT => i in bits)
  }

  lemma DocumentParses(name: string, protocol: string, libpath: string, names: seq<string>, bits: seq<nat>, w: set<nat>,
                       abilities: seq<Event>) returns (fs: seq<Field>)
    requires |abilities| == |names| && forall i :: 0 <= i < |names| ==> abilities[i] == Scalar(names[i])
    requires |bits| == |names| && forall i :: 0 <= i < |names| ==> Position(names[i]) == bits[i]
    requires forall i: nat :: i in w <==> i in bits
    ensures RenderDocument(fs) == Document(name, protocol, libpath, abilities)
    ensures AllWellFormed([fs]) && EntryOf(fs) == Entry(Some(name), Some(protocol), Some(libpath), WordOf(w))
  {
    fs := Fields(name, protocol, libpath, names);
    RenderedDocument(name, protocol, libpath, names, abilities);
    EntryWithBits(name, protocol, libpath, names, bits, WordOf(w));
  }

  /** The file parses to its two descriptors, with the bits of the abilities it lists for each. */
  lemma KernelParses(slots: seq<Entry>)
    requires |slots| >= 2
    ensures var s := Parse(slots, KernelYaml());
            && s.status == Finished && Result(s) == 2
            && s.slots == [Entry(Some("_kernel_TCP"), Some("TCP"), Some(TCP_LIBPATH), WordOf({0, 3, 4, 6, 7, 8, 9, 15})),
                           Entry(Some("_kernel_UDP"), Some("UDP"), Some(UDP_LIBPATH), WordOf({1, 4, 6, 7, 15}))]
                          + slots[2..]
  {
    var tcp, tcpBits := TcpAbilities();
    var udp, udpBits := UdpAbilities();
    var a := DocumentParses("_kernel_TCP", "TCP", TCP_LIBPATH, tcp, tcpBits, {0, 3, 4, 6, 7, 8, 9, 15}, Tcp());
    var b := DocumentParses("_kernel_UDP", "UDP", UDP_LIBPATH, udp, udpBits, {1, 4, 6, 7, 15}, Udp());
    TwoDocuments(slots, a, b);
  }
}
