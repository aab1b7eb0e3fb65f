/** Two connections back to back: one sends, the other receives what the protocol carried. */
module Streams {
  import opened Common
  import opened ScatterList
  import S = SendEngine
  import R = ReceiveEngine

  lemma PrefixTransitive<T>(a: seq<T>, b: seq<T>, c: seq<T>)
    requires a <= b && b <= c
    ensures a <= c
  {
  }

  /**
   * If the protocol carries bytes reliably and in order (what has been read is
   * a prefix of what has been accepted for writing), then the receiving
   * application's callbacks spell a prefix of the bytes the sending application
   * submitted, in every run of both sides.
   */
  lemma EndToEnd(v: Variant, w: Variant, sends: seq<S.Event>, mem: Memory, receives: seq<R.Event>)
    requires S.Run(v, S.Init, sends).refused == 0
    requires R.Run(w, R.Init(mem), receives).wire <= S.Bytes(S.Run(v, S.Init, sends).handed)
    ensures R.Bytes(R.Run(w, R.Init(mem), receives).done) <= S.Bytes(S.Run(v, S.Init, sends).submitted)
  {
    var s, r := S.Run(v, S.Init, sends), R.Run(w, R.Init(mem), receives);
    S.WireIsPrefixOfSubmitted(v, sends);
    R.StreamReassembly(w, mem, receives);
    assert R.Bytes(r.done) <= r.wire;
    PrefixTransitive(R.Bytes(r.done), r.wire, S.Bytes(s.handed));
    PrefixTransitive(R.Bytes(r.done), S.Bytes(s.handed), S.Bytes(s.submitted));
  }
}
