/**
 * A connection on the heap (src/taps_connection.c over src/tcp/tcp.c): linked
 * queues, flags, and the protocol's pending events. The fields of
 * `tapsConnection` and of the protocol's `conn_ctx` are grouped by direction.
 * Each method is one call or one event, and refines the step of SendEngine or
 * ReceiveEngine that the ghost field records.
 */
module Connections {
  import opened Common
  import opened ScatterList
  import opened ItemQueue
  import S = SendEngine
  import R = ReceiveEngine

  class Sender {
    const variant: Variant
    // tapsConnection
    const sndq: Queue<S.Msg>
    var sendReady: bool
    // conn_ctx
    var sendPending: bool
    var sendCtx: Node?<S.Msg>

    ghost var state: S.State

    ghost predicate Valid()
      reads this, sndq, sndq.nodes
    {
      && sndq.Valid() && sndq.items == state.queue && sendReady == state.ready
      && (sendPending <==> state.outstanding.Some?)
      && (sendPending ==>
            state.outstanding.value < |sndq.nodes| && sendCtx == sndq.nodes[state.outstanding.value])
    }

    constructor (variant: Variant)
      ensures Valid() && fresh(sndq) && state == S.Init && this.variant == variant
    {
      this.variant := variant;
      sndq := new Queue();
      sendReady, sendPending, sendCtx := true, false, null;
      state := S.Init;
    }

    /** The protocol's `Send`; `accept` says whether writev and event_add succeed. */
    method Post(item: Node<S.Msg>, accept: bool) returns (ret: int)
      modifies this`sendPending, this`sendCtx
      ensures var took := !old(sendPending) && accept;
              && ret == (if took then |item.data.bytes| else -1)
              && sendPending == (old(sendPending) || accept)
              && sendCtx == (if took then item else old(sendCtx))
    {
      if sendPending {
        return -1;
      }
      if !accept {
        return -1;
      }
      sendCtx := item;
      sendPending := true;
      return |item.data.bytes|;
    }

    /** `tapsConnectionSend`. */
    method Send(msg: S.Msg, accept: bool) returns (ret: int)
      requires Valid()
      modifies this, sndq, sndq.nodes
      ensures Valid()
      ensures state == S.SubmitStep(variant, old(state), msg, accept)
      ensures ret == S.SubmitCode(old(state), msg, accept)
      ensures sndq.items == old(sndq.items) + [msg]
    {
      var item := sndq.Add(msg);
      ghost var was := state;
      state := S.SubmitStep(variant, was, msg, accept);
      ret := 0;
      if sendReady {
        if variant.Repaired? {
          sendReady := false;
        }
        ret := Post(item, accept);
      }
    }

    /** `_taps_send_common`: unlink the item, then hand over the one behind it or become ready. */
    method SendCommon(item: Node<S.Msg>, ghost k: nat, accept: bool)
      requires sndq.Valid() && k < |sndq.nodes| && sndq.nodes[k] == item && !sendPending
      modifies this`sendReady, this`sendPending, this`sendCtx, sndq, sndq.nodes
      ensures sndq.Valid() && sndq.nodes == Without(old(sndq.nodes), k)
      ensures sndq.items == Without(old(sndq.items), k)
      ensures item.freed && item.data == old(item.data)
      ensures var last := k == |old(sndq.nodes)| - 1;
              && sendReady == (last || old(sendReady))
              && sendPending == (!last && accept)
              && (sendPending ==> k < |sndq.nodes| && sendCtx == sndq.nodes[k])
    {
      var next := item.next;
      sndq.Delete(item, k);
      if next == null {
        sendReady := true;
        return;
      }
      var ret := Post(next, accept);
    }

    /** The pending send event fires; `_taps_sent`, `_taps_expired` or `_taps_send_error` runs, and makes the callback. */
    method Completed(outcome: S.Outcome, accept: bool) returns (callback: S.Callback)
      requires Valid() && sendPending
      modifies this, sndq, sndq.nodes
      ensures Valid()
      ensures state == S.CompleteStep(old(state), outcome, accept)
      ensures state.done == old(state.done) + [callback]
    {
      sendPending := false;
      var item := sendCtx;
      ghost var k, was := state.outstanding.value, state;
      assert item.data == sndq.items[k];
      callback := S.Callback(item.data, outcome);
      S.CompleteStepParts(was, outcome, accept);
      state := S.CompleteStep(was, outcome, accept);
      SendCommon(item, k, accept);
      assert sendPending ==> state.outstanding == Some(k);
    }

    /** The first loop of `tapsConnectionFree`, as written. From inside the k-th callback the application sends
        `reactions[k]`. */
    method FreeAsWritten(reactions: seq<seq<S.Msg>>) returns (notified: seq<S.Msg>, touchesFreed: bool)
      requires Valid()
      modifies this, sndq, sndq.nodes
      ensures touchesFreed <==> S.TeardownAsWritten(old(state), reactions) == None
      ensures touchesFreed <==> DrainFaults(|old(state).queue|, reactions)
      ensures !touchesFreed ==> sndq.tail == null && notified == Answered(old(state).queue, reactions)
    {
      S.TeardownAsWrittenIff(state, reactions);
      DrainLoopIff(state.queue, reactions);
      notified, touchesFreed := sndq.DrainAsWritten(reactions);
    }

    /** The same loop, repaired: every queued message is answered, newest first, and its item freed. */
    method FreeRepaired(reactions: seq<seq<S.Msg>>) returns (notified: seq<S.Msg>)
      requires Valid()
      modifies this, sndq, sndq.nodes
      ensures Valid() && state == S.Teardown(old(state), reactions)
      ensures notified == Answered(old(state).queue, reactions)
      ensures |state.done| == |old(state).done| + |notified| && old(state).done <= state.done
      ensures forall i :: 0 <= i < |notified| ==> state.done[|old(state).done| + i] == S.Callback(notified[i], S.SendError)
      ensures forall n :: n in old(sndq.nodes) ==> n.freed
    {
      ghost var was := state;
      notified := sndq.DrainRepaired(reactions);
      sendPending := false;
      state := S.Teardown(was, reactions);
    }
  }

  class Receiver {
    const variant: Variant
    // tapsConnection
    const rcvq: Queue<R.Item>
    var receiveReady: bool
    // conn_ctx; an iovec pointer is the list it points at and that list's identity
    var receivePending: bool
    var receiveCtx: Node?<R.Item>
    var receiveBuffer: seq<Iov>
    var bufferId: R.ListId
    // what readv writes to, and what malloc and free have done
    var mem: Memory
    var listsMade: nat
    var listsFreed: seq<R.ListId>

    ghost var state: R.State

    ghost predicate Valid()
      reads this, rcvq, rcvq.nodes
    {
      && rcvq.Valid() && rcvq.items == state.queue && receiveReady == state.ready && mem == state.mem
      && listsMade == state.made && listsFreed == state.freed
      && (receivePending <==> state.op.Some?)
      && (receivePending ==>
            && state.op.value.pos < |rcvq.nodes| && receiveCtx == rcvq.nodes[state.op.value.pos]
            && state.op.value.vec == receiveBuffer && state.op.value.list == bufferId)
    }

    constructor (variant: Variant, mem: Memory)
      ensures Valid() && fresh(rcvq) && state == R.Init(mem) && this.variant == variant
    {
      this.variant, this.mem := variant, mem;
      rcvq := new Queue();
      receiveReady, receivePending := true, false;
      receiveCtx, receiveBuffer, bufferId, listsMade, listsFreed := null, [], R.Own(0), 0, [];
      state := R.Init(mem);
    }

    /** The protocol's `Receive`. */
    method Post(item: Node<R.Item>, iovec: seq<Iov>, id: R.ListId) returns (ret: int)
      modifies this`receivePending, this`receiveCtx, this`receiveBuffer, this`bufferId
      ensures receivePending && ret == (if old(receivePending) then -1 else 0)
      ensures old(receivePending) ==>
                receiveCtx == old(receiveCtx) && receiveBuffer == old(receiveBuffer) && bufferId == old(bufferId)
      ensures !old(receivePending) ==> receiveCtx == item && receiveBuffer == iovec && bufferId == id
    {
      if receivePending {
        return -1;
      }
      receiveCtx, receiveBuffer, bufferId := item, iovec, id;
      receivePending := true;
      return 0;
    }

    /** `tapsConnectionReceive`: refused unless all three callbacks are there. */
    method Receive(req: R.Request, callbacksPresent: bool) returns (ret: int)
      requires Valid()
      modifies this, rcvq, rcvq.nodes
      ensures Valid()
      ensures ret == if callbacksPresent then 0 else -1
      ensures state == if callbacksPresent then R.SubmitStep(old(state), req) else old(state)
      ensures rcvq.items == old(rcvq.items) + if callbacksPresent then [R.Item(req, 0)] else []
    {
      if !callbacksPresent {
        return -1;
      }
      ghost var was := state;
      var item := rcvq.Add(R.Item(req, 0));
      state := R.SubmitStep(was, req);
      if receiveReady {
        receiveReady := false;
        var posted := Post(item, req.vec, R.Own(req.message));
      }
      return 0;
    }

    /** The read event fires: it is pending no longer, and the kernel has put `data` where the posted list says. The item
      counts the bytes; a list that is not its message's own is freed. */
    method ReadEvent(data: seq<byte>, final: bool) returns (item: Node<R.Item>)
      requires Valid() && R.CanRead(state, data)
      modifies this`receivePending, this`mem, this`listsFreed, this`state, rcvq`items, rcvq.nodes
      ensures Valid() && state == R.ReadInto(old(state), data, final) && !receivePending
      ensures old(state).op.value.pos < |rcvq.nodes| && item == rcvq.nodes[old(state).op.value.pos]
    {
      ghost var k, was := state.op.value.pos, state;
      receivePending := false;
      mem := Fill(mem, Addrs(receiveBuffer), data);
      item := receiveCtx;
      assert item.data == rcvq.items[k];
      if bufferId != R.Own(item.data.req.message) {
        listsFreed := listsFreed + [bufferId];
      }
      rcvq.Update(item, item.data.(currLength := item.data.currLength + |data|), k);
      state := R.ReadInto(was, data, final);
    }

    /** The read event fires, and `readv` fails or has nothing: the protocol returns without a callback. */
    method ReadLost()
      requires Valid() && receivePending
      modifies this`receivePending, this`state
      ensures Valid() && state == R.LostStep(old(state)) && !receivePending
    {
      receivePending := false;
      state := R.LostStep(state);
    }

    /** Unlink the item and report it, with its length unless it is an error. As written the length is read from the item
        just freed. */
    method Deliver(item: Node<R.Item>, ghost k: nat, kind: R.Kind) returns (length: Option<nat>, touchesFreed: bool)
      requires Valid() && !receivePending && k < |rcvq.nodes| && rcvq.nodes[k] == item && R.OpFits(state)
      modifies this`state, rcvq, rcvq.nodes
      ensures Valid() && state == R.Deliver(old(state), k, kind) && rcvq.nodes == Without(old(rcvq.nodes), k)
      ensures item.freed
      ensures length == if kind == R.ReceiveError then None else Some(|state.done[|old(state).done|].bytes|)
      ensures touchesFreed <==> variant.AsWritten? && kind != R.ReceiveError
    {
      ghost var was := state;
      assert item.data == rcvq.items[k] && !item.freed;
      length, touchesFreed := None, false;
      if kind != R.ReceiveError && variant.Repaired? {
        length, touchesFreed := Some(item.data.currLength), item.freed;
      }
      rcvq.Delete(item, k);
      if kind != R.ReceiveError && variant.AsWritten? {
        length, touchesFreed := Some(item.data.currLength), item.freed;
      }
      state := R.Deliver(was, k, kind);
    }

    /** Start the receive behind the one that was at `k`, if any. */
    method StartNext(next: Node?<R.Item>, ghost k: nat)
      requires Valid() && !receivePending
      requires next == if k < |rcvq.nodes| then rcvq.nodes[k] else null
      modifies this
      ensures Valid() && state == R.StartNext(old(state), k)
      ensures rcvq.nodes == old(rcvq.nodes)
    {
      ghost var was := state;
      if next != null {
        assert next.data == rcvq.items[k];
        var posted := Post(next, next.data.req.vec, R.Own(next.data.req.message));
      } else {
        receiveReady := true;
      }
      state := R.StartNext(was, k);
    }

    /** `_taps_received_partial`: below the minimum, post the rest of the message again; else report it. */
    method ReceivedPartial(data: seq<byte>) returns (length: Option<nat>, touchesFreed: bool)
      requires Valid() && R.CanRead(state, data) && data != []
      modifies this, rcvq, rcvq.nodes
      ensures Valid() && state == R.PartialStep(old(state), data)
      ensures length == if |state.done| == |old(state).done| then None else Some(|state.done[|old(state).done|].bytes|)
      ensures touchesFreed <==> variant.AsWritten? && length.Some?
    {
      ghost var k, was := state.op.value.pos, state;
      R.ReadFits(was, data, false);
      var item := ReadEvent(data, false);
      assert item.data == rcvq.items[k];
      if item.data.currLength < item.data.req.minLength {
        var r := TruncIovec(item.data.req.vec, item.data.currLength);
        var id := R.Temporary(listsMade);
        listsMade := listsMade + 1;
        var posted := Post(item, r.vec, id);
        state := R.PartialStep(was, data);
        return None, false;
      }
      var next := item.next;
      length, touchesFreed := Deliver(item, k, R.ReceivedPartial);
      StartNext(next, k);
    }

    /** `_taps_received`: the last of a message. One below its minimum is an error. */
    method Received(data: seq<byte>) returns (kind: R.Kind, length: Option<nat>, touchesFreed: bool)
      requires Valid() && R.CanRead(state, data)
      modifies this, rcvq, rcvq.nodes
      ensures Valid() && state == R.FinalStep(variant, old(state), data)
      ensures |state.done| == |old(state).done| + 1
      ensures var c := state.done[|old(state).done|];
              c.kind == kind && length == if kind == R.ReceiveError then None else Some(|c.bytes|)
      ensures touchesFreed <==> variant.AsWritten? && kind == R.Received
    {
      ghost var k, was := state.op.value.pos, state;
      R.ReadFits(was, data, true);
      var item := ReadEvent(data, true);
      assert item.data == rcvq.items[k];
      var next := item.next;
      kind := if item.data.currLength < item.data.req.minLength then R.ReceiveError else R.Received;
      length, touchesFreed := Deliver(item, k, kind);
      if variant.Repaired? {
        StartNext(next, k);
      }
    }

    /** `_taps_receive_error`. */
    method ReceiveError() returns (touchesFreed: bool)
      requires Valid() && R.CanRead(state, [])
      modifies this, rcvq, rcvq.nodes
      ensures Valid() && state == R.FailureStep(variant, old(state)) && !touchesFreed
    {
      ghost var k, was := state.op.value.pos, state;
      R.ReadFits(was, [], true);
      var item := ReadEvent([], true);
      var next := item.next;
      var length: Option<nat>;
      length, touchesFreed := Deliver(item, k, R.ReceiveError);
      if variant.Repaired? {
        StartNext(next, k);
      }
    }

    /** The second loop of `tapsConnectionFree`, as written. From inside the k-th callback the application submits
        `reactions[k]`. */
    method FreeAsWritten(reactions: seq<seq<R.Item>>) returns (notified: seq<R.Item>, touchesFreed: bool)
      requires Valid() && R.OpFits(state) && R.NewReceives(state.mem, reactions)
      modifies this, rcvq, rcvq.nodes
      ensures touchesFreed <==> R.TeardownAsWritten(old(state), reactions) == None
      ensures touchesFreed <==> DrainFaults(|old(state).queue|, reactions)
      ensures !touchesFreed ==> rcvq.tail == null && notified == Answered(old(state).queue, reactions)
    {
      R.TeardownAsWrittenIff(state, reactions);
      DrainLoopIff(state.queue, reactions);
      notified, touchesFreed := rcvq.DrainAsWritten(reactions);
    }

    /** The same loop, repaired: every queued receive is answered, newest first, and its item freed. */
    method FreeRepaired(reactions: seq<seq<R.Item>>) returns (notified: seq<R.Item>)
      requires Valid() && R.OpFits(state) && R.NewReceives(state.mem, reactions)
      modifies this, rcvq, rcvq.nodes
      ensures Valid() && state == R.Teardown(old(state), reactions)
      ensures notified == Answered(old(state).queue, reactions)
      ensures |state.done| == |old(state).done| + |notified| && old(state).done <= state.done
      ensures forall i :: 0 <= i < |notified| ==>
                var c := state.done[|old(state).done| + i]; c.kind == R.ReceiveError && c.req == notified[i].req
      ensures forall n :: n in old(rcvq.nodes) ==> n.freed
    {
      ghost var was, after := state, R.Teardown(state, reactions);
      R.TeardownCallbacks(was, reactions);
      notified := rcvq.DrainRepaired(reactions);
      receivePending := false;
      state := after;
    }
  }
}
