/**
 * The intrusive doubly linked queue of `ADD_ITEM` and `DELETE_ITEM`
 * (src/taps_connection.c): the owner holds the tail, items point both ways.
 * `free` is modelled by a flag on the node, so that a use after it can be seen.
 */
module ItemQueue {
  import opened Common

  /** `q` without its element at position `k`. */
  function Without<T>(q: seq<T>, k: nat): (r: seq<T>)
    requires k < |q|
    ensures |r| == |q| - 1
  {
    q[..k] + q[k + 1..]
  }

  lemma WithoutElements<T>(q: seq<T>, k: nat)
    requires k < |q|
    ensures forall i {:trigger Without(q, k)[i]} :: 0 <= i < k ==> Without(q, k)[i] == q[i]
    ensures forall i {:trigger Without(q, k)[i]} :: k <= i < |q| - 1 ==> Without(q, k)[i] == q[i + 1]
  {
  }

  lemma WithoutRemovesOne<T>(q: seq<T>, k: nat)
    requires k < |q|
    ensures multiset(Without(q, k)) + multiset{q[k]} == multiset(q)
  {
    assert q == q[..k] + [q[k]] + q[k + 1..];
  }

  function Reversed<T>(q: seq<T>): (r: seq<T>)
    ensures |r| == |q|
  {
    if q == [] then [] else [q[|q| - 1]] + Reversed(q[..|q| - 1])
  }

  lemma {:induction false} ReversedKeepsAll<T>(q: seq<T>)
    ensures multiset(Reversed(q)) == multiset(q)
  {
    if q != [] {
      ReversedKeepsAll(q[..|q| - 1]);
      assert q == q[..|q| - 1] + [q[|q| - 1]];
    }
  }

  lemma {:induction false} ReversedAt<T>(q: seq<T>, i: nat)
    requires i < |q|
    ensures Reversed(q)[i] == q[|q| - 1 - i]
  {
    if i > 0 {
      ReversedAt(q[..|q| - 1], i - 1);
    }
  }

  /** What the application adds in the first callback, and in those after it. */
  function First<T>(reactions: seq<seq<T>>): seq<T> {
    if reactions == [] then [] else reactions[0]
  }

  function Rest<T>(reactions: seq<seq<T>>): seq<seq<T>> {
    if reactions == [] then [] else reactions[1..]
  }

  /** What is added during the first `n` callbacks. */
  function AddedDuring<T>(n: nat, reactions: seq<seq<T>>): seq<T> {
    if n == 0 || reactions == [] then [] else reactions[0] + AddedDuring(n - 1, reactions[1..])
  }

  /** The callbacks of a teardown that always takes the newest item, when the callbacks themselves add items. */
  function Answered<T>(q: seq<T>, reactions: seq<seq<T>>): seq<T>
    decreases |reactions|, |q|
  {
    if q == [] then []
    else [q[|q| - 1]] + Answered(q[..|q| - 1] + First(reactions), Rest(reactions))
  }

  /** Without such additions: newest first. */
  lemma {:induction false} AnsweredQuietly<T>(q: seq<T>)
    ensures Answered(q, []) == Reversed(q)
    decreases |q|
  {
    if q != [] {
      AnsweredQuietly(q[..|q| - 1]);
      assert q[..|q| - 1] + [] == q[..|q| - 1];
    }
  }

  /** An item added by a callback is answered next; as written, the loop has then used a freed item. */
  lemma ReactionIsAnswered<T>(a: T, b: T)
    ensures Answered([a], [[b]]) == [a, b]
    ensures DrainLoop([a], false, [[b]]) == None
    ensures DrainLoop([a], false, []) == Some([a])
  {
    assert [a][..0] + [b] == [b] && [b][..0] + [] == [];
    AnsweredNext([a], [[b]]);
    AnsweredNext([b], []);
    DrainLoopIff([a], [[b]]);
    DrainLoopIff([a], []);
    AnsweredAtMostOne([a], []);
  }

  lemma AnsweredNext<T>(q: seq<T>, reactions: seq<seq<T>>)
    requires q != []
    ensures Answered(q, reactions)
            == [q[|q| - 1]] + Answered(q[..|q| - 1] + First(reactions), Rest(reactions))
  {
  }

  /** What a teardown in progress has still to do: after `before`, it will have made all the callbacks `all`. */
  predicate Completes<T(==)>(all: seq<T>, before: seq<T>, q: seq<T>, reactions: seq<seq<T>>) {
    all == before + Answered(q, reactions)
  }

  lemma CompletesNext<T>(all: seq<T>, before: seq<T>, q: seq<T>, reactions: seq<seq<T>>)
    requires q != [] && Completes(all, before, q, reactions)
    ensures Completes(all, before + [q[|q| - 1]], q[..|q| - 1] + First(reactions), Rest(reactions))
  {
  }

  /** Every item of the queue, and every item added by one of these callbacks, has exactly one of them. */
  predicate OnceEach<T(==)>(q: seq<T>, reactions: seq<seq<T>>, callbacks: seq<T>) {
    multiset(callbacks) == multiset(q) + multiset(AddedDuring(|callbacks|, reactions))
  }

  lemma CountsAdd<T>(a: seq<T>, b: seq<T>)
    ensures multiset(a + b) == multiset(a) + multiset(b)
  {
  }

  lemma OnceNext<T>(q: seq<T>, reactions: seq<seq<T>>, rest: seq<T>)
    requires q != [] && OnceEach(q[..|q| - 1] + First(reactions), Rest(reactions), rest)
    ensures OnceEach(q, reactions, [q[|q| - 1]] + rest)
  {
    var front, last, added, later := q[..|q| - 1], [q[|q| - 1]], First(reactions), AddedDuring(|rest|, Rest(reactions));
    assert AddedDuring(|rest| + 1, reactions) == added + later;
    assert multiset(q) == multiset(front) + multiset(last) by {
      assert q == front + last;
      CountsAdd(front, last);
    }
    CountsAdd(front, added);
    CountsAdd(added, later);
    CountsAdd(last, rest);
  }

  lemma {:induction false} AnsweredOnce<T>(q: seq<T>, reactions: seq<seq<T>>)
    ensures OnceEach(q, reactions, Answered(q, reactions))
    decreases |reactions|, |q|
  {
    if q != [] {
      var next := q[..|q| - 1] + First(reactions);
      AnsweredOnce(next, Rest(reactions));
      AnsweredNext(q, reactions);
      OnceNext(q, reactions, Answered(next, Rest(reactions)));
    }
  }

  /**
   * The callbacks of the loop as it is written, which unlinks whatever is last
   * after the callback and frees the item before that; none if a round finds
   * that its last item (`lastFreed`) has been freed.
   */
  function DrainLoop<T>(q: seq<T>, lastFreed: bool, reactions: seq<seq<T>>): Option<seq<T>>
    decreases if q == [] || lastFreed then 0 else 1
  {
    if q == [] then Some([])
    else if lastFreed then None
    else
      var grown := q + First(reactions);
      match DrainLoop(grown[..|grown| - 1], |grown| > 1, Rest(reactions))
      case None => None
      case Some(rest) => Some([q[|q| - 1]] + rest)
  }

  /** Two items, or one whose callback adds another. */
  predicate DrainFaults<T>(n: nat, reactions: seq<seq<T>>) {
    n >= 2 || (n == 1 && First(reactions) != [])
  }

  lemma AnsweredAtMostOne<T>(q: seq<T>, reactions: seq<seq<T>>)
    ensures !DrainFaults(|q|, reactions) ==> Answered(q, reactions) == q
  {
    if !DrainFaults(|q|, reactions) && q != [] {
      assert q[..0] + First(reactions) == [];
      assert Answered(q, reactions) == [q[0]] + Answered([], Rest(reactions));
    }
  }

  /** The loop as written makes the callbacks it should, or uses a freed item: it is sound for at most one item, whose
      callback adds none. */
  lemma DrainLoopIff<T>(q: seq<T>, reactions: seq<seq<T>>)
    ensures DrainLoop(q, false, reactions) == if DrainFaults(|q|, reactions) then None else Some(Answered(q, reactions))
  {
    if q != [] {
      var grown := q + First(reactions);
      var rest := DrainLoop(grown[..|grown| - 1], |grown| > 1, Rest(reactions));
      if DrainFaults(|q|, reactions) {
        assert rest == None;
      } else {
        AnsweredAtMostOne(q, reactions);
        assert grown == q && q[..0] == [];
      }
    }
  }

  class Node<T> {
    var data: T
    var next: Node?<T>
    var prev: Node?<T>
    var freed: bool

    constructor (data: T, prev: Node?<T>)
      ensures this.data == data && this.prev == prev && next == null && !freed
    {
      this.data, this.prev := data, prev;
      next, freed := null, false;
    }
  }

  /** `ns` is a chain of live nodes, linked both ways and ending at both ends. */
  ghost predicate Linked<T>(ns: seq<Node<T>>)
    reads ns
  {
    && (forall i, j :: 0 <= i < j < |ns| ==> ns[i] != ns[j])
    && (forall i {:trigger ns[i].next} :: 0 <= i < |ns| ==> ns[i].next == if i == |ns| - 1 then null else ns[i + 1])
    && (forall i {:trigger ns[i].prev} :: 0 <= i < |ns| ==> ns[i].prev == if i == 0 then null else ns[i - 1])
    && (forall i {:trigger ns[i].freed} :: 0 <= i < |ns| ==> !ns[i].freed)
  }

  ghost function Last<T>(ns: seq<Node<T>>): Node?<T> {
    if ns == [] then null else ns[|ns| - 1]
  }

  class Queue<T> {
    var tail: Node?<T>
    ghost var nodes: seq<Node<T>>  // oldest first
    ghost var items: seq<T>        // what they hold

    ghost predicate Valid()
      reads this, nodes
    {
      && Linked(nodes)
      && tail == Last(nodes)
      && |items| == |nodes|
      && (forall i {:trigger nodes[i].data} :: 0 <= i < |nodes| ==> nodes[i].data == items[i])
    }

    constructor ()
      ensures Valid() && nodes == [] && items == []
    {
      tail := null;
      nodes, items := [], [];
    }

    /** `ADD_ITEM`: a fresh item goes behind the tail. */
    method Add(data: T) returns (item: Node<T>)
      requires Valid()
      modifies this, nodes
      ensures Valid() && fresh(item)
      ensures nodes == old(nodes) + [item]
      ensures items == old(items) + [data]
    {
      item := new Node(data, tail);
      if tail != null {
        assert tail == nodes[|nodes| - 1];
        tail.next := item;
      }
      tail := item;
      nodes, items := nodes + [item], items + [data];
    }

    /** The owner of a queued item changes what it holds. */
    method Update(item: Node<T>, data: T, ghost k: nat)
      requires Valid() && k < |nodes| && nodes[k] == item
      modifies this`items, item`data
      ensures Valid() && items == old(items)[k := data] && item.data == data
    {
      item.data := data;
      items := items[k := data];
    }

    /** The pointer surgery of `DELETE_ITEM`: head, middle or tail, only that item leaves the chain, and is freed. */
    method Unlink(item: Node<T>, ghost k: nat)
      requires Linked(nodes) && tail == Last(nodes) && k < |nodes| && nodes[k] == item
      modifies `tail, nodes
      ensures Linked(Without(nodes, k)) && tail == Last(Without(nodes, k))
      ensures item.freed && forall i :: 0 <= i < |nodes| ==> nodes[i].data == old(nodes[i].data)
    {
      if item.prev != null {
        assert item.prev == nodes[k - 1];
        item.prev.next := item.next;
      }
      if item.next != null {
        assert item.next == nodes[k + 1];
        item.next.prev := item.prev;
      } else {
        assert k == |nodes| - 1;
        tail := item.prev;
      }
      item.freed := true;
      WithoutElements(nodes, k);
    }

    /** `DELETE_ITEM`: the queue loses the item at position `k` and keeps all others in order. */
    method Delete(item: Node<T>, ghost k: nat)
      requires Valid() && k < |nodes| && nodes[k] == item
      modifies this, nodes
      ensures Valid() && nodes == Without(old(nodes), k) && items == Without(old(items), k)
      ensures item.freed && item.data == old(item.data)
    {
      Unlink(item, k);
      ghost var was, held := nodes, items;
      nodes, items := Without(was, k), Without(held, k);
      assert forall i {:trigger nodes[i]} :: 0 <= i < |nodes| ==> nodes[i] == was[if i < k then i else i + 1];
    }

    /** What an application adds from inside a callback. */
    method AddAll(data: seq<T>)
      requires Valid()
      modifies this, nodes
      ensures Valid() && items == old(items) + data
      ensures |nodes| == |old(nodes)| + |data| && nodes[..|old(nodes)|] == old(nodes)
      ensures forall i :: |old(nodes)| <= i < |nodes| ==> fresh(nodes[i])
    {
      ghost var was, held := nodes, items;
      for i := 0 to |data|
        invariant Valid() && items == held + data[..i]
        invariant |nodes| == |was| + i && nodes[..|was|] == was
        invariant forall k :: |was| <= k < |nodes| ==> fresh(nodes[k])
      {
        var item := Add(data[i]);
        assert data[..i + 1] == data[..i] + [data[i]];
      }
      assert data[..|data|] == data;
    }

    /**
     * The teardown loop as it is written: the argument of `DELETE_ITEM` is the
     * tail itself, read again after the callback, which the macro moves before
     * it frees it. So it unlinks what the callback added last instead of the
     * item just notified, never frees what it unlinks, frees the predecessor,
     * and reads that one in the next round. In the k-th callback the
     * application adds `reactions[k]`.
     */
    method DrainAsWritten(reactions: seq<seq<T>>) returns (notified: seq<T>, touchesFreed: bool)
      requires Valid()
      modifies this, nodes
      ensures touchesFreed <==> DrainLoop(old(items), false, reactions) == None
      ensures !touchesFreed ==> tail == null && DrainLoop(old(items), false, reactions) == Some(notified)
      ensures |old(nodes)| == 1 && !touchesFreed ==> !old(nodes)[0].freed
    {
      DrainLoopIff(items, reactions);
      AnsweredAtMostOne(items, reactions);
      notified, touchesFreed := [], false;
      ghost var held, all := items, DrainLoop(items, false, reactions);
      assert all == if DrainFaults(|held|, reactions) then None else Some(held);
      ghost var n, turns, m := |nodes|, 0, |nodes|;
      while tail != null
        invariant 0 <= turns <= 1
        invariant turns == 0 ==> notified == [] && unchanged(this) && unchanged(nodes)
        invariant turns == 1 ==> n > 0 && m == n + |First(reactions)| && notified == [held[n - 1]]
        invariant turns == 1 && m == 1 ==> tail == null && !old(nodes)[0].freed
        invariant turns == 1 && m > 1 ==> tail != null && tail.freed
        decreases 1 - turns
      {
        if tail.freed {
          return notified, true;
        }
        notified := notified + [tail.data];
        AddAll(First(reactions));
        m := |nodes|;
        assert m == 1 ==> nodes[..n] == nodes;
        assert tail == nodes[m - 1] && tail.prev == if m == 1 then null else nodes[m - 2];
        if tail.prev != null {
          tail.prev.next := tail.next;
        }
        assert tail.next == null;  // the macro's other branch cannot be taken
        tail := tail.prev;
        if tail != null {
          tail.freed := true;
        }
        turns := turns + 1;
      }
      assert all.Some? ==> notified == held;
    }

    /** One round of the loop with the item held in a variable: its callback is made, during which the application adds
        the first of `reactions`, and it is unlinked from wherever it is by then. */
    method AnswerNewest(reactions: seq<seq<T>>, ghost all: seq<T>, ghost before: seq<T>) returns (data: T)
      requires Valid() && nodes != [] && Completes(all, before, items, reactions)
      modifies this, nodes
      ensures Valid() && data == old(items[|items| - 1])
      ensures items == old(items)[..|old(items)| - 1] + First(reactions)
      ensures Completes(all, before + [data], items, Rest(reactions))
      ensures forall i :: 0 <= i < |nodes| ==> nodes[i] in old(nodes) || fresh(nodes[i])
      ensures forall n :: n in old(nodes) ==> n in nodes || n.freed
    {
      var item := tail;
      ghost var k, was, held := |nodes| - 1, nodes, items;
      data := item.data;
      var more := First(reactions);
      AddAll(more);
      ghost var grown := nodes;
      assert was == grown[..k + 1] && grown[k] == item;
      Delete(item, k);
      WithoutElements(grown, k);
      WithoutElements(held + more, k);
      assert items == held[..k] + more;
      assert forall i :: 0 <= i < k ==> was[i] == nodes[i];
      CompletesNext(all, before, held, reactions);
    }

    /** The teardown loop with the item held in a variable: it notifies all items, newest first, those added by the
        callbacks included, and frees them. */
    method DrainRepaired(reactions: seq<seq<T>>) returns (notified: seq<T>)
      requires Valid()
      modifies this, nodes
      ensures Valid() && nodes == []
      ensures notified == Answered(old(items), reactions)
      ensures forall n :: n in old(nodes) ==> n.freed
    {
      notified := [];
      var left := reactions;
      ghost var all := Answered(items, reactions);
      while tail != null
        invariant Valid()
        invariant Completes(all, notified, items, left)
        invariant forall i :: 0 <= i < |nodes| ==> nodes[i] in old(nodes) || fresh(nodes[i])
        invariant forall n :: n in old(nodes) ==> n in nodes || n.freed
        decreases |left|, |nodes|
      {
        assert forall n :: n in nodes ==> !n.freed;
        var data := AnswerNewest(left, all, notified);
        notified, left := notified + [data], Rest(left);
      }
    }
  }
}
