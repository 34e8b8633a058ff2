/** The ring-buffer queue of graph nodes, with one "queued" mark per node. */
module Worklists {

  predicate Distinct(s: seq<nat>) {
    forall i, j :: 0 <= i < j < |s| ==> s[i] != s[j]
  }

  predicate Nodes(s: seq<nat>, rows: nat) {
    forall i :: 0 <= i < |s| ==> 1 <= s[i] < rows
  }

  ghost function Below(rows: nat): (nodes: set<nat>)
    ensures forall x :: x in nodes <==> 1 <= x < rows
    ensures rows > 0 ==> |nodes| == rows - 1
  {
    if rows <= 1 then {} else Below(rows - 1) + {rows - 1}
  }

  /** A list of different node numbers between 1 and rows - 1 is shorter than rows. */
  lemma {:induction false} Pigeonhole(s: seq<nat>, rows: nat)
    requires rows > 0 && Distinct(s) && Nodes(s, rows)
    ensures |s| < rows
  {
    var nodes := set x | x in s;
    Cardinality(s, nodes);
    assert nodes <= Below(rows);
    Subset(nodes, Below(rows));
  }

  lemma FirstApart(s: seq<nat>)
    requires Distinct(s) && s != []
    ensures Distinct(s[1..]) && s[0] !in s[1..]
    ensures (set x | x in s) == (set x | x in s[1..]) + {s[0]}
  {
    assert s == [s[0]] + s[1..];
  }

  lemma {:induction false} Cardinality(s: seq<nat>, nodes: set<nat>)
    requires Distinct(s) && nodes == set x | x in s
    ensures |nodes| == |s|
  {
    if s != [] {
      FirstApart(s);
      Cardinality(s[1..], set x | x in s[1..]);
    }
  }

  lemma {:induction false} Subset(a: set<nat>, b: set<nat>)
    requires a <= b
    ensures |a| <= |b|
  {
    if a != {} {
      var x :| x in a;
      Subset(a - {x}, b - {x});
    }
  }

  /** Position i of a ring of the given size that starts at head. */
  function Slot(head: nat, i: nat, rows: nat): nat {
    if head + i < rows then head + i else head + i - rows
  }

  lemma NextSlot(slot: nat, rows: nat)
    requires slot < rows
    ensures (slot + 1) % rows == Slot(slot, 1, rows)
  {
    if slot + 1 == rows {
      assert (slot + 1) % rows == 0;
    }
  }

  class Worklist {
    const rows: nat
    const queue: array<nat>
    const queued: array<bool>
    var head: nat
    var tail: nat
    ghost var pending: seq<nat>  // the queued nodes, oldest first

    ghost predicate Valid()
      reads this, queue, queued
    {
      && rows == queue.Length == queued.Length && |pending| < rows && head < rows
      && tail == Slot(head, |pending|, rows)
      && (forall i :: 0 <= i < |pending| ==> queue[Slot(head, i, rows)] == pending[i])
      && Distinct(pending) && Nodes(pending, rows)
      && (forall id :: 0 <= id < rows ==> (queued[id] <==> id in pending))
    }

    constructor (rows: nat)
      requires rows > 0
      ensures Valid() && pending == [] && this.rows == rows && fresh(queue) && fresh(queued)
    {
      this.rows := rows;
      queue := new nat[rows](_ => 0);
      queued := new bool[rows](_ => false);
      head, tail, pending := 0, 0, [];
    }

    method IsEmpty() returns (empty: bool)
      requires Valid()
      ensures empty <==> pending == []
    {
      empty := head == tail;
    }

    /** A node already queued is not queued twice, so the ring never overflows. */
    method Enqueue(id: nat)
      requires Valid() && 1 <= id < rows
      modifies this`tail, this`pending, queue, queued
      ensures Valid()
      ensures pending == if id in old(pending) then old(pending) else old(pending) + [id]
    {
      if queued[id] {
        return;
      }
      ghost var more := pending + [id];
      Pigeonhole(more, rows);
      NextSlot(tail, rows);
      queued[id] := true;
      queue[tail] := id;
      tail := (tail + 1) % rows;
      pending := more;
    }

    method Dequeue() returns (id: nat)
      requires Valid() && pending != []
      modifies this`head, this`pending, queued
      ensures Valid() && id == old(pending)[0] && pending == old(pending)[1..]
      ensures id !in pending && 1 <= id < rows
    {
      ghost var was := pending;
      NextSlot(head, rows);
      assert was == [was[0]] + was[1..];
      assert Slot(head, 0, rows) == head;
      id := queue[head];
      assert id == was[0];
      assert forall i :: 0 <= i < |was| - 1 ==> Slot(Slot(head, 1, rows), i, rows) == Slot(head, i + 1, rows);
      head := (head + 1) % rows;
      queued[id] := false;
      pending := pending[1..];
    }
  }
}
