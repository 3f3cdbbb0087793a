// The request queues of the block driver, as queue.c works on them.

module RequestQueues {
  import opened Options
  import opened Sequences

  // A read request of the kernel: the sectors first .. first + length - 1, of which the
  // first done ones have been transferred; start is the time it was last sent.
  datatype Request = Request(first: nat, length: nat, done: nat, start: nat) {
    function Sector(): nat {
      first + done
    }
  }

  // The position of the first request, from the head, that waits for the bytes at pos.
  function Match(q: seq<nat>, table: map<nat, Request>, pos: nat): (i: nat)
    ensures i <= |q|
    ensures i < |q| ==> q[i] in table && table[q[i]].Sector() * 512 == pos
    ensures forall j :: 0 <= j < i ==> q[j] !in table || table[q[j]].Sector() * 512 != pos
  {
    if q == [] || (q[0] in table && table[q[0]].Sector() * 512 == pos) then 0
    else 1 + Match(q[1..], table, pos)
  }

  predicate TimedOut(id: nat, table: map<nat, Request>, timeout: nat) {
    id in table && table[id].start < timeout
  }

  // The requests that have waited too long, and the others, both in their order.
  function Late(q: seq<nat>, table: map<nat, Request>, timeout: nat): seq<nat> {
    if q == [] then []
    else (if TimedOut(q[0], table, timeout) then [q[0]] else []) + Late(q[1..], table, timeout)
  }

  function OnTime(q: seq<nat>, table: map<nat, Request>, timeout: nat): seq<nat> {
    if q == [] then []
    else (if TimedOut(q[0], table, timeout) then [] else [q[0]]) + OnTime(q[1..], table, timeout)
  }

  lemma {:induction false} LateSplit(q: seq<nat>, table: map<nat, Request>, timeout: nat)
    ensures multiset(q) == multiset(Late(q, table, timeout)) + multiset(OnTime(q, table, timeout))
    ensures forall id :: id in Late(q, table, timeout) ==> TimedOut(id, table, timeout)
    ensures forall id :: id in OnTime(q, table, timeout) ==> !TimedOut(id, table, timeout)
  {
    if q != [] {
      LateSplit(q[1..], table, timeout);
      assert q == [q[0]] + q[1..];
    }
  }

  lemma {:induction false} LateMember(q: seq<nat>, table: map<nat, Request>, timeout: nat, id: nat)
    requires id in q && TimedOut(id, table, timeout)
    ensures id in Late(q, table, timeout)
  {
    if q[0] != id {
      LateMember(q[1..], table, timeout, id);
    }
  }

  lemma {:induction false} ReverseMember(s: seq<nat>, x: nat)
    requires x in s
    ensures x in Reverse(s)
  {
    if s[0] != x {
      ReverseMember(s[1..], x);
    }
  }

  lemma {:induction false} LateSnoc(q: seq<nat>, id: nat, table: map<nat, Request>, timeout: nat)
    ensures Late(q + [id], table, timeout)
         == Late(q, table, timeout) + if TimedOut(id, table, timeout) then [id] else []
  {
    if q == [] {
      assert q + [id] == [id] && [id][1..] == [];
    } else {
      LateSnoc(q[1..], id, table, timeout);
      assert (q + [id])[1..] == q[1..] + [id];
    }
  }

  lemma {:induction false} OnTimeSnoc(q: seq<nat>, id: nat, table: map<nat, Request>, timeout: nat)
    ensures OnTime(q + [id], table, timeout)
         == OnTime(q, table, timeout) + if TimedOut(id, table, timeout) then [] else [id]
  {
    if q == [] {
      assert q + [id] == [id] && [id][1..] == [];
    } else {
      OnTimeSnoc(q[1..], id, table, timeout);
      assert (q + [id])[1..] == q[1..] + [id];
    }
  }

  lemma {:induction false} ReverseMultiset(s: seq<nat>)
    ensures multiset(Reverse(s)) == multiset(s)
  {
    if s != [] {
      ReverseMultiset(s[1..]);
      assert s == [s[0]] + s[1..];
    }
  }

  // A queue and the request just taken from its tail
  function Pending(items: seq<nat>, r: Option<nat>): seq<nat> {
    if r.Some? then items + [r.value] else items
  }

  // A queue: requests enter at the head and leave at the other end.
  class Queue {
    var items: seq<nat>

    constructor ()
      ensures items == []
    {
      items := [];
    }

    method Enqueue(id: nat)
      modifies this
      ensures items == [id] + old(items)
    {
      items := [id] + items;
    }

    method Dequeue() returns (r: Option<nat>)
      modifies this
      ensures old(items) == [] ==> r == None && items == []
      ensures old(items) != [] ==> r.Some?
      ensures old(items) == Pending(items, r)
    {
      if items == [] {
        return None;
      }
      r := Some(items[|items| - 1]);
      items := items[..|items| - 1];
    }

    // The request that a reply belongs to leaves the queue.
    method DequeueHandle(table: map<nat, Request>, pos: nat) returns (r: Option<nat>)
      modifies this
      ensures var i := Match(old(items), table, pos);
        if i < |old(items)| then r == Some(old(items)[i]) && items == old(items)[..i] + old(items)[i + 1..]
        else r == None && items == old(items)
    {
      var i := 0;
      while i < |items|
        invariant 0 <= i <= |items| && items == old(items)
        invariant Match(items, table, pos) == i + Match(items[i..], table, pos)
      {
        var id := items[i];
        if id in table && table[id].Sector() * 512 == pos {
          items := items[..i] + items[i + 1..];
          return Some(id);
        }
        assert items[i..][1..] == items[i + 1..];
        i := i + 1;
      }
      return None;
    }
  }

  // How far the walk over the queue has come: what it has seen, what of that it kept, and
  // what the other queue holds.
  predicate Walked(
    seen: seq<nat>, kept: seq<nat>, to: seq<nat>, before: seq<nat>, requeued: nat,
    table: map<nat, Request>, timeout: nat)
  {
    && kept == OnTime(seen, table, timeout)
    && to == Reverse(Late(seen, table, timeout)) + before
    && requeued == |Late(seen, table, timeout)|
  }

  lemma WalkLate(
    seen: seq<nat>, kept: seq<nat>, to: seq<nat>, before: seq<nat>, requeued: nat,
    table: map<nat, Request>, timeout: nat, id: nat)
    requires Walked(seen, kept, to, before, requeued, table, timeout) && TimedOut(id, table, timeout)
    ensures Walked(seen + [id], kept, [id] + to, before, requeued + 1, table, timeout)
  {
    var late := Late(seen, table, timeout);
    LateSnoc(seen, id, table, timeout);
    OnTimeSnoc(seen, id, table, timeout);
    ReverseSnoc(late, id);
    Regroup(id, Reverse(late), before);
    assert kept + [] == kept;
  }

  lemma Regroup(id: nat, s: seq<nat>, t: seq<nat>)
    ensures [id] + (s + t) == ([id] + s) + t
  {
  }

  lemma WalkOnTime(
    seen: seq<nat>, kept: seq<nat>, to: seq<nat>, before: seq<nat>, requeued: nat,
    table: map<nat, Request>, timeout: nat, id: nat)
    requires Walked(seen, kept, to, before, requeued, table, timeout) && !TimedOut(id, table, timeout)
    ensures Walked(seen + [id], kept + [id], to, before, requeued, table, timeout)
  {
    var late := Late(seen, table, timeout);
    LateSnoc(seen, id, table, timeout);
    OnTimeSnoc(seen, id, table, timeout);
    assert late + [] == late;
  }

  // Every request that has waited too long moves to the head of the other queue.
  method Requeue(to: Queue, from: Queue, table: map<nat, Request>, timeout: nat) returns (requeued: nat)
    requires to != from
    modifies to, from
    ensures to.items == Reverse(Late(old(from.items), table, timeout)) + old(to.items)
    ensures from.items == OnTime(old(from.items), table, timeout)
    ensures requeued == |Late(old(from.items), table, timeout)|
  {
    requeued := 0;
    ghost var seen: seq<nat> := [];
    var kept, ahead := [], from.items;
    while ahead != []
      invariant old(from.items) == seen + ahead && from.items == kept + ahead
      invariant Walked(seen, kept, to.items, old(to.items), requeued, table, timeout)
      decreases |ahead|
    {
      var id := ahead[0];
      ahead := ahead[1..];
      if id in table && table[id].start < timeout {
        WalkLate(seen, kept, to.items, old(to.items), requeued, table, timeout, id);
        requeued := requeued + 1;
        from.items := kept + ahead;
        to.items := [id] + to.items;
      } else {
        WalkOnTime(seen, kept, to.items, old(to.items), requeued, table, timeout, id);
        kept := kept + [id];
      }
      seen := seen + [id];
    }
    assert seen + [] == seen;
  }
}
