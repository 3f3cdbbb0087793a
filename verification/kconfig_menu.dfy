// The links of the menu tree and how the loops of menu_finalize change them.

module MenuLinks {
  import opened Options
  import opened Exprs

  // Menu entries are named by their address; None is the null pointer.
  type Id = nat
  type Ptr = Option<Id>

  // The pointers next, parent and list of all entries.
  datatype Links = Links(next: map<Id, Ptr>, parent: map<Id, Ptr>, list: map<Id, Ptr>)

  function Get(m: map<Id, Ptr>, i: Id): Ptr {
    if i in m then m[i] else None
  }

  // The shape of a part of the tree.
  datatype Tree = Tree(node: Id, kids: seq<Tree>)

  // The entries in the order in which they are written.
  ghost function Preorder(ts: seq<Tree>): seq<Id> {
    if ts == [] then [] else [ts[0].node] + Preorder(ts[0].kids) + Preorder(ts[1..])
  }

  // The next pointers lead from head along ts to end, every entry on the way is a
  // child of owner, and so on below.
  ghost predicate Linked(k: Links, head: Ptr, ts: seq<Tree>, end: Ptr, owner: Ptr)
    decreases ts
  {
    if ts == [] then head == end
    else
      var t := ts[0];
      && head == Some(t.node) && Get(k.parent, t.node) == owner
      && Linked(k, Get(k.list, t.node), t.kids, None, Some(t.node))
      && Linked(k, Get(k.next, t.node), ts[1..], end, owner)
  }

  ghost function HeadOf(ts: seq<Tree>, end: Ptr): Ptr {
    if ts == [] then end else Some(ts[0].node)
  }

  predicate SameLinks(k: Links, l: Links, i: Id) {
    && Get(k.next, i) == Get(l.next, i) && Get(k.parent, i) == Get(l.parent, i)
    && Get(k.list, i) == Get(l.list, i)
  }

  // Only the links of the entries xs may differ.
  ghost predicate ChangedWithin(k: Links, l: Links, xs: seq<Id>) {
    forall i: Id {:trigger SameLinks(k, l, i)} :: i !in xs ==> SameLinks(k, l, i)
  }

  ghost predicate Distinct(xs: seq<Id>) {
    forall i, j :: 0 <= i < j < |xs| ==> xs[i] != xs[j]
  }

  ghost predicate Disjoint(xs: seq<Id>, ys: seq<Id>) {
    forall m :: m in xs ==> m !in ys
  }

  lemma DistinctJoin(xs: seq<Id>, ys: seq<Id>)
    ensures Distinct(xs + ys) <==> Distinct(xs) && Distinct(ys) && Disjoint(xs, ys)
  {
    if Distinct(xs + ys) {
      assert forall i :: 0 <= i < |xs| ==> (xs + ys)[i] == xs[i];
      assert forall i :: 0 <= i < |ys| ==> (xs + ys)[|xs| + i] == ys[i];
      forall m | m in xs
        ensures m !in ys
      {
        var i :| 0 <= i < |xs| && xs[i] == m;
        assert (xs + ys)[i] == m;
      }
    }
    if Distinct(xs) && Distinct(ys) && Disjoint(xs, ys) {
      forall i, j | 0 <= i < j < |xs + ys|
        ensures (xs + ys)[i] != (xs + ys)[j]
      {
        if i < |xs| <= j {
          assert xs[i] in xs && ys[j - |xs|] in ys;
        }
      }
    }
  }

  lemma {:induction false} PreorderJoin(ts: seq<Tree>, us: seq<Tree>)
    ensures Preorder(ts + us) == Preorder(ts) + Preorder(us)
  {
    if ts == [] {
      assert ts + us == us;
    } else {
      assert (ts + us)[1..] == ts[1..] + us;
      PreorderJoin(ts[1..], us);
    }
  }

  lemma PreorderFirst(ts: seq<Tree>)
    requires ts != []
    ensures ts == [ts[0]] + ts[1..]
    ensures Preorder([ts[0]]) == [ts[0].node] + Preorder(ts[0].kids)
    ensures Preorder(ts) == Preorder([ts[0]]) + Preorder(ts[1..])
  {
    assert [ts[0]][1..] == [];
  }

  lemma {:induction false} LinkedSplit(k: Links, head: Ptr, ts: seq<Tree>, us: seq<Tree>, end: Ptr, owner: Ptr)
    ensures Linked(k, head, ts + us, end, owner) <==>
      Linked(k, head, ts, HeadOf(us, end), owner) && Linked(k, HeadOf(us, end), us, end, owner)
    decreases ts
  {
    if ts == [] {
      assert ts + us == us;
    } else {
      assert (ts + us)[1..] == ts[1..] + us;
      LinkedSplit(k, Get(k.next, ts[0].node), ts[1..], us, end, owner);
    }
  }

  // A list keeps its shape when only other entries are relinked.
  lemma {:induction false} LinkedFrame(k: Links, l: Links, xs: seq<Id>, head: Ptr, ts: seq<Tree>, end: Ptr, owner: Ptr)
    requires ChangedWithin(k, l, xs) && Disjoint(Preorder(ts), xs)
    requires Linked(k, head, ts, end, owner)
    ensures Linked(l, head, ts, end, owner)
    decreases ts
  {
    if ts != [] {
      var t := ts[0];
      assert t.node in Preorder(ts);
      assert SameLinks(k, l, t.node);
      LinkedFrame(k, l, xs, Get(k.list, t.node), t.kids, None, Some(t.node));
      LinkedFrame(k, l, xs, Get(k.next, t.node), ts[1..], end, owner);
    }
  }

  // One entry and its submenu.
  lemma LinkedOne(k: Links, t: Tree, end: Ptr, owner: Ptr)
    ensures Linked(k, Some(t.node), [t], end, owner) <==>
      && Get(k.parent, t.node) == owner && Get(k.next, t.node) == end
      && Linked(k, Get(k.list, t.node), t.kids, None, Some(t.node))
  {
    assert [t][1..] == [];
  }

  // done is the part of a list that a loop has passed, todo the rest.
  ghost predicate Passed(k: Links, head: Ptr, done: seq<Tree>, at: Ptr, todo: seq<Tree>, owner: Ptr, owner': Ptr) {
    && Linked(k, head, done, at, owner) && Linked(k, at, todo, None, owner')
    && Distinct(Preorder(done) + Preorder(todo))
  }

  // Everything a loop needs to know about its current entry.
  lemma CurrentEntry(k: Links, head: Ptr, done: seq<Tree>, at: Ptr, todo: seq<Tree>, owner: Ptr, owner': Ptr)
    requires Passed(k, head, done, at, todo, owner, owner') && at.Some?
    ensures todo != [] && todo[0].node == at.value
    ensures var t := todo[0];
      && Get(k.parent, t.node) == owner'
      && Linked(k, Get(k.list, t.node), t.kids, None, Some(t.node))
      && Linked(k, Get(k.next, t.node), todo[1..], None, owner')
      && Preorder(todo) == [t.node] + Preorder(t.kids) + Preorder(todo[1..])
      && Distinct([t.node] + Preorder(t.kids) + Preorder(todo[1..]))
      && Disjoint(Preorder(done), [t.node] + Preorder(t.kids) + Preorder(todo[1..]))
      && Distinct(Preorder(done))
  {
    DistinctJoin(Preorder(done), Preorder(todo));
  }

  // The loop goes on after its current entry t, whose children are now kids and
  // which is followed by rest.
  lemma PassEntry(k: Links, head: Ptr, done: seq<Tree>, t: Tree, rest: seq<Tree>, owner: Ptr, owner': Ptr)
    requires Linked(k, head, done, Some(t.node), owner)
    requires Get(k.parent, t.node) == owner
    requires Linked(k, Get(k.list, t.node), t.kids, None, Some(t.node))
    requires Linked(k, Get(k.next, t.node), rest, None, owner')
    requires Distinct(Preorder(done) + ([t.node] + Preorder(t.kids) + Preorder(rest)))
    ensures Passed(k, head, done + [t], Get(k.next, t.node), rest, owner, owner')
    ensures Preorder(done + [t]) + Preorder(rest) == Preorder(done) + ([t.node] + Preorder(t.kids) + Preorder(rest))
  {
    LinkedOne(k, t, Get(k.next, t.node), owner);
    LinkedSplit(k, head, done, [t], Get(k.next, t.node), owner);
    PreorderAppend(done, t);
    Regroup(Preorder(done), t.node, Preorder(t.kids), Preorder(rest));
  }

  lemma PreorderAppend(done: seq<Tree>, t: Tree)
    ensures Preorder(done + [t]) == Preorder(done) + [t.node] + Preorder(t.kids)
  {
    PreorderJoin(done, [t]);
    PreorderFirst([t]);
    assert Preorder(done) + ([t.node] + Preorder(t.kids)) == Preorder(done) + [t.node] + Preorder(t.kids);
  }

  lemma Regroup(xs: seq<Id>, m: Id, ys: seq<Id>, zs: seq<Id>)
    ensures xs + ([m] + ys + zs) == xs + [m] + ys + zs
  {
  }

  lemma ChangedChain(k: Links, l: Links, m: Links, xs: seq<Id>, ys: seq<Id>)
    requires ChangedWithin(k, l, xs) && ChangedWithin(l, m, ys) && forall i :: i in ys ==> i in xs
    ensures ChangedWithin(k, m, xs)
  {
    forall i: Id | i !in xs
      ensures SameLinks(k, m, i)
    {
      assert SameLinks(k, l, i) && SameLinks(l, m, i);
    }
  }

  // Redirecting the next pointer of the last entry of a list.
  lemma LinkedEnd(k: Links, l: Links, head: Ptr, ts: seq<Tree>, end: Ptr, to: Ptr, owner: Ptr)
    requires ts != [] && Linked(k, head, ts, end, owner) && Distinct(Preorder(ts))
    requires l == k.(next := k.next[ts[|ts| - 1].node := to])
    ensures Linked(l, head, ts, to, owner)
  {
    var front, t := ts[..|ts| - 1], ts[|ts| - 1];
    assert ts == front + [t];
    LinkedSplit(k, head, front, [t], end, owner);
    LinkedOne(k, t, end, owner);
    LastApart(front, t);
    LinkedFrame(k, l, [t.node], head, front, Some(t.node), owner);
    LinkedFrame(k, l, [t.node], Get(k.list, t.node), t.kids, None, Some(t.node));
    LinkedOne(l, t, to, owner);
    LinkedSplit(l, head, front, [t], to, owner);
  }

  // The last entry is neither in the trees before it nor in its own subtree.
  lemma LastApart(front: seq<Tree>, t: Tree)
    requires Distinct(Preorder(front + [t]))
    ensures t.node !in Preorder(front) && t.node !in Preorder(t.kids)
  {
    PreorderJoin(front, [t]);
    PreorderFirst([t]);
    DistinctJoin(Preorder(front), Preorder([t]));
    DistinctJoin([t.node], Preorder(t.kids));
    assert t.node in [t.node];
  }
}
