// menu_finalize: dependencies are handed down, entries that depend on the entry
// before them move into a submenu of it, submenus without a prompt are dissolved.

module MenuFinalization {
  import opened Options
  import opened Tristates
  import opened Exprs
  import opened MenuLinks
  import opened MenuConditions
  import opened MenuDependencies
  import opened MenuShape

  // No submenu stays below an entry without a prompt text.
  ghost predicate Tidy(entry: Id -> Entry, ts: seq<Tree>) {
    ts != [] ==>
      && (ts[0].kids != [] ==> entry(ts[0].node).hasPrompt && entry(ts[0].node).hasText)
      && Tidy(entry, ts[0].kids) && Tidy(entry, ts[1..])
  }

  // The same below the entries of ts.
  ghost predicate TidyBelow(entry: Id -> Entry, ts: seq<Tree>) {
    ts != [] ==> Tidy(entry, ts[0].kids) && TidyBelow(entry, ts[1..])
  }

  lemma {:induction false} TidyJoin(entry: Id -> Entry, ts: seq<Tree>, us: seq<Tree>)
    ensures Tidy(entry, ts + us) <==> Tidy(entry, ts) && Tidy(entry, us)
    ensures TidyBelow(entry, ts + us) <==> TidyBelow(entry, ts) && TidyBelow(entry, us)
    decreases ts
  {
    if ts == [] {
      assert ts + us == us;
    } else {
      assert (ts + us)[1..] == ts[1..] + us;
      TidyJoin(entry, ts[1..], us);
    }
  }

  lemma {:induction false} TidyIsTidyBelow(entry: Id -> Entry, ts: seq<Tree>)
    requires Tidy(entry, ts)
    ensures TidyBelow(entry, ts)
    decreases ts
  {
    if ts != [] {
      TidyIsTidyBelow(entry, ts[1..]);
    }
  }

  ghost predicate Adopting(k0: Links, k: Links, head: Ptr, done: seq<Tree>, at: Ptr, todo: seq<Tree>,
                           p: Id, m: Id, kids: seq<Tree>) {
    && Passed(k, head, done, at, todo, Some(p), Some(m))
    && done + todo == kids && Preorder(done) + Preorder(todo) == Preorder(kids)
    && ChangedWithin(k0, k, Preorder(kids))
  }

  lemma AdoptingStep(k0: Links, k1: Links, k2: Links, head: Ptr, done: seq<Tree>, menu: Id, todo: seq<Tree>,
                     p: Id, m: Id, kids: seq<Tree>)
    requires Adopting(k0, k1, head, done, Some(menu), todo, p, m, kids)
    requires todo != [] && menu in Preorder(done) + Preorder(todo)
    requires Passed(k2, head, done + [todo[0]], Get(k2.next, menu), todo[1..], Some(p), Some(m))
    requires Preorder(done + [todo[0]]) + Preorder(todo[1..]) == Preorder(done) + Preorder(todo)
    requires ChangedWithin(k1, k2, [menu])
    ensures Adopting(k0, k2, head, done + [todo[0]], Get(k2.next, menu), todo[1..], p, m, kids)
  {
    ChangedChain(k0, k1, k2, Preorder(kids), [menu]);
    StepThrough(done, todo);
  }

  lemma StepThrough(done: seq<Tree>, todo: seq<Tree>)
    requires todo != []
    ensures done + [todo[0]] + todo[1..] == done + todo
  {
  }

  lemma AdoptingEnd(k0: Links, k: Links, head: Ptr, done: seq<Tree>, todo: seq<Tree>, p: Id, m: Id, kids: seq<Tree>)
    requires Adopting(k0, k, head, done, None, todo, p, m, kids)
    ensures done == kids && Linked(k, head, kids, None, Some(p)) && ChangedWithin(k0, k, Preorder(kids))
  {
    assert todo == [];
    assert done == kids;
  }

  lemma SeparateEntry(menu: Id, kids: seq<Id>, rest: seq<Id>, done: seq<Id>)
    requires Distinct([menu] + kids + rest) && Disjoint(done, [menu] + kids + rest)
    ensures Distinct(kids) && Distinct(rest) && menu !in kids && menu !in rest && menu !in done
    ensures Disjoint(kids, rest) && Disjoint(rest, kids) && Disjoint(done, kids) && Disjoint(done, rest)
  {
    DistinctJoin([menu] + kids, rest);
    DistinctJoin([menu], kids);
    assert menu in [menu];
  }

  // No entry occurs twice in done, menu, kids and rest.
  ghost predicate Separate(done: seq<Tree>, menu: Id, kids: seq<Tree>, rest: seq<Tree>) {
    && Distinct(Preorder(kids))
    && menu !in Preorder(done) && menu !in Preorder(kids) && menu !in Preorder(rest)
    && Disjoint(Preorder(done), Preorder(kids)) && Disjoint(Preorder(rest), Preorder(kids))
  }

  // done leads to menu, menu has the children kids of p or of itself, ended by end,
  // and after leads along rest.
  ghost predicate ThreeLists(k: Links, head: Ptr, menu: Id, p: Id, done: seq<Tree>, kids: seq<Tree>, end: Ptr,
                             rest: seq<Tree>, after: Ptr) {
    && Linked(k, head, done, Some(menu), Some(p)) && Linked(k, after, rest, None, Some(p))
    && Linked(k, Get(k.list, menu), kids, end, Some(p))
    && Get(k.parent, menu) == Some(p)
  }

  // After adopting the children
  lemma DissolveAdopted(k0: Links, k1: Links, head: Ptr, menu: Id, p: Id,
                        done: seq<Tree>, kids: seq<Tree>, rest: seq<Tree>)
    requires Separate(done, menu, kids, rest)
    requires Linked(k0, head, done, Some(menu), Some(p)) && Get(k0.parent, menu) == Some(p)
    requires Linked(k0, Get(k0.next, menu), rest, None, Some(p))
    requires ChangedWithin(k0, k1, Preorder(kids)) && Linked(k1, Get(k1.list, menu), kids, None, Some(p))
    ensures ThreeLists(k1, head, menu, p, done, kids, None, rest, Get(k1.next, menu))
  {
    assert SameLinks(k0, k1, menu);
    LinkedFrame(k0, k1, Preorder(kids), head, done, Some(menu), Some(p));
    LinkedFrame(k0, k1, Preorder(kids), Get(k0.next, menu), rest, None, Some(p));
  }

  // The last child leads on to what follows menu.
  lemma RedirectLast(k1: Links, k2: Links, head: Ptr, menu: Id, p: Id,
                     done: seq<Tree>, kids: seq<Tree>, rest: seq<Tree>, after: Ptr)
    requires kids != [] && Separate(done, menu, kids, rest)
    requires ThreeLists(k1, head, menu, p, done, kids, None, rest, after)
    requires k2 == k1.(next := k1.next[kids[|kids| - 1].node := after])
    ensures ThreeLists(k2, head, menu, p, done, kids, after, rest, after)
    ensures ChangedWithin(k1, k2, [kids[|kids| - 1].node]) && kids[|kids| - 1].node in Preorder(kids)
  {
    var last := kids[|kids| - 1].node;
    LastInPreorder(kids);
    assert last !in Preorder(done) && last !in Preorder(rest);
    LinkedEnd(k1, k2, Get(k1.list, menu), kids, None, after, Some(p));
    OneChanged(k1, k2, last, after);
    LinkedFrameOne(k1, k2, last, head, done, Some(menu), Some(p));
    LinkedFrameOne(k1, k2, last, after, rest, None, Some(p));
  }

  lemma OneChanged(k: Links, l: Links, i: Id, to: Ptr)
    requires l == k.(next := k.next[i := to])
    ensures ChangedWithin(k, l, [i])
  {
  }

  lemma LinkedFrameOne(k: Links, l: Links, i: Id, head: Ptr, ts: seq<Tree>, end: Ptr, owner: Ptr)
    requires ChangedWithin(k, l, [i]) && i !in Preorder(ts)
    requires Linked(k, head, ts, end, owner)
    ensures Linked(l, head, ts, end, owner)
  {
    LinkedFrame(k, l, [i], head, ts, end, owner);
  }

  // menu leads to its former children.
  lemma RedirectEntry(k2: Links, k3: Links, head: Ptr, menu: Id, p: Id,
                      done: seq<Tree>, kids: seq<Tree>, rest: seq<Tree>, after: Ptr)
    requires kids != [] && Separate(done, menu, kids, rest)
    requires ThreeLists(k2, head, menu, p, done, kids, after, rest, after)
    requires k3 == k2.(next := k2.next[menu := Get(k2.list, menu)], list := k2.list[menu := None])
    ensures Linked(k3, head, done, Some(menu), Some(p))
    ensures Linked(k3, Get(k3.next, menu), kids + rest, None, Some(p))
    ensures Get(k3.parent, menu) == Some(p) && Get(k3.list, menu) == None
    ensures ChangedWithin(k2, k3, [menu])
  {
    assert ChangedWithin(k2, k3, [menu]);
    LinkedFrame(k2, k3, [menu], head, done, Some(menu), Some(p));
    LinkedFrame(k2, k3, [menu], after, rest, None, Some(p));
    LinkedFrame(k2, k3, [menu], Get(k2.list, menu), kids, after, Some(p));
    assert HeadOf(rest, None) == after;
    LinkedSplit(k3, Get(k3.next, menu), kids, rest, None, Some(p));
  }

  lemma DissolveChanges(k0: Links, k1: Links, k2: Links, k3: Links, menu: Id, last: Id, kids: seq<Id>, rest: seq<Id>)
    requires last in kids
    requires ChangedWithin(k0, k1, kids) && ChangedWithin(k1, k2, [last]) && ChangedWithin(k2, k3, [menu])
    ensures ChangedWithin(k0, k3, [menu] + kids + rest)
  {
    forall i: Id | i !in [menu] + kids + rest
      ensures SameLinks(k0, k3, i)
    {
      assert SameLinks(k0, k1, i) && SameLinks(k1, k2, i) && SameLinks(k2, k3, i);
    }
  }

  lemma {:induction false} LastInPreorder(ts: seq<Tree>)
    requires ts != []
    ensures ts[|ts| - 1].node in Preorder(ts)
  {
    PreorderJoin(ts[..|ts| - 1], [ts[|ts| - 1]]);
    assert ts[..|ts| - 1] + [ts[|ts| - 1]] == ts;
    assert ts[|ts| - 1].node in Preorder([ts[|ts| - 1]]);
  }

  // The state of the loop that hands the condition outer of p down to kids.
  ghost predicate HandingDown(entry: Id -> Entry, outer: ExprOpt, k: Links, head: Ptr, done: seq<Tree>, at: Ptr,
                              todo: seq<Tree>, p: Id, kids: seq<Tree>, c: Conditions, d: Conditions) {
    && Passed(k, head, done, at, todo, Some(p), Some(p)) && done + todo == kids
    && SameExprs(Tops(done), c, d) && AllInherit(entry, outer, done, c, d)
  }

  lemma HandingDownStep(entry: Id -> Entry, outer: ExprOpt, k: Links, head: Ptr, done: seq<Tree>, menu: Id,
                        todo: seq<Tree>, p: Id, kids: seq<Tree>, c: Conditions, d: Conditions, e: Conditions)
    requires HandingDown(entry, outer, k, head, done, Some(menu), todo, p, kids, c, d)
    requires Inherits(entry, outer, menu, d, e) && SameExprs([menu], d, e)
    ensures todo != []
    ensures HandingDown(entry, outer, k, head, done + [todo[0]], Get(k.next, menu), todo[1..], p, kids, c, e)
  {
    CurrentEntry(k, head, done, Some(menu), todo, Some(p), Some(p));
    PassEntry(k, head, done, todo[0], todo[1..], Some(p), Some(p));
    assert menu in [menu] + Preorder(todo[0].kids) + Preorder(todo[1..]);
    TopsWithin(done);
    InheritNext(entry, outer, done, todo[0], c, d, e);
    assert done + [todo[0]] + todo[1..] == done + todo;
  }

  ghost predicate Flattening(entry: Id -> Entry, k0: Links, k: Links, head: Ptr, done: seq<Tree>, at: Ptr,
                             todo: seq<Tree>, p: Id, ts: seq<Tree>) {
    && Passed(k, head, done, at, todo, Some(p), Some(p))
    && Preorder(done) + Preorder(todo) == Preorder(ts)
    && Tidy(entry, done) && TidyBelow(entry, todo)
    && ChangedWithin(k0, k, Preorder(ts))
  }

  lemma {:induction false} OpenedTidy(entry: Id -> Entry, ts: seq<Tree>)
    requires Tidy(entry, ts)
    ensures Opened(entry, ts) == ts
  {
    if ts != [] {
      OpenedTidy(entry, ts[1..]);
    }
  }

  // Keeping the first entry of todo as it is, or dissolving its submenu, is what Opened does.
  lemma OpenedStep(entry: Id -> Entry, done: seq<Tree>, todo: seq<Tree>, all: seq<Tree>)
    requires todo != [] && TidyBelow(entry, todo) && done + Opened(entry, todo) == all
    ensures KeepsSubmenu(entry, todo[0]) ==> (done + [todo[0]]) + Opened(entry, todo[1..]) == all
    ensures !KeepsSubmenu(entry, todo[0]) ==>
      (done + [Tree(todo[0].node, [])]) + Opened(entry, todo[0].kids + todo[1..]) == all
  {
    var t, rest := todo[0], Opened(entry, todo[1..]);
    OpenedJoin(entry, t.kids, todo[1..]);
    OpenedTidy(entry, t.kids);
    Regrouped(done, [t], [], rest);
    Regrouped(done, [Tree(t.node, [])], t.kids, rest);
  }

  lemma Regrouped<T>(a: seq<T>, b: seq<T>, c: seq<T>, d: seq<T>)
    ensures a + (b + c + d) == (a + b) + (c + d)
    ensures c == [] ==> a + (b + d) == (a + b) + d
  {
  }

  lemma FlatteningDissolved(entry: Id -> Entry, k0: Links, k1: Links, k2: Links, head: Ptr, done: seq<Tree>,
                            menu: Id, todo: seq<Tree>, p: Id, ts: seq<Tree>)
    requires Flattening(entry, k0, k1, head, done, Some(menu), todo, p, ts)
    requires todo != [] && todo[0].node == menu
    requires Passed(k2, head, done + [Tree(menu, [])], Get(k2.next, menu), todo[0].kids + todo[1..], Some(p), Some(p))
    requires Preorder(done + [Tree(menu, [])]) + Preorder(todo[0].kids + todo[1..]) == Preorder(done) + Preorder(todo)
    requires ChangedWithin(k1, k2, Preorder(todo))
    ensures Flattening(entry, k0, k2, head, done + [Tree(menu, [])], Get(k2.next, menu),
                       todo[0].kids + todo[1..], p, ts)
    ensures |Preorder(todo[0].kids + todo[1..])| < |Preorder(todo)|
  {
    assert forall i :: i in Preorder(todo) ==> i in Preorder(done) + Preorder(todo);
    ChangedChain(k0, k1, k2, Preorder(ts), Preorder(todo));
    TidyJoin(entry, done, [Tree(menu, [])]);
    TidyIsTidyBelow(entry, todo[0].kids);
    TidyJoin(entry, todo[0].kids, todo[1..]);
    PreorderJoin(todo[0].kids, todo[1..]);
  }

  lemma FlatteningKept(entry: Id -> Entry, k0: Links, k: Links, head: Ptr, done: seq<Tree>,
                       menu: Id, todo: seq<Tree>, p: Id, ts: seq<Tree>)
    requires Flattening(entry, k0, k, head, done, Some(menu), todo, p, ts)
    requires Get(k.list, menu).Some? ==> entry(menu).hasPrompt && entry(menu).hasText
    ensures todo != [] && menu == todo[0].node
    ensures Flattening(entry, k0, k, head, done + [todo[0]], Get(k.next, menu), todo[1..], p, ts)
    ensures |Preorder(todo[1..])| < |Preorder(todo)|
  {
    CurrentEntry(k, head, done, Some(menu), todo, Some(p), Some(p));
    PassEntry(k, head, done, todo[0], todo[1..], Some(p), Some(p));
    assert [todo[0]][1..] == [];
    TidyJoin(entry, done, [todo[0]]);
  }

  lemma FlatteningEnd(entry: Id -> Entry, k0: Links, k: Links, head: Ptr, done: seq<Tree>, todo: seq<Tree>,
                      p: Id, ts: seq<Tree>)
    requires Flattening(entry, k0, k, head, done, None, todo, p, ts)
    requires p !in Preorder(ts)
    ensures Linked(k, head, done, None, Some(p)) && Preorder(done) == Preorder(ts) && Tidy(entry, done)
    ensures Get(k.list, p) == Get(k0.list, p)
  {
    assert todo == [];
    assert Preorder(done) + [] == Preorder(done);
    assert SameLinks(k0, k, p);
  }

  // Every entry of ts may go below p, by the conditions c.
  ghost predicate AllAdmitted(entry: Id -> Entry, c: Conditions, p: Id, ts: seq<Tree>) {
    forall i :: 0 <= i < |ts| ==> Enters(entry, c, p, ts[i].node)
  }

  lemma AllAdmittedAppend(entry: Id -> Entry, c: Conditions, p: Id, ts: seq<Tree>, t: Tree)
    requires AllAdmitted(entry, c, p, ts) && Enters(entry, c, p, t.node)
    ensures AllAdmitted(entry, c, p, ts + [t])
  {
  }

  lemma ChangedMore(k: Links, l: Links, xs: seq<Id>, ys: seq<Id>)
    requires ChangedWithin(k, l, xs) && forall i :: i in xs ==> i in ys
    ensures ChangedWithin(k, l, ys)
  {
  }

  lemma SeparateParts(p: Id, kids: seq<Tree>, rest: seq<Tree>)
    requires Distinct([p] + Preorder(kids) + Preorder(rest))
    ensures Distinct([p] + Preorder(kids)) && Distinct(Preorder(kids)) && Distinct(Preorder(rest))
    ensures Distinct([p] + Preorder(rest))
    ensures p !in Preorder(kids) && p !in Preorder(rest) && Disjoint(Preorder(rest), Preorder(kids))
  {
    DistinctJoin([p] + Preorder(kids), Preorder(rest));
    DistinctJoin([p], Preorder(kids));
    assert p in [p];
    DistinctJoin([p], Preorder(rest));
  }

  lemma PartsKept(p: Id, mid: seq<Tree>, rest': seq<Tree>, kids: seq<Tree>, rest: seq<Tree>)
    requires Distinct([p] + Preorder(kids) + Preorder(rest))
    requires Preorder(mid) + Preorder(rest') == Preorder(kids) + Preorder(rest)
    ensures Distinct([p] + Preorder(mid) + Preorder(rest')) && Distinct([p] + Preorder(mid))
    ensures forall i :: i in Preorder(mid) ==> i in [p] + Preorder(kids) + Preorder(rest)
  {
    SameParts(p, Preorder(mid), Preorder(rest'), Preorder(kids), Preorder(rest));
    SeparateParts(p, mid, rest');
  }

  lemma SameParts(p: Id, xs: seq<Id>, ys: seq<Id>, xs': seq<Id>, ys': seq<Id>)
    requires xs + ys == xs' + ys'
    ensures [p] + xs + ys == [p] + xs' + ys'
    ensures forall i :: i in xs ==> i in [p] + xs' + ys'
  {
    assert [p] + xs + ys == [p] + (xs + ys);
    assert [p] + xs' + ys' == [p] + (xs' + ys');
    assert forall i :: i in xs ==> i in xs + ys;
  }

  // Finalizing the entries below p leaves the entries behind p alone.
  lemma ListFinalized(k0: Links, k1: Links, p: Id, kids: seq<Tree>, rest: seq<Tree>, owner: Ptr)
    requires Distinct([p] + Preorder(kids) + Preorder(rest))
    requires Linked(k0, Get(k0.next, p), rest, None, owner)
    requires ChangedWithin(k0, k1, Preorder(kids))
    ensures Linked(k1, Get(k1.next, p), rest, None, owner) && Get(k1.parent, p) == Get(k0.parent, p)
    ensures ChangedWithin(k0, k1, [p] + Preorder(kids) + Preorder(rest))
  {
    SeparateParts(p, kids, rest);
    assert SameLinks(k0, k1, p);
    LinkedFrame(k0, k1, Preorder(kids), Get(k0.next, p), rest, None, owner);
    ChangedMore(k0, k1, Preorder(kids), [p] + Preorder(kids) + Preorder(rest));
  }

  lemma Flattened(k0: Links, k1: Links, k2: Links, p: Id, mid: seq<Tree>, rest': seq<Tree>,
                  kids: seq<Tree>, rest: seq<Tree>, owner: Ptr)
    requires Distinct([p] + Preorder(mid) + Preorder(rest'))
    requires forall i :: i in Preorder(mid) ==> i in [p] + Preorder(kids) + Preorder(rest)
    requires Linked(k1, Get(k1.next, p), rest', None, owner) && ChangedWithin(k1, k2, Preorder(mid))
    requires ChangedWithin(k0, k1, [p] + Preorder(kids) + Preorder(rest)) && Get(k1.parent, p) == Get(k0.parent, p)
    ensures Linked(k2, Get(k2.next, p), rest', None, owner) && Get(k2.parent, p) == Get(k0.parent, p)
    ensures ChangedWithin(k0, k2, [p] + Preorder(kids) + Preorder(rest))
  {
    ListFinalized(k1, k2, p, mid, rest', owner);
    ChangedChain(k0, k1, k2, [p] + Preorder(kids) + Preorder(rest), Preorder(mid));
  }

  // The state of the loops that finalize the entries of a list ts.
  ghost predicate Finalizing(entry: Id -> Entry, k0: Links, k: Links, head: Ptr, done: seq<Tree>, at: Ptr,
                             todo: seq<Tree>, owner: Ptr, owner': Ptr, ts: seq<Tree>) {
    && Passed(k, head, done, at, todo, owner, owner')
    && Preorder(done) + Preorder(todo) == Preorder(ts)
    && TidyBelow(entry, done)
    && ChangedWithin(k0, k, Preorder(ts))
  }

  lemma CurrentWithin(done: seq<Tree>, todo: seq<Tree>, ts: seq<Tree>)
    requires todo != [] && Preorder(done) + Preorder(todo) == Preorder(ts)
    ensures |Preorder(todo[0].kids)| + |Preorder(todo[1..])| < |Preorder(ts)|
    ensures forall i :: i in Preorder(todo) ==> i in Preorder(ts)
  {
    assert forall i :: i in Preorder(todo) ==> i in Preorder(done) + Preorder(todo);
  }

  lemma FinalizingStart(entry: Id -> Entry, k: Links, p: Id, head: Ptr, ts: seq<Tree>, owner: Ptr)
    requires Linked(k, head, ts, None, owner) && Distinct([p] + Preorder(ts))
    ensures Finalizing(entry, k, k, head, [], head, ts, Some(p), owner, ts) && p !in Preorder(ts)
  {
    DistinctJoin([p], Preorder(ts));
    assert p in [p];
    assert [] + Preorder(ts) == Preorder(ts);
  }

  // The current entry is a top entry of the list, so its conditions are still the old ones.
  lemma FinalizingTop(entry: Id -> Entry, k0: Links, k: Links, head: Ptr, done: seq<Tree>, menu: Id,
                      todo: seq<Tree>, owner: Ptr, owner': Ptr, ts: seq<Tree>, c: Conditions, d: Conditions)
    requires Finalizing(entry, k0, k, head, done, Some(menu), todo, owner, owner', ts)
    requires Distinct(Preorder(ts)) && Progress(entry, ts, todo, c, d)
    ensures SameAt(c, d, menu)
  {
    CurrentEntry(k, head, done, Some(menu), todo, owner, owner');
    TopIsTop(ts, |ts| - |todo|);
    ProgressTop(entry, ts, todo, c, d, menu);
  }

  // The state of the sibling loop of p, which has visited the entries visited.
  ghost predicate Absorbing(entry: Id -> Entry, k0: Links, k: Links, head: Ptr, done: seq<Tree>, at: Ptr,
                            todo: seq<Tree>, p: Id, owner: Ptr, rest: seq<Tree>, last: Ptr, visited: seq<Id>,
                            c: Conditions, d: Conditions) {
    && Finalizing(entry, k0, k, head, done, at, todo, Some(p), owner, rest)
    && visited == Preorder(done)
    && last == (if done == [] then None else Some(done[|done| - 1].node))
    && Progress(entry, rest, todo, c, d)
    && AllAdmitted(entry, c, p, done)
  }

  lemma AbsorbingNext(entry: Id -> Entry, k0: Links, k: Links, k': Links, head: Ptr, done: seq<Tree>, at: Ptr,
                      todo: seq<Tree>, p: Id, owner: Ptr, rest: seq<Tree>, last: Ptr, visited: seq<Id>,
                      c: Conditions, d: Conditions, e: Conditions,
                      t: Tree, r': seq<Tree>, v: seq<Id>, at': Ptr)
    requires Absorbing(entry, k0, k, head, done, at, todo, p, owner, rest, last, visited, c, d)
    requires Distinct(Preorder(rest))
    requires Finalizing(entry, k0, k', head, done + [t], at', r', Some(p), owner, rest)
    requires Preorder(done + [t]) == Preorder(done) + v
    requires Progress(entry, todo, r', d, e) && Enters(entry, c, p, t.node)
    ensures Absorbing(entry, k0, k', head, done + [t], at', r', p, owner, rest, Some(t.node), visited + v, c, e)
  {
    ProgressChain(entry, rest, todo, r', c, d, e);
    AllAdmittedAppend(entry, c, p, done, t);
  }

  // What the test looks at is as it was when the loop started.
  lemma AbsorbingSame(entry: Id -> Entry, k0: Links, k: Links, head: Ptr, done: seq<Tree>, menu: Id, todo: seq<Tree>,
                      p: Id, owner: Ptr, rest: seq<Tree>, c: Conditions, d: Conditions)
    requires Finalizing(entry, k0, k, head, done, Some(menu), todo, Some(p), owner, rest)
    requires Distinct(Preorder(rest)) && p !in Preorder(rest) && Progress(entry, rest, todo, c, d)
    ensures todo != [] && todo[0].node == menu && SameAt(c, d, menu) && SameAt(c, d, p)
  {
    FinalizingTop(entry, k0, k, head, done, menu, todo, Some(p), owner, rest, c, d);
    CurrentEntry(k, head, done, Some(menu), todo, Some(p), owner);
    TakenInner(rest, todo);
    InnerWithin(rest);
    assert SameAt(c, d, p);
  }

  // What the sibling loop leaves to be relinked.
  lemma AbsorbBefore(entry: Id -> Entry, k0: Links, k: Links, head: Ptr, done: seq<Tree>, at: Ptr, todo: seq<Tree>,
                     p: Id, owner: Ptr, rest: seq<Tree>)
    requires Finalizing(entry, k0, k, head, done, at, todo, Some(p), owner, rest) && p !in Preorder(rest)
    requires Get(k0.next, p) == head && Get(k0.list, p) == None
    ensures Passed(k, head, done, at, todo, Some(p), owner) && Get(k.next, p) == head
    ensures p !in Preorder(done) && p !in Preorder(todo)
    ensures Preorder(done) + Preorder(todo) == Preorder(rest)
    ensures ChangedWithin(k0, k, Preorder(rest)) && TidyBelow(entry, done) && Get(k.parent, p) == Get(k0.parent, p)
    ensures done == [] ==> Linked(k, Get(k.list, p), [], None, Some(p)) && Linked(k, Get(k.next, p), todo, None, owner)
  {
    assert SameLinks(k0, k, p);
    assert forall i :: i in Preorder(done) ==> i in Preorder(done) + Preorder(todo);
    assert forall i :: i in Preorder(todo) ==> i in Preorder(done) + Preorder(todo);
  }

  // After finalizing the current entry menu of a loop.
  lemma FinalizedEntry(k0: Links, k1: Links, k2: Links, head: Ptr, done: seq<Tree>, menu: Id, todo: seq<Tree>,
                       k': seq<Tree>, r': seq<Tree>, owner: Ptr, owner': Ptr, ts: seq<Tree>)
    requires Passed(k1, head, done, Some(menu), todo, owner, owner') && todo != [] && menu == todo[0].node
    requires Preorder(done) + Preorder(todo) == Preorder(ts) && ChangedWithin(k0, k1, Preorder(ts))
    requires ChangedWithin(k1, k2, [menu] + Preorder(todo[0].kids) + Preorder(todo[1..]))
    requires Linked(k2, Get(k2.list, menu), k', None, Some(menu)) && Linked(k2, Get(k2.next, menu), r', None, owner')
    requires Preorder(k') + Preorder(r') == Preorder(todo[0].kids) + Preorder(todo[1..])
    requires Get(k2.parent, menu) == Get(k1.parent, menu)
    ensures Passed(k2, head, done, Some(menu), [Tree(menu, k')] + r', owner, owner')
    ensures Preorder(done) + Preorder([Tree(menu, k')] + r') == Preorder(ts)
    ensures Preorder([Tree(menu, k')] + r') == [menu] + Preorder(k') + Preorder(r')
    ensures ChangedWithin(k0, k2, Preorder(ts))
    ensures |Preorder(r')| < |Preorder(todo)|
  {
    CurrentEntry(k1, head, done, Some(menu), todo, owner, owner');
    CurrentWithin(done, todo, ts);
    LinkedFrame(k1, k2, Preorder(todo), head, done, Some(menu), owner);
    ChangedChain(k0, k1, k2, Preorder(ts), Preorder(todo));
    SameParts(menu, Preorder(k'), Preorder(r'), Preorder(todo[0].kids), Preorder(todo[1..]));
    FinalizedShape(k2, menu, k', r', owner');
    assert |Preorder(todo)| == 1 + |Preorder(k') + Preorder(r')|;
  }

  lemma FinalizedShape(k: Links, menu: Id, k': seq<Tree>, r': seq<Tree>, owner: Ptr)
    requires Linked(k, Get(k.list, menu), k', None, Some(menu)) && Linked(k, Get(k.next, menu), r', None, owner)
    requires Get(k.parent, menu) == owner
    ensures Linked(k, Some(menu), [Tree(menu, k')] + r', None, owner)
    ensures Preorder([Tree(menu, k')] + r') == [menu] + Preorder(k') + Preorder(r')
  {
    var us := [Tree(menu, k')] + r';
    assert us[0] == Tree(menu, k') && us[1..] == r';
  }

  lemma FinalizingStep(entry: Id -> Entry, k0: Links, k: Links, head: Ptr, done: seq<Tree>, menu: Id,
                       k': seq<Tree>, r': seq<Tree>, owner: Ptr, ts: seq<Tree>)
    requires Passed(k, head, done, Some(menu), [Tree(menu, k')] + r', owner, owner)
    requires Preorder(done) + Preorder([Tree(menu, k')] + r') == Preorder(ts)
    requires TidyBelow(entry, done) && Tidy(entry, k') && ChangedWithin(k0, k, Preorder(ts))
    ensures Finalizing(entry, k0, k, head, done + [Tree(menu, k')], Get(k.next, menu), r', owner, owner, ts)
  {
    var us := [Tree(menu, k')] + r';
    assert us[0] == Tree(menu, k') && us[1..] == r';
    CurrentEntry(k, head, done, Some(menu), us, owner, owner);
    PassEntry(k, head, done, Tree(menu, k'), r', owner, owner);
    TidyAppend(entry, done, Tree(menu, k'));
  }

  lemma TidyAppend(entry: Id -> Entry, done: seq<Tree>, t: Tree)
    requires TidyBelow(entry, done) && Tidy(entry, t.kids)
    ensures TidyBelow(entry, done + [t])
  {
    assert [t][1..] == [];
    TidyJoin(entry, done, [t]);
  }

  // The entry menu has been finalized and given to a new owner.
  lemma FinalizingAdopted(entry: Id -> Entry, k0: Links, k2: Links, k3: Links, head: Ptr, done: seq<Tree>, menu: Id,
                          k': seq<Tree>, r': seq<Tree>, owner: Ptr, owner': Ptr, ts: seq<Tree>)
    requires Preorder(done) + Preorder([Tree(menu, k')] + r') == Preorder(ts)
    requires ChangedWithin(k0, k2, Preorder(ts)) && ChangedWithin(k2, k3, [menu])
    requires Passed(k3, head, done + [Tree(menu, k')], Get(k3.next, menu), r', owner, owner')
    requires Preorder(done + [Tree(menu, k')]) + Preorder(r') == Preorder(ts) && menu in Preorder(ts)
    requires TidyBelow(entry, done) && Tidy(entry, k')
    ensures Finalizing(entry, k0, k3, head, done + [Tree(menu, k')], Get(k3.next, menu), r', owner, owner', ts)
  {
    ChangedChain(k0, k2, k3, Preorder(ts), [menu]);
    TidyAppend(entry, done, Tree(menu, k'));
  }

  lemma FinalizingEnd(entry: Id -> Entry, k0: Links, k: Links, head: Ptr, done: seq<Tree>, todo: seq<Tree>,
                      p: Id, ts: seq<Tree>)
    requires Finalizing(entry, k0, k, head, done, None, todo, Some(p), Some(p), ts) && p !in Preorder(ts)
    ensures Linked(k, head, done, None, Some(p)) && Preorder(done) == Preorder(ts) && TidyBelow(entry, done)
    ensures Get(k.list, p) == Get(k0.list, p)
  {
    assert todo == [];
    assert Preorder(done) + [] == Preorder(done);
    assert SameLinks(k0, k, p);
  }

  lemma {:induction false} LastNext(k: Links, head: Ptr, ts: seq<Tree>, end: Ptr, owner: Ptr)
    requires ts != [] && Linked(k, head, ts, end, owner)
    ensures Get(k.next, ts[|ts| - 1].node) == end
    decreases ts
  {
    if |ts| > 1 {
      LastNext(k, Get(k.next, ts[0].node), ts[1..], end, owner);
    }
  }

  lemma AbsorbEnd(k0: Links, k: Links, l: Links, p: Id, done: seq<Tree>, todo: seq<Tree>, rest: seq<Tree>)
    requires ChangedWithin(k0, k, Preorder(rest)) && p !in Preorder(rest)
    requires Preorder(done) + Preorder(todo) == Preorder(rest)
    requires k == l || ChangedWithin(k, l, [p] + Preorder(done))
    ensures ChangedWithin(k0, l, [p] + Preorder(rest))
    ensures SameLinks(k0, k, p)
  {
    assert SameLinks(k0, k, p);
    ChangedMore(k0, k, Preorder(rest), [p] + Preorder(rest));
    if k != l {
      assert forall i :: i in Preorder(done) ==> i in Preorder(done) + Preorder(todo);
      ChangedChain(k0, k, l, [p] + Preorder(rest), [p] + Preorder(done));
    }
  }

  // list of p, next of p and next of the last absorbed entry are redirected.
  lemma Absorbed(k: Links, l: Links, head: Ptr, done: seq<Tree>, at: Ptr, todo: seq<Tree>,
                 p: Id, last: Id, owner: Ptr)
    requires Passed(k, head, done, at, todo, Some(p), owner) && done != [] && last == done[|done| - 1].node
    requires p !in Preorder(done) && p !in Preorder(todo) && Get(k.next, p) == head
    requires l == k.(list := k.list[p := Get(k.next, p)], next := k.next[p := Get(k.next, last)][last := None])
    ensures Linked(l, Get(l.list, p), done, None, Some(p)) && Linked(l, Get(l.next, p), todo, None, owner)
    ensures Get(l.parent, p) == Get(k.parent, p)
    ensures ChangedWithin(k, l, [p] + Preorder(done))
  {
    DistinctJoin(Preorder(done), Preorder(todo));
    LastInPreorder(done);
    LastNext(k, head, done, at, Some(p));
    var m := k.(list := k.list[p := Get(k.next, p)], next := k.next[p := Get(k.next, last)]);
    assert ChangedWithin(k, m, [p]);
    LinkedFrameOne(k, m, p, head, done, at, Some(p));
    LinkedFrameOne(k, m, p, at, todo, None, owner);
    LinkedEnd(m, l, head, done, at, None, Some(p));
    OneChanged(m, l, last, None);
    LinkedFrameOne(m, l, last, at, todo, None, owner);
    ChangedMore(k, m, [p], [p] + Preorder(done));
    ChangedChain(k, m, l, [p] + Preorder(done), [last]);
  }

  predicate IsRoot(k: Links, root: Id) {
    Get(k.parent, root) == None && Get(k.next, root) == None
  }

  // An open submenu on the way of the walk: who owns the list the walk left and what
  // of that list is still to come.
  datatype Frame = Frame(owner: Id, rest: seq<Tree>)

  // From m the parent pointers lead through the frames ups to the root.
  ghost predicate Upward(k: Links, m: Id, ups: seq<Frame>)
    decreases |ups|
  {
    if ups == [] then IsRoot(k, m)
    else
      && Get(k.parent, m) == Some(ups[0].owner)
      && Linked(k, Get(k.next, m), ups[0].rest, None, Some(ups[0].owner))
      && Upward(k, ups[0].owner, ups[1..])
  }

  // The entries still to be visited.
  ghost function Future(todo: seq<Tree>, ups: seq<Frame>): seq<Id>
    decreases |ups|
  {
    Preorder(todo) + if ups == [] then [] else Future(ups[0].rest, ups[1..])
  }

  function FirstOf(s: seq<Id>): Ptr {
    if s == [] then None else Some(s[0])
  }

  lemma FutureFirst(todo: seq<Tree>, ups: seq<Frame>)
    requires todo != []
    ensures FirstOf(Future(todo, ups)) == Some(todo[0].node)
  {
    PreorderFirst(todo);
  }

  // The walk enters a submenu.
  lemma FutureDown(todo: seq<Tree>, ups: seq<Frame>, owner: Id)
    requires todo != []
    ensures Future(todo, ups) == [todo[0].node] + Future(todo[0].kids, [Frame(owner, todo[1..])] + ups)
  {
    var f := [Frame(owner, todo[1..])] + ups;
    assert f[1..] == ups;
    var up := if ups == [] then [] else Future(ups[0].rest, ups[1..]);
    assert Future(todo[0].kids, f) == Preorder(todo[0].kids) + (Preorder(todo[1..]) + up);
  }

  // The walk goes on in the same list.
  lemma FutureNext(todo: seq<Tree>, ups: seq<Frame>)
    requires todo != [] && todo[0].kids == []
    ensures Future(todo, ups) == [todo[0].node] + Future(todo[1..], ups)
  {
    assert Preorder(todo) == [todo[0].node] + [] + Preorder(todo[1..]);
  }

  lemma Prepend(visited: seq<Id>, m: Id, future: seq<Id>)
    ensures visited + ([m] + future) == visited + [m] + future
  {
  }

  lemma VisitedMore(done: seq<Tree>, t: Tree, visited: seq<Id>)
    requires visited == [t.node] + Preorder(t.kids)
    ensures Preorder(done + [t]) == Preorder(done) + visited
  {
    PreorderAppend(done, t);
    assert Preorder(done) + [t.node] + Preorder(t.kids) == Preorder(done) + visited;
  }

  lemma NoKids(p: Id, kids: seq<Tree>, rest: seq<Tree>)
    requires kids == []
    ensures [p] + Preorder(kids) + Preorder(rest) == [p] + Preorder(rest)
  {
  }

  class MenuTable {
    const entry: Id -> Entry
    var next: map<Id, Ptr>
    var parent: map<Id, Ptr>
    var list: map<Id, Ptr>
    // menu->dep and menu->prompt->visible.expr
    var dep: map<Id, ExprOpt>
    var visible: map<Id, ExprOpt>

    constructor (entry: Id -> Entry)
      ensures this.entry == entry
    {
      this.entry := entry;
      next, parent, list := map[], map[], map[];
      dep, visible := map[], map[];
    }

    ghost function K(): Links
      reads this`next, this`parent, this`list
    {
      Links(next, parent, list)
    }

    function C(): Conditions
      reads this`dep, this`visible
    {
      Conditions(dep, visible)
    }

    // The loop that gives the children of m to p; returns the last of them.
    method Adopt(m: Id, p: Id, ghost kids: seq<Tree>) returns (last: Id)
      requires kids != [] && Linked(K(), Get(list, m), kids, None, Some(m)) && Distinct(Preorder(kids))
      modifies this`parent
      ensures last == kids[|kids| - 1].node
      ensures Linked(K(), Get(list, m), kids, None, Some(p))
      ensures ChangedWithin(old(K()), K(), Preorder(kids))
    {
      ghost var k0, head := K(), Get(list, m);
      ghost var done, todo := [], kids;
      assert Preorder(done) + Preorder(todo) == Preorder(kids);
      last := Get(list, m).value;
      var at := Get(list, m);
      while at.Some?
        invariant Adopting(k0, K(), head, done, at, todo, p, m, kids)
        invariant done != [] ==> last == done[|done| - 1].node
        decreases |todo|
      {
        last := at.value;
        ghost var k1 := K();
        AdoptOne(last, p, head, done, todo, Some(m));
        AdoptingStep(k0, k1, K(), head, done, last, todo, p, m, kids);
        done, todo := done + [todo[0]], todo[1..];
        at := Get(next, last);
      }
      AdoptingEnd(k0, K(), head, done, todo, p, m, kids);
    }

    // menu->parent = p for the current entry of a loop
    method AdoptOne(menu: Id, p: Id, ghost head: Ptr, ghost done: seq<Tree>, ghost todo: seq<Tree>, ghost owner: Ptr)
      requires Passed(K(), head, done, Some(menu), todo, Some(p), owner)
      modifies this`parent
      ensures todo != [] && menu == todo[0].node && menu in Preorder(done) + Preorder(todo)
      ensures Passed(K(), head, done + [todo[0]], Get(next, menu), todo[1..], Some(p), owner)
      ensures Preorder(done + [todo[0]]) + Preorder(todo[1..]) == Preorder(done) + Preorder(todo)
      ensures ChangedWithin(old(K()), K(), [menu])
    {
      ghost var k := K();
      CurrentEntry(k, head, done, Some(menu), todo, Some(p), owner);
      ghost var t := todo[0];
      parent := parent[menu := Some(p)];
      assert ChangedWithin(k, K(), [menu]);
      DistinctJoin([menu] + Preorder(t.kids), Preorder(todo[1..]));
      DistinctJoin([menu], Preorder(t.kids));
      assert menu in [menu];
      LinkedFrame(k, K(), [menu], head, done, Some(menu), Some(p));
      LinkedFrame(k, K(), [menu], Get(list, menu), t.kids, None, Some(menu));
      LinkedFrame(k, K(), [menu], Get(next, menu), todo[1..], None, owner);
      PassEntry(K(), head, done, t, todo[1..], Some(p), owner);
    }

    // The children of menu are moved behind it and become children of p.
    method Dissolve(menu: Id, p: Id, ghost head: Ptr, ghost done: seq<Tree>, ghost todo: seq<Tree>)
      requires Passed(K(), head, done, Some(menu), todo, Some(p), Some(p))
      requires Get(list, menu).Some?
      modifies this`next, this`parent, this`list
      ensures todo != [] && todo[0].node == menu && todo[0].kids != []
      ensures Passed(K(), head, done + [Tree(menu, [])], Get(next, menu), todo[0].kids + todo[1..], Some(p), Some(p))
      ensures Preorder(done + [Tree(menu, [])]) + Preorder(todo[0].kids + todo[1..]) == Preorder(done) + Preorder(todo)
      ensures ChangedWithin(old(K()), K(), Preorder(todo))
    {
      CurrentEntry(K(), head, done, Some(menu), todo, Some(p), Some(p));
      ghost var kids, rest := todo[0].kids, todo[1..];
      SeparateEntry(menu, Preorder(kids), Preorder(rest), Preorder(done));
      MoveKids(menu, p, head, done, kids, rest);
      PreorderJoin(kids, rest);
      assert [menu] + [] + (Preorder(kids) + Preorder(rest)) == [menu] + Preorder(kids) + Preorder(rest);
      PassEntry(K(), head, done, Tree(menu, []), kids + rest, Some(p), Some(p));
    }

    method MoveKids(menu: Id, p: Id, ghost head: Ptr, ghost done: seq<Tree>, ghost kids: seq<Tree>,
                    ghost rest: seq<Tree>)
      requires kids != [] && Separate(done, menu, kids, rest)
      requires Linked(K(), head, done, Some(menu), Some(p)) && Get(parent, menu) == Some(p)
      requires Linked(K(), Get(list, menu), kids, None, Some(menu))
      requires Linked(K(), Get(next, menu), rest, None, Some(p))
      modifies this`next, this`parent, this`list
      ensures Linked(K(), head, done, Some(menu), Some(p))
      ensures Linked(K(), Get(next, menu), kids + rest, None, Some(p))
      ensures Get(parent, menu) == Some(p) && Get(list, menu) == None
      ensures ChangedWithin(old(K()), K(), [menu] + Preorder(kids) + Preorder(rest))
    {
      ghost var k0 := K();
      var last := Adopt(menu, p, kids);
      ghost var k1 := K();
      next := next[last := Get(next, menu)];
      ghost var k2 := K();
      next := next[menu := Get(list, menu)];
      list := list[menu := None];
      DissolveAdopted(k0, k1, head, menu, p, done, kids, rest);
      RedirectLast(k1, k2, head, menu, p, done, kids, rest, Get(k1.next, menu));
      RedirectEntry(k2, K(), head, menu, p, done, kids, rest, Get(k1.next, menu));
      DissolveChanges(k0, k1, k2, K(), menu, last, Preorder(kids), Preorder(rest));
    }

    // The last loop of menu_finalize over the entries below p.
    method Flatten(p: Id, ghost ts: seq<Tree>) returns (ghost us: seq<Tree>)
      requires Linked(K(), Get(list, p), ts, None, Some(p)) && Distinct([p] + Preorder(ts))
      requires TidyBelow(entry, ts)
      modifies this`next, this`parent, this`list
      ensures Linked(K(), Get(list, p), us, None, Some(p)) && Preorder(us) == Preorder(ts)
      ensures Tidy(entry, us) && us == Opened(entry, ts)
      ensures ChangedWithin(old(K()), K(), Preorder(ts))
    {
      ghost var k0, head := K(), Get(list, p);
      ghost var done, todo := [], ts;
      assert Preorder(done) + Preorder(todo) == Preorder(ts);
      assert done + Opened(entry, todo) == Opened(entry, ts);
      DistinctJoin([p], Preorder(ts));
      var at := Get(list, p);
      while at.Some?
        invariant Flattening(entry, k0, K(), head, done, at, todo, p, ts)
        invariant done + Opened(entry, todo) == Opened(entry, ts)
        decreases |Preorder(todo)|
      {
        var menu := at.value;
        ghost var k1 := K();
        CurrentEntry(k1, head, done, at, todo, Some(p), Some(p));
        OpenedStep(entry, done, todo, Opened(entry, ts));
        if Get(list, menu).Some? && !(entry(menu).hasPrompt && entry(menu).hasText) {
          Dissolve(menu, p, head, done, todo);
          FlatteningDissolved(entry, k0, k1, K(), head, done, menu, todo, p, ts);
          done, todo := done + [Tree(menu, [])], todo[0].kids + todo[1..];
        } else {
          FlatteningKept(entry, k0, k1, head, done, menu, todo, p, ts);
          done, todo := done + [todo[0]], todo[1..];
        }
        at := Get(next, menu);
      }
      us := done;
      FlatteningEnd(entry, k0, K(), head, done, todo, p, ts);
    }

    // The loop that hands the condition outer of p down to the entries below it.
    method HandDown(p: Id, outer: ExprOpt, ghost kids: seq<Tree>)
      requires Linked(K(), Get(list, p), kids, None, Some(p)) && Distinct(Preorder(kids))
      modifies this`dep, this`visible
      ensures AllInherit(entry, outer, kids, old(C()), C())
      ensures SameExprs(Tops(kids), old(C()), C())
    {
      ghost var head, c0 := Get(list, p), C();
      ghost var done, todo := [], kids;
      assert Preorder(done) + Preorder(todo) == Preorder(kids);
      var at := Get(list, p);
      while at.Some?
        invariant HandingDown(entry, outer, K(), head, done, at, todo, p, kids, c0, C())
        decreases |todo|
      {
        ghost var c1 := C();
        var menu := at.value;
        HandDownOne(menu, outer);
        HandingDownStep(entry, outer, K(), head, done, menu, todo, p, kids, c0, c1, C());
        done, todo := done + [todo[0]], todo[1..];
        at := Get(next, menu);
      }
      assert todo == [] && done == kids;
    }

    method HandDownOne(menu: Id, outer: ExprOpt)
      modifies this`dep, this`visible
      ensures Inherits(entry, outer, menu, old(C()), C())
      ensures SameExprs([menu], old(C()), C())
    {
      var base := Conjoin(outer, Find(dep, menu));
      dep := dep[menu := base];
      if entry(menu).hasPrompt {
        var condition := PromptCondition(base, Find(visible, menu), entry(menu).sym);
        visible := visible[menu := condition];
      }
    }

    // menu_finalize(p).  kids are the entries below p and rest those behind it;
    // visited lists the calls of menu_finalize.
    method Finalize(p: Id, ghost kids: seq<Tree>, ghost rest: seq<Tree>, ghost owner: Ptr)
        returns (ghost kids': seq<Tree>, ghost rest': seq<Tree>, ghost visited: seq<Id>, ghost call: Call)
      requires Linked(K(), Get(list, p), kids, None, Some(p)) && Linked(K(), Get(next, p), rest, None, owner)
      requires Distinct([p] + Preorder(kids) + Preorder(rest))
      modifies this`next, this`parent, this`list, this`dep, this`visible
      ensures Linked(K(), Get(list, p), kids', None, Some(p)) && Linked(K(), Get(next, p), rest', None, owner)
      ensures Preorder(kids') + Preorder(rest') == Preorder(kids) + Preorder(rest)
      ensures Suffix(rest', rest)
      ensures visited == [p] + Preorder(kids')
      ensures Tidy(entry, kids')
      ensures Get(parent, p) == old(Get(parent, p))
      ensures ChangedWithin(old(K()), K(), [p] + Preorder(kids) + Preorder(rest))
      ensures Progress(entry, [Tree(p, kids)] + rest, rest', old(C()), C())
      ensures Did(entry, C(), call, Tree(p, kids), rest, Tree(p, kids'), rest')
      decreases |Preorder(kids)| + |Preorder(rest)|, 1
    {
      ghost var k0, mid := K(), [];
      mid, rest', visited, call := FinalizeBelow(p, kids, rest, owner);
      ghost var k1 := K();
      PartsKept(p, mid, rest', kids, rest);
      kids' := Flatten(p, mid);
      Flattened(k0, k1, K(), p, mid, rest', kids, rest, owner);
      visited := [p] + visited;
    }

    // The two loops of menu_finalize that call it again, before the submenus without a
    // prompt are dissolved.
    method FinalizeBelow(p: Id, ghost kids: seq<Tree>, ghost rest: seq<Tree>, ghost owner: Ptr)
        returns (ghost mid: seq<Tree>, ghost rest': seq<Tree>, ghost visited: seq<Id>, ghost call: Call)
      requires Linked(K(), Get(list, p), kids, None, Some(p)) && Linked(K(), Get(next, p), rest, None, owner)
      requires Distinct([p] + Preorder(kids) + Preorder(rest))
      modifies this`next, this`parent, this`list, this`dep, this`visible
      ensures Linked(K(), Get(list, p), mid, None, Some(p)) && Linked(K(), Get(next, p), rest', None, owner)
      ensures Preorder(mid) + Preorder(rest') == Preorder(kids) + Preorder(rest)
      ensures visited == Preorder(mid)
      ensures TidyBelow(entry, mid)
      ensures Get(parent, p) == old(Get(parent, p))
      ensures ChangedWithin(old(K()), K(), [p] + Preorder(kids) + Preorder(rest))
      ensures Suffix(rest', rest) && Progress(entry, [Tree(p, kids)] + rest, rest', old(C()), C())
      ensures call.node == p && call.left == |rest'| && mid == GrownAll(entry, call.below)
      ensures Follows(entry, C(), call, kids, rest)
      decreases |Preorder(kids)| + |Preorder(rest)|, 0, 6
    {
      if Get(list, p).Some? {
        mid, visited, call := FinalizeSubmenu(p, kids, rest, owner);
        rest' := rest;
      } else {
        NoKids(p, kids, rest);
        mid, rest', visited, call := FinalizeSiblings(p, rest, owner);
      }
    }

    // The second: p, which has no list, is given one if it has a symbol.
    method FinalizeSiblings(p: Id, ghost rest: seq<Tree>, ghost owner: Ptr)
        returns (ghost mid: seq<Tree>, ghost rest': seq<Tree>, ghost visited: seq<Id>, ghost call: Call)
      requires Get(list, p).None?
      requires Linked(K(), Get(next, p), rest, None, owner) && Distinct([p] + Preorder(rest))
      modifies this`next, this`parent, this`list, this`dep, this`visible
      ensures Linked(K(), Get(list, p), mid, None, Some(p)) && Linked(K(), Get(next, p), rest', None, owner)
      ensures Preorder(mid) + Preorder(rest') == Preorder(rest) && visited == Preorder(mid)
      ensures TidyBelow(entry, mid)
      ensures Get(parent, p) == old(Get(parent, p))
      ensures ChangedWithin(old(K()), K(), [p] + Preorder(rest))
      ensures Suffix(rest', rest) && Progress(entry, [Tree(p, [])] + rest, rest', old(C()), C())
      ensures call.node == p && call.left == |rest'| && mid == GrownAll(entry, call.below)
      ensures Follows(entry, C(), call, [], rest)
      decreases |Preorder(rest)|, 0, 5
    {
      ghost var c0 := C();
      if entry(p).sym.Some? {
        ghost var calls;
        mid, rest', visited, calls := Absorb(p, rest, owner);
        call := Call(p, |rest'|, calls);
        FollowsBySiblings(entry, C(), call, rest, rest', mid);
        ProgressOfSiblings(entry, p, rest, rest', c0, C());
      } else {
        mid, rest', visited, call := [], rest, [], Call(p, |rest|, []);
        ProgressNone(entry, rest, c0);
        ProgressOfSiblings(entry, p, rest, rest, c0, C());
      }
    }

    // The first of them: p hands its condition down to its list and finalizes the entries.
    method FinalizeSubmenu(p: Id, ghost kids: seq<Tree>, ghost rest: seq<Tree>, ghost owner: Ptr)
        returns (ghost mid: seq<Tree>, ghost visited: seq<Id>, ghost call: Call)
      requires Get(list, p).Some?
      requires Linked(K(), Get(list, p), kids, None, Some(p)) && Linked(K(), Get(next, p), rest, None, owner)
      requires Distinct([p] + Preorder(kids) + Preorder(rest))
      modifies this`next, this`parent, this`list, this`dep, this`visible
      ensures Linked(K(), Get(list, p), mid, None, Some(p)) && Linked(K(), Get(next, p), rest, None, owner)
      ensures Preorder(mid) == Preorder(kids) && visited == Preorder(mid)
      ensures TidyBelow(entry, mid)
      ensures Get(parent, p) == old(Get(parent, p))
      ensures ChangedWithin(old(K()), K(), [p] + Preorder(kids) + Preorder(rest))
      ensures Progress(entry, [Tree(p, kids)] + rest, rest, old(C()), C())
      ensures call.node == p && call.left == |rest| && mid == GrownAll(entry, call.below)
      ensures Follows(entry, C(), call, kids, rest)
      decreases |Preorder(kids)| + |Preorder(rest)|, 0, 4
    {
      ghost var k0, c0 := K(), C();
      SeparateParts(p, kids, rest);
      HandDown(p, ConditionIn(entry, C(), p), kids);
      ghost var c1, calls := C(), [];
      mid, visited, calls := FinalizeList(p, kids);
      call := Call(p, |rest|, calls);
      FollowsByList(entry, C(), call, kids, rest, mid);
      ListHanded(entry, p, kids, c0, c1, C());
      ProgressOfList(entry, p, kids, rest, c0, C());
      ListFinalized(k0, K(), p, kids, rest, owner);
    }

    // The call of menu_finalize for the current entry menu of a loop over ts.
    method FinalizeCurrent(menu: Id, ghost k0: Links, ghost head: Ptr, ghost done: seq<Tree>, ghost todo: seq<Tree>,
                           ghost owner: Ptr, ghost owner': Ptr, ghost ts: seq<Tree>)
        returns (ghost k': seq<Tree>, ghost r': seq<Tree>, ghost visited: seq<Id>, ghost call: Call)
      requires Finalizing(entry, k0, K(), head, done, Some(menu), todo, owner, owner', ts)
      modifies this`next, this`parent, this`list, this`dep, this`visible
      ensures todo != [] && todo[0].node == menu
      ensures Passed(K(), head, done, Some(menu), [Tree(menu, k')] + r', owner, owner')
      ensures Preorder(done) + Preorder([Tree(menu, k')] + r') == Preorder(ts)
      ensures ChangedWithin(k0, K(), Preorder(ts))
      ensures Progress(entry, todo, r', old(C()), C())
      ensures Tidy(entry, k') && visited == [menu] + Preorder(k')
      ensures |Preorder(r')| < |Preorder(todo)|
      ensures Did(entry, C(), call, todo[0], todo[1..], Tree(menu, k'), r')
      decreases |Preorder(ts)|, 0, 0
    {
      ghost var k1 := K();
      CurrentEntry(k1, head, done, Some(menu), todo, owner, owner');
      CurrentWithin(done, todo, ts);
      assert [Tree(menu, todo[0].kids)] + todo[1..] == todo;
      k', r', visited, call := Finalize(menu, todo[0].kids, todo[1..], owner');
      FinalizedEntry(k0, k1, K(), head, done, menu, todo, k', r', owner, owner', ts);
    }

    // One round of the loop that calls menu_finalize for every entry below p.
    method ListStep(p: Id, menu: Id, ghost k0: Links, ghost head: Ptr, ghost done: seq<Tree>, ghost todo: seq<Tree>,
                    ghost ts: seq<Tree>)
        returns (ghost t: Tree, ghost r': seq<Tree>, ghost visited: seq<Id>, ghost call: Call)
      requires Finalizing(entry, k0, K(), head, done, Some(menu), todo, Some(p), Some(p), ts)
      modifies this`next, this`parent, this`list, this`dep, this`visible
      ensures Finalizing(entry, k0, K(), head, done + [t], Get(next, menu), r', Some(p), Some(p), ts)
      ensures Preorder(done + [t]) == Preorder(done) + visited
      ensures Progress(entry, todo, r', old(C()), C())
      ensures |Preorder(r')| < |Preorder(todo)|
      ensures todo != [] && Did(entry, C(), call, todo[0], todo[1..], t, r')
      decreases |Preorder(ts)|, 0, 1
    {
      ghost var k';
      k', r', visited, call := FinalizeCurrent(menu, k0, head, done, todo, Some(p), Some(p), ts);
      t := Tree(menu, k');
      FinalizingStep(entry, k0, K(), head, done, menu, k', r', Some(p), ts);
      VisitedMore(done, t, visited);
    }

    // The loop that calls menu_finalize for every entry below p.
    method FinalizeList(p: Id, ghost kids: seq<Tree>)
        returns (ghost kids': seq<Tree>, ghost visited: seq<Id>, ghost calls: seq<Call>)
      requires Linked(K(), Get(list, p), kids, None, Some(p)) && Distinct([p] + Preorder(kids))
      modifies this`next, this`parent, this`list, this`dep, this`visible
      ensures Linked(K(), Get(list, p), kids', None, Some(p)) && Preorder(kids') == Preorder(kids)
      ensures visited == Preorder(kids')
      ensures TidyBelow(entry, kids')
      ensures ChangedWithin(old(K()), K(), Preorder(kids))
      ensures Progress(entry, kids, [], old(C()), C())
      ensures Made(entry, C(), None, calls, kids, [], kids')
      decreases |Preorder(kids)|, 0, 2
    {
      ghost var k0, head, c0 := K(), Get(list, p), C();
      ghost var done, todo := [], kids;
      FinalizingStart(entry, k0, p, head, kids, Some(p));
      ProgressNone(entry, kids, c0);
      MadeStart(entry, c0, None, kids);
      visited, calls := [], [];
      var at := Get(list, p);
      while at.Some?
        invariant Finalizing(entry, k0, K(), head, done, at, todo, Some(p), Some(p), kids)
        invariant visited == Preorder(done)
        invariant Progress(entry, kids, todo, c0, C())
        invariant Made(entry, C(), None, calls, kids, todo, done)
        decreases |Preorder(todo)|
      {
        ghost var c1 := C();
        ghost var t, r', v, call := ListStep(p, at.value, k0, head, done, todo, kids);
        ProgressChain(entry, kids, todo, r', c0, c1, C());
        MadeStep(entry, c1, C(), None, calls, kids, todo, done, call, t, r');
        visited, calls := visited + v, calls + [call];
        done, todo := done + [t], r';
        at := Get(next, at.value);
      }
      kids' := done;
      FinalizingEnd(entry, k0, K(), head, done, todo, p, kids);
    }

    // The test of the sibling loop for the entry menu behind p.
    method MayEnter(p: Id, menu: Id, base: Expr) returns (ok: bool)
      requires entry(p).sym.Some? && Compares(base, PromptIn(entry, C(), p))
      ensures ok ==> Enters(entry, C(), p, menu)
      ensures !ok ==> Stays(entry, C(), p, menu)
    {
      ok := BelongsBelow(ConditionIn(entry, C(), menu), entry(p).sym.value, base, PromptIn(entry, C(), p));
    }

    // menu->parent = p for the entry that has just been finalized
    method Reparent(menu: Id, p: Id, ghost head: Ptr, ghost done: seq<Tree>, ghost t: Tree,
                    ghost r': seq<Tree>, ghost owner: Ptr)
      requires t.node == menu && Passed(K(), head, done, Some(menu), [t] + r', Some(p), owner)
      modifies this`parent
      ensures Passed(K(), head, done + [t], Get(next, menu), r', Some(p), owner)
      ensures Preorder(done + [t]) + Preorder(r') == Preorder(done) + Preorder([t] + r')
      ensures menu in Preorder(done) + Preorder([t] + r')
      ensures ChangedWithin(old(K()), K(), [menu])
    {
      assert ([t] + r')[0] == t && ([t] + r')[1..] == r';
      AdoptOne(menu, p, head, done, [t] + r', owner);
    }

    // The absorbed entries are cut out of the list of p and put below p.
    method Relink(p: Id, last: Ptr, ghost head: Ptr, ghost done: seq<Tree>, ghost at: Ptr,
                  ghost todo: seq<Tree>, ghost owner: Ptr)
      requires Passed(K(), head, done, at, todo, Some(p), owner) && Get(next, p) == head
      requires p !in Preorder(done) && p !in Preorder(todo)
      requires last == if done == [] then None else Some(done[|done| - 1].node)
      requires done == [] ==>
        Linked(K(), Get(list, p), [], None, Some(p)) && Linked(K(), Get(next, p), todo, None, owner)
      modifies this`list, this`next
      ensures Linked(K(), Get(list, p), done, None, Some(p)) && Linked(K(), Get(next, p), todo, None, owner)
      ensures Get(parent, p) == old(Get(parent, p))
      ensures old(K()) == K() || ChangedWithin(old(K()), K(), [p] + Preorder(done))
    {
      ghost var k := K();
      if last.Some? {
        list := list[p := Get(next, p)];
        next := next[p := Get(next, last.value)];
        next := next[last.value := None];
        Absorbed(k, K(), head, done, at, todo, p, last.value, owner);
      }
    }

    // menu_finalize(menu); menu->parent = p
    method FinalizeAndAdopt(p: Id, menu: Id, ghost k0: Links, ghost head: Ptr, ghost done: seq<Tree>,
                            ghost todo: seq<Tree>, ghost owner: Ptr, ghost ts: seq<Tree>)
        returns (ghost k': seq<Tree>, ghost r': seq<Tree>, ghost visited: seq<Id>, ghost call: Call)
      requires Finalizing(entry, k0, K(), head, done, Some(menu), todo, Some(p), owner, ts)
      modifies this`next, this`parent, this`list, this`dep, this`visible
      ensures todo != [] && visited == [menu] + Preorder(k')
      ensures Finalizing(entry, k0, K(), head, done + [Tree(menu, k')], Get(next, menu), r', Some(p), owner, ts)
      ensures Progress(entry, todo, r', old(C()), C())
      ensures |Preorder(r')| < |Preorder(todo)|
      ensures Did(entry, C(), call, todo[0], todo[1..], Tree(menu, k'), r')
      decreases |Preorder(ts)|, 0, 1
    {
      k', r', visited, call := FinalizeCurrent(menu, k0, head, done, todo, Some(p), owner, ts);
      ghost var k2 := K();
      Reparent(menu, p, head, done, Tree(menu, k'), r', owner);
      FinalizingAdopted(entry, k0, k2, K(), head, done, menu, k', r', Some(p), owner, ts);
    }

    // One round of the sibling loop, after the test.
    method AbsorbStep(p: Id, menu: Id, ghost k0: Links, ghost head: Ptr, ghost done: seq<Tree>, ghost todo: seq<Tree>,
                      ghost owner: Ptr, ghost ts: seq<Tree>)
        returns (ghost t: Tree, ghost r': seq<Tree>, ghost visited: seq<Id>, ghost call: Call)
      requires Finalizing(entry, k0, K(), head, done, Some(menu), todo, Some(p), owner, ts)
      modifies this`next, this`parent, this`list, this`dep, this`visible
      ensures t.node == menu
      ensures Finalizing(entry, k0, K(), head, done + [t], Get(next, menu), r', Some(p), owner, ts)
      ensures Preorder(done + [t]) == Preorder(done) + visited
      ensures Progress(entry, todo, r', old(C()), C())
      ensures |Preorder(r')| < |Preorder(todo)|
      ensures todo != [] && Did(entry, C(), call, todo[0], todo[1..], t, r')
      decreases |Preorder(ts)|, 0, 2
    {
      ghost var k';
      k', r', visited, call := FinalizeAndAdopt(p, menu, k0, head, done, todo, owner, ts);
      t := Tree(menu, k');
      VisitedMore(done, t, visited);
    }

    // The sibling loop: it stops at the first entry that may not enter.
    method AbsorbLoop(p: Id, ghost rest: seq<Tree>, ghost owner: Ptr)
        returns (last: Ptr, ghost at: Ptr, ghost done: seq<Tree>, ghost todo: seq<Tree>, ghost visited: seq<Id>,
                 ghost calls: seq<Call>)
      requires entry(p).sym.Some?
      requires Linked(K(), Get(next, p), rest, None, owner) && Distinct([p] + Preorder(rest))
      modifies this`next, this`parent, this`list, this`dep, this`visible
      ensures Absorbing(entry, old(K()), K(), old(Get(next, p)), done, at, todo, p, owner, rest, last, visited,
                        old(C()), C())
      ensures Made(entry, C(), Some(p), calls, rest, todo, done)
      ensures at.Some? ==> Stays(entry, old(C()), p, at.value) && Stays(entry, C(), p, at.value)
      decreases |Preorder(rest)|, 0, 3
    {
      ghost var k0, head, c0 := K(), Get(next, p), C();
      done, todo := [], rest;
      FinalizingStart(entry, k0, p, head, rest, owner);
      ProgressNone(entry, rest, c0);
      MadeStart(entry, c0, Some(p), rest);
      DistinctJoin([p], Preorder(rest));
      visited, calls := [], [];
      var base := NotNo(if entry(p).hasPrompt then Find(visible, p) else None);
      last := None;
      var menu := Get(next, p);
      while menu.Some?
        invariant Absorbing(entry, k0, K(), head, done, menu, todo, p, owner, rest, last, visited, c0, C())
        invariant Made(entry, C(), Some(p), calls, rest, todo, done)
        decreases |Preorder(todo)|
      {
        ghost var k1, c1 := K(), C();
        AbsorbingSame(entry, k0, k1, head, done, menu.value, todo, p, owner, rest, c0, c1);
        DecisionFrame(entry, c0, c1, p, menu.value);
        var ok := MayEnter(p, menu.value, base);
        if !ok {
          break;
        }
        ghost var t, r', v, call := AbsorbStep(p, menu.value, k0, head, done, todo, owner, rest);
        AbsorbingNext(entry, k0, k1, K(), head, done, menu, todo, p, owner, rest, last, visited,
                      c0, c1, C(), t, r', v, Get(next, menu.value));
        MadeStep(entry, c1, C(), Some(p), calls, rest, todo, done, call, t, r');
        visited, calls := visited + v, calls + [call];
        done, todo := done + [t], r';
        last := menu;
        menu := Get(next, menu.value);
      }
      at := menu;
    }

    // The entries behind p that depend on p become its submenu.
    method Absorb(p: Id, ghost rest: seq<Tree>, ghost owner: Ptr)
        returns (ghost kids': seq<Tree>, ghost rest': seq<Tree>, ghost visited: seq<Id>, ghost calls: seq<Call>)
      requires Get(list, p).None? && entry(p).sym.Some?
      requires Linked(K(), Get(next, p), rest, None, owner) && Distinct([p] + Preorder(rest))
      modifies this`next, this`parent, this`list, this`dep, this`visible
      ensures Linked(K(), Get(list, p), kids', None, Some(p)) && Linked(K(), Get(next, p), rest', None, owner)
      ensures Preorder(kids') + Preorder(rest') == Preorder(rest)
      ensures visited == Preorder(kids')
      ensures TidyBelow(entry, kids')
      ensures Get(parent, p) == old(Get(parent, p))
      ensures ChangedWithin(old(K()), K(), [p] + Preorder(rest))
      ensures Progress(entry, rest, rest', old(C()), C())
      ensures AllAdmitted(entry, old(C()), p, kids')
      ensures Made(entry, C(), Some(p), calls, rest, rest', kids')
      ensures rest' != [] ==> Stays(entry, old(C()), p, rest'[0].node) && Stays(entry, C(), p, rest'[0].node)
      decreases |Preorder(rest)|, 0, 4
    {
      ghost var k0 := K();
      FinalizingStart(entry, k0, p, Get(next, p), rest, owner);
      var last;
      ghost var at;
      last, at, kids', rest', visited, calls := AbsorbLoop(p, rest, owner);
      ghost var k1 := K();
      AbsorbBefore(entry, k0, k1, Get(k0.next, p), kids', at, rest', p, owner, rest);
      Relink(p, last, Get(k0.next, p), kids', at, rest', owner);
      AbsorbEnd(k0, k1, K(), p, kids', rest', rest);
    }

    // menu_finalize(&rootmenu)
    method FinalizeRoot(root: Id, ghost kids: seq<Tree>)
        returns (ghost kids': seq<Tree>, ghost visited: seq<Id>, ghost call: Call)
      requires IsRoot(K(), root) && Linked(K(), Get(list, root), kids, None, Some(root))
      requires Distinct([root] + Preorder(kids))
      modifies this`next, this`parent, this`list, this`dep, this`visible
      ensures IsRoot(K(), root) && Linked(K(), Get(list, root), kids', None, Some(root))
      ensures Preorder(kids') == Preorder(kids)
      ensures visited == [root] + Preorder(kids) && Distinct(visited)
      ensures Tidy(entry, kids')
      ensures Handed(entry, root, kids, old(C()), C())
      ensures call.node == root && Follows(entry, C(), call, kids, [])
      ensures Tree(root, kids') == Grown(entry, call)
    {
      assert [root] + Preorder(kids) + Preorder([]) == [root] + Preorder(kids);
      ghost var rest';
      kids', rest', visited, call := Finalize(root, kids, [], None);
      assert Preorder(kids') + Preorder(rest') == Preorder(kids);
      assert rest' == [];
      assert Preorder(kids') + [] == Preorder(kids');
    }

    // The walk over the menu in conf_write, which has no stack and finds its way back
    // by the parent pointers.
    method Walk(root: Id, ghost kids: seq<Tree>) returns (visited: seq<Id>)
      requires IsRoot(K(), root) && Linked(K(), Get(list, root), kids, None, Some(root))
      ensures visited == Preorder(kids)
    {
      visited := [];
      ghost var todo, owner, ups := kids, root, [];
      var menu := Get(list, root);
      assert Future(todo, ups) == Preorder(kids);
      while menu.Some?
        invariant Linked(K(), menu, todo, None, Some(owner)) && Upward(K(), owner, ups)
        invariant menu.None? ==> Future(todo, ups) == []
        invariant visited + Future(todo, ups) == Preorder(kids)
        decreases |Future(todo, ups)|
      {
        var m := menu.value;
        ghost var t, rest := todo[0], todo[1..];
        if Get(list, m).Some? {
          FutureDown(todo, ups, owner);
          menu := Get(list, m);
          todo, owner, ups := t.kids, m, [Frame(owner, rest)] + ups;
        } else if Get(next, m).Some? {
          FutureNext(todo, ups);
          menu := Get(next, m);
          todo := rest;
        } else {
          FutureNext(todo, ups);
          menu, todo, owner, ups := Climb(Get(parent, m).value, ups);
        }
        Prepend(visited, m, Future(todo, ups));
        visited := visited + [m];
      }
    }

    // menu->parent is followed until an entry has a next one.
    method Climb(from: Id, ghost ups0: seq<Frame>)
        returns (menu: Ptr, ghost todo: seq<Tree>, ghost owner: Id, ghost ups: seq<Frame>)
      requires Upward(K(), from, ups0)
      ensures Linked(K(), menu, todo, None, Some(owner)) && Upward(K(), owner, ups)
      ensures Future(todo, ups) == Future([], ups0)
      ensures menu == FirstOf(Future([], ups0))
    {
      menu := Some(from);
      ups := ups0;
      while true
        invariant menu.Some? && Upward(K(), menu.value, ups)
        invariant Future([], ups) == Future([], ups0)
        decreases |ups|
      {
        if Get(next, menu.value).Some? {
          owner, todo := ups[0].owner, ups[0].rest;
          menu := Get(next, menu.value);
          ups := ups[1..];
          FutureFirst(todo, ups);
          return;
        }
        if Get(parent, menu.value).None? {
          owner, todo, menu := menu.value, [], None;
          return;
        }
        menu := Get(parent, menu.value);
        assert ups[0].rest == [];
        ups := ups[1..];
      }
    }
  }
}
