// The conditions of menu entries and how menu_finalize hands them down the tree.

module MenuConditions {
  import opened Options
  import opened Tristates
  import opened Exprs
  import opened MenuLinks
  import opened MenuDependencies

  // The parts of a menu entry that do not change: its symbol, whether it has a
  // prompt and whether the prompt has a text.
  datatype Entry = Entry(sym: Option<Sym>, hasPrompt: bool, hasText: bool)

  // menu->dep and menu->prompt->visible.expr of all entries
  datatype Conditions = Conditions(dep: map<Id, ExprOpt>, visible: map<Id, ExprOpt>)

  function Find(m: map<Id, ExprOpt>, i: Id): ExprOpt {
    if i in m then m[i] else None
  }

  // menu->prompt ? menu->prompt->visible.expr : menu->dep
  function ConditionIn(entry: Id -> Entry, c: Conditions, m: Id): ExprOpt {
    if entry(m).hasPrompt then Find(c.visible, m) else Find(c.dep, m)
  }

  predicate SameAt(c: Conditions, d: Conditions, i: Id) {
    Find(c.dep, i) == Find(d.dep, i) && Find(c.visible, i) == Find(d.visible, i)
  }

  // Only the expressions of the entries xs may differ.
  ghost predicate SameExprs(xs: seq<Id>, c: Conditions, d: Conditions) {
    forall i: Id {:trigger SameAt(c, d, i)} :: i !in xs ==> SameAt(c, d, i)
  }

  ghost predicate SameOn(xs: seq<Id>, c: Conditions, d: Conditions) {
    forall i: Id {:trigger SameAt(c, d, i)} :: i in xs ==> SameAt(c, d, i)
  }

  lemma SameExprsOn(xs: seq<Id>, ys: seq<Id>, c: Conditions, d: Conditions)
    requires SameExprs(xs, c, d) && Disjoint(ys, xs)
    ensures SameOn(ys, c, d)
  {
  }

  lemma SameExprsChain(xs: seq<Id>, ys: seq<Id>, c: Conditions, d: Conditions, e: Conditions)
    requires SameExprs(xs, c, d) && SameExprs(ys, d, e)
    ensures SameExprs(xs + ys, c, e)
  {
    forall i: Id | i !in xs + ys
      ensures SameAt(c, e, i)
    {
      assert SameAt(c, d, i) && SameAt(d, e, i);
    }
  }

  lemma SameExprsMore(xs: seq<Id>, ys: seq<Id>, c: Conditions, d: Conditions)
    requires SameExprs(xs, c, d) && forall i :: i in xs ==> i in ys
    ensures SameExprs(ys, c, d)
  {
  }

  // What handing the condition outer down does to the expressions of one entry.
  ghost predicate Inherits(entry: Id -> Entry, outer: ExprOpt, i: Id, c: Conditions, d: Conditions) {
    && RefinedByOpt(AllocAnd(outer, Find(c.dep, i)), Find(d.dep, i))
    && OnlyWith(Find(d.dep, i), outer) && OnlyWith(Find(d.dep, i), Find(c.dep, i))
    && (NnfOpt(outer) ==> NnfOpt(Find(d.dep, i))) && DuplicateFreeOpt(Find(d.dep, i))
    && (entry(i).hasPrompt ==> HasPromptForm(Find(d.dep, i), Find(c.visible, i), entry(i).sym, Find(d.visible, i)))
    && (NnfOpt(outer) && entry(i).hasPrompt ==>
          NnfOpt(Find(d.visible, i)) && IsPromptCondition(Find(d.dep, i), Find(c.visible, i), Find(d.visible, i)))
  }

  lemma InheritsFrame(entry: Id -> Entry, outer: ExprOpt, i: Id, c: Conditions, d: Conditions,
                      c': Conditions, d': Conditions)
    requires Inherits(entry, outer, i, c, d) && SameAt(c, c', i) && SameAt(d, d', i)
    ensures Inherits(entry, outer, i, c', d')
  {
  }

  // Lists of entries ------------------------------------------------------------------

  ghost function Tops(ts: seq<Tree>): seq<Id> {
    if ts == [] then [] else [ts[0].node] + Tops(ts[1..])
  }

  // The entries below the top level.
  ghost function Inner(ts: seq<Tree>): seq<Id> {
    if ts == [] then [] else Preorder(ts[0].kids) + Inner(ts[1..])
  }

  predicate Suffix(ts: seq<Tree>, us: seq<Tree>) {
    |ts| <= |us| && ts == us[|us| - |ts|..]
  }

  // What a loop over us has passed when ts is left.
  function Taken(us: seq<Tree>, ts: seq<Tree>): seq<Tree>
    requires |ts| <= |us|
  {
    us[..|us| - |ts|]
  }

  lemma TakenChain(us: seq<Tree>, ts: seq<Tree>, rest: seq<Tree>)
    requires Suffix(ts, us) && Suffix(rest, ts)
    ensures Suffix(rest, us) && Taken(us, rest) == Taken(us, ts) + Taken(ts, rest)
    ensures us == Taken(us, ts) + ts && ts == Taken(ts, rest) + rest
  {
  }

  lemma {:induction false} TopsWithin(ts: seq<Tree>)
    ensures forall i :: i in Tops(ts) ==> i in Preorder(ts)
    decreases ts
  {
    if ts != [] {
      TopsWithin(ts[1..]);
    }
  }

  lemma {:induction false} InnerWithin(ts: seq<Tree>)
    ensures forall i :: i in Inner(ts) ==> i in Preorder(ts)
    decreases ts
  {
    if ts != [] {
      InnerWithin(ts[1..]);
    }
  }

  lemma {:induction false} InnerJoin(ts: seq<Tree>, us: seq<Tree>)
    ensures Inner(ts + us) == Inner(ts) + Inner(us)
  {
    if ts == [] {
      assert ts + us == us;
    } else {
      assert (ts + us)[1..] == ts[1..] + us;
      InnerJoin(ts[1..], us);
    }
  }

  // The first tree of a list apart from the others.
  lemma FirstApart(ts: seq<Tree>)
    requires ts != [] && Distinct(Preorder(ts))
    ensures Distinct(Preorder(ts[0].kids)) && Distinct(Preorder(ts[1..]))
    ensures ts[0].node !in Preorder(ts[0].kids) && ts[0].node !in Preorder(ts[1..])
    ensures Disjoint(Preorder(ts[0].kids), Preorder(ts[1..]))
  {
    var t := ts[0];
    DistinctJoin([t.node] + Preorder(t.kids), Preorder(ts[1..]));
    DistinctJoin([t.node], Preorder(t.kids));
    assert t.node in [t.node];
  }

  // No entry is both on the top level and below it.
  lemma {:induction false} TopsApart(ts: seq<Tree>)
    requires Distinct(Preorder(ts))
    ensures Disjoint(Tops(ts), Inner(ts))
    decreases ts
  {
    if ts != [] {
      FirstApart(ts);
      TopsApart(ts[1..]);
      InnerWithin(ts[1..]);
      TopsWithin(ts[1..]);
    }
  }

  lemma {:induction false} TopIsTop(ts: seq<Tree>, i: nat)
    requires i < |ts|
    ensures ts[i].node in Tops(ts)
  {
    if i > 0 {
      TopIsTop(ts[1..], i - 1);
    }
  }

  // What the tree inherits ------------------------------------------------------------

  // Every entry of ts has inherited the condition outer.
  ghost predicate AllInherit(entry: Id -> Entry, outer: ExprOpt, ts: seq<Tree>, c: Conditions, d: Conditions) {
    ts != [] ==> Inherits(entry, outer, ts[0].node, c, d) && AllInherit(entry, outer, ts[1..], c, d)
  }

  // At every depth: the entries of ts, below the entry o, have inherited the condition of o,
  // those below them the condition of these, and so on.  c is before, d after.
  ghost predicate Handed(entry: Id -> Entry, o: Id, ts: seq<Tree>, c: Conditions, d: Conditions)
    decreases ts
  {
    ts != [] ==>
      && Inherits(entry, ConditionIn(entry, d, o), ts[0].node, c, d)
      && Handed(entry, ts[0].node, ts[0].kids, c, d)
      && Handed(entry, o, ts[1..], c, d)
  }

  // The same below the entries of ts.
  ghost predicate HandedBelow(entry: Id -> Entry, ts: seq<Tree>, c: Conditions, d: Conditions) {
    ts != [] ==> Handed(entry, ts[0].node, ts[0].kids, c, d) && HandedBelow(entry, ts[1..], c, d)
  }

  lemma {:induction false} HandedFrame(entry: Id -> Entry, o: Id, ts: seq<Tree>, c: Conditions, d: Conditions,
                                       c': Conditions, d': Conditions)
    requires Handed(entry, o, ts, c, d) && ConditionIn(entry, d', o) == ConditionIn(entry, d, o)
    requires SameOn(Preorder(ts), c, c') && SameOn(Preorder(ts), d, d')
    ensures Handed(entry, o, ts, c', d')
    decreases ts
  {
    if ts != [] {
      var t := ts[0];
      assert t.node in Preorder(ts);
      assert SameAt(c, c', t.node) && SameAt(d, d', t.node);
      InheritsFrame(entry, ConditionIn(entry, d, o), t.node, c, d, c', d');
      HandedFrame(entry, t.node, t.kids, c, d, c', d');
      HandedFrame(entry, o, ts[1..], c, d, c', d');
    }
  }

  lemma {:induction false} HandedBelowFrame(entry: Id -> Entry, ts: seq<Tree>, c: Conditions, d: Conditions,
                                            c': Conditions, d': Conditions)
    requires HandedBelow(entry, ts, c, d)
    requires SameOn(Inner(ts), c, c') && SameOn(Preorder(ts), d, d')
    ensures HandedBelow(entry, ts, c', d')
    decreases ts
  {
    if ts != [] {
      var t := ts[0];
      assert t.node in Preorder(ts);
      assert SameAt(d, d', t.node);
      HandedFrame(entry, t.node, t.kids, c, d, c', d');
      HandedBelowFrame(entry, ts[1..], c, d, c', d');
    }
  }

  lemma {:induction false} AllInheritFrame(entry: Id -> Entry, outer: ExprOpt, ts: seq<Tree>, c: Conditions,
                                           d: Conditions, d': Conditions)
    requires AllInherit(entry, outer, ts, c, d) && SameOn(Tops(ts), d, d')
    ensures AllInherit(entry, outer, ts, c, d')
    decreases ts
  {
    if ts != [] {
      assert ts[0].node in Tops(ts);
      assert SameAt(c, c, ts[0].node) && SameAt(d, d', ts[0].node);
      InheritsFrame(entry, outer, ts[0].node, c, d, c, d');
      assert forall i :: i in Tops(ts[1..]) ==> i in Tops(ts);
      AllInheritFrame(entry, outer, ts[1..], c, d, d');
    }
  }

  lemma {:induction false} AllInheritJoin(entry: Id -> Entry, outer: ExprOpt, ts: seq<Tree>, us: seq<Tree>,
                                          c: Conditions, d: Conditions)
    ensures AllInherit(entry, outer, ts + us, c, d) <==>
      AllInherit(entry, outer, ts, c, d) && AllInherit(entry, outer, us, c, d)
    decreases ts
  {
    if ts == [] {
      assert ts + us == us;
    } else {
      assert (ts + us)[1..] == ts[1..] + us;
      AllInheritJoin(entry, outer, ts[1..], us, c, d);
    }
  }

  lemma {:induction false} TopsJoin(ts: seq<Tree>, us: seq<Tree>)
    ensures Tops(ts + us) == Tops(ts) + Tops(us)
  {
    if ts == [] {
      assert ts + us == us;
    } else {
      assert (ts + us)[1..] == ts[1..] + us;
      TopsJoin(ts[1..], us);
    }
  }

  // One more entry of a list inherits.
  lemma InheritNext(entry: Id -> Entry, outer: ExprOpt, done: seq<Tree>, t: Tree,
                    c: Conditions, d: Conditions, e: Conditions)
    requires t.node !in Tops(done)
    requires SameExprs(Tops(done), c, d) && AllInherit(entry, outer, done, c, d)
    requires SameExprs([t.node], d, e) && Inherits(entry, outer, t.node, d, e)
    ensures SameExprs(Tops(done + [t]), c, e) && AllInherit(entry, outer, done + [t], c, e)
  {
    assert [t][1..] == [] && Tops([t]) == [t.node];
    TopsJoin(done, [t]);
    SameExprsChain(Tops(done), [t.node], c, d, e);
    SameExprsOn([t.node], Tops(done), d, e);
    AllInheritFrame(entry, outer, done, c, d, e);
    assert SameAt(c, d, t.node) && SameAt(e, e, t.node);
    assert SameAt(d, c, t.node);
    InheritsFrame(entry, outer, t.node, d, e, c, e);
    AllInheritJoin(entry, outer, done, [t], c, e);
  }

  lemma {:induction false} HandedBelowJoin(entry: Id -> Entry, ts: seq<Tree>, us: seq<Tree>,
                                           c: Conditions, d: Conditions)
    ensures HandedBelow(entry, ts + us, c, d) <==> HandedBelow(entry, ts, c, d) && HandedBelow(entry, us, c, d)
    decreases ts
  {
    if ts == [] {
      assert ts + us == us;
    } else {
      assert (ts + us)[1..] == ts[1..] + us;
      HandedBelowJoin(entry, ts[1..], us, c, d);
    }
  }

  lemma {:induction false} HandedTops(entry: Id -> Entry, o: Id, ts: seq<Tree>, c: Conditions, d: Conditions)
    requires AllInherit(entry, ConditionIn(entry, d, o), ts, c, d) && HandedBelow(entry, ts, c, d)
    ensures Handed(entry, o, ts, c, d)
    decreases ts
  {
    if ts != [] {
      HandedTops(entry, o, ts[1..], c, d);
    }
  }

  // Progress of a loop that finalizes ts up to todo: only the entries below those it has
  // passed are changed, and they have inherited.
  ghost predicate Progress(entry: Id -> Entry, ts: seq<Tree>, todo: seq<Tree>, c: Conditions, d: Conditions) {
    && Suffix(todo, ts)
    && SameExprs(Inner(Taken(ts, todo)), c, d) && HandedBelow(entry, Taken(ts, todo), c, d)
  }

  lemma ProgressNone(entry: Id -> Entry, ts: seq<Tree>, c: Conditions)
    ensures Progress(entry, ts, ts, c, c)
  {
    assert Taken(ts, ts) == [];
  }

  lemma ProgressChain(entry: Id -> Entry, ts: seq<Tree>, todo: seq<Tree>, rest: seq<Tree>,
                      c: Conditions, d: Conditions, e: Conditions)
    requires Distinct(Preorder(ts))
    requires Progress(entry, ts, todo, c, d) && Progress(entry, todo, rest, d, e)
    ensures Progress(entry, ts, rest, c, e)
  {
    var a, b := Taken(ts, todo), Taken(todo, rest);
    TakenChain(ts, todo, rest);
    InnerJoin(a, b);
    SameExprsChain(Inner(a), Inner(b), c, d, e);
    PartsApart(a, b, rest);
    SameExprsOn(Inner(b), Preorder(a), d, e);
    HandedBelowFrame(entry, a, c, d, c, e);
    SameBack(Inner(a), Inner(b), c, d);
    HandedBelowFrame(entry, b, d, e, c, e);
    HandedBelowJoin(entry, a, b, c, e);
  }

  lemma SameBack(xs: seq<Id>, ys: seq<Id>, c: Conditions, d: Conditions)
    requires SameExprs(xs, c, d) && Disjoint(ys, xs)
    ensures SameOn(ys, d, c)
  {
    forall i | i in ys
      ensures SameAt(d, c, i)
    {
      assert SameAt(c, d, i);
    }
  }

  lemma PartsApart(a: seq<Tree>, b: seq<Tree>, rest: seq<Tree>)
    requires Distinct(Preorder(a + (b + rest)))
    ensures Disjoint(Preorder(a), Inner(b)) && Disjoint(Inner(b), Inner(a))
  {
    PreorderJoin(a, b + rest);
    PreorderJoin(b, rest);
    DistinctJoin(Preorder(a), Preorder(b) + Preorder(rest));
    InnerWithin(a);
    InnerWithin(b);
  }

  // The entries of the list themselves stay as they are.
  lemma ProgressTop(entry: Id -> Entry, ts: seq<Tree>, todo: seq<Tree>, c: Conditions, d: Conditions, m: Id)
    requires Distinct(Preorder(ts)) && Progress(entry, ts, todo, c, d) && m in Tops(ts)
    ensures SameAt(c, d, m)
  {
    TopsApart(ts);
    TakenInner(ts, todo);
  }

  lemma TakenInner(ts: seq<Tree>, todo: seq<Tree>)
    requires Suffix(todo, ts)
    ensures forall i :: i in Inner(Taken(ts, todo)) ==> i in Inner(ts)
  {
    InnerJoin(Taken(ts, todo), todo);
    assert ts == Taken(ts, todo) + todo;
  }

  // The list has been handed the condition of p, and then its entries were finalized.
  lemma ListHanded(entry: Id -> Entry, p: Id, kids: seq<Tree>, c: Conditions, d: Conditions, e: Conditions)
    requires Distinct([p] + Preorder(kids))
    requires AllInherit(entry, ConditionIn(entry, c, p), kids, c, d) && SameExprs(Tops(kids), c, d)
    requires Progress(entry, kids, [], d, e)
    ensures Handed(entry, p, kids, c, e) && SameExprs(Preorder(kids), c, e)
  {
    assert Taken(kids, []) == kids;
    DistinctJoin([p], Preorder(kids));
    assert p in [p];
    TopsApart(kids);
    TopsWithin(kids);
    InnerWithin(kids);
    SameExprsChain(Tops(kids), Inner(kids), c, d, e);
    SameExprsMore(Tops(kids) + Inner(kids), Preorder(kids), c, e);
    assert SameAt(c, e, p);
    SameExprsOn(Inner(kids), Tops(kids), d, e);
    AllInheritFrame(entry, ConditionIn(entry, c, p), kids, c, d, e);
    SameBack(Tops(kids), Inner(kids), c, d);
    HandedBelowFrame(entry, kids, d, e, c, e);
    HandedTops(entry, p, kids, c, e);
  }

  // What one call of menu_finalize for p contributes to the loop that made it: p has
  // handed its condition down to its list, or it has no list and has passed siblings.
  lemma ProgressOfList(entry: Id -> Entry, p: Id, kids: seq<Tree>, rest: seq<Tree>, c: Conditions, d: Conditions)
    requires Handed(entry, p, kids, c, d) && SameExprs(Preorder(kids), c, d)
    ensures Progress(entry, [Tree(p, kids)] + rest, rest, c, d)
  {
    var ts, t := [Tree(p, kids)] + rest, [Tree(p, kids)];
    assert Taken(ts, rest) == t && t[1..] == [] && Inner(t) == Preorder(kids) + [] == Preorder(kids);
    assert ts[|ts| - |rest|..] == rest;
  }

  lemma ProgressOfSiblings(entry: Id -> Entry, p: Id, rest: seq<Tree>, rest': seq<Tree>, c: Conditions, d: Conditions)
    requires Progress(entry, rest, rest', c, d)
    ensures Progress(entry, [Tree(p, [])] + rest, rest', c, d)
  {
    var ts, a := [Tree(p, [])] + rest, Taken(rest, rest');
    var b := Taken(ts, rest');
    assert b[0] == Tree(p, []) && b[1..] == a;
    assert Inner(b) == [] + Inner(a) == Inner(a);
    assert ts[|ts| - |rest'|..] == rest[|rest| - |rest'|..];
  }

  // In the finished tree every entry below o, however deep, has a dependency and a
  // condition that are n wherever the condition of o is n.
  lemma {:induction false} HandedGuards(entry: Id -> Entry, o: Id, ts: seq<Tree>, c: Conditions, d: Conditions, x: Id)
    requires Handed(entry, o, ts, c, d) && NnfOpt(ConditionIn(entry, d, o)) && x in Preorder(ts)
    ensures OnlyWith(Find(d.dep, x), ConditionIn(entry, d, o))
    ensures OnlyWith(ConditionIn(entry, d, x), ConditionIn(entry, d, o))
    ensures OnlyWith(Find(d.dep, x), if entry(o).hasPrompt then Find(d.visible, o) else Find(d.dep, o))
    decreases ts
  {
    var t := ts[0];
    var own, outer := ConditionIn(entry, d, t.node), ConditionIn(entry, d, o);
    OnlyWithChain(own, Find(d.dep, t.node), outer);
    if x in Preorder(t.kids) {
      HandedGuards(entry, t.node, t.kids, c, d, x);
      OnlyWithChain(Find(d.dep, x), own, outer);
      OnlyWithChain(ConditionIn(entry, d, x), own, outer);
    } else if x in Preorder(ts[1..]) {
      HandedGuards(entry, o, ts[1..], c, d, x);
    }
  }

  lemma OnlyWithChain(a: ExprOpt, b: ExprOpt, c: ExprOpt)
    ensures OnlyWith(a, b) && OnlyWith(b, c) ==> OnlyWith(a, c)
    ensures OnlyWith(a, a)
  {
  }
}
