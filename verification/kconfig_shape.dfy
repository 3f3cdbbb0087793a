// The shape menu_finalize gives to the menu, as a function of the tree of its calls, and
// the call tree that the conditions of the entries ask for.

module MenuShape {
  import opened Options
  import opened Exprs
  import Comparison
  import opened MenuConditions
  import opened MenuDependencies
  import opened MenuLinks

  // A call of menu_finalize for node, which leaves left entries behind it, and the calls it
  // makes for the entries of its submenu.
  datatype Call = Call(node: Id, left: nat, below: seq<Call>)

  // Submenus without a prompt text are dissolved: their entries follow them.
  ghost predicate KeepsSubmenu(entry: Id -> Entry, t: Tree) {
    t.kids == [] || (entry(t.node).hasPrompt && entry(t.node).hasText)
  }

  ghost function Opened(entry: Id -> Entry, ts: seq<Tree>): seq<Tree> {
    if ts == [] then []
    else (if KeepsSubmenu(entry, ts[0]) then [ts[0]] else [Tree(ts[0].node, [])] + ts[0].kids) + Opened(entry, ts[1..])
  }

  // The entry of a call with the submenu it gets.
  ghost function Grown(entry: Id -> Entry, call: Call): Tree {
    Tree(call.node, Opened(entry, GrownAll(entry, call.below)))
  }

  ghost function GrownAll(entry: Id -> Entry, calls: seq<Call>): seq<Tree> {
    if calls == [] then [] else [Grown(entry, calls[0])] + GrownAll(entry, calls[1..])
  }

  function PromptIn(entry: Id -> Entry, c: Conditions, p: Id): ExprOpt {
    if entry(p).hasPrompt then Find(c.visible, p) else None
  }

  // By the conditions c the entry m, which follows p, goes below p ...
  ghost predicate Enters(entry: Id -> Entry, c: Conditions, p: Id, m: Id) {
    entry(p).sym.Some? && Admitted(ConditionIn(entry, c, m), entry(p).sym.value, PromptIn(entry, c, p))
  }

  // ... or stays behind it.
  ghost predicate Stays(entry: Id -> Entry, c: Conditions, p: Id, m: Id) {
    entry(p).sym.Some? && Refused(ConditionIn(entry, c, m), entry(p).sym.value, PromptIn(entry, c, p))
  }

  function Left(ts: seq<Tree>, n: nat): seq<Tree>
    requires n <= |ts|
  {
    ts[|ts| - n..]
  }

  // call is what the conditions c ask for when kids are the entries below its entry and
  // rest those behind it: one call for each entry of its list; without a list, for the
  // entries behind it until one stays behind; none without a symbol.
  ghost predicate Follows(entry: Id -> Entry, c: Conditions, call: Call, kids: seq<Tree>, rest: seq<Tree>)
    decreases call, 1
  {
    call.left <= |rest| &&
    if kids != [] then
      call.left == |rest| && Run(entry, c, None, call.below, kids, 0)
    else if entry(call.node).sym.Some? then
      && Run(entry, c, Some(call.node), call.below, rest, call.left)
      && (call.left > 0 ==> Stays(entry, c, call.node, Left(rest, call.left)[0].node))
    else
      call.left == |rest| && call.below == []
  }

  // The calls of a loop over the list ts which ends when left of its entries are left.  An
  // entry is called for where the call before has stopped.  front is the entry behind which
  // they stood.
  ghost predicate Run(entry: Id -> Entry, c: Conditions, front: Ptr, calls: seq<Call>, ts: seq<Tree>, left: nat)
    decreases calls, 0
  {
    if calls == [] then |ts| == left
    else
      && ts != [] && left <= calls[0].left < |ts|
      && calls[0].node == ts[0].node
      && (front.Some? ==> Enters(entry, c, front.value, ts[0].node))
      && Follows(entry, c, calls[0], ts[0].kids, ts[1..])
      && Run(entry, c, front, calls[1..], Left(ts, calls[0].left), left)
  }

  // Opened ---------------------------------------------------------------------------

  lemma {:induction false} OpenedJoin(entry: Id -> Entry, ts: seq<Tree>, us: seq<Tree>)
    ensures Opened(entry, ts + us) == Opened(entry, ts) + Opened(entry, us)
  {
    if ts == [] {
      assert ts + us == us;
    } else {
      assert (ts + us)[1..] == ts[1..] + us;
      OpenedJoin(entry, ts[1..], us);
    }
  }

  lemma {:induction false} OpenedPreorder(entry: Id -> Entry, ts: seq<Tree>)
    ensures Preorder(Opened(entry, ts)) == Preorder(ts)
  {
    if ts != [] {
      var t := ts[0];
      var first := if KeepsSubmenu(entry, t) then [t] else [Tree(t.node, [])] + t.kids;
      OpenedPreorder(entry, ts[1..]);
      PreorderJoin(first, Opened(entry, ts[1..]));
      PreorderFirst([t]);
      if !KeepsSubmenu(entry, t) {
        PreorderJoin([Tree(t.node, [])], t.kids);
        PreorderFirst([Tree(t.node, [])]);
        assert Preorder(first) == [t.node] + Preorder(t.kids);
      }
    }
  }

  // In place of every entry: the entry with its submenu if it has a prompt with a text, else
  // the entry alone and what was below it.
  lemma {:induction false} OpenedAt(entry: Id -> Entry, ts: seq<Tree>, i: nat)
    requires i < |ts|
    ensures var r, n, t := Opened(entry, ts), |Opened(entry, ts[..i])|, ts[i];
      && n < |r| && r[n].node == t.node
      && (entry(t.node).hasPrompt && entry(t.node).hasText ==> r[n] == t)
      && (!(entry(t.node).hasPrompt && entry(t.node).hasText) ==> [Tree(t.node, [])] + t.kids <= r[n..])
  {
    var a, t, b := ts[..i], ts[i], ts[i + 1..];
    var first := if KeepsSubmenu(entry, t) then [t] else [Tree(t.node, [])] + t.kids;
    assert ts == a + ([t] + b) && ([t] + b)[1..] == b;
    OpenedJoin(entry, a, [t] + b);
    OpenedParts(Opened(entry, a), first, Opened(entry, b), t.node, t.kids);
    assert t.kids == [] ==> [Tree(t.node, [])] + t.kids == [t];
  }

  lemma OpenedParts(a: seq<Tree>, first: seq<Tree>, b: seq<Tree>, m: Id, kids: seq<Tree>)
    requires first != [] && first[0].node == m
    ensures (a + (first + b))[|a|] == first[0] && first <= (a + (first + b))[|a|..]
  {
    assert (a + (first + b))[|a|..] == first + b;
  }

  // Loops ----------------------------------------------------------------------------

  // What a loop over ts has done up to todo: the calls it made and the trees they gave.
  ghost predicate Made(entry: Id -> Entry, c: Conditions, front: Ptr, calls: seq<Call>, ts: seq<Tree>,
                       todo: seq<Tree>, done: seq<Tree>) {
    Suffix(todo, ts) && Run(entry, c, front, calls, ts, |todo|) && done == GrownAll(entry, calls)
  }

  // What one call has done to its entry t and to the entries rest behind it.
  ghost predicate Did(entry: Id -> Entry, c: Conditions, call: Call, t: Tree, rest: seq<Tree>,
                      t': Tree, rest': seq<Tree>) {
    && Suffix(rest', rest) && call.left == |rest'| && call.node == t.node
    && Follows(entry, c, call, t.kids, rest) && t' == Grown(entry, call)
  }

  lemma {:induction false} GrownAppend(entry: Id -> Entry, calls: seq<Call>, call: Call)
    ensures GrownAll(entry, calls + [call]) == GrownAll(entry, calls) + [Grown(entry, call)]
  {
    if calls == [] {
      assert calls + [call] == [call] && [call][1..] == [];
    } else {
      assert (calls + [call])[1..] == calls[1..] + [call];
      GrownAppend(entry, calls[1..], call);
    }
  }

  lemma {:induction false} RunAppend(entry: Id -> Entry, c: Conditions, front: Ptr, calls: seq<Call>, ts: seq<Tree>,
                                     todo: seq<Tree>, call: Call)
    requires Suffix(todo, ts) && Run(entry, c, front, calls, ts, |todo|) && todo != []
    requires call.node == todo[0].node && Follows(entry, c, call, todo[0].kids, todo[1..])
    requires front.Some? ==> Enters(entry, c, front.value, call.node)
    ensures call.left < |todo| && Run(entry, c, front, calls + [call], ts, call.left)
    decreases calls
  {
    if calls == [] {
      assert todo == ts;
      assert calls + [call] == [call] && [call][1..] == [];
      assert |Left(ts, call.left)| == call.left;
    } else {
      var rest := Left(ts, calls[0].left);
      RunShrinks(entry, c, front, calls[1..], rest, |todo|);
      assert todo == rest[|rest| - |todo|..];
      RunAppend(entry, c, front, calls[1..], rest, todo, call);
      assert (calls + [call])[1..] == calls[1..] + [call];
    }
  }

  lemma {:induction false} RunShrinks(entry: Id -> Entry, c: Conditions, front: Ptr, calls: seq<Call>, ts: seq<Tree>,
                                      left: nat)
    requires Run(entry, c, front, calls, ts, left)
    ensures left <= |ts|
  {
  }

  // Frames ---------------------------------------------------------------------------

  ghost predicate Within(xs: seq<Id>, ys: seq<Id>) {
    forall i :: i in xs ==> i in ys
  }

  // xs has all entries the decisions for a list look at: those below its first n trees
  // and the entries of the list.
  ghost predicate Covers(xs: seq<Id>, ts: seq<Tree>, n: nat)
    requires n <= |ts|
  {
    Within(Preorder(ts[..n]), xs) && Within(Tops(ts), xs)
  }

  lemma CoversFirst(xs: seq<Id>, ts: seq<Tree>, n: nat, m: nat)
    requires 0 < n <= |ts| && m <= n - 1 && Covers(xs, ts, n)
    ensures ts[0].node in xs && Within(Preorder(ts[0].kids), xs) && Covers(xs, ts[1..], m)
  {
    assert ts[..n][0] == ts[0] && ts[..n][1..] == ts[1..][..n - 1];
    assert ts[1..][..n - 1] == ts[1..][..m] + ts[1..][m..n - 1];
    PreorderJoin(ts[1..][..m], ts[1..][m..n - 1]);
    assert Tops(ts) == [ts[0].node] + Tops(ts[1..]);
  }

  lemma CoversRest(xs: seq<Id>, ts: seq<Tree>, n: nat, m: nat)
    requires m <= n <= |ts| && Covers(xs, ts, n)
    ensures Covers(xs, ts[m..], n - m)
  {
    assert ts[..n] == ts[..m] + ts[m..][..n - m];
    PreorderJoin(ts[..m], ts[m..][..n - m]);
    assert ts == ts[..m] + ts[m..];
    TopsJoin(ts[..m], ts[m..]);
  }

  lemma CoversAll(xs: seq<Id>, ts: seq<Tree>)
    requires Within(Preorder(ts), xs)
    ensures Covers(xs, ts, |ts|)
  {
    assert ts[..|ts|] == ts;
    TopsWithin(ts);
  }

  lemma CoversTop(xs: seq<Id>, ts: seq<Tree>, n: nat, i: nat)
    requires n <= |ts| && Covers(xs, ts, n) && i < |ts|
    ensures ts[i].node in xs
  {
    TopIsTop(ts, i);
  }

  lemma DecisionFrame(entry: Id -> Entry, c: Conditions, d: Conditions, p: Id, m: Id)
    requires SameAt(c, d, p) && SameAt(c, d, m)
    ensures Enters(entry, c, p, m) <==> Enters(entry, d, p, m)
    ensures Stays(entry, c, p, m) <==> Stays(entry, d, p, m)
    ensures PromptIn(entry, c, p) == PromptIn(entry, d, p)
  {
  }

  // A call tree still follows the conditions when others have changed.
  lemma {:induction false} FollowsFrame(entry: Id -> Entry, c: Conditions, d: Conditions, xs: seq<Id>, call: Call,
                                        kids: seq<Tree>, rest: seq<Tree>)
    requires Follows(entry, c, call, kids, rest) && SameOn(xs, c, d)
    requires call.node in xs && Within(Preorder(kids), xs) && Covers(xs, rest, |rest| - call.left)
    ensures Follows(entry, d, call, kids, rest)
    decreases call, 1
  {
    if kids != [] {
      CoversAll(xs, kids);
      RunFrame(entry, c, d, xs, None, call.below, kids, 0);
    } else if entry(call.node).sym.Some? {
      RunFrame(entry, c, d, xs, Some(call.node), call.below, rest, call.left);
      if call.left > 0 {
        CoversTop(xs, rest, |rest| - call.left, |rest| - call.left);
        DecisionFrame(entry, c, d, call.node, Left(rest, call.left)[0].node);
      }
    }
  }

  lemma {:induction false} RunFrame(entry: Id -> Entry, c: Conditions, d: Conditions, xs: seq<Id>, front: Ptr,
                                    calls: seq<Call>, ts: seq<Tree>, left: nat)
    requires Run(entry, c, front, calls, ts, left) && SameOn(xs, c, d) && (front.Some? ==> front.value in xs)
    requires left <= |ts| && Covers(xs, ts, |ts| - left)
    ensures Run(entry, d, front, calls, ts, left)
    decreases calls, 0
  {
    if calls != [] {
      var n := calls[0].left;
      FirstFrame(entry, c, d, xs, front, calls[0], ts, left);
      CoversRest(xs, ts, |ts| - left, |ts| - n);
      RunFrame(entry, c, d, xs, front, calls[1..], Left(ts, n), left);
    }
  }

  lemma {:induction false} FirstFrame(entry: Id -> Entry, c: Conditions, d: Conditions, xs: seq<Id>, front: Ptr,
                                      call: Call, ts: seq<Tree>, left: nat)
    requires ts != [] && left <= call.left < |ts| && call.node == ts[0].node
    requires Follows(entry, c, call, ts[0].kids, ts[1..])
    requires SameOn(xs, c, d) && (front.Some? ==> front.value in xs) && Covers(xs, ts, |ts| - left)
    ensures Follows(entry, d, call, ts[0].kids, ts[1..])
    ensures front.Some? && Enters(entry, c, front.value, ts[0].node) ==> Enters(entry, d, front.value, ts[0].node)
    decreases call, 2
  {
    CoversFirst(xs, ts, |ts| - left, |ts| - 1 - call.left);
    if front.Some? {
      DecisionFrame(entry, c, d, front.value, ts[0].node);
    }
    FollowsFrame(entry, c, d, xs, call, ts[0].kids, ts[1..]);
  }

  lemma MadeStart(entry: Id -> Entry, c: Conditions, front: Ptr, ts: seq<Tree>)
    ensures Made(entry, c, front, [], ts, ts, [])
  {
  }

  // The next call of a loop changes nothing that the calls before it looked at.
  lemma MadeStep(entry: Id -> Entry, c: Conditions, d: Conditions, front: Ptr, calls: seq<Call>, ts: seq<Tree>,
                 todo: seq<Tree>, done: seq<Tree>, call: Call, t': Tree, rest': seq<Tree>)
    requires Made(entry, c, front, calls, ts, todo, done) && todo != []
    requires Distinct(Preorder(ts)) && (front.Some? ==> front.value !in Preorder(ts))
    requires Progress(entry, todo, rest', c, d) && Did(entry, d, call, todo[0], todo[1..], t', rest')
    requires front.Some? ==> Enters(entry, c, front.value, todo[0].node)
    ensures Made(entry, d, front, calls + [call], ts, rest', done + [t'])
  {
    MadeFrame(entry, c, d, front, calls, ts, todo, rest');
    RunAppend(entry, d, front, calls, ts, todo, call);
    GrownAppend(entry, calls, call);
    TakenChain(ts, todo, rest');
  }

  lemma MadeFrame(entry: Id -> Entry, c: Conditions, d: Conditions, front: Ptr, calls: seq<Call>, ts: seq<Tree>,
                  todo: seq<Tree>, rest': seq<Tree>)
    requires Suffix(todo, ts) && Run(entry, c, front, calls, ts, |todo|) && todo != []
    requires Distinct(Preorder(ts)) && (front.Some? ==> front.value !in Preorder(ts))
    requires Progress(entry, todo, rest', c, d)
    ensures Run(entry, d, front, calls, ts, |todo|)
    ensures front.Some? && Enters(entry, c, front.value, todo[0].node) ==>
      Enters(entry, d, front.value, todo[0].node)
  {
    var fs := if front.Some? then [front.value] else [];
    var xs := Preorder(Taken(ts, todo)) + Tops(ts) + fs;
    LoopFrame(entry, c, d, xs, ts, todo, rest', fs);
    RunFrame(entry, c, d, xs, front, calls, ts, |todo|);
    if front.Some? {
      TopIsTop(ts, |ts| - |todo|);
      DecisionFrame(entry, c, d, front.value, todo[0].node);
    }
  }

  lemma LoopFrame(entry: Id -> Entry, c: Conditions, d: Conditions, xs: seq<Id>, ts: seq<Tree>, todo: seq<Tree>,
                  rest': seq<Tree>, fs: seq<Id>)
    requires Suffix(todo, ts) && Progress(entry, todo, rest', c, d)
    requires Distinct(Preorder(ts)) && Disjoint(fs, Preorder(ts))
    requires xs == Preorder(Taken(ts, todo)) + Tops(ts) + fs
    ensures SameOn(xs, c, d) && Covers(xs, ts, |ts| - |todo|)
  {
    var a, b := Taken(ts, todo), Taken(todo, rest');
    TakenChain(ts, todo, rest');
    LoopApart(ts, a, b, rest', fs, xs);
    SameExprsOn(Inner(b), xs, c, d);
    assert ts[..|ts| - |todo|] == a;
  }

  lemma LoopApart(ts: seq<Tree>, a: seq<Tree>, b: seq<Tree>, rest: seq<Tree>, fs: seq<Id>, xs: seq<Id>)
    requires ts == a + (b + rest) && Distinct(Preorder(ts)) && Disjoint(fs, Preorder(ts))
    requires xs == Preorder(a) + Tops(ts) + fs
    ensures Disjoint(xs, Inner(b))
  {
    PartsApart(a, b, rest);
    TopsApart(ts);
    InnerJoin(a, b + rest);
    InnerJoin(b, rest);
    InnerWithin(ts);
    assert forall m :: m in Inner(b) ==> m in Inner(a) + (Inner(b) + Inner(rest));
  }

  // One call, by what its loop has done.
  lemma FollowsByList(entry: Id -> Entry, c: Conditions, call: Call, kids: seq<Tree>, rest: seq<Tree>, mid: seq<Tree>)
    requires kids != [] && call.left == |rest| && Made(entry, c, None, call.below, kids, [], mid)
    ensures Follows(entry, c, call, kids, rest) && mid == GrownAll(entry, call.below)
  {
  }

  lemma FollowsBySiblings(entry: Id -> Entry, c: Conditions, call: Call, rest: seq<Tree>, rest': seq<Tree>,
                          mid: seq<Tree>)
    requires entry(call.node).sym.Some? && call.left == |rest'|
    requires Made(entry, c, Some(call.node), call.below, rest, rest', mid)
    requires rest' != [] ==> Stays(entry, c, call.node, rest'[0].node)
    ensures Follows(entry, c, call, [], rest) && mid == GrownAll(entry, call.below)
  {
  }

  // What the shape says ----------------------------------------------------------------

  // yes says whether the entry m goes below p.
  ghost predicate StartsRightly(entry: Id -> Entry, c: Conditions, p: Id, m: Id, yes: bool) {
    var d := if entry(m).hasPrompt then Find(c.visible, m) else Find(c.dep, m);
    var outer := if entry(p).hasPrompt then Find(c.visible, p) else None;
    entry(p).sym.Some? &&
    if d.None? || !Comparison.ContainsSymbol(d.value, entry(p).sym.value) then !yes
    else if Comparison.DependsSymbol(d.value, entry(p).sym.value) then yes
    else SecondTest(d.value, outer, yes)
  }

  lemma DecidedRightly(entry: Id -> Entry, c: Conditions, p: Id, m: Id)
    ensures Enters(entry, c, p, m) ==> StartsRightly(entry, c, p, m, true)
    ensures Stays(entry, c, p, m) ==> StartsRightly(entry, c, p, m, false)
  {
    var d := ConditionIn(entry, c, m);
    if entry(p).sym.Some? && d.Some? && Comparison.DependsSymbol(d.value, entry(p).sym.value) {
      DependsContains(d.value, entry(p).sym.value);
    }
  }

  lemma FirstGrown(entry: Id -> Entry, calls: seq<Call>, mid: seq<Tree>)
    requires calls != [] && mid == GrownAll(entry, calls)
    ensures Opened(entry, mid) != [] && Opened(entry, mid)[0].node == calls[0].node
  {
    assert mid[0] == Grown(entry, calls[0]);
  }

  // An entry with a symbol and without a list gets a submenu exactly if the entry behind
  // it does not stay behind it, and then the submenu starts with that entry: always if its
  // condition depends on the symbol, never if it does not have the symbol in it.
  lemma SubmenuStarts(entry: Id -> Entry, c: Conditions, call: Call, rest: seq<Tree>)
    requires Follows(entry, c, call, [], rest) && rest != [] && entry(call.node).sym.Some?
    ensures var kids, first := Grown(entry, call).kids, rest[0].node;
      && (if kids != [] then kids[0].node == first && Enters(entry, c, call.node, first)
          else Stays(entry, c, call.node, first))
      && StartsRightly(entry, c, call.node, first, kids != [])
  {
    var calls := call.below;
    DecidedRightly(entry, c, call.node, rest[0].node);
    if calls == [] {
      assert Left(rest, call.left) == rest;
    } else {
      FirstGrown(entry, calls, GrownAll(entry, calls));
    }
  }

  // Where the second test is decided everywhere there is only one such call tree, so the
  // conditions alone give the menu its shape.
  ghost predicate AllDecided(entry: Id -> Entry, c: Conditions) {
    forall p: Id, m: Id :: Decided(ConditionIn(entry, c, m), PromptIn(entry, c, p))
  }

  lemma OneWay(entry: Id -> Entry, c: Conditions, p: Id, m: Id)
    requires AllDecided(entry, c)
    ensures !(Enters(entry, c, p, m) && Stays(entry, c, p, m))
  {
    if entry(p).sym.Some? {
      DecidedOneWay(ConditionIn(entry, c, m), entry(p).sym.value, PromptIn(entry, c, p));
    }
  }

  // A loop ends at the end of its list or at an entry that stays behind front.
  ghost predicate Ends(entry: Id -> Entry, c: Conditions, front: Ptr, ts: seq<Tree>, left: nat) {
    && left <= |ts|
    && (left > 0 ==> front.Some? && Stays(entry, c, front.value, Left(ts, left)[0].node))
  }

  // Where a loop has gone on it could not have ended.
  lemma GoesOn(entry: Id -> Entry, c: Conditions, front: Ptr, calls: seq<Call>, ts: seq<Tree>, left: nat)
    requires AllDecided(entry, c) && calls != [] && Run(entry, c, front, calls, ts, left)
    ensures !Ends(entry, c, front, ts, |ts|)
  {
    assert Left(ts, |ts|) == ts;
    if front.Some? {
      OneWay(entry, c, front.value, ts[0].node);
    }
  }

  lemma {:induction false} FollowsUnique(entry: Id -> Entry, c: Conditions, a: Call, b: Call, kids: seq<Tree>,
                                         rest: seq<Tree>)
    requires AllDecided(entry, c) && a.node == b.node
    requires Follows(entry, c, a, kids, rest) && Follows(entry, c, b, kids, rest)
    ensures a == b
    decreases a, 1
  {
    if kids != [] {
      RunUnique(entry, c, None, a.below, b.below, kids, 0, 0);
    } else if entry(a.node).sym.Some? {
      RunUnique(entry, c, Some(a.node), a.below, b.below, rest, a.left, b.left);
    }
  }

  lemma {:induction false} RunUnique(entry: Id -> Entry, c: Conditions, front: Ptr, a: seq<Call>, b: seq<Call>,
                                     ts: seq<Tree>, m: nat, n: nat)
    requires AllDecided(entry, c)
    requires Run(entry, c, front, a, ts, m) && Ends(entry, c, front, ts, m)
    requires Run(entry, c, front, b, ts, n) && Ends(entry, c, front, ts, n)
    ensures a == b && m == n
    decreases a, 0
  {
    if a == [] || b == [] {
      if a != b {
        GoesOn(entry, c, front, if a == [] then b else a, ts, if a == [] then n else m);
      }
    } else {
      FollowsUnique(entry, c, a[0], b[0], ts[0].kids, ts[1..]);
      RunUnique(entry, c, front, a[1..], b[1..], Left(ts, a[0].left), m, n);
      assert a == [a[0]] + a[1..] && b == [b[0]] + b[1..];
    }
  }
}
