// sym_check_deps: the search for recursive dependencies after parsing.

module DependencyGraph {
  import opened Options
  import opened Tristates
  import opened Exprs
  import Comparison
  import SymbolDefinition

  datatype PropType = PromptProp | CommentProp | MenuProp | DefaultProp | ChoiceProp | SelectProp | RangeProp

  datatype Property = Property(typ: PropType, hasText: bool, visible: ExprOpt, expr: ExprOpt)

  // What sym_check_deps looks at: rev_dep.expr and the property list.
  datatype Info = Info(revDep: ExprOpt, props: seq<Property>, isChoice: bool)

  function Symbols(e: Expr): seq<Sym> {
    match e
    case Symbol(s) => [s]
    case Equal(a, b) => [a, b]
    case Unequal(a, b) => [a, b]
    case Not(a) => Symbols(a)
    case Bin(_, l, r) => Symbols(l) + Symbols(r)
  }

  function SymbolsOpt(e: ExprOpt): seq<Sym> {
    if e.None? then [] else Symbols(e.value)
  }

  predicate IsSkipped(p: Property) {
    p.typ == ChoiceProp || p.typ == SelectProp
  }

  predicate ValueCounts(p: Property, isChoice: bool) {
    p.typ == DefaultProp && !isChoice
  }

  function PropSymbols(p: Property, isChoice: bool): seq<Sym> {
    if IsSkipped(p) then []
    else SymbolsOpt(p.visible) + if ValueCounts(p, isChoice) then SymbolsOpt(p.expr) else []
  }

  function PropsSymbols(props: seq<Property>, isChoice: bool): seq<Sym> {
    if props == [] then []
    else PropsSymbols(props[..|props| - 1], isChoice) + PropSymbols(props[|props| - 1], isChoice)
  }

  // The symbols that a symbol directly depends on.
  function Deps(i: Info): seq<Sym> {
    SymbolsOpt(i.revDep) + PropsSymbols(i.props, i.isChoice)
  }

  lemma {:induction false} SymbolsIff(e: Expr, t: Sym)
    ensures t in Symbols(e) <==> Comparison.ContainsSymbol(e, t)
  {
    match e
    case Not(a) => SymbolsIff(a, t);
    case Bin(_, l, r) =>
      SymbolsIff(l, t);
      SymbolsIff(r, t);
    case _ =>
  }

  predicate Occurs(e: ExprOpt, t: Sym) {
    e.Some? && Comparison.ContainsSymbol(e.value, t)
  }

  lemma OccursIff(e: ExprOpt, t: Sym)
    ensures t in SymbolsOpt(e) <==> Occurs(e, t)
  {
    if e.Some? {
      SymbolsIff(e.value, t);
    }
  }

  // The property makes its symbol depend on t: its condition does, unless it is a choice or
  // a select, and so does the value of a default, unless the symbol is a choice.
  predicate BringsDependency(p: Property, isChoice: bool, t: Sym) {
    && p.typ != ChoiceProp && p.typ != SelectProp
    && (Occurs(p.visible, t) || (p.typ == DefaultProp && !isChoice && Occurs(p.expr, t)))
  }

  lemma {:induction false} PropsIff(props: seq<Property>, isChoice: bool, t: Sym)
    ensures t in PropsSymbols(props, isChoice) <==>
      exists k :: 0 <= k < |props| && BringsDependency(props[k], isChoice, t)
  {
    if props != [] {
      var front, p := props[..|props| - 1], props[|props| - 1];
      PropsIff(front, isChoice, t);
      OccursIff(p.visible, t);
      OccursIff(p.expr, t);
      if k :| 0 <= k < |front| && BringsDependency(front[k], isChoice, t) {
        assert BringsDependency(props[k], isChoice, t);
      }
    }
  }

  // The dependencies are exactly these and those of the reverse dependency.
  lemma DepsIff(i: Info, t: Sym)
    ensures t in Deps(i) <==>
      Occurs(i.revDep, t) || exists k :: 0 <= k < |i.props| && BringsDependency(i.props[k], i.isChoice, t)
  {
    OccursIff(i.revDep, t);
    PropsIff(i.props, i.isChoice, t);
  }

  // The successors of every symbol.
  type Graph = Sym -> seq<Sym>

  predicate Edge(g: Graph, s: Sym, t: Sym) {
    t in g(s)
  }

  // g is the dependency graph of the symbols described by info.
  ghost predicate GraphOf(g: Graph, info: Sym -> Info) {
    forall s {:trigger Deps(info(s))} :: g(s) == Deps(info(s))
  }

  predicate IsPath(g: Graph, p: seq<Sym>) {
    forall i :: 0 <= i < |p| - 1 ==> Edge(g, p[i], p[i + 1])
  }

  ghost predicate OnCycle(g: Graph, s: Sym) {
    exists p: seq<Sym> :: |p| >= 2 && p[0] == s && p[|p| - 1] == s && IsPath(g, p)
  }

  type Ranks = map<Sym, nat>

  // Every ranked symbol depends only on symbols of a smaller rank.
  ghost predicate Topological(g: Graph, rank: Ranks) {
    forall s, t :: s in rank && Edge(g, s, t) ==> t in rank && rank[t] < rank[s]
  }

  ghost predicate Listed(xs: seq<Sym>, rank: Ranks) {
    forall t :: t in xs ==> t in rank
  }

  // rank2 ranks at least the symbols of rank1, and those alike.
  ghost predicate Extends(rank1: Ranks, rank2: Ranks) {
    forall s :: s in rank1 ==> s in rank2 && rank2[s] == rank1[s]
  }

  lemma ListedJoin(xs: seq<Sym>, ys: seq<Sym>, rank1: Ranks, rank2: Ranks)
    requires Extends(rank1, rank2)
    requires Listed(xs, rank1) && Listed(ys, rank2)
    ensures Listed(xs + ys, rank2)
  {
  }

  ghost predicate RanksBelow(rank: Ranks, clock: nat) {
    forall s :: s in rank ==> rank[s] < clock
  }

  lemma TopologicalExtends(g: Graph, rank: Ranks, clock: nat, s: Sym)
    requires Topological(g, rank) && RanksBelow(rank, clock) && s !in rank
    requires Listed(g(s), rank)
    ensures Topological(g, rank[s := clock]) && RanksBelow(rank[s := clock], clock + 1)
    ensures Extends(rank, rank[s := clock])
  {
    var longer := rank[s := clock];
    forall x, y | x in longer && Edge(g, x, y)
      ensures y in longer && longer[y] < longer[x]
    {
      if x == s {
        assert y in rank;
      } else {
        assert y in rank && rank[y] < rank[x];
      }
    }
  }

  // Along a path from a ranked symbol the ranks go down.
  lemma {:induction false} PathDescends(g: Graph, rank: Ranks, p: seq<Sym>)
    requires Topological(g, rank) && IsPath(g, p) && |p| >= 2 && p[0] in rank
    ensures p[|p| - 1] in rank && rank[p[|p| - 1]] < rank[p[0]]
    decreases |p|
  {
    assert Edge(g, p[0], p[1]);
    if |p| > 2 {
      forall m | 0 <= m < |p[1..]| - 1
        ensures Edge(g, p[1..][m], p[1..][m + 1])
      {
        assert Edge(g, p[m + 1], p[m + 2]);
      }
      PathDescends(g, rank, p[1..]);
    }
  }

  lemma RankedAcyclic(g: Graph, rank: Ranks, s: Sym)
    requires Topological(g, rank) && s in rank
    ensures !OnCycle(g, s)
  {
    if OnCycle(g, s) {
      var p: seq<Sym> :| |p| >= 2 && p[0] == s && p[|p| - 1] == s && IsPath(g, p);
      PathDescends(g, rank, p);
    }
  }

  ghost predicate Closed(g: Graph, universe: set<Sym>) {
    forall s, t :: s in universe && Edge(g, s, t) ==> t in universe
  }

  // The symbols under SYMBOL_CHECK form a path of dependencies.
  ghost predicate Marked(g: Graph, check: set<Sym>, checked: set<Sym>, stack: seq<Sym>) {
    && check <= checked
    && (forall s :: s in check <==> s in stack)
    && (forall i, j :: 0 <= i < j < |stack| ==> stack[i] != stack[j])
    && IsPath(g, stack)
  }

  // The symbol on top of the stack depends on s.
  ghost predicate OnTop(g: Graph, universe: set<Sym>, stack: seq<Sym>, s: Sym) {
    s in universe && (stack != [] ==> Edge(g, stack[|stack| - 1], s))
  }

  ghost predicate AllOnTop(g: Graph, universe: set<Sym>, stack: seq<Sym>, xs: seq<Sym>) {
    forall t :: t in xs ==> OnTop(g, universe, stack, t)
  }

  lemma DepsOnTop(g: Graph, info: Sym -> Info, universe: set<Sym>, stack: seq<Sym>, s: Sym)
    requires GraphOf(g, info)
    requires Closed(g, universe) && s in universe && stack != [] && stack[|stack| - 1] == s
    ensures AllOnTop(g, universe, stack, SymbolsOpt(info(s).revDep))
    ensures forall i :: 0 <= i < |info(s).props| ==>
      AllOnTop(g, universe, stack, PropSymbols(info(s).props[i], info(s).isChoice))
  {
    assert g(s) == Deps(info(s));
    assert AllOnTop(g, universe, stack, g(s)) by {
      assert forall t :: t in g(s) ==> Edge(g, s, t);
    }
    forall i | 0 <= i < |info(s).props|
      ensures AllOnTop(g, universe, stack, PropSymbols(info(s).props[i], info(s).isChoice))
    {
      PropsSplit(info(s), i);
    }
  }

  lemma MarkedEnter(g: Graph, check: set<Sym>, checked: set<Sym>, stack: seq<Sym>, s: Sym)
    requires Marked(g, check, checked, stack) && s !in checked
    requires stack != [] ==> Edge(g, stack[|stack| - 1], s)
    ensures Marked(g, check + {s}, checked + {s}, stack + [s])
  {
    assert s !in stack;
  }

  lemma MarkedLeave(g: Graph, check: set<Sym>, checked: set<Sym>, stack: seq<Sym>)
    requires Marked(g, check, checked, stack) && stack != []
    ensures Marked(g, check - {stack[|stack| - 1]}, checked, stack[..|stack| - 1])
  {
  }

  // The marks of the search.
  class DepChecker {
    const info: Sym -> Info
    ghost const g: Graph
    ghost const universe: set<Sym>
    var check: set<Sym>
    var checked: set<Sym>
    // the symbols under SYMBOL_CHECK in call order, the finished symbols ranked in
    // order of completion, and whether a cycle has been met
    ghost var stack: seq<Sym>
    ghost var rank: Ranks
    ghost var clock: nat
    ghost var failed: bool

    constructor (info: Sym -> Info, ghost g: Graph, ghost universe: set<Sym>)
      requires GraphOf(g, info) && Closed(g, universe)
      ensures Valid() && check == {} && checked == {} && stack == [] && rank == map[] && !failed
      ensures this.info == info && this.g == g && this.universe == universe
    {
      this.info := info;
      this.g := g;
      this.universe := universe;
      check, checked := {}, {};
      stack, rank, clock, failed := [], map[], 0, false;
    }

    ghost predicate Valid()
      reads this
    {
      && GraphOf(g, info) && Closed(g, universe) && checked <= universe
      && Marked(g, check, checked, stack)
      && Topological(g, rank) && RanksBelow(rank, clock)
      && check !! rank.Keys && rank.Keys <= checked
      && (!failed ==> checked == check + rank.Keys)
    }

    ghost function Unchecked(): set<Sym>
      reads this
    {
      universe - checked
    }

    // sym_check_deps
    method CheckDeps(s: Sym) returns (r: Option<Sym>)
      requires Valid() && OnTop(g, universe, stack, s)
      modifies this`check, this`checked, this`stack, this`rank, this`clock, this`failed
      ensures Valid() && stack == old(stack) && check == old(check)
      ensures old(checked) <= checked && Extends(old(rank), rank)
      ensures r.Some? ==> OnCycle(g, r.value) && failed
      ensures r.None? && !old(failed) ==> !failed && s in rank
      ensures old(failed) ==> failed
      decreases Unchecked(), 1
    {
      if s in check {
        ghost var i :| 0 <= i < |stack| && stack[i] == s;
        StackCycle(g, stack, i, s);
        failed := true;
        return Some(s);
      }
      if s in checked {
        return None;
      }
      r := Visit(s);
    }

    // sym_check_deps for a symbol that has not been checked before
    method Visit(s: Sym) returns (r: Option<Sym>)
      requires Valid() && OnTop(g, universe, stack, s) && s !in checked
      modifies this`check, this`checked, this`stack, this`rank, this`clock, this`failed
      ensures Valid() && stack == old(stack) && check == old(check)
      ensures old(checked) <= checked && Extends(old(rank), rank)
      ensures r.Some? ==> OnCycle(g, r.value) && failed
      ensures r.None? && !old(failed) ==> !failed && s in rank
      ensures old(failed) ==> failed
      decreases Unchecked(), 0
    {
      Enter(s);
      DepsOnTop(g, info, universe, stack, s);
      r := CheckExprOpt(info(s).revDep);
      if r.None? {
        r := CheckRest(s);
      }
      assert check - {s} == old(check);
      assert stack[..|stack| - 1] == old(stack);
      Leave(s, r);
    }

    // The properties of s, after rev_dep.expr has been checked.
    method CheckRest(s: Sym) returns (r: Option<Sym>)
      requires Valid() && stack != [] && stack[|stack| - 1] == s && s in universe
      requires !failed ==> Listed(SymbolsOpt(info(s).revDep), rank)
      modifies this`check, this`checked, this`stack, this`rank, this`clock, this`failed
      ensures Valid() && stack == old(stack) && check == old(check)
      ensures old(checked) <= checked && Extends(old(rank), rank)
      ensures r.Some? ==> OnCycle(g, r.value) && failed
      ensures r.None? && !old(failed) ==> !failed && Listed(g(s), rank)
      ensures old(failed) ==> failed
      decreases Unchecked(), 5
    {
      ghost var rank1 := rank;
      r := CheckProps(s);
      if r.None? && !failed {
        ListedJoin(SymbolsOpt(info(s).revDep), PropsSymbols(info(s).props, info(s).isChoice), rank1, rank);
        assert g(s) == Deps(info(s));
      }
    }

    // The loop over the properties in sym_check_deps.
    method CheckProps(s: Sym) returns (r: Option<Sym>)
      requires Valid() && stack != [] && stack[|stack| - 1] == s && s in universe
      modifies this`check, this`checked, this`stack, this`rank, this`clock, this`failed
      ensures Valid() && stack == old(stack) && check == old(check)
      ensures old(checked) <= checked && Extends(old(rank), rank)
      ensures r.Some? ==> OnCycle(g, r.value) && failed
      ensures r.None? && !old(failed) ==>
        !failed && Listed(PropsSymbols(info(s).props, info(s).isChoice), rank)
      ensures old(failed) ==> failed
      decreases Unchecked(), 4
    {
      var node := info(s);
      var i := 0;
      while i < |node.props|
        invariant 0 <= i <= |node.props|
        invariant Valid() && stack == old(stack) && check == old(check)
        invariant old(checked) <= checked && Extends(old(rank), rank)
        invariant old(failed) ==> failed
        invariant !old(failed) ==>
          !failed && Listed(PropsSymbols(node.props[..i], node.isChoice), rank)
      {
        r := CheckNextProp(s, i);
        if r.Some? {
          return;
        }
        i := i + 1;
      }
      assert node.props[..i] == node.props;
      return None;
    }

    method CheckNextProp(s: Sym, i: nat) returns (r: Option<Sym>)
      requires Valid() && stack != [] && stack[|stack| - 1] == s && s in universe && i < |info(s).props|
      requires !failed ==> Listed(PropsSymbols(info(s).props[..i], info(s).isChoice), rank)
      modifies this`check, this`checked, this`stack, this`rank, this`clock, this`failed
      ensures Valid() && stack == old(stack) && check == old(check)
      ensures old(checked) <= checked && Extends(old(rank), rank)
      ensures r.Some? ==> OnCycle(g, r.value) && failed
      ensures r.None? && !old(failed) ==>
        !failed && Listed(PropsSymbols(info(s).props[..i + 1], info(s).isChoice), rank)
      ensures old(failed) ==> failed
      decreases Unchecked(), 3, 1
    {
      PropsSplit(info(s), i);
      DepsOnTop(g, info, universe, stack, s);
      ghost var rank1 := rank;
      r := CheckProp(s, info(s).props[i]);
      if r.None? && !failed {
        ListedJoin(PropsSymbols(info(s).props[..i], info(s).isChoice),
                   PropSymbols(info(s).props[i], info(s).isChoice), rank1, rank);
      }
    }

    method CheckProp(s: Sym, prop: Property) returns (r: Option<Sym>)
      requires Valid() && stack != [] && stack[|stack| - 1] == s && s in universe
      requires AllOnTop(g, universe, stack, PropSymbols(prop, info(s).isChoice))
      modifies this`check, this`checked, this`stack, this`rank, this`clock, this`failed
      ensures Valid() && stack == old(stack) && check == old(check)
      ensures old(checked) <= checked && Extends(old(rank), rank)
      ensures r.Some? ==> OnCycle(g, r.value) && failed
      ensures r.None? && !old(failed) ==>
        !failed && Listed(PropSymbols(prop, info(s).isChoice), rank)
      ensures old(failed) ==> failed
      decreases Unchecked(), 3, 0
    {
      if IsSkipped(prop) {
        return None;
      }
      r := CheckExprOpt(prop.visible);
      if r.None? && ValueCounts(prop, info(s).isChoice) {
        r := CheckExprOpt(prop.expr);
      }
    }

    // sym->flags |= (SYMBOL_CHECK | SYMBOL_CHECKED)
    method Enter(s: Sym)
      requires Valid() && OnTop(g, universe, stack, s) && s !in checked
      modifies this`check, this`checked, this`stack
      ensures Valid() && stack == old(stack) + [s]
      ensures check == old(check) + {s} && checked == old(checked) + {s}
    {
      MarkedEnter(g, check, checked, stack, s);
      check := check + {s};
      checked := checked + {s};
      stack := stack + [s];
    }

    // sym->flags &= ~SYMBOL_CHECK
    method Leave(s: Sym, r: Option<Sym>)
      requires Valid() && stack != [] && stack[|stack| - 1] == s
      requires r.Some? ==> failed
      requires r.None? && !failed ==> Listed(g(s), rank)
      modifies this`check, this`stack, this`rank, this`clock
      ensures Valid() && stack == old(stack)[..|old(stack)| - 1] && check == old(check) - {s}
      ensures Extends(old(rank), rank)
      ensures r.None? && !failed ==> s in rank
    {
      if r.None? && !failed {
        TopologicalExtends(g, rank, clock, s);
        rank, clock := rank[s := clock], clock + 1;
      }
      MarkedLeave(g, check, checked, stack);
      check := check - {s};
      stack := stack[..|stack| - 1];
    }

    // sym_check_expr_deps
    method CheckExprOpt(e: ExprOpt) returns (r: Option<Sym>)
      requires Valid() && stack != []
      requires AllOnTop(g, universe, stack, SymbolsOpt(e))
      modifies this`check, this`checked, this`stack, this`rank, this`clock, this`failed
      ensures Valid() && stack == old(stack) && check == old(check)
      ensures old(checked) <= checked && Extends(old(rank), rank)
      ensures r.Some? ==> OnCycle(g, r.value) && failed
      ensures r.None? && !old(failed) ==> !failed && Listed(SymbolsOpt(e), rank)
      ensures old(failed) ==> failed
      decreases Unchecked(), 2, 1
    {
      if e.None? {
        return None;
      }
      r := CheckExpr(e.value);
    }

    method CheckExpr(e: Expr) returns (r: Option<Sym>)
      requires Valid() && stack != []
      requires AllOnTop(g, universe, stack, Symbols(e))
      modifies this`check, this`checked, this`stack, this`rank, this`clock, this`failed
      ensures Valid() && stack == old(stack) && check == old(check)
      ensures old(checked) <= checked && Extends(old(rank), rank)
      ensures r.Some? ==> OnCycle(g, r.value) && failed
      ensures r.None? && !old(failed) ==> !failed && Listed(Symbols(e), rank)
      ensures old(failed) ==> failed
      decreases Unchecked(), 2, 0, e
    {
      match e
      case Bin(_, left, right) =>
        r := CheckExpr(left);
        if r.Some? {
          return;
        }
        r := CheckExpr(right);
      case Not(a) =>
        r := CheckExpr(a);
      case Equal(a, b) =>
        r := CheckDeps(a);
        if r.Some? {
          return;
        }
        r := CheckDeps(b);
      case Unequal(a, b) =>
        r := CheckDeps(a);
        if r.Some? {
          return;
        }
        r := CheckDeps(b);
      case Symbol(s) =>
        r := CheckDeps(s);
    }

    // The sweep of conf_parse over all symbols of the table.
    method Sweep(symbols: seq<Sym>) returns (errors: nat)
      requires Valid() && check == {} && checked == {} && stack == [] && rank == map[] && !failed
      requires forall s :: s in symbols ==> s in universe
      requires forall s :: g(s) != [] ==> s in symbols
      modifies this`check, this`checked, this`stack, this`rank, this`clock, this`failed
      ensures check == {}
      ensures errors == 0 <==> forall s :: !OnCycle(g, s)
      ensures errors == 0 ==> Topological(g, rank) && forall s :: s in symbols ==> s in rank
    {
      errors := 0;
      var i := 0;
      ghost var bad: Option<Sym> := None;
      while i < |symbols|
        invariant 0 <= i <= |symbols|
        invariant Valid() && check == {} && stack == []
        invariant errors == 0 ==> !failed && forall j :: 0 <= j < i ==> symbols[j] in rank
        invariant errors != 0 ==> bad.Some? && OnCycle(g, bad.value)
      {
        var r := CheckDeps(symbols[i]);
        if r.Some? {
          errors := errors + 1;
          bad := r;
        }
        i := i + 1;
      }
      if errors == 0 {
        forall s
          ensures !OnCycle(g, s)
        {
          if OnCycle(g, s) {
            CycleHasDeps(g, s);
            RankedAcyclic(g, rank, s);
          }
        }
      }
    }
  }

  lemma CycleHasDeps(g: Graph, s: Sym)
    requires OnCycle(g, s)
    ensures g(s) != []
  {
    var p: seq<Sym> :| |p| >= 2 && p[0] == s && p[|p| - 1] == s && IsPath(g, p);
    assert Edge(g, p[0], p[1]);
  }

  // The symbols of the property visited next are among the dependencies.
  lemma PropsSplit(i: Info, k: nat)
    requires k < |i.props|
    ensures PropsSymbols(i.props[..k + 1], i.isChoice)
         == PropsSymbols(i.props[..k], i.isChoice) + PropSymbols(i.props[k], i.isChoice)
    ensures forall t :: t in PropSymbols(i.props[k], i.isChoice) ==> t in Deps(i)
  {
    assert i.props[..k + 1][..k] == i.props[..k];
    PropsPrefix(i.props, i.isChoice, k + 1);
  }

  lemma {:induction false} PropsPrefix(props: seq<Property>, isChoice: bool, k: nat)
    requires k <= |props|
    ensures forall t :: t in PropsSymbols(props[..k], isChoice) ==> t in PropsSymbols(props, isChoice)
  {
    if k < |props| {
      assert props[..|props| - 1][..k] == props[..k];
      PropsPrefix(props[..|props| - 1], isChoice, k);
    } else {
      assert props[..k] == props;
    }
  }

  lemma StackCycle(g: Graph, stack: seq<Sym>, i: nat, s: Sym)
    requires IsPath(g, stack) && i < |stack| && stack[i] == s && Edge(g, stack[|stack| - 1], s)
    ensures OnCycle(g, s)
  {
    var p := stack[i..] + [s];
    forall k | 0 <= k < |p| - 1
      ensures Edge(g, p[k], p[k + 1])
    {
      if k < |p| - 2 {
        assert Edge(g, stack[i + k], stack[i + k + 1]);
      }
    }
    assert IsPath(g, p);
  }

  // A clean sweep makes the values of all symbols well defined ----------------------

  function PromptsOf(props: seq<Property>): seq<ExprOpt> {
    if props == [] then []
    else PromptsOf(props[..|props| - 1]) + if props[|props| - 1].hasText then [props[|props| - 1].visible] else []
  }

  function DefaultsOf(props: seq<Property>): seq<SymbolDefinition.Default> {
    if props == [] then []
    else
      var p := props[|props| - 1];
      DefaultsOf(props[..|props| - 1]) +
        if p.typ == DefaultProp then [SymbolDefinition.Default(p.visible, p.expr)] else []
  }

  // Prompts and defaults stay in the order of the property list.
  lemma {:induction false} InOrder(props: seq<Property>, k: nat)
    requires k < |props|
    ensures props[k].hasText ==>
      var i := |PromptsOf(props[..k])|; i < |PromptsOf(props)| && PromptsOf(props)[i] == props[k].visible
    ensures props[k].typ == DefaultProp ==>
      var i := |DefaultsOf(props[..k])|;
      i < |DefaultsOf(props)| && DefaultsOf(props)[i] == SymbolDefinition.Default(props[k].visible, props[k].expr)
  {
    var n := |props| - 1;
    if k < n {
      assert props[..n][..k] == props[..k];
      InOrder(props[..n], k);
    }
  }

  // The part of the properties that sym_calc_value uses.
  function EntryOf(i: Info): SymbolDefinition.Entry {
    SymbolDefinition.Entry(PromptsOf(i.props), DefaultsOf(i.props), i.revDep)
  }

  function RankOf(rank: Ranks): Sym -> nat {
    s => if s in rank then rank[s] else 0
  }

  // No choices; P_CHOICE and P_SELECT properties never carry a prompt.
  predicate Plain(i: Info) {
    !i.isChoice && forall k :: 0 <= k < |i.props| ==> IsSkipped(i.props[k]) ==> !i.props[k].hasText
  }

  ghost predicate AllBelow(xs: seq<Sym>, rank: Ranks, n: nat) {
    forall t :: t in xs ==> t in rank && rank[t] < n
  }

  lemma {:induction false} SymbolsBelow(e: Expr, rank: Ranks, n: nat)
    requires AllBelow(Symbols(e), rank, n)
    ensures SymbolDefinition.Below(e, RankOf(rank), n)
  {
    match e
    case Not(a) => SymbolsBelow(a, rank, n);
    case Bin(_, l, r) =>
      SymbolsBelow(l, rank, n);
      SymbolsBelow(r, rank, n);
    case Equal(a, b) => assert a in Symbols(e) && b in Symbols(e);
    case Unequal(a, b) => assert a in Symbols(e) && b in Symbols(e);
    case Symbol(s) => assert s in Symbols(e);
  }

  lemma SymbolsOptBelow(e: ExprOpt, rank: Ranks, n: nat)
    requires AllBelow(SymbolsOpt(e), rank, n)
    ensures SymbolDefinition.ExprBelow(e, RankOf(rank), n)
  {
    if e.Some? {
      SymbolsBelow(e.value, rank, n);
    }
  }

  lemma {:induction false} PropsBelow(props: seq<Property>, rank: Ranks, n: nat)
    requires AllBelow(PropsSymbols(props, false), rank, n)
    requires forall k :: 0 <= k < |props| ==> IsSkipped(props[k]) ==> !props[k].hasText
    ensures forall k :: 0 <= k < |PromptsOf(props)| ==> SymbolDefinition.ExprBelow(PromptsOf(props)[k], RankOf(rank), n)
    ensures forall k :: 0 <= k < |DefaultsOf(props)| ==>
      && SymbolDefinition.ExprBelow(DefaultsOf(props)[k].visible, RankOf(rank), n)
      && SymbolDefinition.ExprBelow(DefaultsOf(props)[k].value, RankOf(rank), n)
  {
    if props != [] {
      var front, p := props[..|props| - 1], props[|props| - 1];
      PropsBelow(front, rank, n);
      assert PropsSymbols(props, false) == PropsSymbols(front, false) + PropSymbols(p, false);
      if !IsSkipped(p) {
        SymbolsOptBelow(p.visible, rank, n);
        if p.typ == DefaultProp {
          SymbolsOptBelow(p.expr, rank, n);
        }
      }
    }
  }

  // If the sweep reports no error, dependencies lower a rank, so that every symbol
  // has the value that its definition gives.
  lemma CleanSweepAcyclic(info: Sym -> Info, g: Graph, rank: Ranks, modules: Tristate,
                          user: map<Sym, Tristate>, userText: map<Sym, string>)
    requires GraphOf(g, info) && Topological(g, rank)
    requires forall s :: g(s) != [] ==> s in rank
    requires forall s :: Plain(info(s))
    ensures SymbolDefinition.Acyclic(
      SymbolDefinition.Configuration(s => EntryOf(info(s)), modules, user, userText), RankOf(rank))
  {
    forall s
      ensures SymbolDefinition.EntryBelow(EntryOf(info(s)), RankOf(rank), RankOf(rank)(s))
    {
      assert g(s) == Deps(info(s));
      var n := RankOf(rank)(s);
      forall t | t in g(s)
        ensures t in rank && rank[t] < n
      {
        assert Edge(g, s, t);
      }
      assert Plain(info(s));
      SymbolsOptBelow(info(s).revDep, rank, n);
      PropsBelow(info(s).props, rank, n);
    }
  }
}
