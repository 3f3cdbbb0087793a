// Values of symbols: the direct definition, and sym_calc_value, which computes it
// lazily and keeps it in the symbol while SYMBOL_VALID is set.

module SymbolDefinition {
  import opened Options
  import opened Tristates
  import opened Exprs

  datatype Default = Default(visible: ExprOpt, value: ExprOpt)

  // The properties of a symbol that its value depends on.
  datatype Entry = Entry(prompts: seq<ExprOpt>, defaults: seq<Default>, revDep: ExprOpt)

  // symbol_value: the string in curr.val and the tristate in curr.tri
  datatype SymbolValue = SymbolValue(val: string, tri: Tristate)

  // modules is modules_val; user and userText are the values of the symbols that
  // carry SYMBOL_DEF_USER.
  datatype Configuration = Configuration(entry: Sym -> Entry, modules: Tristate,
                                         user: map<Sym, Tristate>, userText: map<Sym, string>)

  type Values = Sym -> SymbolValue

  predicate IsTristate(s: Sym) {
    s.Type() == BooleanType || s.Type() == TristateType
  }

  // sym_get_type: without modules a tristate symbol is boolean.
  predicate ActsBoolean(c: Configuration, s: Sym) {
    s.Type() == BooleanType || (s.Type() == TristateType && c.modules == No)
  }

  // sym_get_string_value
  function StringValue(s: Sym, x: SymbolValue): string {
    if IsTristate(s) then Letter(x.tri) else x.val
  }

  function AsValuation(w: Values): Valuation {
    Valuation(s => w(s).tri, s => StringValue(s, w(s)))
  }

  // sym_calc_visibility ---------------------------------------------------------

  function PromptsValue(prompts: seq<ExprOpt>, v: Valuation): Tristate {
    if prompts == [] then No
    else Or3(PromptsValue(prompts[..|prompts| - 1], v), EvalOpt(prompts[|prompts| - 1], v))
  }

  function Visibility(c: Configuration, s: Sym, v: Valuation): Tristate {
    var t := PromptsValue(c.entry(s).prompts, v);
    if t == Mod && (s.Type() != TristateType || c.modules == No) then Yes else t
  }

  function Selected(c: Configuration, s: Sym, v: Valuation): Tristate {
    var t := if c.entry(s).revDep.Some? then EvalOpt(c.entry(s).revDep, v) else No;
    if t == Mod && ActsBoolean(c, s) then Yes else t
  }

  // sym_get_default_prop: the first default whose condition is not n
  function FirstVisible(defaults: seq<Default>, v: Valuation): Option<Default> {
    if defaults == [] then None
    else if EvalOpt(defaults[0].visible, v) != No then Some(defaults[0])
    else FirstVisible(defaults[1..], v)
  }

  function DefaultValue(c: Configuration, s: Sym, v: Valuation): Tristate {
    var d := FirstVisible(c.entry(s).defaults, v);
    if d.Some? then EvalOpt(d.value.value, v) else No
  }

  // The value of a boolean or tristate symbol from its visibility vis and the
  // value rev it is selected with.
  function TristateValue(c: Configuration, s: Sym, vis: Tristate, rev: Tristate, def: Tristate): Tristate {
    var t :=
      if Or3(vis, rev) != No then Or3(And3(if s in c.user then c.user[s] else def, vis), rev)
      else def;
    if t == Mod && ActsBoolean(c, s) then Yes else t
  }

  function TextValue(c: Configuration, s: Sym, w: Values): string {
    var v := AsValuation(w);
    if Visibility(c, s, v) != No && s in c.userText then c.userText[s]
    else
      var d := FirstVisible(c.entry(s).defaults, v);
      if d.Some? && d.value.value.Some? && d.value.value.value.Symbol? then w(d.value.value.value.sym).val else ""
  }

  // One unfolding of the definition, with the values w of other symbols.
  function Unfold(c: Configuration, s: Sym, w: Values): SymbolValue {
    if s == YES || s == MOD || s == NO then SymbolValue(s.name, ConstValue(s.name))
    else if IsTristate(s) then
      var v := AsValuation(w);
      SymbolValue("n", TristateValue(c, s, Visibility(c, s, v), Selected(c, s, v), DefaultValue(c, s, v)))
    else if s.Type() == StringType then SymbolValue(TextValue(c, s, w), No)
    else SymbolValue(NameOf(s), No)
  }

  function NameOf(s: Sym): string {
    if s.Choice? then "" else s.name
  }

  // Dependencies ------------------------------------------------------------------

  predicate ExprBelow(e: ExprOpt, rank: Sym -> nat, n: nat) {
    e.Some? ==> Below(e.value, rank, n)
  }

  // Every symbol of e has a rank smaller than n.
  predicate Below(e: Expr, rank: Sym -> nat, n: nat) {
    match e
    case Symbol(s) => rank(s) < n
    case Equal(a, b) => rank(a) < n && rank(b) < n
    case Unequal(a, b) => rank(a) < n && rank(b) < n
    case Not(a) => Below(a, rank, n)
    case Bin(_, l, r) => Below(l, rank, n) && Below(r, rank, n)
  }

  predicate EntryBelow(t: Entry, rank: Sym -> nat, n: nat) {
    && (forall i :: 0 <= i < |t.prompts| ==> ExprBelow(t.prompts[i], rank, n))
    && (forall i :: 0 <= i < |t.defaults| ==>
          ExprBelow(t.defaults[i].visible, rank, n) && ExprBelow(t.defaults[i].value, rank, n))
    && ExprBelow(t.revDep, rank, n)
  }

  // The dependencies are acyclic: they lower a rank.
  ghost predicate Acyclic(c: Configuration, rank: Sym -> nat) {
    forall s: Sym :: EntryBelow(c.entry(s), rank, rank(s))
  }

  // The direct definition of the value of a symbol.
  ghost function ValueOf(c: Configuration, rank: Sym -> nat, s: Sym): SymbolValue
    decreases rank(s)
  {
    Unfold(c, s, t => if rank(t) < rank(s) then ValueOf(c, rank, t) else SymbolValue("", No))
  }

  ghost function Solution(c: Configuration, rank: Sym -> nat): Values {
    s => ValueOf(c, rank, s)
  }

  ghost predicate AgreeBelow(w1: Values, w2: Values, rank: Sym -> nat, n: nat) {
    forall s: Sym :: rank(s) < n ==> w1(s) == w2(s)
  }

  lemma {:induction false} EvalAgrees(e: Expr, w1: Values, w2: Values, rank: Sym -> nat, n: nat)
    requires AgreeBelow(w1, w2, rank, n) && Below(e, rank, n)
    ensures Eval(e, AsValuation(w1)) == Eval(e, AsValuation(w2))
  {
    match e
    case Not(a) => EvalAgrees(a, w1, w2, rank, n);
    case Bin(_, l, r) =>
      EvalAgrees(l, w1, w2, rank, n);
      EvalAgrees(r, w1, w2, rank, n);
    case _ =>
  }

  lemma EvalOptAgrees(e: ExprOpt, w1: Values, w2: Values, rank: Sym -> nat, n: nat)
    requires AgreeBelow(w1, w2, rank, n) && ExprBelow(e, rank, n)
    ensures EvalOpt(e, AsValuation(w1)) == EvalOpt(e, AsValuation(w2))
  {
    if e.Some? {
      EvalAgrees(e.value, w1, w2, rank, n);
    }
  }

  lemma {:induction false} PromptsAgree(prompts: seq<ExprOpt>, w1: Values, w2: Values, rank: Sym -> nat, n: nat)
    requires AgreeBelow(w1, w2, rank, n)
    requires forall i :: 0 <= i < |prompts| ==> ExprBelow(prompts[i], rank, n)
    ensures PromptsValue(prompts, AsValuation(w1)) == PromptsValue(prompts, AsValuation(w2))
  {
    if prompts != [] {
      PromptsAgree(prompts[..|prompts| - 1], w1, w2, rank, n);
      EvalOptAgrees(prompts[|prompts| - 1], w1, w2, rank, n);
    }
  }

  lemma {:induction false} DefaultsAgree(defaults: seq<Default>, w1: Values, w2: Values, rank: Sym -> nat, n: nat)
    requires AgreeBelow(w1, w2, rank, n)
    requires forall i :: 0 <= i < |defaults| ==> ExprBelow(defaults[i].visible, rank, n)
    ensures FirstVisible(defaults, AsValuation(w1)) == FirstVisible(defaults, AsValuation(w2))
    ensures FirstVisible(defaults, AsValuation(w1)).Some? ==> FirstVisible(defaults, AsValuation(w1)).value in defaults
  {
    if defaults != [] {
      EvalOptAgrees(defaults[0].visible, w1, w2, rank, n);
      DefaultsAgree(defaults[1..], w1, w2, rank, n);
    }
  }

  lemma DefaultAgrees(c: Configuration, s: Sym, w1: Values, w2: Values, rank: Sym -> nat)
    requires AgreeBelow(w1, w2, rank, rank(s)) && EntryBelow(c.entry(s), rank, rank(s))
    ensures FirstVisible(c.entry(s).defaults, AsValuation(w1)) == FirstVisible(c.entry(s).defaults, AsValuation(w2))
    ensures DefaultValue(c, s, AsValuation(w1)) == DefaultValue(c, s, AsValuation(w2))
  {
    DefaultsAgree(c.entry(s).defaults, w1, w2, rank, rank(s));
    var d := FirstVisible(c.entry(s).defaults, AsValuation(w1));
    if d.Some? {
      var i :| 0 <= i < |c.entry(s).defaults| && c.entry(s).defaults[i] == d.value;
      EvalOptAgrees(d.value.value, w1, w2, rank, rank(s));
    }
  }

  lemma VisibilityAgrees(c: Configuration, s: Sym, w1: Values, w2: Values, rank: Sym -> nat)
    requires AgreeBelow(w1, w2, rank, rank(s)) && EntryBelow(c.entry(s), rank, rank(s))
    ensures Visibility(c, s, AsValuation(w1)) == Visibility(c, s, AsValuation(w2))
    ensures Selected(c, s, AsValuation(w1)) == Selected(c, s, AsValuation(w2))
  {
    PromptsAgree(c.entry(s).prompts, w1, w2, rank, rank(s));
    EvalOptAgrees(c.entry(s).revDep, w1, w2, rank, rank(s));
  }

  // Only smaller symbols matter.
  lemma UnfoldAgrees(c: Configuration, s: Sym, w1: Values, w2: Values, rank: Sym -> nat)
    requires AgreeBelow(w1, w2, rank, rank(s)) && EntryBelow(c.entry(s), rank, rank(s))
    ensures Unfold(c, s, w1) == Unfold(c, s, w2)
  {
    VisibilityAgrees(c, s, w1, w2, rank);
    DefaultAgrees(c, s, w1, w2, rank);
    var d := FirstVisible(c.entry(s).defaults, AsValuation(w1));
    if d.Some? {
      DefaultsAgree(c.entry(s).defaults, w1, w2, rank, rank(s));
      var i :| 0 <= i < |c.entry(s).defaults| && c.entry(s).defaults[i] == d.value;
    }
  }

  // The definition is the one solution of its own equations.
  lemma SolutionUnfolds(c: Configuration, rank: Sym -> nat, s: Sym)
    requires Acyclic(c, rank)
    ensures ValueOf(c, rank, s) == Unfold(c, s, Solution(c, rank))
  {
    var w: Values := t => if rank(t) < rank(s) then ValueOf(c, rank, t) else SymbolValue("", No);
    UnfoldAgrees(c, s, w, Solution(c, rank), rank);
  }

  ghost predicate Solves(c: Configuration, w: Values) {
    forall s: Sym :: w(s) == Unfold(c, s, w)
  }

  lemma {:induction false} SolutionUnique(c: Configuration, rank: Sym -> nat, w: Values, s: Sym)
    requires Acyclic(c, rank) && Solves(c, w)
    ensures w(s) == ValueOf(c, rank, s)
    decreases rank(s)
  {
    forall t: Sym | rank(t) < rank(s)
      ensures w(t) == Solution(c, rank)(t)
    {
      SolutionUnique(c, rank, w, t);
    }
    UnfoldAgrees(c, s, w, Solution(c, rank), rank);
    SolutionUnfolds(c, rank, s);
    assert w(s) == Unfold(c, s, w);
  }

  // The values of a configuration are a coherent valuation: what the rewriting of
  // expressions takes for granted.
  lemma SolutionCoherent(c: Configuration, rank: Sym -> nat)
    requires Acyclic(c, rank)
    ensures Coherent(AsValuation(Solution(c, rank)))
  {
    var w := Solution(c, rank);
    forall s: Sym
      ensures s.Type() == BooleanType ==> w(s).tri != Mod
      ensures s.Const? ==> StringValue(s, w(s)) == s.name && w(s).tri == ConstValue(s.name)
    {
      SolutionUnfolds(c, rank, s);
    }
  }

  // c and d differ at most in the user value of s.
  ghost predicate SameBut(c: Configuration, d: Configuration, s: Sym) {
    && d.entry == c.entry && d.modules == c.modules && d.userText == c.userText
    && forall u: Sym :: u != s ==> (u in d.user <==> u in c.user) && (u in c.user ==> d.user[u] == c.user[u])
  }

  lemma UnfoldSameBut(c: Configuration, d: Configuration, s: Sym, t: Sym, w: Values)
    requires SameBut(c, d, s) && t != s
    ensures Unfold(d, t, w) == Unfold(c, t, w)
  {
    if IsTristate(t) {
      var v := AsValuation(w);
      assert Visibility(d, t, v) == Visibility(c, t, v);
      assert Selected(d, t, v) == Selected(c, t, v);
      assert DefaultValue(d, t, v) == DefaultValue(c, t, v);
    } else {
      assert TextValue(d, t, w) == TextValue(c, t, w);
    }
  }

  // Changing the user value of s leaves every other symbol alone that is not above s.
  lemma {:induction false} UserValueLocal(c: Configuration, d: Configuration, rank: Sym -> nat, s: Sym, t: Sym)
    requires Acyclic(c, rank) && Acyclic(d, rank) && SameBut(c, d, s)
    requires rank(t) <= rank(s) && t != s
    ensures ValueOf(d, rank, t) == ValueOf(c, rank, t)
    decreases rank(t)
  {
    var wc, wd := Solution(c, rank), Solution(d, rank);
    forall u: Sym | rank(u) < rank(t)
      ensures wd(u) == wc(u)
    {
      UserValueLocal(c, d, rank, s, u);
    }
    SolutionUnfolds(c, rank, t);
    SolutionUnfolds(d, rank, t);
    UnfoldAgrees(c, t, wd, wc, rank);
    UnfoldSameBut(c, d, s, t, wd);
  }
}
