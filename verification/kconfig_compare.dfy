// expr_trans_compare, expr_trans_bool, expr_contains_symbol and
// expr_depends_symbol: what menu_finalize asks about a dependency.

module Comparison {
  import opened Options
  import opened Tristates
  import opened Exprs
  import SymbolDefinition

  function Compare(unequal: bool, a: Sym, b: Sym): Expr {
    if unequal then Unequal(a, b) else Equal(a, b)
  }

  function Negate(negate: bool, e: Expr): Expr {
    if negate then Not(e) else e
  }

  // expr_trans_compare for a type of E_EQUAL or E_UNEQUAL and a literal symbol.
  function TransCompare(e: Expr, unequal: bool, sym: Sym): Expr
    requires IsLiteral(sym)
  {
    match e
    case Symbol(s) => Compare(unequal, s, sym)
    case Equal(_, _) => CompareComparison(e, unequal, sym)
    case Unequal(_, _) => CompareComparison(e, unequal, sym)
    case Not(a) => TransCompare(a, !unequal, sym)
    case Bin(op, l, r) =>
      var l', r' := TransCompare(l, false, sym), TransCompare(r, false, sym);
      Negate(unequal,
             if sym == YES then Bin(op, l', r')
             else if sym == NO then Bin(Dual(op), l', r')
             else e)
  }

  function CompareComparison(e: Expr, unequal: bool, sym: Sym): Expr {
    if sym == YES then Negate(unequal, e)
    else if sym == MOD then Symbol(if unequal then YES else NO)
    else Negate(!unequal, e)
  }

  function TransCompareOpt(e: ExprOpt, unequal: bool, sym: Sym): Expr
    requires IsLiteral(sym)
  {
    if e.None? then Negate(unequal, Symbol(sym)) else TransCompare(e.value, unequal, sym)
  }

  // Symbols used as values, outside comparisons, are boolean, tristate or y, m, n.
  predicate OverTristates(e: Expr) {
    match e
    case Symbol(s) => s.Type() == BooleanType || s.Type() == TristateType || IsLiteral(s)
    case Not(a) => OverTristates(a)
    case Bin(_, l, r) => OverTristates(l) && OverTristates(r)
    case _ => true
  }

  predicate NoNegatedMod(e: Expr, v: Valuation) {
    match e
    case Not(a) => Eval(a, v) != Mod && NoNegatedMod(a, v)
    case Bin(_, l, r) => NoNegatedMod(l, v) && NoNegatedMod(r, v)
    case _ => true
  }

  lemma LetterInjective(a: Tristate, b: Tristate)
    ensures Letter(a) == Letter(b) <==> a == b
  {
    if a != b {
      assert Letter(a)[0] != Letter(b)[0];
    }
  }

  lemma ComparisonOfSymbol(s: Sym, sym: Sym, v: Valuation)
    requires Coherent(v)
    requires IsLiteral(sym) && OverTristates(Symbol(s))
    ensures v.str(s) == v.str(sym) <==> v.tri(s) == v.tri(sym)
  {
    assert v.str(sym) == Letter(v.tri(sym));
    assert v.str(s) == Letter(v.tri(s));
    LetterInjective(v.tri(s), v.tri(sym));
  }

  // The rewritten comparison is y when the value of e compares as asked, else n.
  lemma {:induction false} TransCompareExact(e: Expr, unequal: bool, sym: Sym, v: Valuation)
    requires Coherent(v)
    requires sym == YES || sym == NO
    requires OverTristates(e) && NoNegatedMod(e, v)
    ensures Eval(TransCompare(e, unequal, sym), v) == Bool3((Eval(e, v) == v.tri(sym)) != unequal)
  {
    assert v.tri(YES) == Yes && v.tri(NO) == No;
    match e
    case Symbol(s) => ComparisonOfSymbol(s, sym, v);
    case Not(a) => TransCompareExact(a, !unequal, sym, v);
    case Bin(op, l, r) =>
      TransCompareExact(l, false, sym, v);
      TransCompareExact(r, false, sym, v);
    case _ =>
  }

  lemma TransCompareOptExact(e: ExprOpt, unequal: bool, sym: Sym, v: Valuation)
    requires Coherent(v)
    requires sym == YES || sym == NO
    requires e.Some? ==> OverTristates(e.value) && NoNegatedMod(e.value, v)
    ensures Eval(TransCompareOpt(e, unequal, sym), v) == Bool3((EvalOpt(e, v) == v.tri(sym)) != unequal)
  {
    if e.Some? {
      TransCompareExact(e.value, unequal, sym, v);
    } else {
      assert v.tri(YES) == Yes && v.tri(NO) == No;
    }
  }

  // A negation is compared correctly exactly when its operand is not m.
  lemma TransCompareNotIff(a: Expr, unequal: bool, sym: Sym, v: Valuation)
    requires Coherent(v)
    requires sym == YES || sym == NO
    requires OverTristates(a) && NoNegatedMod(a, v)
    ensures Eval(TransCompare(Not(a), unequal, sym), v) == Bool3((Eval(Not(a), v) == v.tri(sym)) != unequal)
       <==> Eval(a, v) != Mod
  {
    assert v.tri(YES) == Yes && v.tri(NO) == No;
    TransCompareExact(a, !unequal, sym, v);
  }

  // A valuation in which every tristate symbol is m.
  function AllMod(): (v: Valuation)
    ensures Coherent(v)
  {
    Valuation(
      (s: Sym) => if s.Const? then ConstValue(s.name) else if s.Type() == TristateType then Mod else No,
      (s: Sym) => if s.Const? then s.name else if s.Type() == TristateType then "m" else "n")
  }

  // !A != n with A = m: the comparison holds, the rewritten one, A = n, does not.
  lemma TransCompareNotFails()
    ensures var a := Symbol(Config("A", TristateType));
      Eval(TransCompare(Not(a), true, NO), AllMod()) == No && Eval(Not(a), AllMod()) != No
  {
    var a := Config("A", TristateType);
    assert AllMod().str(a) == "m" && AllMod().str(NO) == "n";
    LetterInjective(Mod, No);
  }

  // The operand below all leading NOTs.
  function Core(e: Expr): Expr {
    if e.Not? then Core(e.arg) else e
  }

  predicate EvenNots(e: Expr) {
    e.Not? ==> !EvenNots(e.arg)
  }

  lemma {:induction false} CoreValue(e: Expr, unequal: bool, v: Valuation)
    ensures Eval(e, v) == if EvenNots(e) then Eval(Core(e), v) else Not3(Eval(Core(e), v))
    ensures TransCompare(e, unequal, MOD) == TransCompare(Core(e), unequal == EvenNots(e), MOD)
  {
    if e.Not? {
      CoreValue(e.arg, !unequal, v);
    }
  }

  // Compared with m, an AND or OR is left alone, and a NOT turns around what is asked
  // about m: an AND or OR is compared correctly only while the whole is n, a comparison only
  // below an even number of NOTs, and a symbol there too if its string is m exactly when its
  // value is, as for bool and tristate symbols.
  lemma TransCompareModIff(e: Expr, unequal: bool, v: Valuation)
    requires Coherent(v)
    ensures Eval(TransCompare(e, unequal, MOD), v) == Bool3((Eval(e, v) == Mod) != unequal)
       <==> match Core(e)
            case Bin(_, _, _) => Eval(e, v) == No
            case Symbol(s) => EvenNots(e) <==> (v.str(s) == v.str(MOD) <==> v.tri(s) == Mod)
            case _ => EvenNots(e)
  {
    CoreValue(e, unequal, v);
    CoreIsNoNot(e);
    assert v.tri(MOD) == Mod && v.tri(YES) == Yes && v.tri(NO) == No;
  }

  lemma {:induction false} CoreIsNoNot(e: Expr)
    ensures !Core(e).Not?
  {
    if e.Not? {
      CoreIsNoNot(e.arg);
    }
  }

  // How a comparison with sym reads the symbols: as sym where the strings agree, and
  // as the opposite elsewhere.
  function Compared(v: Valuation, sym: Sym): Valuation {
    Valuation((s: Sym) => if v.str(s) == v.str(sym) then v.tri(sym) else Not3(v.tri(sym)), v.str)
  }

  lemma {:induction false} ComparedTwoValued(e: Expr, sym: Sym, v: Valuation)
    requires v.tri(sym) != Mod
    ensures Eval(e, Compared(v, sym)) != Mod
  {
    match e
    case Not(a) => ComparedTwoValued(a, sym, v);
    case Bin(_, l, r) =>
      ComparedTwoValued(l, sym, v);
      ComparedTwoValued(r, sym, v);
    case _ =>
  }

  // Whatever the expression, its rewritten comparison is the comparison of the value it
  // has when every symbol is read that way.
  lemma {:induction false} TransCompareReads(e: Expr, unequal: bool, sym: Sym, v: Valuation)
    requires Coherent(v)
    requires sym == YES || sym == NO
    ensures Eval(TransCompare(e, unequal, sym), v)
         == Bool3((Eval(e, Compared(v, sym)) == v.tri(sym)) != unequal)
  {
    assert v.tri(YES) == Yes && v.tri(NO) == No;
    match e
    case Not(a) =>
      TransCompareReads(a, !unequal, sym, v);
      ComparedTwoValued(a, sym, v);
    case Bin(op, l, r) =>
      TransCompareReads(l, false, sym, v);
      TransCompareReads(r, false, sym, v);
      ComparedTwoValued(l, sym, v);
      ComparedTwoValued(r, sym, v);
    case _ =>
  }

  // So it is right exactly where that way of reading does not change the answer.
  lemma TransCompareIff(e: Expr, unequal: bool, sym: Sym, v: Valuation)
    requires Coherent(v)
    requires sym == YES || sym == NO
    ensures Eval(TransCompare(e, unequal, sym), v) == Bool3((Eval(e, v) == v.tri(sym)) != unequal)
       <==> (Eval(e, Compared(v, sym)) == v.tri(sym) <==> Eval(e, v) == v.tri(sym))
  {
    TransCompareReads(e, unequal, sym, v);
  }

  // The result of a comparison is never m.
  lemma {:induction false} TransCompareTwoValued(e: Expr, unequal: bool, sym: Sym, v: Valuation)
    requires Coherent(v)
    requires sym == YES || sym == NO
    ensures Eval(TransCompare(e, unequal, sym), v) != Mod
  {
    match e
    case Not(a) => TransCompareTwoValued(a, !unequal, sym, v);
    case Bin(op, l, r) =>
      TransCompareTwoValued(l, false, sym, v);
      TransCompareTwoValued(r, false, sym, v);
    case _ =>
  }

  // expr_trans_bool ------------------------------------------------------------

  function TransBool(e: Expr): Expr {
    match e
    case Bin(op, l, r) => Bin(op, TransBool(l), TransBool(r))
    case Not(a) => Not(TransBool(a))
    case Unequal(a, b) => if a.Type() == TristateType && b == NO then Symbol(a) else e
    case _ => e
  }

  // The comparison s != n of a tristate s is nowhere left.
  predicate Replaced(e: Expr) {
    match e
    case Bin(_, l, r) => Replaced(l) && Replaced(r)
    case Not(a) => Replaced(a)
    case Unequal(a, b) => !(a.Type() == TristateType && b == NO)
    case _ => true
  }

  lemma {:induction false} TransBoolComplete(e: Expr)
    ensures Replaced(TransBool(e)) && Size(TransBool(e)) == Size(e)
    ensures Replaced(e) <==> TransBool(e) == e
  {
    match e
    case Bin(_, l, r) =>
      TransBoolComplete(l);
      TransBoolComplete(r);
    case Not(a) => TransBoolComplete(a);
    case _ =>
  }

  // No comparison that expr_trans_bool replaces stands below a NOT.
  predicate NegatesNoReplaced(e: Expr) {
    match e
    case Not(a) => TransBool(a) == a
    case Bin(_, l, r) => NegatesNoReplaced(l) && NegatesNoReplaced(r)
    case _ => true
  }

  lemma {:induction false} NnfNegatesNoReplaced(e: Expr)
    requires Nnf(e)
    ensures NegatesNoReplaced(e)
  {
    if e.Bin? {
      NnfNegatesNoReplaced(e.l);
      NnfNegatesNoReplaced(e.r);
    }
  }

  lemma {:induction false} TransBoolKeepsNotNo(e: Expr, v: Valuation)
    requires Coherent(v)
    requires NegatesNoReplaced(e)
    ensures Eval(TransBool(e), v) == No <==> Eval(e, v) == No
  {
    match e
    case Bin(op, l, r) =>
      TransBoolKeepsNotNo(l, v);
      TransBoolKeepsNotNo(r, v);
    case Unequal(a, b) =>
      if a.Type() == TristateType && b == NO {
        assert v.str(a) == Letter(v.tri(a));
        assert v.str(NO) == Letter(No);
        LetterInjective(v.tri(a), No);
      }
    case _ =>
  }

  // Below a NOT the replacement is wrong exactly when the symbol is m.
  lemma TransBoolNotIff(a: Sym, v: Valuation)
    requires Coherent(v)
    requires a.Type() == TristateType
    ensures (Eval(TransBool(Not(Unequal(a, NO))), v) == No <==> Eval(Not(Unequal(a, NO)), v) == No)
       <==> v.tri(a) != Mod
  {
    assert v.str(a) == Letter(v.tri(a));
    assert v.str(NO) == Letter(No);
    LetterInjective(v.tri(a), No);
  }

  // The visibility of a symbol that is not tristate: m becomes y.
  function PlainVisibility(prompts: seq<ExprOpt>, v: Valuation): Tristate {
    var t := SymbolDefinition.PromptsValue(prompts, v);
    if t == Mod then Yes else t
  }

  function TransBoolOpt(e: ExprOpt): ExprOpt {
    if e.None? then None else Some(TransBool(e.value))
  }

  // It is exactly the same after expr_trans_bool.
  lemma {:induction false} TransBoolKeepsVisibility(prompts: seq<ExprOpt>, v: Valuation)
    requires Coherent(v)
    requires forall i :: 0 <= i < |prompts| ==> prompts[i].Some? ==> Nnf(prompts[i].value)
    ensures PlainVisibility(seq(|prompts|, i requires 0 <= i < |prompts| => TransBoolOpt(prompts[i])), v)
         == PlainVisibility(prompts, v)
  {
    var mapped := seq(|prompts|, i requires 0 <= i < |prompts| => TransBoolOpt(prompts[i]));
    if prompts != [] {
      var n := |prompts| - 1;
      var front := prompts[..n];
      TransBoolKeepsVisibility(front, v);
      assert mapped[..n] == seq(|front|, i requires 0 <= i < |front| => TransBoolOpt(front[i]));
      assert mapped[n] == TransBoolOpt(prompts[n]);
      if prompts[n].Some? {
        NnfNegatesNoReplaced(prompts[n].value);
        TransBoolKeepsNotNo(prompts[n].value, v);
      }
    }
  }

  // expr_contains_symbol, expr_depends_symbol ---------------------------------

  predicate ContainsSymbol(e: Expr, s: Sym) {
    match e
    case Symbol(a) => a == s
    case Equal(a, b) => a == s || b == s
    case Unequal(a, b) => a == s || b == s
    case Not(a) => ContainsSymbol(a, s)
    case Bin(_, l, r) => ContainsSymbol(l, s) || ContainsSymbol(r, s)
  }

  // The symbols of an expression.
  function Symbols(e: Expr): set<Sym> {
    match e
    case Symbol(a) => {a}
    case Equal(a, b) => {a, b}
    case Unequal(a, b) => {a, b}
    case Not(a) => Symbols(a)
    case Bin(_, l, r) => Symbols(l) + Symbols(r)
  }

  lemma {:induction false} ContainsSymbolIff(e: Expr, s: Sym)
    ensures ContainsSymbol(e, s) <==> s in Symbols(e)
  {
    match e
    case Not(a) => ContainsSymbolIff(a, s);
    case Bin(_, l, r) =>
      ContainsSymbolIff(l, s);
      ContainsSymbolIff(r, s);
    case _ =>
  }

  ghost predicate AgreeExcept(v: Valuation, w: Valuation, s: Sym) {
    forall t: Sym :: t != s ==> v.tri(t) == w.tri(t) && v.str(t) == w.str(t)
  }

  lemma {:induction false} NotContainedIsIrrelevant(e: Expr, s: Sym, v: Valuation, w: Valuation)
    requires !ContainsSymbol(e, s) && AgreeExcept(v, w, s)
    ensures Eval(e, v) == Eval(e, w)
  {
    match e
    case Not(a) => NotContainedIsIrrelevant(a, s, v, w);
    case Bin(_, l, r) =>
      NotContainedIsIrrelevant(l, s, v, w);
      NotContainedIsIrrelevant(r, s, v, w);
    case _ =>
  }

  predicate DependsSymbol(e: Expr, s: Sym) {
    match e
    case Bin(op, l, r) => op == AndOp && (DependsSymbol(l, s) || DependsSymbol(r, s))
    case Symbol(a) => a == s
    case Equal(a, b) => a == s && (b == YES || b == MOD)
    case Unequal(a, b) => a == s && b == NO
    case Not(_) => false
  }

  // A dependency on s is n whenever s is n.
  lemma {:induction false} DependsSymbolSound(e: Expr, s: Sym, v: Valuation)
    requires Coherent(v)
    requires s.Type() == BooleanType || s.Type() == TristateType
    requires DependsSymbol(e, s) && v.tri(s) == No
    ensures Eval(e, v) == No
  {
    match e
    case Bin(_, l, r) =>
      if DependsSymbol(l, s) {
        DependsSymbolSound(l, s, v);
      } else {
        DependsSymbolSound(r, s, v);
      }
    case Symbol(_) =>
    case Equal(_, _) => StringOfNo(s, v);
    case Unequal(_, _) => StringOfNo(s, v);
  }

  lemma StringOfNo(s: Sym, v: Valuation)
    requires Coherent(v)
    requires s.Type() == BooleanType || s.Type() == TristateType
    requires v.tri(s) == No
    ensures v.str(s) == v.str(NO) && v.str(s) != v.str(YES) && v.str(s) != v.str(MOD)
  {
    assert v.str(s) == Letter(No);
    assert v.str(YES) == Letter(Yes) && v.str(MOD) == Letter(Mod) && v.str(NO) == Letter(No);
    LetterInjective(No, Yes);
    LetterInjective(No, Mod);
  }

  // For a symbol of another type the test is wrong: a string may read y.
  lemma DependsSymbolExactType(s: Sym)
    requires s.Config?
    ensures (forall v: Valuation | Coherent(v) :: v.tri(s) == No ==> Eval(Equal(s, YES), v) == No)
       <==> s.Type() == BooleanType || s.Type() == TristateType
  {
    if s.Type() == BooleanType || s.Type() == TristateType {
      forall v: Valuation | Coherent(v) && v.tri(s) == No
        ensures Eval(Equal(s, YES), v) == No
      {
        DependsSymbolSound(Equal(s, YES), s, v);
      }
    } else {
      var v := Valuation(
        (t: Sym) => if t.Const? then ConstValue(t.name) else No,
        (t: Sym) => if t.Const? then t.name else if t == s then "y" else "n");
      assert Coherent(v) && v.tri(s) == No && Eval(Equal(s, YES), v) == Yes;
    }
  }
}
