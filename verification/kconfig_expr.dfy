// Dependency expressions of the Kconfig engine: three-valued logic, symbols,
// expressions and their value under a valuation of the symbols.

module Tristates {
  // The order no < mod < yes is the order of the C enumeration.
  datatype Tristate = No | Mod | Yes {
    function Rank(): nat {
      match this
      case No => 0
      case Mod => 1
      case Yes => 2
    }
  }

  function And3(a: Tristate, b: Tristate): Tristate {
    if a.Rank() < b.Rank() then a else b
  }

  function Or3(a: Tristate, b: Tristate): Tristate {
    if a.Rank() > b.Rank() then a else b
  }

  function Not3(a: Tristate): Tristate {
    match a
    case No => Yes
    case Mod => Mod
    case Yes => No
  }

  predicate Le(a: Tristate, b: Tristate) {
    a.Rank() <= b.Rank()
  }

  function Bool3(b: bool): Tristate {
    if b then Yes else No
  }

  // Kleene's information order: m says nothing, n and y say everything.
  predicate Refines(a: Tristate, b: Tristate) {
    a == Mod || a == b
  }
}

module Exprs {
  import opened Options
  import opened Tristates

  datatype SymType = UnknownType | BooleanType | TristateType | StringType | OtherType

  // One value per symbol object.  The symbol table keeps one constant and one
  // configuration symbol per name; choices have no name.
  datatype Sym =
    | Const(name: string)
    | Config(name: string, typ: SymType)
    | Choice(id: nat, typ: SymType)
  {
    function Type(): SymType {
      if Const? then UnknownType else typ
    }
  }

  const YES := Const("y")
  const MOD := Const("m")
  const NO := Const("n")

  predicate IsLiteral(s: Sym) {
    s == YES || s == MOD || s == NO
  }

  datatype Op = OrOp | AndOp

  function Dual(op: Op): Op {
    if op == OrOp then AndOp else OrOp
  }

  datatype Expr =
    | Symbol(sym: Sym)
    | Equal(left: Sym, right: Sym)
    | Unequal(left: Sym, right: Sym)
    | Not(arg: Expr)
    | Bin(op: Op, l: Expr, r: Expr)

  // A missing expression (NULL) stands for y.
  type ExprOpt = Option<Expr>

  // n for OR, y for AND: the operand that disappears.
  function Unit(op: Op): Sym {
    if op == OrOp then NO else YES
  }

  // y for OR, n for AND: the operand that swallows the other one.
  function Zero(op: Op): Sym {
    Unit(Dual(op))
  }

  predicate IsBin(op: Op, e: Expr) {
    e.Bin? && e.op == op
  }

  function Size(e: Expr): (n: nat)
    ensures n >= 1
  {
    match e
    case Not(a) => 1 + Size(a)
    case Bin(_, l, r) => 1 + Size(l) + Size(r)
    case _ => 1
  }

  function AllocAnd(e1: ExprOpt, e2: ExprOpt): ExprOpt {
    if e1.None? then e2 else if e2.Some? then Some(Bin(AndOp, e1.value, e2.value)) else e1
  }

  // Values ------------------------------------------------------------------

  // The tristate value and the string value of every symbol.
  datatype Valuation = Valuation(tri: Sym -> Tristate, str: Sym -> string)

  function Letter(t: Tristate): string {
    match t
    case No => "n"
    case Mod => "m"
    case Yes => "y"
  }

  function ConstValue(name: string): Tristate {
    if name == "y" then Yes else if name == "m" then Mod else No
  }

  // What the symbol table guarantees about the values of its symbols.
  ghost predicate Coherent(v: Valuation) {
    && (forall s: Sym :: s.Type() == BooleanType ==> v.tri(s) != Mod)
    && (forall s: Sym :: s.Type() == BooleanType || s.Type() == TristateType ==> v.str(s) == Letter(v.tri(s)))
    && (forall s: Sym :: s.Const? ==> v.str(s) == s.name && v.tri(s) == ConstValue(s.name))
  }

  function Op3(op: Op, a: Tristate, b: Tristate): Tristate {
    if op == OrOp then Or3(a, b) else And3(a, b)
  }

  function Eval(e: Expr, v: Valuation): Tristate {
    match e
    case Symbol(s) => v.tri(s)
    case Equal(a, b) => Bool3(v.str(a) == v.str(b))
    case Unequal(a, b) => Bool3(v.str(a) != v.str(b))
    case Not(a) => Not3(Eval(a, v))
    case Bin(op, l, r) => Op3(op, Eval(l, v), Eval(r, v))
  }

  function EvalOpt(e: ExprOpt, v: Valuation): Tristate {
    if e.None? then Yes else Eval(e.value, v)
  }

  ghost predicate Equivalent(a: Expr, b: Expr) {
    forall v: Valuation | Coherent(v) :: Eval(a, v) == Eval(b, v)
  }

  ghost predicate RefinedBy(a: Expr, b: Expr) {
    forall v: Valuation | Coherent(v) :: Refines(Eval(a, v), Eval(b, v))
  }

  // NOT stands only directly above a symbol other than y, m and n.
  predicate Nnf(e: Expr) {
    match e
    case Not(a) => a.Symbol? && !IsLiteral(a.sym)
    case Bin(_, l, r) => Nnf(l) && Nnf(r)
    case _ => true
  }

  // What expr_transform makes of a comparison with n: comparisons, bool symbols or their
  // negation, y and n.
  predicate ComparisonForm(e: Expr) {
    match e
    case Symbol(s) => s.Type() == BooleanType || s == YES || s == NO
    case Not(a) => a.Symbol? && a.sym.Type() == BooleanType
    case Bin(_, l, r) => ComparisonForm(l) && ComparisonForm(r)
    case Equal(a, b) => a.Type() == BooleanType ==> !IsLiteral(b)
    case Unequal(a, b) => a.Type() == BooleanType ==> !IsLiteral(b)
  }

  predicate LiteralFree(e: Expr) {
    match e
    case Symbol(s) => s != YES && s != NO
    case Not(a) => LiteralFree(a)
    case Bin(_, l, r) => LiteralFree(l) && LiteralFree(r)
    case _ => true
  }

  lemma AllocValue(e1: ExprOpt, e2: ExprOpt, v: Valuation)
    ensures EvalOpt(AllocAnd(e1, e2), v) == And3(EvalOpt(e1, v), EvalOpt(e2, v))
  {
  }

  // The order of AND and OR operands and their grouping do not matter.
  lemma Op3Laws(op: Op, a: Tristate, b: Tristate, c: Tristate)
    ensures Op3(op, a, b) == Op3(op, b, a)
    ensures Op3(op, Op3(op, a, b), c) == Op3(op, a, Op3(op, b, c))
    ensures Op3(op, a, a) == a
  {
  }

  lemma Op3Shuffle(op: Op, a: Tristate, b: Tristate, c: Tristate, d: Tristate)
    ensures Op3(op, Op3(op, a, b), Op3(op, c, d)) == Op3(op, Op3(op, a, c), Op3(op, b, d))
  {
  }

  lemma Op3Unit(op: Op, a: Tristate, v: Valuation)
    requires Coherent(v)
    ensures Op3(op, v.tri(Unit(op)), a) == a && Op3(op, a, v.tri(Unit(op))) == a
    ensures Op3(op, v.tri(Zero(op)), a) == v.tri(Zero(op)) && Op3(op, a, v.tri(Zero(op))) == v.tri(Zero(op))
  {
    assert v.tri(YES) == Yes && v.tri(NO) == No;
  }
}
