// expr_print and the expression grammar of the parser.

module Printing {
  import opened Options
  import opened Tristates
  import opened Exprs
  import opened Canonical

  datatype ExprType = ENone | EOr | EAnd | ENot | EEqual | EUnequal | EChoice | ESymbol | ERange

  datatype Token =
    | Word(name: string)
    | TEqual | TUnequal | TNot | TAnd | TOr | TOpen | TClose

  function TypeOf(e: Expr): ExprType {
    match e
    case Symbol(_) => ESymbol
    case Equal(_, _) => EEqual
    case Unequal(_, _) => EUnequal
    case Not(_) => ENot
    case Bin(op, _, _) => OpType(op)
  }

  function OpType(op: Op): ExprType {
    if op == OrOp then EOr else EAnd
  }

  function OpToken(op: Op): Token {
    if op == OrOp then TOr else TAnd
  }

  // expr_compare_type; every case falls through to the ones after it.
  function CompareType(t1: ExprType, t2: ExprType): int {
    if t1 == t2 then 0
    else if t1 in {EEqual, EUnequal} && t2 == ENot then 1
    else if t1 in {EEqual, EUnequal, ENot} && t2 == EAnd then 1
    else if t1 in {EEqual, EUnequal, ENot, EAnd} && t2 == EOr then 1
    else if t1 in {EEqual, EUnequal, ENot, EAnd, EOr} && t2 == EChoice then 1
    else if t1 in {EEqual, EUnequal, ENot, EAnd, EOr, EChoice} && t2 == ENone then 1
    else -1
  }

  function NameOf(s: Sym): string {
    if s.Choice? then "<choice>" else s.name
  }

  // expr_print
  function Print(e: Expr, prev: ExprType): seq<Token>
    decreases e, 1
  {
    if CompareType(prev, TypeOf(e)) > 0 then [TOpen] + PrintInner(e) + [TClose] else PrintInner(e)
  }

  function PrintInner(e: Expr): seq<Token>
    decreases e, 0
  {
    match e
    case Symbol(s) => [Word(NameOf(s))]
    case Equal(a, b) => [Word(NameOf(a)), TEqual, Word(NameOf(b))]
    case Unequal(a, b) => [Word(NameOf(a)), TUnequal, Word(NameOf(b))]
    case Not(a) => [TNot] + Print(a, ENot)
    case Bin(op, l, r) => Print(l, OpType(op)) + [OpToken(op)] + Print(r, OpType(op))
  }

  // expr_fprint prints on the outermost level.
  function PrintTop(e: Expr): seq<Token> {
    Print(e, ENone)
  }

  // The grammar: || binds weaker than && and both group to the left, ! binds
  // strongest, and = and != stand between two words.

  datatype Parsed = Failed | Parsed(e: Expr, rest: seq<Token>)

  // sym_lookup for a word outside quotes
  type Lookup = string -> Sym

  function ParseUnary(ts: seq<Token>, lookup: Lookup): (p: Parsed)
    ensures p.Parsed? ==> |p.rest| < |ts|
    decreases |ts|, 0
  {
    if ts == [] then Failed
    else match ts[0]
      case Word(a) =>
        if |ts| > 1 && (ts[1] == TEqual || ts[1] == TUnequal) then
          if |ts| > 2 && ts[2].Word? then
            var x, y := lookup(a), lookup(ts[2].name);
            Parsed(if ts[1] == TEqual then Equal(x, y) else Unequal(x, y), ts[3..])
          else Failed
        else Parsed(Symbol(lookup(a)), ts[1..])
      case TNot =>
        var p := ParseUnary(ts[1..], lookup);
        if p.Parsed? then Parsed(Not(p.e), p.rest) else Failed
      case TOpen =>
        var p := ParseLevel(OrOp, ts[1..], lookup);
        if p.Parsed? && p.rest != [] && p.rest[0] == TClose then Parsed(p.e, p.rest[1..]) else Failed
      case _ => Failed
  }

  // One operand of op.
  function ParseOperand(op: Op, ts: seq<Token>, lookup: Lookup): (p: Parsed)
    ensures p.Parsed? ==> |p.rest| < |ts|
    decreases |ts|, if op == OrOp then 3 else 1
  {
    if op == OrOp then ParseLevel(AndOp, ts, lookup) else ParseUnary(ts, lookup)
  }

  function ParseLevel(op: Op, ts: seq<Token>, lookup: Lookup): (p: Parsed)
    ensures p.Parsed? ==> |p.rest| < |ts|
    decreases |ts|, if op == OrOp then 4 else 2
  {
    var p := ParseOperand(op, ts, lookup);
    if p.Parsed? then ParseRest(op, p.e, p.rest, lookup) else Failed
  }

  // Further operands, grouped to the left.
  function ParseRest(op: Op, left: Expr, ts: seq<Token>, lookup: Lookup): (p: Parsed)
    ensures p.Parsed? ==> |p.rest| <= |ts|
    decreases |ts|, 5
  {
    if ts != [] && ts[0] == OpToken(op) then
      var p := ParseOperand(op, ts[1..], lookup);
      if p.Parsed? then ParseRest(op, Bin(op, left, p.e), p.rest, lookup) else Failed
    else Parsed(left, ts)
  }

  function Parse(ts: seq<Token>, lookup: Lookup): ExprOpt {
    var p := ParseLevel(OrOp, ts, lookup);
    if p.Parsed? && p.rest == [] then Some(p.e) else None
  }

  // Regrouping ------------------------------------------------------------------

  // left op e with the operands of e grouped to the left
  function Graft(op: Op, left: Expr, e: Expr): Expr
    decreases e, 1
  {
    if IsBin(op, e) then Graft(op, Graft(op, left, e.l), e.r) else Bin(op, left, LeftGrouped(e))
  }

  function LeftGrouped(e: Expr): Expr
    decreases e, 0
  {
    match e
    case Not(a) => Not(LeftGrouped(a))
    case Bin(op, l, r) => Graft(op, LeftGrouped(l), r)
    case _ => e
  }

  function Rename(e: Expr, f: Sym -> Sym): Expr {
    match e
    case Symbol(s) => Symbol(f(s))
    case Equal(a, b) => Equal(f(a), f(b))
    case Unequal(a, b) => Unequal(f(a), f(b))
    case Not(a) => Not(Rename(a, f))
    case Bin(op, l, r) => Bin(op, Rename(l, f), Rename(r, f))
  }

  // The symbol that a printed symbol is read back as.
  function ReadBack(lookup: Lookup): Sym -> Sym {
    s => lookup(NameOf(s))
  }

  function Reread(e: Expr, lookup: Lookup): Expr {
    LeftGrouped(Rename(e, ReadBack(lookup)))
  }

  // What may come after an operand of op.
  predicate Ends(op: Op, rest: seq<Token>) {
    rest != [] ==> rest[0] != TEqual && rest[0] != TUnequal && (op == OrOp ==> rest[0] != TAnd)
  }

  // The calls of the following lemmas on one expression go down in these ranks.
  function UnaryRank(e: Expr): nat {
    if !e.Bin? then 1 else if e.op == OrOp then 4 else 6
  }

  function OperandRank(op: Op, e: Expr): nat {
    if op == OrOp && e.Bin? then 3 else UnaryRank(e) + 1
  }

  function LevelRank(op: Op, e: Expr): nat {
    if IsBin(op, e) then 2 else OperandRank(op, e) + 1
  }

  lemma {:induction false} ParseUnaryPrint(e: Expr, rest: seq<Token>, lookup: Lookup)
    requires Ends(AndOp, rest)
    ensures ParseUnary(Print(e, ENot) + rest, lookup) == Parsed(Reread(e, lookup), rest)
    decreases e, UnaryRank(e)
  {
    match e
    case Not(a) =>
      ParseUnaryPrint(a, rest, lookup);
      ParseNot(a, rest, lookup);
    case Bin(op, _, _) =>
      ParseTopPrint(e, [TClose] + rest, lookup);
      ParseParentheses(e, rest, lookup);
    case _ => ParseWords(e, rest, lookup);
  }

  lemma ParseWords(e: Expr, rest: seq<Token>, lookup: Lookup)
    requires Ends(AndOp, rest) && (e.Symbol? || e.Equal? || e.Unequal?)
    ensures ParseUnary(Print(e, ENot) + rest, lookup) == Parsed(Reread(e, lookup), rest)
  {
    var ts := Print(e, ENot) + rest;
    assert Print(e, ENot) == PrintInner(e);
    if e.Symbol? {
      assert ts[1..] == rest;
    } else {
      assert ts[3..] == rest;
    }
  }

  lemma ParseNot(a: Expr, rest: seq<Token>, lookup: Lookup)
    requires ParseUnary(Print(a, ENot) + rest, lookup) == Parsed(Reread(a, lookup), rest)
    ensures ParseUnary(Print(Not(a), ENot) + rest, lookup) == Parsed(Reread(Not(a), lookup), rest)
  {
    PrintNot(a, rest);
    ParseNotToken(Print(a, ENot) + rest, Reread(a, lookup), rest, lookup);
  }

  lemma PrintNot(a: Expr, rest: seq<Token>)
    ensures Print(Not(a), ENot) + rest == [TNot] + (Print(a, ENot) + rest)
  {
    assert Print(Not(a), ENot) == [TNot] + Print(a, ENot);
  }

  lemma ParseNotToken(inner: seq<Token>, e: Expr, rest: seq<Token>, lookup: Lookup)
    requires ParseUnary(inner, lookup) == Parsed(e, rest)
    ensures ParseUnary([TNot] + inner, lookup) == Parsed(Not(e), rest)
  {
    assert ([TNot] + inner)[1..] == inner;
  }

  lemma ParseParentheses(e: Expr, rest: seq<Token>, lookup: Lookup)
    requires e.Bin?
    requires ParseLevel(OrOp, PrintInner(e) + ([TClose] + rest), lookup) == Parsed(Reread(e, lookup), [TClose] + rest)
    ensures ParseUnary(Print(e, ENot) + rest, lookup) == Parsed(Reread(e, lookup), rest)
  {
    var ts, inner := Print(e, ENot) + rest, [TClose] + rest;
    assert ts[1..] == PrintInner(e) + inner;
    assert inner[1..] == rest;
  }

  lemma PrintTree(e: Expr)
    requires e.Bin?
    ensures Print(e, OpType(e.op)) == Print(e.l, OpType(e.op)) + [OpToken(e.op)] + Print(e.r, OpType(e.op))
  {
  }

  lemma ParseAndBelowOr(e: Expr, rest: seq<Token>, lookup: Lookup)
    requires IsBin(AndOp, e) && Ends(OrOp, rest)
    requires ParseLevel(AndOp, Print(e, EAnd) + rest, lookup) == ParseRest(AndOp, Reread(e, lookup), rest, lookup)
    ensures ParseOperand(OrOp, Print(e, EOr) + rest, lookup) == Parsed(Reread(e, lookup), rest)
  {
    assert Print(e, EOr) == Print(e, EAnd);
    assert OpToken(AndOp) == TAnd;
    assert ParseRest(AndOp, Reread(e, lookup), rest, lookup) == Parsed(Reread(e, lookup), rest);
  }

  // An operand of op as it is printed below op.
  lemma {:induction false} ParseOperandPrint(op: Op, e: Expr, rest: seq<Token>, lookup: Lookup)
    requires !IsBin(op, e) && Ends(op, rest)
    ensures ParseOperand(op, Print(e, OpType(op)) + rest, lookup) == Parsed(Reread(e, lookup), rest)
    decreases e, OperandRank(op, e)
  {
    if op == AndOp {
      assert Print(e, EAnd) == Print(e, ENot);
      ParseUnaryPrint(e, rest, lookup);
    } else if e.Bin? {
      ParseLevelPrint(AndOp, e, rest, lookup);
      ParseAndBelowOr(e, rest, lookup);
    } else {
      assert Print(e, EOr) == Print(e, ENot);
      ParseUnaryPrint(e, rest, lookup);
      assert ParseOperand(AndOp, Print(e, EOr) + rest, lookup) == Parsed(Reread(e, lookup), rest);
      assert ParseRest(AndOp, Reread(e, lookup), rest, lookup) == Parsed(Reread(e, lookup), rest);
    }
  }

  // The tokens of op e, read after an operand left.
  lemma {:induction false} ParseRestPrint(op: Op, left: Expr, e: Expr, rest: seq<Token>, lookup: Lookup)
    requires Ends(op, rest)
    ensures ParseRest(op, left, [OpToken(op)] + Print(e, OpType(op)) + rest, lookup)
         == ParseRest(op, Graft(op, left, Rename(e, ReadBack(lookup))), rest, lookup)
    decreases e, 8
  {
    var ts := [OpToken(op)] + Print(e, OpType(op)) + rest;
    if IsBin(op, e) {
      var tail := [OpToken(op)] + Print(e.r, OpType(op)) + rest;
      PrintTree(e);
      assert ts == [OpToken(op)] + Print(e.l, OpType(op)) + tail;
      ParseRestPrint(op, left, e.l, tail, lookup);
      ParseRestPrint(op, Graft(op, left, Rename(e.l, ReadBack(lookup))), e.r, rest, lookup);
    } else {
      assert ts[1..] == Print(e, OpType(op)) + rest;
      ParseOperandPrint(op, e, rest, lookup);
    }
  }

  // An op tree printed without parentheses.
  lemma {:induction false} ParseLevelPrint(op: Op, e: Expr, rest: seq<Token>, lookup: Lookup)
    requires Ends(op, rest)
    ensures ParseLevel(op, Print(e, OpType(op)) + rest, lookup) == ParseRest(op, Reread(e, lookup), rest, lookup)
    decreases e, LevelRank(op, e)
  {
    var ts := Print(e, OpType(op)) + rest;
    if IsBin(op, e) {
      var tail := [OpToken(op)] + Print(e.r, OpType(op)) + rest;
      PrintTree(e);
      assert ts == Print(e.l, OpType(op)) + tail;
      ParseLevelPrint(op, e.l, tail, lookup);
      ParseRestPrint(op, Reread(e.l, lookup), e.r, rest, lookup);
    } else {
      ParseOperandPrint(op, e, rest, lookup);
    }
  }

  lemma {:induction false} ParseTopPrint(e: Expr, rest: seq<Token>, lookup: Lookup)
    requires rest == [] || rest[0] == TClose
    ensures ParseLevel(OrOp, PrintInner(e) + rest, lookup) == Parsed(Reread(e, lookup), rest)
    decreases e, LevelRank(OrOp, e) + 1
  {
    assert PrintInner(e) == Print(e, EOr);
    ParseLevelPrint(OrOp, e, rest, lookup);
  }

  // Reading a printed expression gives the same expression, grouped to the left
  // and with every symbol looked up by its name.
  lemma ParsePrint(e: Expr, lookup: Lookup)
    ensures Parse(PrintTop(e), lookup) == Some(Reread(e, lookup))
  {
    assert PrintTop(e) + [] == PrintTop(e) == PrintInner(e);
    ParseTopPrint(e, [], lookup);
  }

  // Regrouping changes neither the value nor the tokens ---------------------------

  lemma {:induction false} GraftValue(op: Op, left: Expr, e: Expr, v: Valuation)
    ensures Eval(Graft(op, left, e), v) == Op3(op, Eval(left, v), Eval(e, v))
    decreases e, 1
  {
    if IsBin(op, e) {
      GraftValue(op, left, e.l, v);
      GraftValue(op, Graft(op, left, e.l), e.r, v);
      Op3Laws(op, Eval(left, v), Eval(e.l, v), Eval(e.r, v));
    } else {
      LeftGroupedValue(e, v);
    }
  }

  lemma {:induction false} LeftGroupedValue(e: Expr, v: Valuation)
    ensures Eval(LeftGrouped(e), v) == Eval(e, v)
    decreases e, 0
  {
    match e
    case Not(a) => LeftGroupedValue(a, v);
    case Bin(op, l, r) =>
      LeftGroupedValue(l, v);
      GraftValue(op, LeftGrouped(l), r, v);
    case _ =>
  }

  // Only associativity is used.
  predicate AssociativeOnly(d: Derivation) {
    match d
    case Reflexive => true
    case Symmetric(d1) => AssociativeOnly(d1)
    case Transitive(_, d1, d2) => AssociativeOnly(d1) && AssociativeOnly(d2)
    case Commutative => false
    case Associative => true
    case InNot(d1) => AssociativeOnly(d1)
    case InBin(d1, d2) => AssociativeOnly(d1) && AssociativeOnly(d2)
  }

  lemma {:induction false} GraftDerives(op: Op, left: Expr, e: Expr) returns (d: Derivation)
    ensures AssociativeOnly(d) && Derives(d, Bin(op, left, e), Graft(op, left, e))
    decreases e, 1
  {
    if IsBin(op, e) {
      var d1 := GraftDerives(op, left, e.l);
      var d2 := GraftDerives(op, Graft(op, left, e.l), e.r);
      var m1 := Bin(op, Bin(op, left, e.l), e.r);
      var m2 := Bin(op, Graft(op, left, e.l), e.r);
      assert AssociativeOnly(Symmetric(Associative)) && Derives(Symmetric(Associative), Bin(op, left, e), m1);
      assert AssociativeOnly(InBin(d1, Reflexive)) && Derives(InBin(d1, Reflexive), m1, m2);
      assert AssociativeOnly(Transitive(m2, InBin(d1, Reflexive), d2));
      d := Transitive(m1, Symmetric(Associative), Transitive(m2, InBin(d1, Reflexive), d2));
    } else {
      var d1 := LeftGroupedDerives(e);
      d := InBin(Reflexive, d1);
    }
  }

  // The expression read back is the printed one with AND and OR regrouped.
  lemma {:induction false} LeftGroupedDerives(e: Expr) returns (d: Derivation)
    ensures AssociativeOnly(d) && Derives(d, e, LeftGrouped(e))
    decreases e, 0
  {
    match e
    case Not(a) =>
      var d1 := LeftGroupedDerives(a);
      d := InNot(d1);
    case Bin(op, l, r) =>
      var d1 := LeftGroupedDerives(l);
      var d2 := GraftDerives(op, LeftGrouped(l), r);
      var m := Bin(op, LeftGrouped(l), r);
      assert Derives(InBin(d1, Reflexive), e, m);
      d := Transitive(m, InBin(d1, Reflexive), d2);
    case _ => d := Reflexive;
  }

  lemma Regroup(a: seq<Token>, t: Token, b: seq<Token>, c: seq<Token>)
    ensures (a + [t] + b) + [t] + c == a + [t] + (b + [t] + c)
  {
  }

  lemma {:induction false} GraftPrint(op: Op, left: Expr, e: Expr)
    ensures IsBin(op, Graft(op, left, e))
    ensures PrintInner(Graft(op, left, e)) == Print(left, OpType(op)) + [OpToken(op)] + Print(e, OpType(op))
    decreases e, 1
  {
    if IsBin(op, e) {
      GraftPrint(op, left, e.l);
      var mid := Graft(op, left, e.l);
      GraftPrint(op, mid, e.r);
      PrintTree(e);
      assert Print(mid, OpType(op)) == PrintInner(mid);
      Regroup(Print(left, OpType(op)), OpToken(op), Print(e.l, OpType(op)), Print(e.r, OpType(op)));
    } else {
      LeftGroupedPrint(e);
    }
  }

  lemma {:induction false} LeftGroupedPrint(e: Expr)
    ensures TypeOf(LeftGrouped(e)) == TypeOf(e) && PrintInner(LeftGrouped(e)) == PrintInner(e)
    decreases e, 0
  {
    match e
    case Not(a) => LeftGroupedPrint(a);
    case Bin(op, l, r) =>
      LeftGroupedPrint(l);
      GraftPrint(op, LeftGrouped(l), r);
    case _ =>
  }

  // Printing what was read back prints the same tokens.
  lemma PrintTopLeftGrouped(e: Expr)
    ensures PrintTop(LeftGrouped(e)) == PrintTop(e)
  {
    LeftGroupedPrint(e);
  }

  // Which symbols survive -----------------------------------------------------------

  // Every symbol of e is found again under its name.
  predicate Refound(e: Expr, lookup: Lookup) {
    match e
    case Symbol(s) => lookup(NameOf(s)) == s
    case Equal(a, b) => lookup(NameOf(a)) == a && lookup(NameOf(b)) == b
    case Unequal(a, b) => lookup(NameOf(a)) == a && lookup(NameOf(b)) == b
    case Not(a) => Refound(a, lookup)
    case Bin(_, l, r) => Refound(l, lookup) && Refound(r, lookup)
  }

  lemma {:induction false} RefoundRename(e: Expr, lookup: Lookup)
    ensures Refound(e, lookup) <==> Rename(e, ReadBack(lookup)) == e
  {
    match e
    case Not(a) => RefoundRename(a, lookup);
    case Bin(_, l, r) =>
      RefoundRename(l, lookup);
      RefoundRename(r, lookup);
    case _ =>
  }

  lemma {:induction false} GraftRefound(op: Op, left: Expr, e: Expr, lookup: Lookup)
    ensures Refound(Graft(op, left, e), lookup) <==> Refound(left, lookup) && Refound(e, lookup)
    ensures Rename(Graft(op, left, e), ReadBack(lookup))
         == Graft(op, Rename(left, ReadBack(lookup)), Rename(e, ReadBack(lookup)))
    decreases e, 1
  {
    if IsBin(op, e) {
      GraftRefound(op, left, e.l, lookup);
      GraftRefound(op, Graft(op, left, e.l), e.r, lookup);
    } else {
      LeftGroupedRefound(e, lookup);
    }
  }

  lemma {:induction false} LeftGroupedRefound(e: Expr, lookup: Lookup)
    ensures Refound(LeftGrouped(e), lookup) <==> Refound(e, lookup)
    ensures Rename(LeftGrouped(e), ReadBack(lookup)) == Reread(e, lookup)
    decreases e, 0
  {
    match e
    case Not(a) => LeftGroupedRefound(a, lookup);
    case Bin(op, l, r) =>
      LeftGroupedRefound(l, lookup);
      GraftRefound(op, LeftGrouped(l), r, lookup);
    case _ =>
  }

  // A printed expression is read back as itself, regrouped, exactly when no symbol
  // loses its identity by being printed as a bare word.
  lemma RoundTripIff(e: Expr, lookup: Lookup)
    ensures Parse(PrintTop(e), lookup) == Some(LeftGrouped(e)) <==> Refound(e, lookup)
  {
    ParsePrint(e, lookup);
    LeftGroupedRefound(e, lookup);
    RefoundRename(LeftGrouped(e), lookup);
  }

  // Then nothing about its value changes.
  lemma RoundTripValue(e: Expr, lookup: Lookup, v: Valuation)
    requires Refound(e, lookup)
    ensures Parse(PrintTop(e), lookup).Some? && Eval(Parse(PrintTop(e), lookup).value, v) == Eval(e, v)
    ensures PrintTop(Parse(PrintTop(e), lookup).value) == PrintTop(e)
  {
    RoundTripIff(e, lookup);
    LeftGroupedValue(e, v);
    PrintTopLeftGrouped(e);
  }

  // Two expressions print alike exactly when they differ only in grouping.
  lemma PrintsAlikeIff(a: Expr, b: Expr, lookup: Lookup)
    requires Refound(a, lookup) && Refound(b, lookup)
    ensures PrintTop(a) == PrintTop(b) <==> LeftGrouped(a) == LeftGrouped(b)
  {
    RoundTripIff(a, lookup);
    RoundTripIff(b, lookup);
    PrintTopLeftGrouped(a);
    PrintTopLeftGrouped(b);
  }

  // sym_lookup finds y, m, n and the configuration symbols by name.
  ghost predicate TableLookup(lookup: Lookup) {
    && lookup("y") == YES && lookup("m") == MOD && lookup("n") == NO
    && forall name :: name != "y" && name != "m" && name != "n" ==> lookup(name).Config? && lookup(name).name == name
  }

  // A quoted constant other than y, m, n is printed without its quotes.
  lemma QuotedConstantLost(name: string, lookup: Lookup)
    requires TableLookup(lookup)
    ensures Refound(Symbol(Const(name)), lookup) <==> name == "y" || name == "m" || name == "n"
  {
  }

  // What the tokens mean ------------------------------------------------------------

  // = and != compare the strings of two words, ! negates.
  lemma WordsMean(a: string, b: string, lookup: Lookup, v: Valuation)
    ensures var e := Parse([Word(a), TEqual, Word(b)], lookup);
      e.Some? && Eval(e.value, v) == Bool3(v.str(lookup(a)) == v.str(lookup(b)))
    ensures var e := Parse([Word(a), TUnequal, Word(b)], lookup);
      e.Some? && Eval(e.value, v) == Bool3(v.str(lookup(a)) != v.str(lookup(b)))
    ensures var e := Parse([TNot, Word(a)], lookup);
      e.Some? && Eval(e.value, v) == Not3(v.tri(lookup(a)))
  {
    ParsedAlone([Word(a), TEqual, Word(b)], Equal(lookup(a), lookup(b)), lookup);
    ParsedAlone([Word(a), TUnequal, Word(b)], Unequal(lookup(a), lookup(b)), lookup);
    ParsedAlone([TNot, Word(a)], Not(Symbol(lookup(a))), lookup);
  }

  lemma ParsedAlone(ts: seq<Token>, e: Expr, lookup: Lookup)
    requires ParseUnary(ts, lookup) == Parsed(e, [])
    ensures Parse(ts, lookup) == Some(e)
  {
    assert ParseLevel(AndOp, ts, lookup) == ParseRest(AndOp, e, [], lookup) == Parsed(e, []);
    assert ParseLevel(OrOp, ts, lookup) == ParseRest(OrOp, e, [], lookup) == Parsed(e, []);
  }

  // && binds stronger than ||, on either side of it.
  lemma OperatorsMean(a: Sym, b: Sym, c: Sym, lookup: Lookup)
    requires lookup(NameOf(a)) == a && lookup(NameOf(b)) == b && lookup(NameOf(c)) == c
    ensures Parse([Word(NameOf(a)), TOr, Word(NameOf(b)), TAnd, Word(NameOf(c))], lookup)
         == Some(Bin(OrOp, Symbol(a), Bin(AndOp, Symbol(b), Symbol(c))))
    ensures Parse([Word(NameOf(a)), TAnd, Word(NameOf(b)), TOr, Word(NameOf(c))], lookup)
         == Some(Bin(OrOp, Bin(AndOp, Symbol(a), Symbol(b)), Symbol(c)))
  {
    PairKept(b, c, lookup);
    PairKept(a, b, lookup);
    OrKept(Symbol(a), Bin(AndOp, Symbol(b), Symbol(c)), lookup);
    OrKept(Bin(AndOp, Symbol(a), Symbol(b)), Symbol(c), lookup);
    var ts := [Word(NameOf(a)), TOr, Word(NameOf(b)), TAnd, Word(NameOf(c))];
    assert [Word(NameOf(a))] + [TOr] + [Word(NameOf(b)), TAnd, Word(NameOf(c))] == ts;
    var us := [Word(NameOf(a)), TAnd, Word(NameOf(b)), TOr, Word(NameOf(c))];
    assert [Word(NameOf(a)), TAnd, Word(NameOf(b))] + [TOr] + [Word(NameOf(c))] == us;
  }

  lemma PairKept(a: Sym, b: Sym, lookup: Lookup)
    requires lookup(NameOf(a)) == a && lookup(NameOf(b)) == b
    ensures var e := Bin(AndOp, Symbol(a), Symbol(b));
      && Print(e, EOr) == [Word(NameOf(a)), TAnd, Word(NameOf(b))]
      && Rename(e, ReadBack(lookup)) == e && LeftGrouped(e) == e
  {
    assert Print(Symbol(a), EAnd) == [Word(NameOf(a))];
    assert Print(Symbol(b), EAnd) == [Word(NameOf(b))];
    assert Graft(AndOp, Symbol(a), Symbol(b)) == Bin(AndOp, Symbol(a), Symbol(b));
  }

  lemma OrKept(l: Expr, r: Expr, lookup: Lookup)
    requires Rename(l, ReadBack(lookup)) == l && LeftGrouped(l) == l
    requires Rename(r, ReadBack(lookup)) == r && LeftGrouped(r) == r && !IsBin(OrOp, r)
    ensures Parse(Print(l, EOr) + [TOr] + Print(r, EOr), lookup) == Some(Bin(OrOp, l, r))
  {
    var e := Bin(OrOp, l, r);
    assert Graft(OrOp, l, r) == e;
    assert PrintTop(e) == PrintInner(e) && OpType(OrOp) == EOr && OpToken(OrOp) == TOr;
    ParsePrint(e, lookup);
  }
}
