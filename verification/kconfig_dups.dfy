// expr_eliminate_dups: duplicate and contradicting operands are removed in place
// until a whole round changes nothing.

module Duplicates {
  import opened Options
  import opened Tristates
  import opened Exprs
  import opened ExprEquality
  import opened Slots
  import Canonical
  import Extraction
  import Joining
  import Transformation

  // What a rewriting of the op tree t into u keeps; changed says whether the
  // rewrite counter went up.
  ghost predicate Step(op: Op, t: Expr, u: Expr, exact: bool, changed: bool) {
    && SameSpine(op, t, u)
    && RefinedBy(t, u)
    && (exact ==> Equivalent(t, u))
    && Size(u) <= Size(t)
    && (Nnf(t) ==> Nnf(u)) && (ComparisonForm(t) ==> ComparisonForm(u))
    && (if changed then !FreeOfYN(u) else u == t)
  }

  lemma StepNone(op: Op, t: Expr)
    ensures Step(op, t, t, true, false)
  {
    SameSpineSelf(op, t);
  }

  lemma StepChain(op: Op, t: Expr, u: Expr, w: Expr, exact: bool, c1: bool, c2: bool)
    requires Step(op, t, u, exact, c1) && Step(op, u, w, exact, c2)
    ensures Step(op, t, w, exact, c1 || c2)
  {
    SameSpineChain(op, t, u, w);
    forall v: Valuation | Coherent(v)
      ensures Refines(Eval(t, v), Eval(w, v))
      ensures exact ==> Eval(t, v) == Eval(w, v)
    {
      assert Refines(Eval(t, v), Eval(u, v)) && Refines(Eval(u, v), Eval(w, v));
    }
  }

  // A step inside one operand is a step of the whole tree.
  lemma StepInside(op: Op, t: Expr, p: Path, x: Expr, exact: bool, changed: bool)
    requires IsOperand(op, t, p) && IsBin(Dual(op), At(t, p))
    requires Step(Dual(op), At(t, p), x, exact, changed)
    ensures Step(op, t, Put(t, p, x), exact, changed)
  {
    PutSpine(op, t, p, x);
    PutIsSlot(t, p, x);
    PutSame(t, p);
    forall v: Valuation | Coherent(v)
      ensures Refines(Eval(t, v), Eval(Put(t, p, x), v))
      ensures exact ==> Eval(t, v) == Eval(Put(t, p, x), v)
    {
      PutRefines(t, p, x, v);
      if exact {
        PutEqual(t, p, x, v);
      }
    }
    if Nnf(t) {
      PutNnf(t, p, x);
    }
    if ComparisonForm(t) {
      PutForm(t, p, x);
    }
    if changed {
      PutNotFree(t, p, x);
    }
  }

  // Two operands become the unit and the expression that joins them.
  lemma StepJoin(op: Op, t: Expr, p: Path, q: Path)
    requires IsOperand(op, t, p) && IsOperand(op, t, q) && p != q
    requires Joining.Join(op, At(t, p), At(t, q)).Some?
    ensures IsSlot(Put(t, p, Symbol(Unit(op))), q)
    ensures var x := Joining.Join(op, At(t, p), At(t, q)).value;
      Step(op, t, Put(Put(t, p, Symbol(Unit(op))), q, x), true, true)
  {
    var e1, e2 := At(t, p), At(t, q);
    var x := Joining.Join(op, e1, e2).value;
    var unit := Symbol(Unit(op));
    OperandsApart(op, t, p, q);
    PutApart(t, p, q, unit);
    var mid := Put(t, p, unit);
    var u := Put(mid, q, x);
    Joining.JoinShape(op, e1, e2);
    PutSpine(op, t, p, unit);
    SameSpineAt(op, t, mid, q);
    PutSpine(op, mid, q, x);
    SameSpineChain(op, t, mid, u);
    PutIsSlot(t, p, unit);
    PutIsSlot(mid, q, x);
    forall v: Valuation | Coherent(v)
      ensures Eval(t, v) == Eval(u, v)
    {
      JoinValue(op, t, p, q, v);
    }
    if Nnf(t) {
      PutNnf(t, p, unit);
      PutNnf(mid, q, x);
    }
    if ComparisonForm(t) {
      PutForm(t, p, unit);
      PutForm(t, q, x);
      PutForm(mid, q, x);
    }
    assert !FreeOfYN(u) by {
      assert Apart(q, p) by {
        var i :| 0 <= i < |p| && i < |q| && p[i] != q[i];
        assert q[i] != p[i];
      }
      PutApart(mid, q, p, x);
      PutSame(u, p);
      PutNotFree(u, p, unit);
    }
  }

  lemma JoinValue(op: Op, t: Expr, p: Path, q: Path, v: Valuation)
    requires Coherent(v)
    requires IsOperand(op, t, p) && IsOperand(op, t, q) && p != q
    requires Joining.Join(op, At(t, p), At(t, q)).Some?
    ensures IsSlot(Put(t, p, Symbol(Unit(op))), q)
    ensures var x := Joining.Join(op, At(t, p), At(t, q)).value;
      Eval(t, v) == Eval(Put(Put(t, p, Symbol(Unit(op))), q, x), v)
  {
    var e1, e2 := At(t, p), At(t, q);
    var x := Joining.Join(op, e1, e2).value;
    var unit := Symbol(Unit(op));
    OperandsApart(op, t, p, q);
    PutApart(t, p, q, unit);
    var mid := Put(t, p, unit);
    PutSpine(op, t, p, unit);
    SameSpineAt(op, t, mid, q);
    Joining.JoinExact(op, e1, e2, v);
    PutSame(t, p);
    PutSame(mid, q);
    SpineValue(op, t, p, e1, v);
    SpineValue(op, mid, q, e2, v);
    SpineValue(op, mid, q, x, v);
    Op3Laws(op, Eval(e1, v), Eval(e2, v), Eval(Put(mid, q, unit), v));
  }

  // expr_eliminate_dups2: with e1 = (a || b) and e2 holding !a and !b, the AND of
  // both can only be n or m.
  predicate Contradicts(op: Op, e1: Expr, e2: Expr) {
    Extraction.Extract(op, Transformation.Transform(Not(e1)), e2).fst == Symbol(Unit(op))
  }

  lemma ContradictionValue(op: Op, e1: Expr, e2: Expr, v: Valuation)
    requires Coherent(v)
    requires Contradicts(op, e1, e2)
    ensures Op3(op, Eval(e1, v), Eval(e2, v)) in {Mod, v.tri(Zero(op))}
  {
    var negated := Transformation.Transform(Not(e1));
    Transformation.TransformValue(Not(e1), v);
    Extraction.ExtractExact(op, negated, e2, v);
    var x := Extraction.Extract(op, negated, e2);
    var c := Extraction.CommonValue(op, x.common, v);
    Op3Unit(op, c, v);
    assert Eval(negated, v) == c == Not3(Eval(e1, v));
    assert Eval(e2, v) == Op3(op, c, Eval(x.snd, v));
    assert v.tri(YES) == Yes && v.tri(NO) == No;
  }

  lemma StepContradiction(op: Op, t: Expr, p: Path, q: Path)
    requires IsOperand(op, t, p) && p != [] && OnSpine(op, t, q)
    requires Contradicts(op, At(t, p), At(t, q))
    ensures Step(op, t, Put(t, p, Symbol(Zero(op))), false, true)
  {
    var zero := Symbol(Zero(op));
    PutSpine(op, t, p, zero);
    PutIsSlot(t, p, zero);
    forall v: Valuation | Coherent(v)
      ensures Refines(Eval(t, v), Eval(Put(t, p, zero), v))
    {
      var e1, e2 := Eval(At(t, p), v), Eval(At(t, q), v);
      ContradictionValue(op, At(t, p), At(t, q), v);
      SpineAbsorbs(op, t, p, v);
      SpineAbsorbs(op, t, q, v);
      Op3Laws(op, Eval(t, v), e1, e2);
      SpineValue(op, t, p, zero, v);
      Op3Unit(op, Eval(Put(t, p, Symbol(Unit(op))), v), v);
      assert Op3(op, Eval(t, v), Op3(op, e1, e2)) == Eval(t, v);
      assert v.tri(YES) == Yes && v.tri(NO) == No;
    }
    if Nnf(t) {
      PutNnf(t, p, zero);
    }
    if ComparisonForm(t) {
      PutForm(t, p, zero);
    }
    PutNotFree(t, p, zero);
  }

  // No two operands of e, nor of any AND or OR inside it that is not below a NOT, can be
  // joined.
  ghost predicate Unjoinable(e: Expr) {
    forall s: Path :: IsSlot(e, s) && At(e, s).Bin? ==> NoJoin(At(e, s).op, At(e, s))
  }

  ghost predicate NoJoin(op: Op, t: Expr) {
    forall a: Path, b: Path ::
      IsOperand(op, t, a) && IsOperand(op, t, b) && a != b ==> Joining.Join(op, At(t, a), At(t, b)).None?
  }

  // The same without naming the function that joins them: in no AND or OR that is not below a
  // NOT are two operands equal or do they fit a rule.
  ghost predicate Irreducible(e: Expr) {
    forall s: Path :: IsSlot(e, s) && At(e, s).Bin? ==> NothingFits(At(e, s).op, At(e, s))
  }

  ghost predicate NothingFits(op: Op, t: Expr) {
    forall a: Path, b: Path ::
      IsOperand(op, t, a) && IsOperand(op, t, b) && a != b ==> !Joining.Fits(op, At(t, a), At(t, b))
  }

  lemma NoJoinIff(op: Op, t: Expr)
    ensures NoJoin(op, t) <==> NothingFits(op, t)
  {
    forall a: Path, b: Path | IsOperand(op, t, a) && IsOperand(op, t, b)
      ensures Joining.Fits(op, At(t, a), At(t, b)) <==> Joining.Join(op, At(t, a), At(t, b)).Some?
    {
      Joining.FitsIff(op, At(t, a), At(t, b));
    }
  }

  lemma UnjoinableIff(e: Expr)
    ensures Unjoinable(e) <==> Irreducible(e)
  {
    forall s: Path | IsSlot(e, s) && At(e, s).Bin?
      ensures NoJoin(At(e, s).op, At(e, s)) <==> NothingFits(At(e, s).op, At(e, s))
    {
      NoJoinIff(At(e, s).op, At(e, s));
    }
  }

  // No operand of e, nor of any AND or OR inside it that is not below a NOT, is
  // contradicted by another part of the same AND or OR.
  ghost predicate Uncontradicted(e: Expr) {
    forall s: Path :: IsSlot(e, s) && At(e, s).Bin? ==> NoContradiction(At(e, s).op, At(e, s))
  }

  ghost predicate NoContradiction(op: Op, t: Expr) {
    forall a: Path, b: Path ::
      IsOperand(op, t, a) && OnSpine(op, t, b) && a != b && IsBin(Dual(op), At(t, a)) ==>
        !Contradicts(op, At(t, a), At(t, b))
  }

  // What a pass over p and q without a rewrite has found out: no operand below p can be
  // joined with another one below q, nor is there anything to join inside it.
  ghost predicate Joined(op: Op, t: Expr, p: Path, q: Path) {
    forall a: Path, b: Path ::
      IsOperand(op, t, a) && IsOperand(op, t, b) && p <= a && q <= b && a != b ==>
        Joining.Join(op, At(t, a), At(t, b)).None? && Unjoinable(At(t, a))
  }

  // The same for the pass for contradictions.
  ghost predicate Cleared(op: Op, t: Expr, p: Path, q: Path) {
    forall a: Path, b: Path ::
      IsOperand(op, t, a) && OnSpine(op, t, b) && p <= a && q <= b && a != b && IsBin(Dual(op), At(t, a)) ==>
        !Contradicts(op, At(t, a), At(t, b)) && Uncontradicted(At(t, a))
  }

  lemma BelowSpine(op: Op, t: Expr, p: Path, a: Path)
    requires OnSpine(op, t, p) && OnSpine(op, t, a) && p <= a
    ensures a == p || (IsBin(op, At(t, p)) && (p + [false] <= a || p + [true] <= a))
    decreases p
  {
    if p != [] {
      BelowSpine(op, Child(t, p[0]), p[1..], a[1..]);
      assert forall c :: (p + [c])[1..] == p[1..] + [c];
      assert a == [a[0]] + a[1..];
      assert p == [p[0]] + p[1..];
    } else if a != [] {
      assert [a[0]] <= a;
    }
  }

  lemma JoinedSplitFirst(op: Op, t: Expr, p: Path, q: Path)
    requires OnSpine(op, t, p) && IsBin(op, At(t, p))
    requires Joined(op, t, p + [false], q) && Joined(op, t, p + [true], q)
    ensures Joined(op, t, p, q)
  {
    forall a: Path, b: Path | IsOperand(op, t, a) && IsOperand(op, t, b) && p <= a && q <= b && a != b
      ensures Joining.Join(op, At(t, a), At(t, b)).None? && Unjoinable(At(t, a))
    {
      BelowSpine(op, t, p, a);
    }
  }

  lemma JoinedSplitSecond(op: Op, t: Expr, p: Path, q: Path)
    requires OnSpine(op, t, q) && IsBin(op, At(t, q))
    requires Joined(op, t, p, q + [false]) && Joined(op, t, p, q + [true])
    ensures Joined(op, t, p, q)
  {
    forall a: Path, b: Path | IsOperand(op, t, a) && IsOperand(op, t, b) && p <= a && q <= b && a != b
      ensures Joining.Join(op, At(t, a), At(t, b)).None? && Unjoinable(At(t, a))
    {
      BelowSpine(op, t, q, b);
    }
  }

  lemma JoinedLeaves(op: Op, t: Expr, p: Path, q: Path)
    requires IsOperand(op, t, p) && IsOperand(op, t, q)
    requires p == q || (Joining.Join(op, At(t, p), At(t, q)).None? && Unjoinable(At(t, p)))
    ensures Joined(op, t, p, q)
  {
    forall a: Path, b: Path | IsOperand(op, t, a) && IsOperand(op, t, b) && p <= a && q <= b && a != b
      ensures Joining.Join(op, At(t, a), At(t, b)).None? && Unjoinable(At(t, a))
    {
      BelowSpine(op, t, p, a);
      BelowSpine(op, t, q, b);
    }
  }

  lemma ClearedSplitFirst(op: Op, t: Expr, p: Path, q: Path)
    requires OnSpine(op, t, p) && IsBin(op, At(t, p))
    requires Cleared(op, t, p + [false], q) && Cleared(op, t, p + [true], q)
    ensures Cleared(op, t, p, q)
  {
    forall a: Path, b: Path |
      IsOperand(op, t, a) && OnSpine(op, t, b) && p <= a && q <= b && a != b && IsBin(Dual(op), At(t, a))
      ensures !Contradicts(op, At(t, a), At(t, b)) && Uncontradicted(At(t, a))
    {
      BelowSpine(op, t, p, a);
    }
  }

  lemma ClearedAt(op: Op, t: Expr, p: Path, q: Path)
    requires IsOperand(op, t, p) && OnSpine(op, t, q)
    requires IsBin(op, At(t, q)) ==> Cleared(op, t, p, q + [false]) && Cleared(op, t, p, q + [true])
    requires p != q && IsBin(Dual(op), At(t, p)) ==>
      !Contradicts(op, At(t, p), At(t, q)) && Uncontradicted(At(t, p))
    ensures Cleared(op, t, p, q)
  {
    forall a: Path, b: Path |
      IsOperand(op, t, a) && OnSpine(op, t, b) && p <= a && q <= b && a != b && IsBin(Dual(op), At(t, a))
      ensures !Contradicts(op, At(t, a), At(t, b)) && Uncontradicted(At(t, a))
    {
      BelowSpine(op, t, p, a);
      BelowSpine(op, t, q, b);
    }
  }

  // The slot s is in the operand a of the op tree t, at rest from there.
  predicate Through(op: Op, t: Expr, s: Path, a: Path, rest: Path) {
    IsSlot(t, s) && IsOperand(op, t, a) && s == a + rest && IsSlot(At(t, a), rest) && At(At(t, a), rest) == At(t, s)
  }

  lemma {:induction false} OperandOnTheWay(op: Op, t: Expr, s: Path) returns (a: Path, rest: Path)
    requires IsSlot(t, s)
    ensures Through(op, t, s, a, rest) || (OnSpine(op, t, s) && IsBin(op, At(t, s)))
  {
    a, rest := [], s;
    if IsBin(op, t) && s != [] {
      var a', rest' := OperandOnTheWay(op, Child(t, s[0]), s[1..]);
      a, rest := [s[0]] + a', rest';
      assert a[1..] == a' && s == [s[0]] + s[1..];
    }
  }

  lemma {:induction false} SomeOperand(op: Op, t: Expr) returns (a: Path)
    ensures IsOperand(op, t, a)
  {
    a := [];
    if IsBin(op, t) {
      var a' := SomeOperand(op, t.l);
      a := [false] + a';
      assert a[1..] == a';
    }
  }

  // An op tree has an operand other than a.
  lemma OtherOperand(op: Op, t: Expr, a: Path) returns (b: Path)
    requires IsBin(op, t) && IsOperand(op, t, a)
    ensures IsOperand(op, t, b) && a != b
  {
    var b' := SomeOperand(op, Child(t, !a[0]));
    b := [!a[0]] + b';
    assert b[1..] == b';
  }

  lemma {:induction false} SpineBelow(op: Op, t: Expr, s: Path, p: Path)
    requires OnSpine(op, t, s) && OnSpine(op, At(t, s), p)
    ensures OnSpine(op, t, s + p) && At(t, s + p) == At(At(t, s), p)
  {
    if s == [] {
      assert s + p == p;
    } else {
      SpineBelow(op, Child(t, s[0]), s[1..], p);
      assert (s + p)[1..] == s[1..] + p;
    }
  }

  // What holds at all levels of a tree holds at all levels of its parts.
  lemma UnjoinableBelow(t: Expr, p: Path)
    requires IsSlot(t, p) && Unjoinable(t)
    ensures Unjoinable(At(t, p))
  {
    forall s: Path | IsSlot(At(t, p), s) && At(At(t, p), s).Bin?
      ensures NoJoin(At(At(t, p), s).op, At(At(t, p), s))
    {
      SlotBelow(t, p, s);
    }
  }

  lemma UncontradictedBelow(t: Expr, p: Path)
    requires IsSlot(t, p) && Uncontradicted(t)
    ensures Uncontradicted(At(t, p))
  {
    forall s: Path | IsSlot(At(t, p), s) && At(At(t, p), s).Bin?
      ensures NoContradiction(At(At(t, p), s).op, At(At(t, p), s))
    {
      SlotBelow(t, p, s);
    }
  }

  lemma UnjoinablePair(op: Op, t: Expr, p: Path, q: Path)
    requires IsBin(op, t) && Unjoinable(t) && IsOperand(op, t, p) && IsOperand(op, t, q) && p != q
    ensures Joining.Join(op, At(t, p), At(t, q)).None?
  {
    assert IsSlot(t, []) && At(t, []) == t;
    assert NoJoin(op, t);
  }

  lemma UncontradictedPair(op: Op, t: Expr, p: Path, q: Path)
    requires IsBin(op, t) && Uncontradicted(t) && IsOperand(op, t, p) && OnSpine(op, t, q) && p != q
    requires IsBin(Dual(op), At(t, p))
    ensures !Contradicts(op, At(t, p), At(t, q))
  {
    assert IsSlot(t, []) && At(t, []) == t;
    assert NoContradiction(op, t);
  }

  // A pass over the whole tree settles all levels.
  lemma JoinedAll(op: Op, t: Expr)
    requires IsBin(op, t) && Joined(op, t, [], [])
    ensures Unjoinable(t)
  {
    forall s: Path | IsSlot(t, s) && At(t, s).Bin?
      ensures NoJoin(At(t, s).op, At(t, s))
    {
      var a, rest := OperandOnTheWay(op, t, s);
      if OnSpine(op, t, s) && IsBin(op, At(t, s)) {
        JoinedOnSpine(op, t, s);
      } else {
        var b := OtherOperand(op, t, a);
        assert Unjoinable(At(t, a));
      }
    }
  }

  lemma JoinedOnSpine(op: Op, t: Expr, s: Path)
    requires OnSpine(op, t, s) && Joined(op, t, [], [])
    ensures NoJoin(op, At(t, s))
  {
    forall a: Path, b: Path | IsOperand(op, At(t, s), a) && IsOperand(op, At(t, s), b) && a != b
      ensures Joining.Join(op, At(At(t, s), a), At(At(t, s), b)).None?
    {
      SpineBelow(op, t, s, a);
      SpineBelow(op, t, s, b);
      assert (s + a)[|s|..] == a && (s + b)[|s|..] == b;
      assert IsOperand(op, t, s + a) && IsOperand(op, t, s + b);
    }
  }

  lemma ClearedAll(op: Op, t: Expr)
    requires IsBin(op, t) && Cleared(op, t, [], [])
    ensures Uncontradicted(t)
  {
    forall s: Path | IsSlot(t, s) && At(t, s).Bin?
      ensures NoContradiction(At(t, s).op, At(t, s))
    {
      var a, rest := OperandOnTheWay(op, t, s);
      if OnSpine(op, t, s) && IsBin(op, At(t, s)) {
        ClearedOnSpine(op, t, s);
      } else {
        var b := OtherOperand(op, t, a);
        assert IsSlot(At(t, a), rest) && At(t, a).Bin?;
        assert Uncontradicted(At(t, a));
      }
    }
  }

  lemma ClearedOnSpine(op: Op, t: Expr, s: Path)
    requires OnSpine(op, t, s) && Cleared(op, t, [], [])
    ensures NoContradiction(op, At(t, s))
  {
    forall a: Path, b: Path |
      IsOperand(op, At(t, s), a) && OnSpine(op, At(t, s), b) && a != b && IsBin(Dual(op), At(At(t, s), a))
      ensures !Contradicts(op, At(At(t, s), a), At(At(t, s), b))
    {
      SpineBelow(op, t, s, a);
      SpineBelow(op, t, s, b);
      assert (s + a)[|s|..] == a && (s + b)[|s|..] == b;
      assert IsOperand(op, t, s + a) && OnSpine(op, t, s + b);
    }
  }

  lemma NothingToJoin(e: Expr)
    requires !e.Bin?
    ensures Unjoinable(e) && Uncontradicted(e)
  {
  }

  lemma KeepSlot(op: Op, t: Expr, u: Expr, p: Path)
    requires SameSpine(op, t, u) && OnSpine(op, t, p)
    ensures OnSpine(op, u, p) && IsBin(op, At(u, p)) == IsBin(op, At(t, p))
    ensures SpineSize(op, At(u, p)) == SpineSize(op, At(t, p))
  {
    SameSpineAt(op, t, u, p);
    SameSpineSize(op, At(t, p), At(u, p));
  }

  lemma HalvesSmaller(op: Op, t: Expr, p: Path)
    requires OnSpine(op, t, p) && IsBin(op, At(t, p))
    ensures forall c :: OnSpine(op, t, p + [c]) && SpineSize(op, At(t, p + [c])) < SpineSize(op, At(t, p))
  {
    SpineStep(op, t, p, false);
    SpineStep(op, t, p, true);
  }

  // Rewriting the operand p of the tree at root.
  lemma InsideOperand(e: Expr, root: Path, p: Path, x: Expr)
    requires IsSlot(e, root) && IsSlot(At(e, root), p)
    ensures IsSlot(e, root + p) && At(e, root + p) == At(At(e, root), p)
    ensures p != [] ==> Size(At(e, root + p)) < Size(At(e, root))
    ensures var f := Put(e, root + p, x);
      && IsSlot(f, root) && At(f, root) == Put(At(e, root), p, x)
      && f == Put(e, root, At(f, root))
  {
    SlotBelow(e, root, p);
    PutIsSlot(At(e, root), p, x);
    PutIsSlot(e, root, Put(At(e, root), p, x));
  }

  // The expression under rewriting and the counter of rewrites (trans_count).
  // A pair of pointers into one op tree is given by the slot root of the tree
  // and the paths p and q from there.
  class Rewriter {
    var e: Expr
    var transCount: nat

    constructor (e0: Expr)
      ensures e == e0 && transCount == 0
    {
      e := e0;
      transCount := 0;
    }

    ghost predicate Slots(op: Op, root: Path, p: Path, q: Path)
      reads this
    {
      && IsSlot(e, root) && IsBin(op, At(e, root))
      && OnSpine(op, At(e, root), p) && OnSpine(op, At(e, root), q)
    }

    // Everything outside root is as in e0.
    ghost predicate OnlyBelow(root: Path, e0: Expr)
      reads this
    {
      IsSlot(e0, root) && IsSlot(e, root) && e == Put(e0, root, At(e, root))
    }

    // *ep = x for the slot p of the tree at root
    method Assign(root: Path, p: Path, x: Expr)
      requires IsSlot(e, root) && IsSlot(At(e, root), p)
      modifies this`e
      ensures OnlyBelow(root, old(e))
      ensures At(e, root) == Put(At(old(e), root), p, x)
    {
      InsideOperand(e, root, p, x);
      e := Put(e, root + p, x);
    }

    // expr_eliminate_dups1(op, ep1, ep2)
    method EliminateDups1(op: Op, root: Path, p: Path, q: Path)
      requires Slots(op, root, p, q)
      modifies this
      ensures transCount >= old(transCount)
      ensures OnlyBelow(root, old(e))
      ensures Step(op, At(old(e), root), At(e, root), true, transCount > old(transCount))
      ensures transCount == old(transCount) ==> Joined(op, At(e, root), p, q)
      ensures Unjoinable(old(At(e, root))) ==> transCount == old(transCount)
      decreases Size(At(e, root)), SpineSize(op, At(At(e, root), p)) + SpineSize(op, At(At(e, root), q)), 1
    {
      ghost var e0, t0, n0 := e, At(e, root), transCount;
      var e1, e2 := At(At(e, root), p), At(At(e, root), q);
      if IsBin(op, e1) {
        HalvesSmaller(op, t0, p);
        EliminateDups1(op, root, p + [false], q);
        ghost var em, tm, nm := e, At(e, root), transCount;
        KeepSlot(op, t0, tm, p + [true]);
        KeepSlot(op, t0, tm, q);
        EliminateDups1(op, root, p + [true], q);
        StepChain(op, t0, tm, At(e, root), true, nm > n0, transCount > nm);
        PutTwice(e0, root, tm, At(e, root));
        if transCount == n0 {
          JoinedSplitFirst(op, t0, p, q);
        }
        return;
      }
      if IsBin(op, e2) {
        HalvesSmaller(op, t0, q);
        EliminateDups1(op, root, p, q + [false]);
        ghost var em, tm, nm := e, At(e, root), transCount;
        KeepSlot(op, t0, tm, q + [true]);
        KeepSlot(op, t0, tm, p);
        EliminateDups1(op, root, p, q + [true]);
        StepChain(op, t0, tm, At(e, root), true, nm > n0, transCount > nm);
        PutTwice(e0, root, tm, At(e, root));
        if transCount == n0 {
          JoinedSplitSecond(op, t0, p, q);
        }
        return;
      }
      if p == q {
        StepNone(op, t0);
        PutSame(e0, root);
        JoinedLeaves(op, t0, p, q);
        return;
      }
      EliminateInside(op, root, p);
      ghost var tm, nm := At(e, root), transCount;
      KeepSlot(op, t0, tm, p);
      KeepSlot(op, t0, tm, q);
      JoinOperands(op, root, p, q);
      if Unjoinable(t0) {
        UnjoinablePair(op, t0, p, q);
      }
      StepChain(op, t0, tm, At(e, root), true, nm > n0, transCount > nm);
      PutTwice(e0, root, tm, At(e, root));
      if transCount == n0 {
        JoinedLeaves(op, t0, p, q);
      }
    }

    // The switch over the type of e1: a nested pass over another operator.
    method EliminateInside(op: Op, root: Path, p: Path)
      requires IsSlot(e, root) && IsBin(op, At(e, root)) && IsOperand(op, At(e, root), p)
      modifies this
      ensures transCount >= old(transCount)
      ensures OnlyBelow(root, old(e))
      ensures Step(op, At(old(e), root), At(e, root), true, transCount > old(transCount))
      ensures transCount == old(transCount) ==> Unjoinable(At(At(e, root), p))
      ensures Unjoinable(old(At(e, root))) ==> transCount == old(transCount)
      decreases Size(At(e, root)), SpineSize(op, At(At(e, root), p)), 0
    {
      ghost var e0, t0, n0 := e, At(e, root), transCount;
      var e1 := At(At(e, root), p);
      if !e1.Bin? {
        StepNone(op, t0);
        PutSame(e0, root);
        NothingToJoin(e1);
        return;
      }
      InsideOperand(e0, root, p, e1);
      if Unjoinable(t0) {
        UnjoinableBelow(t0, p);
      }
      EliminateDups1(e1.op, root + p, [], []);
      ghost var x := At(e, root + p);
      InsideOperand(e0, root, p, x);
      StepInside(op, t0, p, x, true, transCount > n0);
      if transCount == n0 {
        JoinedAll(e1.op, x);
      }
    }

    // The end of expr_eliminate_dups1: two operands are joined to one.
    method JoinOperands(op: Op, root: Path, p: Path, q: Path)
      requires IsSlot(e, root) && p != q
      requires IsOperand(op, At(e, root), p) && IsOperand(op, At(e, root), q)
      modifies this
      ensures transCount >= old(transCount)
      ensures OnlyBelow(root, old(e))
      ensures Step(op, At(old(e), root), At(e, root), true, transCount > old(transCount))
      ensures transCount == old(transCount) +
        if Joining.Join(op, At(old(At(e, root)), p), At(old(At(e, root)), q)).None? then 0 else 1
    {
      ghost var e0, t0 := e, At(e, root);
      var tmp := Joining.Join(op, At(At(e, root), p), At(At(e, root), q));
      if tmp.None? {
        StepNone(op, t0);
        PutSame(e0, root);
        return;
      }
      StepJoin(op, t0, p, q);
      Assign(root, p, Symbol(Unit(op)));
      ghost var t1 := At(e, root);
      Assign(root, q, tmp.value);
      PutTwice(e0, root, t1, At(e, root));
      transCount := transCount + 1;
    }

    // expr_eliminate_dups2(op, ep1, ep2).  Unlike its sibling it goes on with
    // e1 and the whole of e2 after visiting the operands of e2.
    method EliminateDups2(op: Op, root: Path, p: Path, q: Path)
      requires Slots(op, root, p, q)
      modifies this
      ensures transCount >= old(transCount)
      ensures OnlyBelow(root, old(e))
      ensures Step(op, At(old(e), root), At(e, root), false, transCount > old(transCount))
      ensures transCount == old(transCount) ==> Cleared(op, At(e, root), p, q)
      ensures Uncontradicted(old(At(e, root))) ==> transCount == old(transCount)
      decreases Size(At(e, root)), SpineSize(op, At(At(e, root), p)) + SpineSize(op, At(At(e, root), q)), 1
    {
      ghost var e0, t0, n0 := e, At(e, root), transCount;
      if IsBin(op, At(At(e, root), p)) {
        HalvesSmaller(op, t0, p);
        EliminateDups2(op, root, p + [false], q);
        ghost var tm, nm := At(e, root), transCount;
        KeepSlot(op, t0, tm, p + [true]);
        KeepSlot(op, t0, tm, q);
        EliminateDups2(op, root, p + [true], q);
        StepChain(op, t0, tm, At(e, root), false, nm > n0, transCount > nm);
        PutTwice(e0, root, tm, At(e, root));
        if transCount == n0 {
          ClearedSplitFirst(op, t0, p, q);
        }
        return;
      }
      EliminateSecond(op, root, p, q);
      ghost var tm, nm := At(e, root), transCount;
      KeepSlot(op, t0, tm, p);
      KeepSlot(op, t0, tm, q);
      if p != q {
        EliminateContradiction(op, root, p, q);
        StepChain(op, t0, tm, At(e, root), false, nm > n0, transCount > nm);
        PutTwice(e0, root, tm, At(e, root));
      }
      if transCount == n0 {
        ClearedAt(op, t0, p, q);
      }
    }

    // The visit to the operands of e2
    method EliminateSecond(op: Op, root: Path, p: Path, q: Path)
      requires Slots(op, root, p, q)
      modifies this
      ensures transCount >= old(transCount)
      ensures OnlyBelow(root, old(e))
      ensures Step(op, At(old(e), root), At(e, root), false, transCount > old(transCount))
      ensures transCount == old(transCount) && IsBin(op, At(At(e, root), q)) ==>
        Cleared(op, At(e, root), p, q + [false]) && Cleared(op, At(e, root), p, q + [true])
      ensures Uncontradicted(old(At(e, root))) ==> transCount == old(transCount)
      decreases Size(At(e, root)), SpineSize(op, At(At(e, root), p)) + SpineSize(op, At(At(e, root), q)), 0
    {
      ghost var e0, t0, n0 := e, At(e, root), transCount;
      if !IsBin(op, At(At(e, root), q)) {
        StepNone(op, t0);
        PutSame(e0, root);
        return;
      }
      HalvesSmaller(op, t0, q);
      EliminateDups2(op, root, p, q + [false]);
      ghost var tm, nm := At(e, root), transCount;
      KeepSlot(op, t0, tm, q + [true]);
      KeepSlot(op, t0, tm, p);
      EliminateDups2(op, root, p, q + [true]);
      StepChain(op, t0, tm, At(e, root), false, nm > n0, transCount > nm);
      PutTwice(e0, root, tm, At(e, root));
    }

    // The switch over the type of e1 at the end of expr_eliminate_dups2.
    method EliminateContradiction(op: Op, root: Path, p: Path, q: Path)
      requires Slots(op, root, p, q) && IsOperand(op, At(e, root), p) && p != q
      modifies this
      ensures transCount >= old(transCount)
      ensures OnlyBelow(root, old(e))
      ensures Step(op, At(old(e), root), At(e, root), false, transCount > old(transCount))
      ensures transCount == old(transCount) && IsBin(Dual(op), At(At(e, root), p)) ==>
        !Contradicts(op, At(At(e, root), p), At(At(e, root), q)) && Uncontradicted(At(At(e, root), p))
      ensures Uncontradicted(old(At(e, root))) ==> transCount == old(transCount)
      decreases Size(At(e, root)), SpineSize(op, At(At(e, root), p)) + SpineSize(op, At(At(e, root), q)), 0
    {
      ghost var e0, t0, n0 := e, At(e, root), transCount;
      var e1 := At(At(e, root), p);
      if !e1.Bin? {
        StepNone(op, t0);
        PutSame(e0, root);
        return;
      }
      InsideOperand(e0, root, p, e1);
      if Uncontradicted(t0) {
        UncontradictedBelow(t0, p);
        UncontradictedPair(op, t0, p, q);
      }
      EliminateDups2(e1.op, root + p, [], []);
      ghost var x := At(e, root + p);
      InsideOperand(e0, root, p, x);
      StepInside(op, t0, p, x, false, transCount > n0);
      if transCount == n0 {
        ClearedAll(e1.op, x);
      }
      ghost var tm, nm := At(e, root), transCount;
      KeepSlot(op, t0, tm, p);
      KeepSlot(op, t0, tm, q);
      if Contradicts(op, At(At(e, root), p), At(At(e, root), q)) {
        StepContradiction(op, tm, p, q);
        Assign(root, p, Symbol(Zero(op)));
        transCount := transCount + 1;
        StepChain(op, t0, tm, At(e, root), false, nm > n0, true);
        PutTwice(e0, root, tm, At(e, root));
      }
    }
  }

  // At no level outside NOTs can two operands be joined, or do they contradict each other.
  ghost predicate DuplicateFree(e: Expr) {
    Unjoinable(e) && Uncontradicted(e)
  }

  // An AND or OR of two operands that are free of duplicates themselves.
  lemma DuplicateFreePair(op: Op, l: Expr, r: Expr)
    requires !IsBin(op, l) && !IsBin(op, r) && DuplicateFree(l) && DuplicateFree(r)
    requires Joining.Join(op, l, r).None? && Joining.Join(op, r, l).None?
    requires l.Bin? ==> !Contradicts(op, l, r) && !Contradicts(op, l, Bin(op, l, r))
    requires r.Bin? ==> !Contradicts(op, r, l) && !Contradicts(op, r, Bin(op, l, r))
    ensures DuplicateFree(Bin(op, l, r))
  {
    var t := Bin(op, l, r);
    forall s: Path | IsSlot(t, s) && At(t, s).Bin?
      ensures NoJoin(At(t, s).op, At(t, s)) && NoContradiction(At(t, s).op, At(t, s))
    {
      if s == [] {
        PairOperands(op, l, r);
      } else {
        assert IsSlot(Child(t, s[0]), s[1..]);
      }
    }
  }

  lemma PairSpine(op: Op, l: Expr, r: Expr, a: Path)
    requires !IsBin(op, l) && !IsBin(op, r) && OnSpine(op, Bin(op, l, r), a)
    ensures a == [] || (a == [false] && At(Bin(op, l, r), a) == l) || (a == [true] && At(Bin(op, l, r), a) == r)
  {
    if a != [] {
      assert a == [a[0]] + a[1..];
      assert a[1..] == [];
    }
  }

  lemma PairOperands(op: Op, l: Expr, r: Expr)
    requires !IsBin(op, l) && !IsBin(op, r)
    requires Joining.Join(op, l, r).None? && Joining.Join(op, r, l).None?
    requires l.Bin? ==> !Contradicts(op, l, r) && !Contradicts(op, l, Bin(op, l, r))
    requires r.Bin? ==> !Contradicts(op, r, l) && !Contradicts(op, r, Bin(op, l, r))
    ensures NoJoin(op, Bin(op, l, r)) && NoContradiction(op, Bin(op, l, r))
  {
    var t := Bin(op, l, r);
    forall a: Path, b: Path | IsOperand(op, t, a) && IsOperand(op, t, b) && a != b
      ensures Joining.Join(op, At(t, a), At(t, b)).None?
    {
      PairSpine(op, l, r, a);
      PairSpine(op, l, r, b);
    }
    forall a: Path, b: Path | IsOperand(op, t, a) && OnSpine(op, t, b) && a != b && IsBin(Dual(op), At(t, a))
      ensures !Contradicts(op, At(t, a), At(t, b))
    {
      PairSpine(op, l, r, a);
      PairSpine(op, l, r, b);
    }
  }

  // expr_eliminate_dups
  method EliminateDups(e0: Expr) returns (r: Expr)
    ensures RefinedBy(e0, r)
    ensures Size(r) <= Size(e0)
    ensures Nnf(e0) ==> Nnf(r)
    ensures ComparisonForm(e0) ==> ComparisonForm(r)
    ensures DuplicateFree(r) && Irreducible(r)
    ensures DuplicateFree(e0) ==> r == e0
  {
    var w := new Rewriter(e0);
    while true
      invariant RefinedBy(e0, w.e)
      invariant DuplicateFree(e0) ==> w.e == e0
      invariant Size(w.e) <= Size(e0)
      invariant Nnf(e0) ==> Nnf(w.e)
      invariant ComparisonForm(e0) ==> ComparisonForm(w.e)
      decreases Size(w.e)
    {
      w.transCount := 0;
      ghost var t := w.e;
      if w.e.Bin? {
        var op := w.e.op;
        w.EliminateDups1(op, [], [], []);
        ghost var tm, nm := w.e, w.transCount;
        w.EliminateDups2(op, [], [], []);
        StepChain(op, t, tm, w.e, false, nm > 0, w.transCount > nm);
        RefinedChain(e0, t, w.e);
        if w.transCount == 0 {
          JoinedAll(op, w.e);
          ClearedAll(op, w.e);
        }
      } else {
        NothingToJoin(w.e);
      }
      if w.transCount == 0 {
        break;
      }
      EliminateYNRefines(e0, w.e);
      w.e := EliminateYN(w.e);
    }
    r := w.e;
    UnjoinableIff(r);
  }

  lemma RefinedChain(a: Expr, b: Expr, c: Expr)
    requires RefinedBy(a, b) && RefinedBy(b, c)
    ensures RefinedBy(a, c)
  {
    forall v: Valuation | Coherent(v)
      ensures Refines(Eval(a, v), Eval(c, v))
    {
      assert Refines(Eval(a, v), Eval(b, v)) && Refines(Eval(b, v), Eval(c, v));
    }
  }

  // A tree with a y or n to eliminate gets strictly smaller.
  lemma EliminateYNRefines(a: Expr, b: Expr)
    requires RefinedBy(a, b) && !FreeOfYN(b)
    ensures RefinedBy(a, EliminateYN(b))
    ensures Size(EliminateYN(b)) < Size(b)
    ensures Nnf(b) ==> Nnf(EliminateYN(b))
    ensures ComparisonForm(b) ==> ComparisonForm(EliminateYN(b))
  {
    forall v: Valuation | Coherent(v)
      ensures Refines(Eval(a, v), Eval(EliminateYN(b), v))
    {
      EliminateYNValue(b, v);
    }
    EliminateYNComplete(b);
    if Nnf(b) {
      EliminateYNNnf(b);
    }
    if ComparisonForm(b) {
      EliminateYNForm(b);
    }
  }

  // Exactness ---------------------------------------------------------------------

  // The contradiction rule is exact exactly where the old value is not m.
  lemma ContradictionExactIff(op: Op, t: Expr, p: Path, q: Path, v: Valuation)
    requires Coherent(v)
    requires IsOperand(op, t, p) && p != [] && OnSpine(op, t, q)
    requires Contradicts(op, At(t, p), At(t, q))
    ensures Eval(Put(t, p, Symbol(Zero(op))), v) == Eval(t, v) <==> Eval(t, v) != Mod
  {
    StepContradiction(op, t, p, q);
    assert Refines(Eval(t, v), Eval(Put(t, p, Symbol(Zero(op))), v));
    SpineValue(op, t, p, Symbol(Zero(op)), v);
    Op3Unit(op, Eval(Put(t, p, Symbol(Unit(op))), v), v);
    assert v.tri(YES) == Yes && v.tri(NO) == No;
  }

  // Without y and n the contradiction is found exactly when every operand of the
  // negation of e1 is an operand of e2.
  lemma ContradictionFound(op: Op, e1: Expr, e2: Expr)
    requires LiteralFree(Transformation.Transform(Not(e1))) && LiteralFree(e2)
    ensures Contradicts(op, e1, e2) <==>
      Canonical.Operands(op, Transformation.Transform(Not(e1))) <= Canonical.Operands(op, e2)
  {
    Extraction.ExtractLeavesUnit(op, Transformation.Transform(Not(e1)), e2);
  }

  lemma NegatedOr(a: Sym, b: Sym)
    requires !IsLiteral(a) && !IsLiteral(b)
    ensures Transformation.Transform(Not(Bin(OrOp, Symbol(a), Symbol(b))))
         == Bin(AndOp, Not(Symbol(a)), Not(Symbol(b)))
  {
    var e := Bin(AndOp, Not(Symbol(a)), Not(Symbol(b)));
    assert Transformation.Transform(Not(Symbol(a))) == Not(Symbol(a));
    assert Transformation.Transform(Not(Symbol(b))) == Not(Symbol(b));
    assert Transformation.Transform(e) == e;
  }

  // (a || b) && (!a && !b) is m when a and b are m, but is rewritten to n.
  lemma ContradictionNotExact(a: Sym, b: Sym, v: Valuation)
    requires Coherent(v) && !IsLiteral(a) && !IsLiteral(b)
    requires v.tri(a) == Mod && v.tri(b) == Mod
    ensures
      var e1, e2 := Bin(OrOp, Symbol(a), Symbol(b)), Bin(AndOp, Not(Symbol(a)), Not(Symbol(b)));
      && Contradicts(AndOp, e1, e2)
      && Eval(Bin(AndOp, e1, e2), v) == Mod
      && Eval(Bin(AndOp, Symbol(NO), e2), v) == No
  {
    NegatedOr(a, b);
    ContradictionFound(AndOp, Bin(OrOp, Symbol(a), Symbol(b)), Bin(AndOp, Not(Symbol(a)), Not(Symbol(b))));
    assert v.tri(NO) == No;
    assert Eval(Bin(OrOp, Symbol(a), Symbol(b)), v) == Mod;
    assert Eval(Symbol(a), v) == Mod && Eval(Symbol(b), v) == Mod;
    assert Eval(Not(Symbol(a)), v) == Mod;
    assert Eval(Not(Symbol(b)), v) == Mod;
    assert Eval(Bin(AndOp, Not(Symbol(a)), Not(Symbol(b))), v) == Mod;
  }

  // Without m in the symbols nothing is lost.
  predicate NoMod(e: Expr, v: Valuation) {
    match e
    case Symbol(s) => v.tri(s) != Mod
    case Not(a) => NoMod(a, v)
    case Bin(_, l, r) => NoMod(l, v) && NoMod(r, v)
    case _ => true
  }

  lemma {:induction false} NoModTwoValued(e: Expr, v: Valuation)
    requires NoMod(e, v)
    ensures Eval(e, v) != Mod
  {
    match e
    case Not(a) => NoModTwoValued(a, v);
    case Bin(_, l, r) =>
      NoModTwoValued(l, v);
      NoModTwoValued(r, v);
    case _ =>
  }

  lemma RefinedExact(a: Expr, b: Expr, v: Valuation)
    requires Coherent(v) && RefinedBy(a, b) && NoMod(a, v)
    ensures Eval(b, v) == Eval(a, v)
  {
    NoModTwoValued(a, v);
  }
}
