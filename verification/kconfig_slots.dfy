// Slots of an expression tree.  A pointer to an operand of an expression that is
// being rewritten in place is the path to that operand.

module Slots {
  import opened Tristates
  import opened Exprs
  import opened ExprEquality

  // false goes to the left operand, true to the right one.
  type Path = seq<bool>

  function Child(e: Expr, right: bool): Expr
    requires e.Bin?
  {
    if right then e.r else e.l
  }

  predicate IsSlot(e: Expr, p: Path) {
    p == [] || (e.Bin? && IsSlot(Child(e, p[0]), p[1..]))
  }

  function At(e: Expr, p: Path): Expr
    requires IsSlot(e, p)
  {
    if p == [] then e else At(Child(e, p[0]), p[1..])
  }

  function Put(e: Expr, p: Path, x: Expr): Expr
    requires IsSlot(e, p)
  {
    if p == [] then x
    else if p[0] then Bin(e.op, e.l, Put(e.r, p[1..], x))
    else Bin(e.op, Put(e.l, p[1..], x), e.r)
  }

  // Only op is met on the way to p.
  predicate OnSpine(op: Op, e: Expr, p: Path): (yes: bool)
    ensures yes ==> IsSlot(e, p)
  {
    p == [] || (IsBin(op, e) && OnSpine(op, Child(e, p[0]), p[1..]))
  }

  // p is an operand of the op tree e.
  predicate IsOperand(op: Op, e: Expr, p: Path) {
    OnSpine(op, e, p) && !IsBin(op, At(e, p))
  }

  // The op trees of t and u have the same shape.
  predicate SameSpine(op: Op, t: Expr, u: Expr) {
    if IsBin(op, t) then IsBin(op, u) && SameSpine(op, t.l, u.l) && SameSpine(op, t.r, u.r)
    else !IsBin(op, u)
  }

  function SpineSize(op: Op, e: Expr): nat {
    if IsBin(op, e) then 1 + SpineSize(op, e.l) + SpineSize(op, e.r) else 0
  }

  lemma {:induction false} PutIsSlot(e: Expr, p: Path, x: Expr)
    requires IsSlot(e, p)
    ensures IsSlot(Put(e, p, x), p) && At(Put(e, p, x), p) == x
    ensures Size(Put(e, p, x)) == Size(e) - Size(At(e, p)) + Size(x)
    ensures Size(At(e, p)) <= Size(e)
    ensures p != [] ==> Size(At(e, p)) < Size(e)
  {
    if p != [] {
      PutIsSlot(Child(e, p[0]), p[1..], x);
    }
  }

  lemma {:induction false} PutSame(e: Expr, p: Path)
    requires IsSlot(e, p)
    ensures Put(e, p, At(e, p)) == e
  {
    if p != [] {
      PutSame(Child(e, p[0]), p[1..]);
    }
  }

  lemma {:induction false} PutTwice(e: Expr, p: Path, x: Expr, y: Expr)
    requires IsSlot(e, p)
    ensures IsSlot(Put(e, p, x), p) && Put(Put(e, p, x), p, y) == Put(e, p, y)
  {
    if p != [] {
      PutTwice(Child(e, p[0]), p[1..], x, y);
    }
  }

  // A slot below a slot.
  lemma {:induction false} SlotBelow(e: Expr, p: Path, q: Path)
    requires IsSlot(e, p) && IsSlot(At(e, p), q)
    ensures IsSlot(e, p + q) && At(e, p + q) == At(At(e, p), q)
    ensures forall x :: Put(e, p + q, x) == Put(e, p, Put(At(e, p), q, x))
  {
    if p == [] {
      assert p + q == q;
    } else {
      SlotBelow(Child(e, p[0]), p[1..], q);
      assert (p + q)[1..] == p[1..] + q;
      assert (p + q)[0] == p[0];
    }
  }

  // Paths that part ways do not disturb each other.
  predicate Apart(p: Path, q: Path) {
    exists i :: 0 <= i < |p| && i < |q| && p[i] != q[i]
  }

  lemma {:induction false} PutApart(e: Expr, p: Path, q: Path, x: Expr)
    requires IsSlot(e, p) && IsSlot(e, q) && Apart(p, q)
    ensures IsSlot(Put(e, p, x), q) && At(Put(e, p, x), q) == At(e, q)
  {
    if p[0] == q[0] {
      ApartTail(p, q);
      PutApart(Child(e, p[0]), p[1..], q[1..], x);
    }
  }

  lemma ApartTail(p: Path, q: Path)
    requires Apart(p, q) && p[0] == q[0]
    ensures Apart(p[1..], q[1..])
  {
    var i :| 0 <= i < |p| && i < |q| && p[i] != q[i];
    assert p[1..][i - 1] != q[1..][i - 1];
  }

  // Two operands of one tree are apart.
  lemma {:induction false} OperandsApart(op: Op, e: Expr, p: Path, q: Path)
    requires IsOperand(op, e, p) && IsOperand(op, e, q) && p != q
    ensures Apart(p, q)
  {
    if p == [] || q == [] {
      assert false;
    } else if p[0] == q[0] {
      assert p[1..] != q[1..] by { assert p == [p[0]] + p[1..] && q == [q[0]] + q[1..]; }
      OperandsApart(op, Child(e, p[0]), p[1..], q[1..]);
      var i :| 0 <= i < |p[1..]| && i < |q[1..]| && p[1..][i] != q[1..][i];
      assert p[i + 1] != q[i + 1];
    } else {
      assert p[0] != q[0];
    }
  }

  lemma {:induction false} SpineStep(op: Op, e: Expr, p: Path, right: bool)
    requires OnSpine(op, e, p) && IsBin(op, At(e, p))
    ensures OnSpine(op, e, p + [right]) && At(e, p + [right]) == Child(At(e, p), right)
  {
    if p == [] {
      assert (p + [right])[1..] == [];
    } else {
      SpineStep(op, Child(e, p[0]), p[1..], right);
      assert (p + [right])[1..] == p[1..] + [right];
    }
  }

  lemma {:induction false} SameSpineAt(op: Op, t: Expr, u: Expr, p: Path)
    requires SameSpine(op, t, u) && OnSpine(op, t, p)
    ensures OnSpine(op, u, p) && SameSpine(op, At(t, p), At(u, p))
  {
    if p != [] {
      SameSpineAt(op, Child(t, p[0]), Child(u, p[0]), p[1..]);
    }
  }

  lemma {:induction false} SameSpineSize(op: Op, t: Expr, u: Expr)
    requires SameSpine(op, t, u)
    ensures SpineSize(op, t) == SpineSize(op, u)
  {
    if IsBin(op, t) {
      SameSpineSize(op, t.l, u.l);
      SameSpineSize(op, t.r, u.r);
    }
  }

  lemma {:induction false} SameSpineSelf(op: Op, t: Expr)
    ensures SameSpine(op, t, t)
  {
    if IsBin(op, t) {
      SameSpineSelf(op, t.l);
      SameSpineSelf(op, t.r);
    }
  }

  lemma {:induction false} SameSpineChain(op: Op, t: Expr, u: Expr, w: Expr)
    requires SameSpine(op, t, u) && SameSpine(op, u, w)
    ensures SameSpine(op, t, w)
  {
    if IsBin(op, t) {
      SameSpineChain(op, t.l, u.l, w.l);
      SameSpineChain(op, t.r, u.r, w.r);
    }
  }

  lemma {:induction false} PutSpine(op: Op, t: Expr, p: Path, x: Expr)
    requires IsOperand(op, t, p) && !IsBin(op, x)
    ensures SameSpine(op, t, Put(t, p, x)) && IsOperand(op, Put(t, p, x), p)
  {
    if p != [] {
      PutSpine(op, Child(t, p[0]), p[1..], x);
      SameSpineSelf(op, Child(t, !p[0]));
    }
  }

  // Values ----------------------------------------------------------------------

  // The value of an op tree is the value of any of its operands combined with the
  // tree from which that operand was dropped.
  lemma {:induction false} SpineValue(op: Op, t: Expr, p: Path, x: Expr, v: Valuation)
    requires Coherent(v)
    requires OnSpine(op, t, p)
    ensures Eval(Put(t, p, x), v) == Op3(op, Eval(x, v), Eval(Put(t, p, Symbol(Unit(op))), v))
  {
    Op3Unit(op, Eval(x, v), v);
    if p != [] {
      SpineValue(op, Child(t, p[0]), p[1..], x, v);
      var rest := Eval(Put(Child(t, p[0]), p[1..], Symbol(Unit(op))), v);
      var other := Eval(Child(t, !p[0]), v);
      Op3Laws(op, Eval(x, v), rest, other);
      Op3Laws(op, other, Op3(op, Eval(x, v), rest), other);
      Op3Laws(op, rest, other, other);
    }
  }

  // Combining a tree with one of its parts again changes nothing.
  lemma SpineAbsorbs(op: Op, t: Expr, p: Path, v: Valuation)
    requires Coherent(v)
    requires OnSpine(op, t, p)
    ensures Op3(op, Eval(t, v), Eval(At(t, p), v)) == Eval(t, v)
  {
    var x := At(t, p);
    PutSame(t, p);
    SpineValue(op, t, p, x, v);
    var rest := Eval(Put(t, p, Symbol(Unit(op))), v);
    Op3Laws(op, Eval(x, v), rest, Eval(x, v));
    Op3Laws(op, rest, Eval(x, v), Eval(x, v));
    Op3Laws(op, Eval(x, v), Eval(x, v), rest);
  }

  // Replacing a part by one that says more makes the whole say more.
  lemma {:induction false} PutRefines(t: Expr, p: Path, x: Expr, v: Valuation)
    requires IsSlot(t, p)
    requires Refines(Eval(At(t, p), v), Eval(x, v))
    ensures Refines(Eval(t, v), Eval(Put(t, p, x), v))
  {
    if p != [] {
      PutRefines(Child(t, p[0]), p[1..], x, v);
    }
  }

  lemma {:induction false} PutEqual(t: Expr, p: Path, x: Expr, v: Valuation)
    requires IsSlot(t, p)
    requires Eval(At(t, p), v) == Eval(x, v)
    ensures Eval(t, v) == Eval(Put(t, p, x), v)
  {
    if p != [] {
      PutEqual(Child(t, p[0]), p[1..], x, v);
    }
  }

  // Forms -----------------------------------------------------------------------

  lemma {:induction false} PutForm(t: Expr, p: Path, x: Expr)
    requires IsSlot(t, p) && ComparisonForm(t)
    ensures ComparisonForm(At(t, p))
    ensures ComparisonForm(x) ==> ComparisonForm(Put(t, p, x))
  {
    if p != [] {
      PutForm(Child(t, p[0]), p[1..], x);
    }
  }

  lemma {:induction false} PutNnf(t: Expr, p: Path, x: Expr)
    requires IsSlot(t, p) && Nnf(t)
    ensures Nnf(At(t, p))
    ensures Nnf(x) ==> Nnf(Put(t, p, x))
  {
    if p != [] {
      PutNnf(Child(t, p[0]), p[1..], x);
    }
  }

  // A y or n below an AND or OR, and anything above it, can be eliminated.
  lemma {:induction false} PutNotFree(t: Expr, p: Path, x: Expr)
    requires IsSlot(t, p)
    requires !FreeOfYN(x) || (p != [] && (x == Symbol(YES) || x == Symbol(NO)))
    ensures !FreeOfYN(Put(t, p, x))
  {
    if p != [] {
      if |p| > 1 || !FreeOfYN(x) {
        PutNotFree(Child(t, p[0]), p[1..], x);
      }
    }
  }
}
