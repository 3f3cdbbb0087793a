// What the definition gives each kind of symbol, said from its prompts, its user value, its
// defaults and its reverse dependency.

module SymbolMeaning {
  import opened Options
  import opened Tristates
  import opened Exprs
  import opened SymbolDefinition

  // p is the largest value of the prompts, n if there are none.
  ghost predicate IsMaximum(prompts: seq<ExprOpt>, v: Valuation, p: Tristate) {
    && (forall i :: 0 <= i < |prompts| ==> Le(EvalOpt(prompts[i], v), p))
    && (p == No || exists i :: 0 <= i < |prompts| && EvalOpt(prompts[i], v) == p)
  }

  // i is the first default whose condition is not n, or there is none.
  ghost predicate IsFirst(defaults: seq<Default>, v: Valuation, i: nat) {
    && i <= |defaults|
    && (forall j :: 0 <= j < i ==> EvalOpt(defaults[j].visible, v) == No)
    && (i < |defaults| ==> EvalOpt(defaults[i].visible, v) != No)
  }

  // The value a bool or tristate symbol takes from that default.
  function DefaultAt(defaults: seq<Default>, v: Valuation, i: nat): Tristate {
    if i < |defaults| then EvalOpt(defaults[i].value, v) else No
  }

  // A bool symbol is y instead of m, and so is a tristate one without modules.
  function Raised(c: Configuration, s: Sym, t: Tristate): Tristate {
    if t == Mod && (s.Type() == BooleanType || (s.Type() == TristateType && c.modules == No)) then Yes else t
  }

  lemma {:induction false} PromptsMaximum(prompts: seq<ExprOpt>, v: Valuation)
    ensures IsMaximum(prompts, v, PromptsValue(prompts, v))
  {
    if prompts != [] {
      var front, n := prompts[..|prompts| - 1], |prompts| - 1;
      PromptsMaximum(front, v);
      var p := PromptsValue(front, v);
      if p != No {
        var i :| 0 <= i < |front| && EvalOpt(front[i], v) == p;
        assert EvalOpt(prompts[i], v) == p;
      }
      assert EvalOpt(prompts[n], v) == EvalOpt(prompts[|prompts| - 1], v);
      forall i | 0 <= i < |prompts|
        ensures Le(EvalOpt(prompts[i], v), PromptsValue(prompts, v))
      {
        if i < n {
          assert prompts[i] == front[i];
        }
      }
    }
  }

  lemma MaximumUnique(prompts: seq<ExprOpt>, v: Valuation, p: Tristate, q: Tristate)
    requires IsMaximum(prompts, v, p) && IsMaximum(prompts, v, q)
    ensures p == q
  {
  }

  lemma {:induction false} FirstFound(defaults: seq<Default>, v: Valuation, i: nat)
    requires IsFirst(defaults, v, i)
    ensures FirstVisible(defaults, v) == if i < |defaults| then Some(defaults[i]) else None
  {
    if i > 0 {
      assert EvalOpt(defaults[0].visible, v) == No;
      FirstFound(defaults[1..], v, i - 1);
    }
  }

  // There is always such an i.
  lemma {:induction false} SomeFirst(defaults: seq<Default>, v: Valuation) returns (i: nat)
    ensures IsFirst(defaults, v, i)
  {
    i := 0;
    if defaults != [] && EvalOpt(defaults[0].visible, v) == No {
      var j := SomeFirst(defaults[1..], v);
      i := j + 1;
      assert forall k :: 0 < k < i ==> defaults[k] == defaults[1..][k - 1];
    }
  }

  // What the value of s is made of: the largest prompt p, the reverse dependency r and the
  // first visible default i, under the values v of all symbols.
  ghost predicate MadeOf(c: Configuration, s: Sym, v: Valuation, p: Tristate, r: Tristate, i: nat) {
    && IsMaximum(c.entry(s).prompts, v, p)
    && r == (if c.entry(s).revDep.Some? then Eval(c.entry(s).revDep.value, v) else No)
    && IsFirst(c.entry(s).defaults, v, i)
  }

  // A bool or tristate symbol that is neither visible nor selected has the value of its
  // first visible default, n without one.
  lemma HiddenValue(c: Configuration, rank: Sym -> nat, s: Sym, i: nat)
    requires Acyclic(c, rank) && IsTristate(s)
    requires MadeOf(c, s, AsValuation(Solution(c, rank)), No, No, i)
    ensures ValueOf(c, rank, s).tri ==
      Raised(c, s, DefaultAt(c.entry(s).defaults, AsValuation(Solution(c, rank)), i))
  {
    Ingredients(c, rank, s, No, No, i);
  }

  // Any other has its user value, or that default, where it can: at most what the prompts
  // allow, but at least what selects it.
  lemma ShownValue(c: Configuration, rank: Sym -> nat, s: Sym, p: Tristate, r: Tristate, i: nat)
    requires Acyclic(c, rank) && IsTristate(s) && (p != No || r != No)
    requires MadeOf(c, s, AsValuation(Solution(c, rank)), p, r, i)
    ensures var wanted := if s in c.user then c.user[s]
                          else DefaultAt(c.entry(s).defaults, AsValuation(Solution(c, rank)), i);
      var most, least, t := Raised(c, s, p), Raised(c, s, r), ValueOf(c, rank, s).tri;
      && (Le(wanted, most) && Le(least, wanted) ==> t == Raised(c, s, wanted))
      && (Le(most, wanted) && Le(least, most) ==> t == most)
      && (Le(wanted, least) || Le(most, least) ==> t == least)
  {
    var def := DefaultAt(c.entry(s).defaults, AsValuation(Solution(c, rank)), i);
    Ingredients(c, rank, s, p, r, i);
    Clamped(c, s, Raised(c, s, p), Raised(c, s, r), def, if s in c.user then c.user[s] else def);
  }

  lemma Clamped(c: Configuration, s: Sym, most: Tristate, least: Tristate, def: Tristate, wanted: Tristate)
    requires most != No || least != No
    requires ActsBoolean(c, s) ==> most != Mod && least != Mod
    requires wanted == if s in c.user then c.user[s] else def
    ensures var t := TristateValue(c, s, most, least, def);
      && (Le(wanted, most) && Le(least, wanted) ==> t == Raised(c, s, wanted))
      && (Le(most, wanted) && Le(least, most) ==> t == most)
      && (Le(wanted, least) || Le(most, least) ==> t == least)
  {
  }

  lemma Ingredients(c: Configuration, rank: Sym -> nat, s: Sym, p: Tristate, r: Tristate, i: nat)
    requires Acyclic(c, rank) && IsTristate(s)
    requires MadeOf(c, s, AsValuation(Solution(c, rank)), p, r, i)
    ensures ValueOf(c, rank, s).tri == TristateValue(c, s, Raised(c, s, p), Raised(c, s, r),
                                                     DefaultAt(c.entry(s).defaults, AsValuation(Solution(c, rank)), i))
    ensures ValueOf(c, rank, s).val == "n"
  {
    var v := AsValuation(Solution(c, rank));
    SolutionUnfolds(c, rank, s);
    PromptsMaximum(c.entry(s).prompts, v);
    MaximumUnique(c.entry(s).prompts, v, p, PromptsValue(c.entry(s).prompts, v));
    FirstFound(c.entry(s).defaults, v, i);
  }

  // A string symbol has its user value if it is visible, else the string of its first
  // visible default if that is a symbol, else none.
  lemma TextMeans(c: Configuration, rank: Sym -> nat, s: Sym, p: Tristate, r: Tristate, i: nat)
    requires Acyclic(c, rank) && s.Type() == StringType
    requires MadeOf(c, s, AsValuation(Solution(c, rank)), p, r, i)
    ensures var x, ds := ValueOf(c, rank, s), c.entry(s).defaults;
      && x.tri == No
      && (p != No && s in c.userText ==> x.val == c.userText[s])
      && (p == No || s !in c.userText ==>
            x.val == if i < |ds| && ds[i].value.Some? && ds[i].value.value.Symbol?
                     then ValueOf(c, rank, ds[i].value.value.sym).val else "")
  {
    var v := AsValuation(Solution(c, rank));
    SolutionUnfolds(c, rank, s);
    PromptsMaximum(c.entry(s).prompts, v);
    MaximumUnique(c.entry(s).prompts, v, p, PromptsValue(c.entry(s).prompts, v));
    FirstFound(c.entry(s).defaults, v, i);
  }

  // Constants stand for themselves, symbols of no such type for their name.
  lemma NameMeans(c: Configuration, rank: Sym -> nat, s: Sym)
    requires Acyclic(c, rank) && !IsTristate(s) && s.Type() != StringType
    ensures var x := ValueOf(c, rank, s);
      && x.val == (if s.Choice? then "" else s.name)
      && x.tri == if s == YES then Yes else if s == MOD then Mod else No
  {
    SolutionUnfolds(c, rank, s);
  }
}
