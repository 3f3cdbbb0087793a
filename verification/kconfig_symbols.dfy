// The symbol table: sym_calc_value and sym_set_tristate_value on cached values.

module SymbolTables {
  import opened Options
  import opened Tristates
  import opened Exprs
  import opened SymbolDefinition

  function Find<T>(m: map<Sym, T>, s: Sym): Option<T> {
    if s in m then Some(m[s]) else None
  }

  // What a boolean or tristate symbol is with the user value x.
  lemma UserValueReported(c: Configuration, d: Configuration, rank: Sym -> nat, s: Sym, x: Tristate)
    requires Acyclic(c, rank) && Acyclic(d, rank) && SameBut(c, d, s)
    requires IsTristate(s) && s in d.user && d.user[s] == x
    ensures var v := AsValuation(Solution(c, rank));
      ValueOf(d, rank, s) ==
        SymbolValue("n", TristateValue(d, s, Visibility(c, s, v), Selected(c, s, v), DefaultValue(c, s, v)))
  {
    var wc, wd := Solution(c, rank), Solution(d, rank);
    forall t: Sym | rank(t) < rank(s)
      ensures wd(t) == wc(t)
    {
      UserValueLocal(c, d, rank, s, t);
    }
    SolutionUnfolds(d, rank, s);
    VisibilityAgrees(d, s, wd, wc, rank);
    DefaultAgrees(d, s, wd, wc, rank);
    var v := AsValuation(wc);
    assert Visibility(d, s, v) == Visibility(c, s, v);
    assert Selected(d, s, v) == Selected(c, s, v);
    assert DefaultValue(d, s, v) == DefaultValue(c, s, v);
  }

  // sym_tristate_within_range of a symbol that is no choice value
  predicate WithinRange(c: Configuration, s: Sym, vis: Tristate, rev: Tristate, x: Tristate) {
    && vis != No
    && !(ActsBoolean(c, s) && x == Mod)
    && vis.Rank() > rev.Rank()
    && x.Rank() >= rev.Rank() && x.Rank() <= vis.Rank()
  }

  // A value is accepted exactly when it is what the symbol will be: values in
  // range are reported as they are, all others come out differently.
  lemma WithinRangeIffReported(c: Configuration, d: Configuration, s: Sym, vis: Tristate, rev: Tristate,
                               def: Tristate, x: Tristate)
    requires d.modules == c.modules && s in d.user && d.user[s] == x
    requires ActsBoolean(c, s) ==> vis != Mod && rev != Mod
    ensures var before := TristateValue(c, s, vis, rev, def);
      TristateValue(d, s, vis, rev, def) == x <==> before == x || WithinRange(c, s, vis, rev, x)
  {
  }

  lemma BooleanVisibility(c: Configuration, s: Sym, v: Valuation)
    requires IsTristate(s)
    ensures ActsBoolean(c, s) ==> Visibility(c, s, v) != Mod && Selected(c, s, v) != Mod
  {
  }

  // Setting s to the value it already has changes no value at all.
  lemma {:induction false} SameValueChangesNothing(c: Configuration, d: Configuration, rank: Sym -> nat, s: Sym, t: Sym)
    requires Acyclic(c, rank) && Acyclic(d, rank) && SameBut(c, d, s)
    requires ValueOf(d, rank, s) == ValueOf(c, rank, s)
    ensures ValueOf(d, rank, t) == ValueOf(c, rank, t)
    decreases rank(t)
  {
    if t != s {
      var wc, wd := Solution(c, rank), Solution(d, rank);
      forall u: Sym | rank(u) < rank(t)
        ensures wd(u) == wc(u)
      {
        SameValueChangesNothing(c, d, rank, s, u);
      }
      SolutionUnfolds(c, rank, t);
      SolutionUnfolds(d, rank, t);
      UnfoldAgrees(c, t, wd, wc, rank);
      UnfoldSameBut(c, d, s, t, wd);
    }
  }

  // The cached part of the symbol table: the symbols with SYMBOL_VALID and the
  // fields curr, visible and rev_dep.tri.
  datatype Cache = Cache(valid: set<Sym>, curr: map<Sym, SymbolValue>,
                         visible: map<Sym, Tristate>, selected: map<Sym, Tristate>)

  // The cached fields of s are what the definition says.
  ghost predicate UpToDate(c: Configuration, rank: Sym -> nat, k: Cache, s: Sym) {
    && Find(k.curr, s) == Some(ValueOf(c, rank, s))
    && (IsTristate(s) ==> VisibilityUpToDate(c, rank, k, s))
  }

  ghost predicate VisibilityUpToDate(c: Configuration, rank: Sym -> nat, k: Cache, s: Sym) {
    && Find(k.visible, s) == Some(Visibility(c, s, AsValuation(Solution(c, rank))))
    && Find(k.selected, s) == Some(Selected(c, s, AsValuation(Solution(c, rank))))
  }

  // Symbols under calculation are valid already but not yet up to date.
  ghost predicate Consistent(c: Configuration, rank: Sym -> nat, k: Cache, busy: set<Sym>) {
    && Acyclic(c, rank)
    && {YES, MOD, NO} <= k.valid
    && forall s :: s in k.valid && s !in busy ==> UpToDate(c, rank, k, s)
  }

  predicate SameFields(k: Cache, l: Cache, s: Sym) {
    && (s in k.valid <==> s in l.valid)
    && Find(k.curr, s) == Find(l.curr, s)
    && Find(k.visible, s) == Find(l.visible, s)
    && Find(k.selected, s) == Find(l.selected, s)
  }

  // Nothing of rank n or more is touched.
  ghost predicate Kept(rank: Sym -> nat, n: nat, k: Cache, l: Cache) {
    && k.valid <= l.valid
    && forall t: Sym {:trigger SameFields(k, l, t)} :: rank(t) >= n ==> SameFields(k, l, t)
  }

  // Nothing as high as s is touched, except s itself.
  ghost predicate KeptBut(rank: Sym -> nat, s: Sym, k: Cache, l: Cache) {
    && k.valid <= l.valid
    && forall t: Sym {:trigger SameFields(k, l, t)} :: rank(t) >= rank(s) && t != s ==> SameFields(k, l, t)
  }

  lemma FieldsFound(c: Configuration, rank: Sym -> nat, k: Cache, s: Sym)
    requires UpToDate(c, rank, k, s) && IsTristate(s)
    ensures s in k.curr && s in k.visible && s in k.selected
  {
  }

  lemma KeptChain(rank: Sym -> nat, n: nat, k: Cache, l: Cache, m: Cache)
    requires Kept(rank, n, k, l) && Kept(rank, n, l, m)
    ensures Kept(rank, n, k, m)
  {
    forall t: Sym | rank(t) >= n
      ensures SameFields(k, m, t)
    {
      assert SameFields(k, l, t) && SameFields(l, m, t);
    }
  }

  lemma KeptButChain(rank: Sym -> nat, s: Sym, k: Cache, l: Cache, m: Cache)
    requires KeptBut(rank, s, k, l) && KeptBut(rank, s, l, m)
    ensures KeptBut(rank, s, k, m)
  {
    forall t: Sym | rank(t) >= rank(s) && t != s
      ensures SameFields(k, m, t)
    {
      assert SameFields(k, l, t) && SameFields(l, m, t);
    }
  }

  lemma KeptForBut(rank: Sym -> nat, s: Sym, k: Cache, l: Cache)
    ensures Kept(rank, rank(s), k, l) ==> KeptBut(rank, s, k, l)
    ensures forall n: nat :: n > rank(s) && KeptBut(rank, s, k, l) ==> Kept(rank, n, k, l)
  {
  }

  // Changing the fields of a symbol under calculation.
  lemma ChangeBusy(c: Configuration, rank: Sym -> nat, k: Cache, l: Cache, s: Sym, busy: set<Sym>)
    requires Consistent(c, rank, k, busy)
    requires k.valid <= l.valid <= k.valid + {s}
    requires forall t: Sym {:trigger SameFields(k, l, t)} :: t != s ==> SameFields(k, l, t)
    ensures Consistent(c, rank, l, busy + {s})
    ensures KeptBut(rank, s, k, l)
  {
    forall t | t in l.valid && t !in busy + {s}
      ensures UpToDate(c, rank, l, t)
    {
      assert SameFields(k, l, t);
      assert UpToDate(c, rank, k, t);
    }
  }

  lemma TristateSolution(c: Configuration, rank: Sym -> nat, s: Sym)
    requires Acyclic(c, rank) && IsTristate(s) && !IsLiteral(s)
    ensures var v := AsValuation(Solution(c, rank));
      ValueOf(c, rank, s) ==
        SymbolValue("n", TristateValue(c, s, Visibility(c, s, v), Selected(c, s, v), DefaultValue(c, s, v)))
  {
    SolutionUnfolds(c, rank, s);
  }

  // A calculated symbol is no longer busy.
  lemma Finish(c: Configuration, rank: Sym -> nat, k: Cache, s: Sym, busy: set<Sym>)
    requires Consistent(c, rank, k, busy + {s}) && UpToDate(c, rank, k, s)
    ensures Consistent(c, rank, k, busy)
  {
  }

  // What stays valid does not depend on any user value.
  lemma FixedValue(c: Configuration, d: Configuration, rank: Sym -> nat, s: Sym)
    requires Acyclic(c, rank) && Acyclic(d, rank) && SymbolTable.StaysValid(s)
    ensures ValueOf(d, rank, s) == ValueOf(c, rank, s) && !IsTristate(s)
  {
    SolutionUnfolds(c, rank, s);
    SolutionUnfolds(d, rank, s);
  }

  lemma ClearedConsistent(c: Configuration, d: Configuration, rank: Sym -> nat, k: Cache, l: Cache)
    requires Consistent(c, rank, k, {}) && Acyclic(d, rank)
    requires l.valid == set s | s in k.valid && SymbolTable.StaysValid(s)
    requires l.curr == k.curr
    ensures Consistent(d, rank, l, {})
  {
    forall s | s in l.valid
      ensures UpToDate(d, rank, l, s)
    {
      assert UpToDate(c, rank, k, s);
      FixedValue(c, d, rank, s);
    }
  }

  // With the same value of s every cached field is still right.
  lemma SameValueConsistent(c: Configuration, d: Configuration, rank: Sym -> nat, s: Sym, k: Cache)
    requires Consistent(c, rank, k, {}) && Acyclic(d, rank) && SameBut(c, d, s)
    requires ValueOf(d, rank, s) == ValueOf(c, rank, s)
    ensures Consistent(d, rank, k, {})
  {
    forall t: Sym
      ensures Solution(d, rank)(t) == Solution(c, rank)(t)
    {
      SameValueChangesNothing(c, d, rank, s, t);
    }
    forall t | t in k.valid
      ensures UpToDate(d, rank, k, t)
    {
      SameSolutionUpToDate(c, d, rank, k, t);
    }
  }

  lemma SameSolutionUpToDate(c: Configuration, d: Configuration, rank: Sym -> nat, k: Cache, t: Sym)
    requires Acyclic(c, rank) && d.entry == c.entry && d.modules == c.modules
    requires forall u: Sym :: Solution(d, rank)(u) == Solution(c, rank)(u)
    requires UpToDate(c, rank, k, t)
    ensures UpToDate(d, rank, k, t)
  {
    var wc, wd := Solution(c, rank), Solution(d, rank);
    assert wd(t) == wc(t);
    VisibilityAgrees(c, t, wd, wc, rank);
    SameEntries(c, d, t, AsValuation(wd));
  }

  lemma SameEntries(c: Configuration, d: Configuration, t: Sym, v: Valuation)
    requires d.entry == c.entry && d.modules == c.modules
    ensures Visibility(d, t, v) == Visibility(c, t, v) && Selected(d, t, v) == Selected(c, t, v)
  {
  }

  function WithUser(c: Configuration, s: Sym, x: Tristate): Configuration {
    c.(user := c.user[s := x])
  }

  lemma WithUserSameBut(c: Configuration, rank: Sym -> nat, s: Sym, x: Tristate)
    requires Acyclic(c, rank)
    ensures Acyclic(WithUser(c, s, x), rank) && SameBut(c, WithUser(c, s, x), s)
  {
  }

  // The test of sym_set_tristate_value on the cached fields of s.
  predicate Accepts(c: Configuration, k: Cache, s: Sym, x: Tristate) {
    && s in k.curr && s in k.visible && s in k.selected
    && (k.curr[s].tri == x || WithinRange(c, s, k.visible[s], k.selected[s], x))
  }

  // A value is accepted exactly when a recomputation with it reports it.
  lemma AcceptedIffReported(c: Configuration, d: Configuration, rank: Sym -> nat, k: Cache, s: Sym, x: Tristate)
    requires Acyclic(c, rank) && Acyclic(d, rank) && SameBut(c, d, s)
    requires IsTristate(s) && s in d.user && d.user[s] == x
    requires UpToDate(c, rank, k, s)
    ensures Accepts(c, k, s, x) <==> ValueOf(d, rank, s).tri == x
    ensures k.curr[s].tri == x ==> ValueOf(d, rank, s) == ValueOf(c, rank, s)
  {
    var v := AsValuation(Solution(c, rank));
    UserValueReported(c, d, rank, s, x);
    TristateSolution(c, rank, s);
    BooleanVisibility(c, s, v);
    WithinRangeIffReported(c, d, s, Visibility(c, s, v), Selected(c, s, v), DefaultValue(c, s, v), x);
  }

  lemma ValidKnown(c: Configuration, rank: Sym -> nat, k: Cache)
    requires Consistent(c, rank, k, {})
    ensures forall s :: s in k.valid ==> Find(k.curr, s) == Some(ValueOf(c, rank, s))
  {
    forall s | s in k.valid
      ensures Find(k.curr, s) == Some(ValueOf(c, rank, s))
    {
      assert UpToDate(c, rank, k, s);
    }
  }

  class SymbolTable {
    const entry: Sym -> Entry
    const modules: Tristate
    ghost const rank: Sym -> nat
    var user: map<Sym, Tristate>
    var userText: map<Sym, string>
    var valid: set<Sym>
    var curr: map<Sym, SymbolValue>
    var visible: map<Sym, Tristate>
    var selected: map<Sym, Tristate>

    constructor (entry: Sym -> Entry, modules: Tristate, ghost rank: Sym -> nat)
      requires Acyclic(Configuration(entry, modules, map[], map[]), rank)
      ensures Valid({}) && valid == {YES, MOD, NO}
      ensures Cfg() == Configuration(entry, modules, map[], map[]) && this.rank == rank
    {
      this.entry := entry;
      this.modules := modules;
      this.rank := rank;
      user := map[];
      userText := map[];
      valid := {YES, MOD, NO};
      curr := map[YES := SymbolValue("y", Yes), MOD := SymbolValue("m", Mod), NO := SymbolValue("n", No)];
      visible := map[];
      selected := map[];
    }

    ghost function Cfg(): Configuration
      reads this`user, this`userText
    {
      Configuration(entry, modules, user, userText)
    }

    ghost function Meaning(): Valuation
      reads this`user, this`userText
    {
      AsValuation(Solution(Cfg(), rank))
    }

    ghost function Cached(): Cache
      reads this`valid, this`curr, this`visible, this`selected
    {
      Cache(valid, curr, visible, selected)
    }

    ghost predicate Valid(busy: set<Sym>)
      reads this
    {
      Consistent(Cfg(), rank, Cached(), busy)
    }

    // sym_calc_value
    method CalcValue(s: Sym, ghost busy: set<Sym>)
      requires Valid(busy)
      requires forall b :: b in busy ==> rank(b) > rank(s)
      modifies this`valid, this`curr, this`visible, this`selected
      ensures Valid(busy) && s in valid && UpToDate(Cfg(), rank, Cached(), s)
      ensures KeptBut(rank, s, old(Cached()), Cached())
      decreases rank(s), 4
    {
      if s in valid {
        return;
      }
      ghost var k := Cached();
      valid := valid + {s};
      ghost var l := Cached();
      ChangeBusy(Cfg(), rank, k, l, s, busy);
      SolutionUnfolds(Cfg(), rank, s);
      if IsTristate(s) {
        CalcTristate(s, busy);
        KeptButChain(rank, s, k, l, Cached());
      } else if s.Type() == StringType {
        CalcText(s, busy);
        KeptButChain(rank, s, k, l, Cached());
      } else {
        curr := curr[s := SymbolValue(NameOf(s), No)];
        ChangeBusy(Cfg(), rank, k, Cached(), s, busy);
        Finish(Cfg(), rank, Cached(), s, busy);
      }
    }

    // sym->curr = x for a symbol under calculation
    method SetCurr(s: Sym, x: SymbolValue, ghost busy: set<Sym>)
      requires Valid(busy) && s in busy
      modifies this`curr
      ensures Valid(busy) && curr == old(curr)[s := x]
      ensures KeptBut(rank, s, old(Cached()), Cached())
    {
      ghost var k := Cached();
      curr := curr[s := x];
      assert busy + {s} == busy;
      ChangeBusy(Cfg(), rank, k, Cached(), s, busy);
    }

    method SetVisible(s: Sym, t: Tristate, ghost busy: set<Sym>)
      requires Valid(busy) && s in busy
      modifies this`visible
      ensures Valid(busy) && visible == old(visible)[s := t]
      ensures KeptBut(rank, s, old(Cached()), Cached())
    {
      ghost var k := Cached();
      visible := visible[s := t];
      assert busy + {s} == busy;
      ChangeBusy(Cfg(), rank, k, Cached(), s, busy);
    }

    method SetSelected(s: Sym, t: Tristate, ghost busy: set<Sym>)
      requires Valid(busy) && s in busy
      modifies this`selected
      ensures Valid(busy) && selected == old(selected)[s := t]
      ensures KeptBut(rank, s, old(Cached()), Cached())
    {
      ghost var k := Cached();
      selected := selected[s := t];
      assert busy + {s} == busy;
      ChangeBusy(Cfg(), rank, k, Cached(), s, busy);
    }

    // The last assignment to curr ends the calculation of s.
    method Complete(s: Sym, x: SymbolValue, ghost busy: set<Sym>)
      requires Valid(busy + {s}) && x == ValueOf(Cfg(), rank, s)
      requires IsTristate(s) ==> VisibilityUpToDate(Cfg(), rank, Cached(), s)
      modifies this`curr
      ensures Valid(busy) && UpToDate(Cfg(), rank, Cached(), s)
      ensures KeptBut(rank, s, old(Cached()), Cached())
    {
      SetCurr(s, x, busy + {s});
      Finish(Cfg(), rank, Cached(), s, busy);
    }

    // The S_BOOLEAN and S_TRISTATE cases of sym_calc_value.
    method CalcTristate(s: Sym, ghost busy: set<Sym>)
      requires Valid(busy + {s}) && IsTristate(s) && s in valid && !IsLiteral(s)
      requires forall b :: b in busy ==> rank(b) > rank(s)
      modifies this`valid, this`curr, this`visible, this`selected
      ensures Valid(busy) && s in valid && UpToDate(Cfg(), rank, Cached(), s)
      ensures KeptBut(rank, s, old(Cached()), Cached())
      decreases rank(s), 3
    {
      ghost var all, k := busy + {s}, Cached();
      Prepare(s, SymbolValue("n", No), all);
      ghost var m := Cached();
      var newval := ChooseValue(s, visible[s], selected[s], all);
      ghost var n := Cached();
      KeptForBut(rank, s, m, n);
      KeptButChain(rank, s, k, m, n);
      assert SameFields(m, n, s);
      TristateSolution(Cfg(), rank, s);
      Complete(s, SymbolValue("n", newval), busy);
      KeptButChain(rank, s, k, n, Cached());
    }

    // The new value of a boolean or tristate symbol of known visibility.
    method ChooseValue(s: Sym, vis: Tristate, sel: Tristate, ghost busy: set<Sym>) returns (newval: Tristate)
      requires Valid(busy) && IsTristate(s)
      requires forall b :: b in busy ==> rank(b) >= rank(s)
      modifies this`valid, this`curr, this`visible, this`selected
      ensures Valid(busy) && Kept(rank, rank(s), old(Cached()), Cached())
      ensures newval == TristateValue(Cfg(), s, vis, sel, DefaultValue(Cfg(), s, Meaning()))
      decreases rank(s), 2
    {
      if Or3(vis, sel) != No {
        newval := UserOrDefault(s, busy);
        newval := Or3(And3(newval, vis), sel);
      } else {
        newval := CalcDefault(s, busy);
      }
      if newval == Mod && (s.Type() == BooleanType || modules == No) {
        newval := Yes;
      }
    }

    method UserOrDefault(s: Sym, ghost busy: set<Sym>) returns (newval: Tristate)
      requires Valid(busy)
      requires forall b :: b in busy ==> rank(b) >= rank(s)
      modifies this`valid, this`curr, this`visible, this`selected
      ensures Valid(busy) && Kept(rank, rank(s), old(Cached()), Cached())
      ensures newval == if s in user then user[s] else DefaultValue(Cfg(), s, Meaning())
      decreases rank(s), 1, 2
    {
      if s in user {
        return user[s];
      }
      newval := CalcDefault(s, busy);
    }

    // The S_STRING case of sym_calc_value.
    method CalcText(s: Sym, ghost busy: set<Sym>)
      requires Valid(busy + {s}) && s.Type() == StringType && s in valid && !IsLiteral(s)
      requires forall b :: b in busy ==> rank(b) > rank(s)
      modifies this`valid, this`curr, this`visible, this`selected
      ensures Valid(busy) && s in valid && UpToDate(Cfg(), rank, Cached(), s)
      ensures KeptBut(rank, s, old(Cached()), Cached())
      decreases rank(s), 3
    {
      ghost var all, k := busy + {s}, Cached();
      Prepare(s, SymbolValue("", No), all);
      ghost var m := Cached();
      var newval := ChooseText(s, all);
      ghost var n := Cached();
      KeptForBut(rank, s, m, n);
      KeptButChain(rank, s, k, m, n);
      SolutionUnfolds(Cfg(), rank, s);
      assert SameFields(m, n, s);
      Complete(s, SymbolValue(newval, No), busy);
      KeptButChain(rank, s, k, n, Cached());
    }

    method ChooseText(s: Sym, ghost busy: set<Sym>) returns (newval: string)
      requires Valid(busy) && VisibilityUpToDate(Cfg(), rank, Cached(), s)
      requires forall b :: b in busy ==> rank(b) >= rank(s)
      modifies this`valid, this`curr, this`visible, this`selected
      ensures Valid(busy) && Kept(rank, rank(s), old(Cached()), Cached())
      ensures newval == TextValue(Cfg(), s, Solution(Cfg(), rank))
      decreases rank(s), 2
    {
      if visible[s] != No && s in userText {
        return userText[s];
      }
      ghost var k := Cached();
      var d := FindDefault(s, busy);
      if d.Some? && d.value.value.Some? && d.value.value.value.Symbol? {
        var ds := d.value.value.value.sym;
        ghost var l := Cached();
        CalcValue(ds, busy);
        KeptForBut(rank, ds, l, Cached());
        KeptChain(rank, rank(s), k, l, Cached());
        newval := curr[ds].val;
      } else {
        newval := "";
      }
    }

    // Both cases first find out the visibility and set curr to the empty value.
    method Prepare(s: Sym, x: SymbolValue, ghost busy: set<Sym>)
      requires Valid(busy) && s in busy && s in valid
      requires forall b :: b in busy ==> rank(b) >= rank(s)
      modifies this`valid, this`curr, this`visible, this`selected
      ensures Valid(busy) && s in valid && VisibilityUpToDate(Cfg(), rank, Cached(), s)
      ensures KeptBut(rank, s, old(Cached()), Cached()) && Find(curr, s) == Some(x)
      decreases rank(s), 2
    {
      ghost var k := Cached();
      CalcVisibility(s, busy);
      ghost var l := Cached();
      SetCurr(s, x, busy);
      KeptButChain(rank, s, k, l, Cached());
    }

    // sym_calc_visibility
    method CalcVisibility(s: Sym, ghost busy: set<Sym>)
      requires Valid(busy) && s in busy
      requires forall b :: b in busy ==> rank(b) >= rank(s)
      modifies this`valid, this`curr, this`visible, this`selected
      ensures Valid(busy) && (s in old(valid) ==> s in valid)
      ensures KeptBut(rank, s, old(Cached()), Cached())
      ensures VisibilityUpToDate(Cfg(), rank, Cached(), s)
      decreases rank(s), 2, 1
    {
      ghost var k := Cached();
      CalcVisible(s, busy);
      ghost var l := Cached();
      CalcRevDep(s, busy);
      KeptButChain(rank, s, k, l, Cached());
    }

    // Its first half, the prompts ...
    method CalcVisible(s: Sym, ghost busy: set<Sym>)
      requires Valid(busy) && s in busy
      requires forall b :: b in busy ==> rank(b) >= rank(s)
      modifies this`valid, this`curr, this`visible, this`selected
      ensures Valid(busy)
      ensures KeptBut(rank, s, old(Cached()), Cached())
      ensures Find(visible, s) == Some(Visibility(Cfg(), s, Meaning()))
      decreases rank(s), 2, 0
    {
      ghost var k := Cached();
      var tri := CalcPrompts(s, busy);
      if tri == Mod && (s.Type() != TristateType || modules == No) {
        tri := Yes;
      }
      ghost var l := Cached();
      KeptForBut(rank, s, k, l);
      SetVisible(s, tri, busy);
      KeptButChain(rank, s, k, l, Cached());
    }

    // ... and its second, the reverse dependency.
    method CalcRevDep(s: Sym, ghost busy: set<Sym>)
      requires Valid(busy) && s in busy
      requires forall b :: b in busy ==> rank(b) >= rank(s)
      requires Find(visible, s) == Some(Visibility(Cfg(), s, Meaning()))
      modifies this`valid, this`curr, this`visible, this`selected
      ensures Valid(busy)
      ensures KeptBut(rank, s, old(Cached()), Cached())
      ensures VisibilityUpToDate(Cfg(), rank, Cached(), s)
      decreases rank(s), 2, 0
    {
      ghost var k := Cached();
      var tri := CalcSelected(s, busy);
      ghost var l := Cached();
      assert SameFields(k, l, s);
      KeptForBut(rank, s, k, l);
      SetSelected(s, tri, busy);
      KeptButChain(rank, s, k, l, Cached());
    }

    method CalcSelected(s: Sym, ghost busy: set<Sym>) returns (tri: Tristate)
      requires Valid(busy)
      requires forall b :: b in busy ==> rank(b) >= rank(s)
      modifies this`valid, this`curr, this`visible, this`selected
      ensures Valid(busy) && Kept(rank, rank(s), old(Cached()), Cached())
      ensures tri == Selected(Cfg(), s, Meaning())
      decreases rank(s), 1
    {
      tri := No;
      if entry(s).revDep.Some? {
        tri := CalcExprOpt(entry(s).revDep, rank(s), busy);
      }
      if tri == Mod && (s.Type() == BooleanType || (s.Type() == TristateType && modules == No)) {
        tri := Yes;
      }
    }

    method CalcPrompts(s: Sym, ghost busy: set<Sym>) returns (tri: Tristate)
      requires Valid(busy)
      requires forall b :: b in busy ==> rank(b) >= rank(s)
      modifies this`valid, this`curr, this`visible, this`selected
      ensures Valid(busy) && Kept(rank, rank(s), old(Cached()), Cached())
      ensures tri == PromptsValue(entry(s).prompts, Meaning())
      decreases rank(s), 1
    {
      ghost var v, k := Meaning(), Cached();
      var prompts := entry(s).prompts;
      tri := No;
      var i := 0;
      while i < |prompts|
        invariant 0 <= i <= |prompts|
        invariant Valid(busy) && Kept(rank, rank(s), k, Cached())
        invariant tri == PromptsValue(prompts[..i], v)
      {
        ghost var l := Cached();
        assert prompts[..i + 1][..i] == prompts[..i];
        var t := CalcExprOpt(prompts[i], rank(s), busy);
        KeptChain(rank, rank(s), k, l, Cached());
        tri := Or3(tri, t);
        i := i + 1;
      }
      assert prompts[..i] == prompts;
    }

    // sym_get_default_prop
    method FindDefault(s: Sym, ghost busy: set<Sym>) returns (d: Option<Default>)
      requires Valid(busy)
      requires forall b :: b in busy ==> rank(b) >= rank(s)
      modifies this`valid, this`curr, this`visible, this`selected
      ensures Valid(busy) && Kept(rank, rank(s), old(Cached()), Cached())
      ensures d == FirstVisible(entry(s).defaults, Meaning())
      ensures d.Some? ==> ExprBelow(d.value.value, rank, rank(s))
      decreases rank(s), 1, 0
    {
      ghost var v, k := Meaning(), Cached();
      var defaults := entry(s).defaults;
      var i := 0;
      while i < |defaults|
        invariant 0 <= i <= |defaults|
        invariant Valid(busy) && Kept(rank, rank(s), k, Cached())
        invariant FirstVisible(defaults, v) == FirstVisible(defaults[i..], v)
      {
        ghost var l := Cached();
        var t := CalcExprOpt(defaults[i].visible, rank(s), busy);
        KeptChain(rank, rank(s), k, l, Cached());
        if t != No {
          return Some(defaults[i]);
        }
        assert defaults[i..][1..] == defaults[i + 1..];
        i := i + 1;
      }
      return None;
    }

    method CalcDefault(s: Sym, ghost busy: set<Sym>) returns (t: Tristate)
      requires Valid(busy)
      requires forall b :: b in busy ==> rank(b) >= rank(s)
      modifies this`valid, this`curr, this`visible, this`selected
      ensures Valid(busy) && Kept(rank, rank(s), old(Cached()), Cached())
      ensures t == DefaultValue(Cfg(), s, Meaning())
      decreases rank(s), 1, 1
    {
      ghost var k := Cached();
      var d := FindDefault(s, busy);
      ghost var l := Cached();
      t := No;
      if d.Some? {
        t := CalcExprOpt(d.value.value, rank(s), busy);
        KeptChain(rank, rank(s), k, l, Cached());
      }
    }

    // expr_calc_value
    method CalcExprOpt(e: ExprOpt, ghost n: nat, ghost busy: set<Sym>) returns (t: Tristate)
      requires Valid(busy) && ExprBelow(e, rank, n)
      requires forall b :: b in busy ==> rank(b) >= n
      modifies this`valid, this`curr, this`visible, this`selected
      ensures Valid(busy) && Kept(rank, n, old(Cached()), Cached())
      ensures t == EvalOpt(e, Meaning())
      decreases n, 0, 2
    {
      if e.None? {
        return Yes;
      }
      t := CalcExpr(e.value, n, busy);
    }

    method CalcExpr(e: Expr, ghost n: nat, ghost busy: set<Sym>) returns (t: Tristate)
      requires Valid(busy) && Below(e, rank, n)
      requires forall b :: b in busy ==> rank(b) >= n
      modifies this`valid, this`curr, this`visible, this`selected
      ensures Valid(busy) && Kept(rank, n, old(Cached()), Cached())
      ensures t == Eval(e, Meaning())
      decreases n, 0, 1, e
    {
      ghost var k := Cached();
      match e
      case Symbol(s) =>
        CalcValue(s, busy);
        KeptForBut(rank, s, k, Cached());
        t := curr[s].tri;
      case Not(a) =>
        t := CalcExpr(a, n, busy);
        t := Not3(t);
      case Bin(op, l, r) =>
        var x := CalcExpr(l, n, busy);
        ghost var m := Cached();
        var y := CalcExpr(r, n, busy);
        KeptChain(rank, n, k, m, Cached());
        t := Op3(op, x, y);
      case Equal(a, b) =>
        var same := CompareStrings(a, b, n, busy);
        t := Bool3(same);
      case Unequal(a, b) =>
        var same := CompareStrings(a, b, n, busy);
        t := Bool3(!same);
    }

    method CompareStrings(a: Sym, b: Sym, ghost n: nat, ghost busy: set<Sym>) returns (same: bool)
      requires Valid(busy) && rank(a) < n && rank(b) < n
      requires forall b :: b in busy ==> rank(b) >= n
      modifies this`valid, this`curr, this`visible, this`selected
      ensures Valid(busy) && Kept(rank, n, old(Cached()), Cached())
      ensures same == (Meaning().str(a) == Meaning().str(b))
      decreases n, 0, 0
    {
      ghost var k := Cached();
      CalcValue(a, busy);
      ghost var m := Cached();
      KeptForBut(rank, a, k, m);
      CalcValue(b, busy);
      KeptForBut(rank, b, m, Cached());
      KeptChain(rank, n, k, m, Cached());
      assert a in valid && a !in busy;
      same := StringValue(a, curr[a]) == StringValue(b, curr[b]);
    }

    // The symbols whose flag sym_clear_all_valid leaves alone: y, m and n are in no
    // hash chain, and S_OTHER symbols are skipped.
    static predicate StaysValid(s: Sym) {
      IsLiteral(s) || s.Type() == OtherType
    }

    // sym_clear_all_valid
    method ClearAllValid()
      modifies this`valid
      ensures valid == set s | s in old(valid) && StaysValid(s)
    {
      valid := set s | s in valid && StaysValid(s);
    }

    // After clearing, sym_calc_value may be called on any symbols in any order, even if the
    // user values have changed since the cache was filled, under the configuration before.
    method Recalculate(order: seq<Sym>, ghost before: Configuration)
      requires Consistent(before, rank, Cached(), {}) && Acyclic(Cfg(), rank)
      modifies this`valid, this`curr, this`visible, this`selected
      ensures Valid({})
      ensures forall i :: 0 <= i < |order| ==> order[i] in valid
      ensures forall s :: s in valid ==> Find(curr, s) == Some(ValueOf(Cfg(), rank, s))
    {
      Forget(before);
      CalcAll(order);
    }

    method CalcAll(order: seq<Sym>)
      requires Valid({})
      modifies this`valid, this`curr, this`visible, this`selected
      ensures Valid({})
      ensures forall i :: 0 <= i < |order| ==> order[i] in valid
      ensures forall s :: s in valid ==> Find(curr, s) == Some(ValueOf(Cfg(), rank, s))
    {
      var i := 0;
      while i < |order|
        invariant 0 <= i <= |order|
        invariant Valid({})
        invariant forall j :: 0 <= j < i ==> order[j] in valid
      {
        CalcNext(order[i]);
        i := i + 1;
      }
      ValidKnown(Cfg(), rank, Cached());
    }

    method Forget(ghost before: Configuration)
      requires Consistent(before, rank, Cached(), {}) && Acyclic(Cfg(), rank)
      modifies this`valid
      ensures Valid({}) && valid == set s | s in old(valid) && StaysValid(s)
    {
      ghost var k := Cached();
      ClearAllValid();
      ClearedConsistent(before, Cfg(), rank, k, Cached());
    }

    method CalcNext(s: Sym)
      requires Valid({})
      modifies this`valid, this`curr, this`visible, this`selected
      ensures Valid({}) && s in valid && old(valid) <= valid
    {
      CalcValue(s, {});
    }

    // sym_set_tristate_value of a symbol that is neither a choice nor a choice value
    method SetTristate(s: Sym, val: Tristate) returns (ok: bool)
      requires Valid({}) && s in valid && IsTristate(s)
      modifies this`valid, this`user
      ensures Valid({})
      ensures ok <==> ValueOf(WithUser(old(Cfg()), s, val), rank, s).tri == val
      ensures Cfg() == if ok then WithUser(old(Cfg()), s, val) else old(Cfg())
      ensures !ok ==> valid == old(valid)
    {
      ghost var c, k := Cfg(), Cached();
      var inRange := InRange(s, val);
      var oldval := curr[s].tri;
      WithUserSameBut(c, rank, s, val);
      AcceptedIffReported(c, WithUser(c, s, val), rank, k, s, val);
      if oldval != val && !inRange {
        return false;
      }
      StoreUser(s, val, oldval != val);
      return true;
    }

    // The end of sym_set_tristate_value: store the user value and forget all cached
    // values unless the symbol has that value already.
    method StoreUser(s: Sym, val: Tristate, changed: bool)
      requires Valid({})
      requires !changed ==> ValueOf(WithUser(Cfg(), s, val), rank, s) == ValueOf(Cfg(), rank, s)
      modifies this`valid, this`user
      ensures Valid({}) && Cfg() == WithUser(old(Cfg()), s, val)
      ensures !changed ==> valid == old(valid)
    {
      ghost var c, k := Cfg(), Cached();
      WithUserSameBut(c, rank, s, val);
      user := user[s := val];
      if changed {
        ClearAllValid();
        ClearedConsistent(c, Cfg(), rank, k, Cached());
      } else {
        SameValueConsistent(c, Cfg(), rank, s, k);
      }
    }

    // sym_tristate_within_range
    method InRange(s: Sym, val: Tristate) returns (ok: bool)
      requires Valid({}) && s in valid && IsTristate(s)
      ensures s in curr && s in visible && s in selected
      ensures UpToDate(Cfg(), rank, Cached(), s)
      ensures ok == WithinRange(Cfg(), s, visible[s], selected[s], val)
    {
      assert UpToDate(Cfg(), rank, Cached(), s);
      FieldsFound(Cfg(), rank, Cached(), s);
      ok := IsBetween(s, visible[s], selected[s], val);
    }

    method IsBetween(s: Sym, vis: Tristate, sel: Tristate, val: Tristate) returns (ok: bool)
      requires IsTristate(s)
      ensures ok == WithinRange(Cfg(), s, vis, sel, val)
    {
      if vis == No {
        return false;
      }
      if (s.Type() == BooleanType || modules == No) && val == Mod {
        return false;
      }
      if vis.Rank() <= sel.Rank() {
        return false;
      }
      return val.Rank() >= sel.Rank() && val.Rank() <= vis.Rank();
    }
  }
}
