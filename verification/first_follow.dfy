/** FIRST and FOLLOW sets (Grammar::computeFirstSets, Grammar::computeFollowSets).

    Both are whole-grammar rescans repeated until a pass inserts nothing. A pass visits the
    productions in order and its insertions are visible to the rest of the same pass. Each
    computation is related to an independent, declarative statement of the FIRST or FOLLOW
    equations: its result solves them, and it is the least solution. */
module FirstFollow {
  import opened Symbols
  import opened GrammarModel

  /** `map<string, set<string>>` read through `operator[]`: a missing key reads as empty. */
  type SymbolSets = map<string, set<string>>

  function Lookup(m: SymbolSets, k: string): set<string> {
    if k in m then m[k] else {}
  }

  /** `m1` is pointwise included in `m2`. */
  ghost predicate Below(m1: SymbolSets, m2: SymbolSets) {
    forall k :: Lookup(m1, k) <= Lookup(m2, k)
  }

  /** `m1` and `m2` hold the same sets. */
  ghost predicate Same(m1: SymbolSets, m2: SymbolSets) {
    forall k :: Lookup(m1, k) == Lookup(m2, k)
  }

  /** Every set lies in `vals`, and only keys from `keys` hold a non-empty set. */
  ghost predicate Within(m: SymbolSets, keys: set<string>, vals: set<string>) {
    forall k :: Lookup(m, k) <= vals && (Lookup(m, k) != {} ==> k in keys)
  }

  /** The (key, value) pairs still absent from `m`: the measure of both fixed-point loops. */
  ghost function Missing(m: SymbolSets, keys: set<string>, vals: set<string>): set<(string, string)> {
    set k, v | k in keys && v in vals && v !in Lookup(m, k) :: (k, v)
  }

  /** The sets being computed together with the loop's `updated` flag. */
  datatype Update = Update(sets: SymbolSets, updated: bool)

  /** The state of a right-hand-side scan: the sets so far and `allDeriveEpsilon`. */
  datatype Scan = Scan(u: Update, allEpsilon: bool)

  /** `updated |= m[key].insert(v).second` for every `v` in `vals`. */
  function Add(u: Update, key: string, vals: set<string>): (r: Update)
    ensures Lookup(r.sets, key) == Lookup(u.sets, key) + vals
    ensures forall k :: k != key ==> Lookup(r.sets, k) == Lookup(u.sets, k)
    ensures r.updated <==> u.updated || !(vals <= Lookup(u.sets, key))
  {
    if vals <= Lookup(u.sets, key) then u
    else Update(u.sets[key := Lookup(u.sets, key) + vals], true)
  }

  /** `r` came from `u` by insertions only, and its flag records exactly whether any of
      them inserted something new. */
  ghost predicate Grows(u: Update, r: Update) {
    && Below(u.sets, r.sets)
    && (u.updated ==> r.updated)
    && (!r.updated ==> r.sets == u.sets)
    && (r.updated && !u.updated ==> !Same(u.sets, r.sets))
  }

  lemma AddGrows(u: Update, key: string, vals: set<string>)
    ensures Grows(u, Add(u, key, vals))
  {
    var r := Add(u, key, vals);
    if r.updated && !u.updated {
      assert Lookup(r.sets, key) != Lookup(u.sets, key);
    }
  }

  lemma GrowsTransitive(u: Update, v: Update, w: Update)
    requires Grows(u, v) && Grows(v, w)
    ensures Grows(u, w)
  {
    if w.updated && !u.updated && v.updated {
      var k :| Lookup(u.sets, k) != Lookup(v.sets, k);
      assert Lookup(u.sets, k) != Lookup(w.sets, k);
    }
  }

  lemma AddBelow(u: Update, key: string, vals: set<string>, bound: SymbolSets)
    requires Below(u.sets, bound) && vals <= Lookup(bound, key)
    ensures Below(Add(u, key, vals).sets, bound)
  {
  }

  /** When sets only grew within a finite universe, a change leaves fewer pairs missing. */
  lemma MissingShrinks(m: SymbolSets, m': SymbolSets, keys: set<string>, vals: set<string>)
    requires Below(m, m') && !Same(m, m') && Within(m', keys, vals)
    ensures Missing(m', keys, vals) < Missing(m, keys, vals)
  {
    var k :| Lookup(m, k) != Lookup(m', k);
    var v :| v in Lookup(m', k) && v !in Lookup(m, k);
    assert (k, v) in Missing(m, keys, vals) - Missing(m', keys, vals);
  }

  // ---------------------------------------------------------------------------------------
  // FIRST

  /** What one production `left -> rhs` contributes to FIRST(left) (without the final `#`),
      read against fixed sets `m`: the scan stops at the first terminal, or at the first
      other symbol whose set lacks `#`; a `#` in the right-hand side is stepped over. */
  function FirstOf(m: SymbolSets, rhs: seq<string>): set<string>
    decreases |rhs|
  {
    if rhs == [] then {}
    else if rhs[0] == Epsilon then FirstOf(m, rhs[1..])
    else if IsTerminal(rhs[0]) then {rhs[0]}
    else (Lookup(m, rhs[0]) - {Epsilon})
         + (if Epsilon in Lookup(m, rhs[0]) then FirstOf(m, rhs[1..]) else {})
  }

  /** The scan of `rhs` runs to the end, so `#` joins FIRST(left). */
  predicate Vanishes(m: SymbolSets, rhs: seq<string>)
    decreases |rhs|
  {
    if rhs == [] then true
    else if rhs[0] == Epsilon then Vanishes(m, rhs[1..])
    else if IsTerminal(rhs[0]) then false
    else Epsilon in Lookup(m, rhs[0]) && Vanishes(m, rhs[1..])
  }

  /** The FIRST equation of one production. */
  predicate FirstHolds(m: SymbolSets, p: Production) {
    && FirstOf(m, p.right) <= Lookup(m, p.left)
    && (Vanishes(m, p.right) ==> Epsilon in Lookup(m, p.left))
  }

  /** `m` solves the FIRST equations of every production. */
  predicate SatisfiesFirst(g: Grammar, m: SymbolSets) {
    forall p | p in g.productions :: FirstHolds(m, p)
  }

  function FirstUniverse(g: Grammar): set<string> {
    {Epsilon} + RhsTerminals(g.productions)
  }

  /** The inner loop of computeFirstSets over one right-hand side. */
  function FirstScan(u: Update, left: string, rhs: seq<string>): Scan
    decreases |rhs|
  {
    if rhs == [] then Scan(u, true)
    else if rhs[0] == Epsilon then FirstScan(u, left, rhs[1..])
    else if IsTerminal(rhs[0]) then Scan(Add(u, left, {rhs[0]}), false)
    else
      var u' := Add(u, left, Lookup(u.sets, rhs[0]) - {Epsilon});
      if Epsilon in Lookup(u'.sets, rhs[0]) then FirstScan(u', left, rhs[1..])
      else Scan(u', false)
  }

  /** One production of a computeFirstSets pass. */
  function FirstProduction(u: Update, p: Production): Update {
    var s := FirstScan(u, p.left, p.right);
    if s.allEpsilon then Add(s.u, p.left, {Epsilon}) else s.u
  }

  function FirstPassFrom(ps: seq<Production>, u: Update): Update
    decreases |ps|
  {
    if ps == [] then u else FirstPassFrom(ps[1..], FirstProduction(u, ps[0]))
  }

  /** One pass of the `while (updated)` loop of computeFirstSets, starting with
      `updated = false`. */
  function FirstPass(g: Grammar, m: SymbolSets): Update {
    FirstPassFrom(g.productions, Update(m, false))
  }

  lemma {:induction false} FirstScanGrows(u: Update, left: string, rhs: seq<string>, keys: set<string>, univ: set<string>)
    ensures Grows(u, FirstScan(u, left, rhs).u)
    ensures Within(u.sets, keys, univ) && left in keys && TerminalsOf(rhs) <= univ
            ==> Within(FirstScan(u, left, rhs).u.sets, keys, univ)
    decreases |rhs|
  {
    if rhs == [] {
    } else if rhs[0] == Epsilon {
      FirstScanGrows(u, left, rhs[1..], keys, univ);
      assert TerminalsOf(rhs[1..]) <= TerminalsOf(rhs);
    } else if IsTerminal(rhs[0]) {
      AddGrows(u, left, {rhs[0]});
    } else {
      var u' := Add(u, left, Lookup(u.sets, rhs[0]) - {Epsilon});
      AddGrows(u, left, Lookup(u.sets, rhs[0]) - {Epsilon});
      if Epsilon in Lookup(u'.sets, rhs[0]) {
        FirstScanGrows(u', left, rhs[1..], keys, univ);
        GrowsTransitive(u, u', FirstScan(u', left, rhs[1..]).u);
        assert TerminalsOf(rhs[1..]) <= TerminalsOf(rhs);
      }
    }
  }

  /** A scan starting from an unflagged state inserts nothing exactly when the production's
      contribution is already present, and then reports whether the right-hand side
      vanishes. */
  lemma {:induction false} FirstScanQuiet(u: Update, left: string, rhs: seq<string>)
    requires !u.updated
    ensures !FirstScan(u, left, rhs).u.updated <==> FirstOf(u.sets, rhs) <= Lookup(u.sets, left)
    ensures !FirstScan(u, left, rhs).u.updated ==> FirstScan(u, left, rhs).allEpsilon == Vanishes(u.sets, rhs)
    decreases |rhs|
  {
    if rhs == [] {
    } else if rhs[0] == Epsilon {
      FirstScanQuiet(u, left, rhs[1..]);
    } else if IsTerminal(rhs[0]) {
    } else {
      var u' := Add(u, left, Lookup(u.sets, rhs[0]) - {Epsilon});
      if u'.updated {
        if Epsilon in Lookup(u'.sets, rhs[0]) {
          FirstScanGrows(u', left, rhs[1..], {}, {});
        }
      } else {
        assert u' == u;
        if Epsilon in Lookup(u.sets, rhs[0]) {
          FirstScanQuiet(u, left, rhs[1..]);
        }
      }
    }
  }

  /** Scanning against sets below a solution `bound` stays below it. */
  lemma {:induction false} FirstScanBelow(u: Update, left: string, rhs: seq<string>, bound: SymbolSets)
    requires Below(u.sets, bound) && FirstOf(bound, rhs) <= Lookup(bound, left)
    ensures Below(FirstScan(u, left, rhs).u.sets, bound)
    ensures FirstScan(u, left, rhs).allEpsilon ==> Vanishes(bound, rhs)
    decreases |rhs|
  {
    if rhs == [] {
    } else if rhs[0] == Epsilon {
      FirstScanBelow(u, left, rhs[1..], bound);
    } else if IsTerminal(rhs[0]) {
      AddBelow(u, left, {rhs[0]}, bound);
    } else {
      var vals := Lookup(u.sets, rhs[0]) - {Epsilon};
      AddBelow(u, left, vals, bound);
      var u' := Add(u, left, vals);
      if Epsilon in Lookup(u'.sets, rhs[0]) {
        assert Epsilon in Lookup(bound, rhs[0]);
        FirstScanBelow(u', left, rhs[1..], bound);
      }
    }
  }

  lemma FirstProductionGrows(u: Update, p: Production, keys: set<string>, univ: set<string>)
    ensures Grows(u, FirstProduction(u, p))
    ensures Within(u.sets, keys, univ) && p.left in keys && Epsilon in univ && TerminalsOf(p.right) <= univ
            ==> Within(FirstProduction(u, p).sets, keys, univ)
  {
    var s := FirstScan(u, p.left, p.right);
    FirstScanGrows(u, p.left, p.right, keys, univ);
    if s.allEpsilon {
      AddGrows(s.u, p.left, {Epsilon});
      GrowsTransitive(u, s.u, FirstProduction(u, p));
    }
  }

  lemma FirstProductionQuiet(u: Update, p: Production)
    requires !u.updated
    ensures !FirstProduction(u, p).updated <==> FirstHolds(u.sets, p)
    ensures !FirstProduction(u, p).updated ==> FirstProduction(u, p) == u
  {
    var s := FirstScan(u, p.left, p.right);
    FirstScanQuiet(u, p.left, p.right);
    FirstScanGrows(u, p.left, p.right, {}, {});
    if s.allEpsilon {
      AddGrows(s.u, p.left, {Epsilon});
    }
  }

  lemma FirstProductionBelow(u: Update, p: Production, bound: SymbolSets)
    requires Below(u.sets, bound) && FirstHolds(bound, p)
    ensures Below(FirstProduction(u, p).sets, bound)
  {
    var s := FirstScan(u, p.left, p.right);
    FirstScanBelow(u, p.left, p.right, bound);
    if s.allEpsilon {
      AddBelow(s.u, p.left, {Epsilon}, bound);
    }
  }

  lemma {:induction false} FirstPassGrows(ps: seq<Production>, u: Update, keys: set<string>, univ: set<string>)
    ensures Grows(u, FirstPassFrom(ps, u))
    ensures Within(u.sets, keys, univ) && Lefts(ps) <= keys && Epsilon in univ && RhsTerminals(ps) <= univ
            ==> Within(FirstPassFrom(ps, u).sets, keys, univ)
    decreases |ps|
  {
    if ps != [] {
      var u' := FirstProduction(u, ps[0]);
      FirstProductionGrows(u, ps[0], keys, univ);
      FirstPassGrows(ps[1..], u', keys, univ);
      GrowsTransitive(u, u', FirstPassFrom(ps[1..], u'));
      assert ps[0] in ps;
      assert Lefts(ps[1..]) <= Lefts(ps) && RhsTerminals(ps[1..]) <= RhsTerminals(ps) by {
        forall p | p in ps[1..] ensures p in ps { }
      }
      assert TerminalsOf(ps[0].right) <= RhsTerminals(ps);
    }
  }

  /** A pass inserts nothing exactly when its starting sets solve every production's FIRST
      equation; it then leaves the sets as they were. */
  lemma {:induction false} FirstPassQuiet(ps: seq<Production>, m: SymbolSets)
    ensures !FirstPassFrom(ps, Update(m, false)).updated <==> forall p | p in ps :: FirstHolds(m, p)
    ensures !FirstPassFrom(ps, Update(m, false)).updated ==> FirstPassFrom(ps, Update(m, false)) == Update(m, false)
    decreases |ps|
  {
    if ps != [] {
      var u := Update(m, false);
      var u' := FirstProduction(u, ps[0]);
      FirstProductionQuiet(u, ps[0]);
      if u'.updated {
        FirstPassGrows(ps[1..], u', {}, {});
      } else {
        FirstPassQuiet(ps[1..], m);
        assert forall p | p in ps :: p == ps[0] || p in ps[1..];
      }
    }
  }

  lemma {:induction false} FirstPassBelow(ps: seq<Production>, u: Update, bound: SymbolSets)
    requires Below(u.sets, bound) && forall p | p in ps :: FirstHolds(bound, p)
    ensures Below(FirstPassFrom(ps, u).sets, bound)
    decreases |ps|
  {
    if ps != [] {
      FirstProductionBelow(u, ps[0], bound);
      FirstPassBelow(ps[1..], FirstProduction(u, ps[0]), bound);
    }
  }

  /** Grammar::computeFirstSets. The result solves the FIRST equations, a further pass
      changes nothing, it is below every other solution, and it holds only `#` and
      terminals of right-hand sides, under left-hand sides. */
  method ComputeFirstSets(g: Grammar) returns (first: SymbolSets)
    ensures SatisfiesFirst(g, first)
    ensures FirstPass(g, first) == Update(first, false)
    ensures forall bound :: SatisfiesFirst(g, bound) ==> Below(first, bound)
    ensures forall k :: Lookup(first, k) <= FirstUniverse(g)
    ensures forall k :: Lookup(first, k) != {} ==> k in Lefts(g.productions)
  {
    var keys := Lefts(g.productions);
    var univ := FirstUniverse(g);
    first := map[];
    var updated := true;
    while updated
      invariant Within(first, keys, univ)
      invariant forall bound :: SatisfiesFirst(g, bound) ==> Below(first, bound)
      invariant !updated ==> FirstPass(g, first) == Update(first, false)
      decreases Missing(first, keys, univ), updated
    {
      var r := FirstPass(g, first);
      FirstPassGrows(g.productions, Update(first, false), keys, univ);
      forall bound | SatisfiesFirst(g, bound) ensures Below(r.sets, bound) {
        FirstPassBelow(g.productions, Update(first, false), bound);
      }
      if r.updated {
        MissingShrinks(first, r.sets, keys, univ);
      }
      first, updated := r.sets, r.updated;
    }
    FirstPassQuiet(g.productions, first);
  }

  // ---------------------------------------------------------------------------------------
  // FOLLOW

  /** What the remainder `beta` after a nonterminal occurrence contributes to its FOLLOW set:
      the scan stops at the first terminal, or at the first nonterminal whose FIRST set lacks
      `#`; symbols that are neither (such as `#`) are stepped over. */
  function FollowOf(g: Grammar, first: SymbolSets, beta: seq<string>): set<string>
    decreases |beta|
  {
    if beta == [] then {}
    else if IsTerminal(beta[0]) then {beta[0]}
    else if IsNonTerminal(g, beta[0]) then
      (Lookup(first, beta[0]) - {Epsilon})
      + (if Epsilon in Lookup(first, beta[0]) then FollowOf(g, first, beta[1..]) else {})
    else FollowOf(g, first, beta[1..])
  }

  /** The scan of `beta` runs to the end: FOLLOW of the left-hand side flows in. */
  predicate FollowVanishes(g: Grammar, first: SymbolSets, beta: seq<string>)
    decreases |beta|
  {
    if beta == [] then true
    else if IsTerminal(beta[0]) then false
    else if IsNonTerminal(g, beta[0]) then
      Epsilon in Lookup(first, beta[0]) && FollowVanishes(g, first, beta[1..])
    else FollowVanishes(g, first, beta[1..])
  }

  /** The FOLLOW equation of the occurrence `p.right[i]`. */
  predicate OccurrenceHolds(g: Grammar, first: SymbolSets, m: SymbolSets, p: Production, i: nat)
    requires i < |p.right|
  {
    IsNonTerminal(g, p.right[i]) ==>
      && FollowOf(g, first, p.right[i + 1..]) <= Lookup(m, p.right[i])
      && (FollowVanishes(g, first, p.right[i + 1..]) ==> Lookup(m, p.left) <= Lookup(m, p.right[i]))
  }

  predicate FollowHolds(g: Grammar, first: SymbolSets, m: SymbolSets, p: Production) {
    forall i | 0 <= i < |p.right| :: OccurrenceHolds(g, first, m, p, i)
  }

  /** `m` solves the FOLLOW equations: `$` follows the start symbol, and every nonterminal
      occurrence receives what may come after it. */
  predicate SatisfiesFollow(g: Grammar, first: SymbolSets, m: SymbolSets) {
    && EndMarker in Lookup(m, g.startSymbol)
    && forall p | p in g.productions :: FollowHolds(g, first, m, p)
  }

  function FirstValues(first: SymbolSets): set<string> {
    set k, v | k in first && v in first[k] :: v
  }

  function FollowUniverse(g: Grammar, first: SymbolSets): set<string> {
    {EndMarker} + RhsTerminals(g.productions) + (FirstValues(first) - {Epsilon})
  }

  /** The innermost loop of computeFollowSets, over the symbols after occurrence `x`. */
  function FollowScan(g: Grammar, first: SymbolSets, u: Update, x: string, beta: seq<string>): Scan
    decreases |beta|
  {
    if beta == [] then Scan(u, true)
    else if IsTerminal(beta[0]) then Scan(Add(u, x, {beta[0]}), false)
    else if IsNonTerminal(g, beta[0]) then
      var u' := Add(u, x, Lookup(first, beta[0]) - {Epsilon});
      if Epsilon in Lookup(first, beta[0]) then FollowScan(g, first, u', x, beta[1..])
      else Scan(u', false)
    else FollowScan(g, first, u, x, beta[1..])
  }

  /** The body of computeFollowSets for the symbol at position `i` of `p`'s right side. */
  function FollowOccurrence(g: Grammar, first: SymbolSets, u: Update, p: Production, i: nat): Update
    requires i < |p.right|
  {
    var x := p.right[i];
    if IsNonTerminal(g, x) then
      var s := FollowScan(g, first, u, x, p.right[i + 1..]);
      if s.allEpsilon then Add(s.u, x, Lookup(s.u.sets, p.left)) else s.u
    else u
  }

  function FollowProduction(g: Grammar, first: SymbolSets, u: Update, p: Production, i: nat): Update
    requires i <= |p.right|
    decreases |p.right| - i
  {
    if i == |p.right| then u
    else FollowProduction(g, first, FollowOccurrence(g, first, u, p, i), p, i + 1)
  }

  function FollowPassFrom(g: Grammar, first: SymbolSets, ps: seq<Production>, u: Update): Update
    decreases |ps|
  {
    if ps == [] then u
    else FollowPassFrom(g, first, ps[1..], FollowProduction(g, first, u, ps[0], 0))
  }

  /** One pass of the `while (updated)` loop of computeFollowSets. */
  function FollowPass(g: Grammar, first: SymbolSets, m: SymbolSets): Update {
    FollowPassFrom(g, first, g.productions, Update(m, false))
  }

  lemma AddTwice(u: Update, key: string, a: set<string>, b: set<string>)
    ensures Add(Add(u, key, a), key, b) == Add(u, key, a + b)
  {
    var l := Lookup(u.sets, key);
    if a <= l {
      if !(b <= l) {
        assert l + b == l + (a + b);
      }
    } else if b <= l + a {
      assert l + (a + b) == l + a;
    } else {
      var m1 := u.sets[key := l + a][key := l + a + b];
      var m2 := u.sets[key := l + (a + b)];
      assert l + a + b == l + (a + b);
      assert m1.Keys == m2.Keys;
      assert forall k | k in m1 :: m1[k] == m2[k];
      assert m1 == m2;
    }
  }

  /** The step-by-step scan of `beta` inserts exactly FollowOf(beta), in one go, and its
      `allDeriveEpsilon` is FollowVanishes(beta). */
  lemma {:induction false} FollowScanIsAdd(g: Grammar, first: SymbolSets, u: Update, x: string, beta: seq<string>)
    ensures FollowScan(g, first, u, x, beta) == Scan(Add(u, x, FollowOf(g, first, beta)), FollowVanishes(g, first, beta))
    decreases |beta|
  {
    if beta == [] {
    } else if IsTerminal(beta[0]) {
    } else if IsNonTerminal(g, beta[0]) {
      var a := Lookup(first, beta[0]) - {Epsilon};
      if Epsilon in Lookup(first, beta[0]) {
        FollowScanIsAdd(g, first, Add(u, x, a), x, beta[1..]);
        AddTwice(u, x, a, FollowOf(g, first, beta[1..]));
      } else {
        assert FollowOf(g, first, beta) == a;
      }
    } else {
      FollowScanIsAdd(g, first, u, x, beta[1..]);
    }
  }

  lemma FollowOfWithin(g: Grammar, first: SymbolSets, beta: seq<string>)
    ensures FollowOf(g, first, beta) <= TerminalsOf(beta) + (FirstValues(first) - {Epsilon})
    decreases |beta|
  {
    if beta != [] {
      FollowOfWithin(g, first, beta[1..]);
      assert TerminalsOf(beta[1..]) <= TerminalsOf(beta);
      if beta[0] in first {
        assert first[beta[0]] <= FirstValues(first);
      }
    }
  }

  lemma FollowOccurrenceFacts(g: Grammar, first: SymbolSets, u: Update, p: Production, i: nat, keys: set<string>, univ: set<string>)
    requires i < |p.right|
    ensures Grows(u, FollowOccurrence(g, first, u, p, i))
    ensures Within(u.sets, keys, univ) && Elems(g.nonTerminals) <= keys
            && TerminalsOf(p.right) + (FirstValues(first) - {Epsilon}) <= univ
            ==> Within(FollowOccurrence(g, first, u, p, i).sets, keys, univ)
    ensures !u.updated ==>
            (!FollowOccurrence(g, first, u, p, i).updated <==> OccurrenceHolds(g, first, u.sets, p, i))
    ensures !FollowOccurrence(g, first, u, p, i).updated ==> FollowOccurrence(g, first, u, p, i) == u
  {
    var x := p.right[i];
    if IsNonTerminal(g, x) {
      var beta := p.right[i + 1..];
      FollowScanIsAdd(g, first, u, x, beta);
      var u1 := Add(u, x, FollowOf(g, first, beta));
      AddGrows(u, x, FollowOf(g, first, beta));
      FollowOfWithin(g, first, beta);
      assert TerminalsOf(beta) <= TerminalsOf(p.right);
      if FollowVanishes(g, first, beta) {
        AddGrows(u1, x, Lookup(u1.sets, p.left));
        GrowsTransitive(u, u1, Add(u1, x, Lookup(u1.sets, p.left)));
      }
    }
  }

  lemma FollowOccurrenceBelow(g: Grammar, first: SymbolSets, u: Update, p: Production, i: nat, bound: SymbolSets)
    requires i < |p.right|
    requires Below(u.sets, bound) && OccurrenceHolds(g, first, bound, p, i)
    ensures Below(FollowOccurrence(g, first, u, p, i).sets, bound)
  {
    var x := p.right[i];
    if IsNonTerminal(g, x) {
      var beta := p.right[i + 1..];
      FollowScanIsAdd(g, first, u, x, beta);
      var u1 := Add(u, x, FollowOf(g, first, beta));
      AddBelow(u, x, FollowOf(g, first, beta), bound);
      if FollowVanishes(g, first, beta) {
        AddBelow(u1, x, Lookup(u1.sets, p.left), bound);
      }
    }
  }

  lemma {:induction false} FollowProductionFacts(g: Grammar, first: SymbolSets, u: Update, p: Production, i: nat, keys: set<string>, univ: set<string>)
    requires i <= |p.right|
    ensures Grows(u, FollowProduction(g, first, u, p, i))
    ensures Within(u.sets, keys, univ) && Elems(g.nonTerminals) <= keys
            && TerminalsOf(p.right) + (FirstValues(first) - {Epsilon}) <= univ
            ==> Within(FollowProduction(g, first, u, p, i).sets, keys, univ)
    ensures !u.updated ==>
            (!FollowProduction(g, first, u, p, i).updated
             <==> forall j | i <= j < |p.right| :: OccurrenceHolds(g, first, u.sets, p, j))
    ensures !FollowProduction(g, first, u, p, i).updated ==> FollowProduction(g, first, u, p, i) == u
    decreases |p.right| - i
  {
    if i < |p.right| {
      var u' := FollowOccurrence(g, first, u, p, i);
      FollowOccurrenceFacts(g, first, u, p, i, keys, univ);
      FollowProductionFacts(g, first, u', p, i + 1, keys, univ);
      GrowsTransitive(u, u', FollowProduction(g, first, u', p, i + 1));
    }
  }

  lemma {:induction false} FollowProductionBelow(g: Grammar, first: SymbolSets, u: Update, p: Production, i: nat, bound: SymbolSets)
    requires i <= |p.right|
    requires Below(u.sets, bound) && FollowHolds(g, first, bound, p)
    ensures Below(FollowProduction(g, first, u, p, i).sets, bound)
    decreases |p.right| - i
  {
    if i < |p.right| {
      FollowOccurrenceBelow(g, first, u, p, i, bound);
      FollowProductionBelow(g, first, FollowOccurrence(g, first, u, p, i), p, i + 1, bound);
    }
  }

  lemma {:induction false} FollowPassFacts(g: Grammar, first: SymbolSets, ps: seq<Production>, u: Update, keys: set<string>, univ: set<string>)
    ensures Grows(u, FollowPassFrom(g, first, ps, u))
    ensures Within(u.sets, keys, univ) && Elems(g.nonTerminals) <= keys
            && RhsTerminals(ps) + (FirstValues(first) - {Epsilon}) <= univ
            ==> Within(FollowPassFrom(g, first, ps, u).sets, keys, univ)
    ensures !u.updated ==>
            (!FollowPassFrom(g, first, ps, u).updated <==> forall p | p in ps :: FollowHolds(g, first, u.sets, p))
    ensures !FollowPassFrom(g, first, ps, u).updated ==> FollowPassFrom(g, first, ps, u) == u
    decreases |ps|
  {
    if ps != [] {
      var u' := FollowProduction(g, first, u, ps[0], 0);
      FollowProductionFacts(g, first, u, ps[0], 0, keys, univ);
      FollowPassFacts(g, first, ps[1..], u', keys, univ);
      GrowsTransitive(u, u', FollowPassFrom(g, first, ps[1..], u'));
      assert ps[0] in ps;
      assert RhsTerminals(ps[1..]) <= RhsTerminals(ps) by {
        forall p | p in ps[1..] ensures p in ps { }
      }
      assert TerminalsOf(ps[0].right) <= RhsTerminals(ps) by {
        assert ps[0] in ps;
      }
      assert forall p | p in ps :: p == ps[0] || p in ps[1..];
    }
  }

  lemma {:induction false} FollowPassBelow(g: Grammar, first: SymbolSets, ps: seq<Production>, u: Update, bound: SymbolSets)
    requires Below(u.sets, bound) && forall p | p in ps :: FollowHolds(g, first, bound, p)
    ensures Below(FollowPassFrom(g, first, ps, u).sets, bound)
    decreases |ps|
  {
    if ps != [] {
      FollowProductionBelow(g, first, u, ps[0], 0, bound);
      FollowPassBelow(g, first, ps[1..], FollowProduction(g, first, u, ps[0], 0), bound);
    }
  }

  /** Grammar::computeFollowSets, starting from empty FOLLOW sets. `$` follows the start
      symbol, no FOLLOW set holds `#`, the result solves the FOLLOW equations, a further pass
      changes nothing, and it is below every other solution. */
  method ComputeFollowSets(g: Grammar, first: SymbolSets) returns (follow: SymbolSets)
    ensures EndMarker in Lookup(follow, g.startSymbol)
    ensures forall k :: Epsilon !in Lookup(follow, k)
    ensures SatisfiesFollow(g, first, follow)
    ensures FollowPass(g, first, follow) == Update(follow, false)
    ensures forall bound :: SatisfiesFollow(g, first, bound) ==> Below(follow, bound)
    ensures forall k :: Lookup(follow, k) <= FollowUniverse(g, first)
  {
    var keys := {g.startSymbol} + Elems(g.nonTerminals);
    var univ := FollowUniverse(g, first);
    follow := map[g.startSymbol := {EndMarker}];
    var updated := true;
    while updated
      invariant Within(follow, keys, univ)
      invariant EndMarker in Lookup(follow, g.startSymbol)
      invariant forall bound :: SatisfiesFollow(g, first, bound) ==> Below(follow, bound)
      invariant !updated ==> FollowPass(g, first, follow) == Update(follow, false)
      decreases Missing(follow, keys, univ), updated
    {
      var r := FollowPass(g, first, follow);
      FollowPassFacts(g, first, g.productions, Update(follow, false), keys, univ);
      forall bound | SatisfiesFollow(g, first, bound) ensures Below(r.sets, bound) {
        FollowPassBelow(g, first, g.productions, Update(follow, false), bound);
      }
      if r.updated {
        MissingShrinks(follow, r.sets, keys, univ);
      }
      follow, updated := r.sets, r.updated;
    }
    FollowPassFacts(g, first, g.productions, Update(follow, false), keys, univ);
  }
}
