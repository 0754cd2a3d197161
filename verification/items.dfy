/** LR(0) items and the two item-set operations, closure (Grammar::calculateClosure) and
    goto (Grammar::computeGoto). Item sets are sequences: their order is the order in
    which the source appends items, and it matters because states are compared as
    sequences. */
module Items {
  import opened GrammarModel

  /** A production `lhs -> rhs` with a dot before position `dot` of `rhs`. */
  datatype LR0Item = LR0Item(lhs: string, rhs: seq<string>, dot: nat)

  /** LR0Item::isComplete: the dot is at the end, so no symbol follows it; before the end
      the next symbol is the one under the dot. */
  predicate IsComplete(it: LR0Item)
    ensures IsComplete(it) ==> NextSymbol(it) == ""
    ensures !IsComplete(it) && it.dot < |it.rhs| ==> NextSymbol(it) == it.rhs[it.dot]
  {
    it.dot == |it.rhs|
  }

  /** LR0Item::getNextSymbol: the symbol after the dot, or "" at the end. */
  function NextSymbol(it: LR0Item): (r: string)
    ensures it.dot < |it.rhs| ==> r == it.rhs[it.dot]
    ensures it.dot >= |it.rhs| ==> r == ""
  {
    if it.dot < |it.rhs| then it.rhs[it.dot] else ""
  }

  /** An item of `g`: one of its productions, with the dot inside or at the end. */
  predicate ItemOf(g: Grammar, it: LR0Item) {
    Production(it.lhs, it.rhs) in g.productions && it.dot <= |it.rhs|
  }

  /** All items of `g`: finitely many. */
  function ItemUniverse(g: Grammar): set<LR0Item> {
    set p, d | p in g.productions && 0 <= d <= |p.right| :: LR0Item(p.left, p.right, d)
  }

  /** The items with the dot at the start, which closure may add. */
  function StartingItems(g: Grammar): set<LR0Item> {
    set p | p in g.productions :: LR0Item(p.left, p.right, 0)
  }

  lemma ItemOfInUniverse(g: Grammar, it: LR0Item)
    requires ItemOf(g, it)
    ensures it in ItemUniverse(g)
  {
    var p := Production(it.lhs, it.rhs);
    assert it == LR0Item(p.left, p.right, it.dot);
  }

  function ItemSet(s: seq<LR0Item>): set<LR0Item> {
    set x | x in s
  }

  predicate Distinct(s: seq<LR0Item>) {
    forall i, j :: 0 <= i < j < |s| ==> s[i] != s[j]
  }

  lemma DistinctTail(s: seq<LR0Item>)
    requires Distinct(s) && s != []
    ensures Distinct(s[1..]) && s[0] !in s[1..]
  {
    forall i, j | 0 <= i < j < |s[1..]| ensures s[1..][i] != s[1..][j] {
      assert s[1..][i] == s[i + 1] && s[1..][j] == s[j + 1];
    }
    forall j | 0 <= j < |s[1..]| ensures s[1..][j] != s[0] {
      assert s[1..][j] == s[j + 1];
    }
  }

  /** `b` is `a` followed by items that each occur nowhere before them. */
  predicate Extends(a: seq<LR0Item>, b: seq<LR0Item>) {
    && |a| <= |b|
    && b[..|a|] == a
    && forall k | |a| <= k < |b| :: b[k] !in b[..k]
  }

  lemma ExtendsTransitive(a: seq<LR0Item>, b: seq<LR0Item>, c: seq<LR0Item>)
    requires Extends(a, b) && Extends(b, c)
    ensures Extends(a, c)
  {
    assert c[..|a|] == c[..|b|][..|a|];
  }

  lemma ExtendsDistinct(a: seq<LR0Item>, b: seq<LR0Item>)
    requires Extends(a, b) && Distinct(a)
    ensures Distinct(b)
  {
    forall i, j | 0 <= i < j < |b| ensures b[i] != b[j] {
      if j < |a| {
        assert b[i] == a[i] && b[j] == a[j];
      } else {
        assert b[i] in b[..j];
      }
    }
  }

  /** Every production of the nonterminal after the dot of `it` has its starting item in `cl`. */
  predicate ItemClosed(g: Grammar, cl: seq<LR0Item>, it: LR0Item) {
    var n := NextSymbol(it);
    n != "" && IsNonTerminal(g, n) ==>
      forall p | p in g.productions && p.left == n :: LR0Item(n, p.right, 0) in cl
  }

  /** Closed under closure: nothing more would be added. */
  predicate Closed(g: Grammar, cl: seq<LR0Item>) {
    forall it | it in cl :: ItemClosed(g, cl, it)
  }

  /** `it` is a starting item of a production whose left side is a nonterminal standing
      after the dot of some item of `before`. */
  predicate JustifiedBy(g: Grammar, before: seq<LR0Item>, it: LR0Item) {
    && it.dot == 0
    && Production(it.lhs, it.rhs) in g.productions
    && IsNonTerminal(g, it.lhs)
    && exists j :: 0 <= j < |before| && NextSymbol(before[j]) == it.lhs
  }

  lemma ClosedGrows(g: Grammar, cl: seq<LR0Item>, r: seq<LR0Item>, it: LR0Item)
    requires |cl| <= |r| && r[..|cl|] == cl && ItemClosed(g, cl, it)
    ensures ItemClosed(g, r, it)
  {
    forall x | x in cl ensures x in r {
      var k :| 0 <= k < |cl| && cl[k] == x;
      assert r[k] == x;
    }
  }

  lemma JustifiedGrows(g: Grammar, r: seq<LR0Item>, r': seq<LR0Item>, from: nat)
    requires from <= |r| <= |r'| && r'[..|r|] == r
    requires forall k | from <= k < |r| :: JustifiedBy(g, r[..k], r[k])
    ensures forall k | from <= k < |r| :: JustifiedBy(g, r'[..k], r'[k])
  {
    forall k | from <= k < |r| ensures JustifiedBy(g, r'[..k], r'[k]) {
      assert r'[..k] == r[..k];
      assert r'[k] == r[k];
    }
  }

  /** Appending new starting items leaves fewer starting items to add: the measure of
      both closure loops. */
  lemma StartingItemsShrink(g: Grammar, cl: seq<LR0Item>, r: seq<LR0Item>)
    requires Extends(cl, r)
    requires forall k | |cl| <= k < |r| :: r[k].dot == 0 && Production(r[k].lhs, r[k].rhs) in g.productions
    ensures |r| == |cl| ==> r == cl
    ensures StartingItems(g) - ItemSet(r) <= StartingItems(g) - ItemSet(cl)
    ensures |r| > |cl| ==> StartingItems(g) - ItemSet(r) < StartingItems(g) - ItemSet(cl)
  {
    assert ItemSet(cl) <= ItemSet(r) by {
      forall x | x in cl ensures x in r {
        var k :| 0 <= k < |cl| && cl[k] == x;
        assert r[k] == x;
      }
    }
    if |r| > |cl| {
      var it := r[|cl|];
      assert it in StartingItems(g) by {
        var p := Production(it.lhs, it.rhs);
        assert it == LR0Item(p.left, p.right, 0);
      }
      assert it !in ItemSet(cl) by {
        assert r[..|cl|] == cl;
      }
      assert it in ItemSet(r);
    }
  }

  /** An item sequence under construction and whether the current pass added to it. */
  datatype Grown = Grown(items: seq<LR0Item>, added: bool)

  /** The loop of calculateClosure over the productions, from position `j` on, adding the
      starting item of each production of `n` that is not yet in `cl`. */
  function AddItemsOf(g: Grammar, n: string, j: nat, cl: seq<LR0Item>, added: bool): (r: Grown)
    requires j <= |g.productions|
    ensures Extends(cl, r.items)
    ensures r.added <==> added || |r.items| > |cl|
    ensures forall k | |cl| <= k < |r.items| ::
              r.items[k].lhs == n && r.items[k].dot == 0 && Production(n, r.items[k].rhs) in g.productions
    ensures forall i | j <= i < |g.productions| && g.productions[i].left == n ::
              LR0Item(n, g.productions[i].right, 0) in r.items
    ensures (forall i | j <= i < |g.productions| && g.productions[i].left == n ::
              LR0Item(n, g.productions[i].right, 0) in cl) ==> r == Grown(cl, added)
    decreases |g.productions| - j
  {
    if j == |g.productions| then Grown(cl, added)
    else if g.productions[j].left == n then
      var it := LR0Item(n, g.productions[j].right, 0);
      if it in cl then AddItemsOf(g, n, j + 1, cl, added)
      else
        var r := AddItemsOf(g, n, j + 1, cl + [it], true);
        ExtendsTransitive(cl, cl + [it], r.items);
        assert r.items[..|cl| + 1] == cl + [it];
        assert r.items[|cl|] == it;
        assert g.productions[j] == Production(n, it.rhs);
        r
    else AddItemsOf(g, n, j + 1, cl, added)
  }

  /** Every item of `items` from position `i` on is closed in `items`. */
  predicate ClosedFrom(g: Grammar, items: seq<LR0Item>, i: nat) {
    forall k | i <= k < |items| :: ItemClosed(g, items, items[k])
  }

  /** Every item of `items` from position `from` on is called for by an earlier one. */
  predicate JustifiedFrom(g: Grammar, items: seq<LR0Item>, from: nat) {
    forall k | from <= k < |items| :: JustifiedBy(g, items[..k], items[k])
  }

  /** The facts a step of the closure scan needs: `s` is what the inner loop made of `cl` for
      the nonterminal after the dot of `cl[i]`, and `r` what the rest of the scan made of `s`. */
  lemma ScanStep(g: Grammar, cl: seq<LR0Item>, i: nat, added: bool, s: Grown, r: Grown)
    requires i < |cl|
    requires NextSymbol(cl[i]) != "" && IsNonTerminal(g, NextSymbol(cl[i]))
    requires Extends(cl, s.items) && (s.added <==> added || |s.items| > |cl|)
    requires forall k | |cl| <= k < |s.items| ::
               s.items[k].lhs == NextSymbol(cl[i]) && s.items[k].dot == 0
               && Production(s.items[k].lhs, s.items[k].rhs) in g.productions
    requires forall j | 0 <= j < |g.productions| && g.productions[j].left == NextSymbol(cl[i]) ::
               LR0Item(NextSymbol(cl[i]), g.productions[j].right, 0) in s.items
    requires ItemClosed(g, cl, cl[i]) ==> s == Grown(cl, added)
    requires Extends(s.items, r.items) && (r.added <==> s.added || |r.items| > |s.items|)
    requires ClosedFrom(g, r.items, i + 1) && JustifiedFrom(g, r.items, |s.items|)
    requires ClosedFrom(g, s.items, i + 1) ==> r == Grown(s.items, s.added)
    ensures Extends(cl, r.items) && (r.added <==> added || |r.items| > |cl|)
    ensures ClosedFrom(g, r.items, i) && JustifiedFrom(g, r.items, |cl|)
    ensures ClosedFrom(g, cl, i) ==> r == Grown(cl, added)
  {
    ExtendsTransitive(cl, s.items, r.items);
    assert r.items[..|s.items|] == s.items;
    assert s.items[i] == cl[i];
    assert ItemClosed(g, s.items, s.items[i]) by {
      var n := NextSymbol(cl[i]);
      forall p | p in g.productions && p.left == n ensures LR0Item(n, p.right, 0) in s.items {
        var j :| 0 <= j < |g.productions| && g.productions[j] == p;
      }
    }
    ClosedGrows(g, s.items, r.items, s.items[i]);
    assert r.items[i] == s.items[i];
    forall k | |cl| <= k < |s.items| ensures JustifiedBy(g, r.items[..k], r.items[k]) {
      assert r.items[..k] == s.items[..k];
      assert r.items[k] == s.items[k];
      assert s.items[..k][i] == cl[i];
    }
  }

  /** One pass of the `for (i ...)` loop of calculateClosure from position `i`. The bound is
      re-read on every iteration, so items appended during the pass are visited too. */
  function ClosureScan(g: Grammar, cl: seq<LR0Item>, i: nat, added: bool): (r: Grown)
    requires i <= |cl|
    ensures Extends(cl, r.items)
    ensures r.added <==> added || |r.items| > |cl|
    ensures ClosedFrom(g, r.items, i)
    ensures JustifiedFrom(g, r.items, |cl|)
    ensures ClosedFrom(g, cl, i) ==> r == Grown(cl, added)
    decreases StartingItems(g) - ItemSet(cl), |cl| - i
  {
    if i == |cl| then Grown(cl, added)
    else
      var n := NextSymbol(cl[i]);
      if n != "" && IsNonTerminal(g, n) then
        var s := AddItemsOf(g, n, 0, cl, added);
        StartingItemsShrink(g, cl, s.items);
        var r := ClosureScan(g, s.items, i + 1, s.added);
        ScanStep(g, cl, i, added, s, r);
        r
      else
        var r := ClosureScan(g, cl, i + 1, added);
        assert r.items[..|cl|] == cl;
        assert r.items[i] == cl[i];
        r
  }

  lemma ClosedFromStart(g: Grammar, cl: seq<LR0Item>)
    ensures ClosedFrom(g, cl, 0) <==> Closed(g, cl)
  {
    if ClosedFrom(g, cl, 0) {
      forall it | it in cl ensures ItemClosed(g, cl, it) {
        var k :| 0 <= k < |cl| && cl[k] == it;
      }
    }
  }

  /** The `while (addedNewItems)` loop of calculateClosure. */
  function ClosureLoop(g: Grammar, cl: seq<LR0Item>): (r: seq<LR0Item>)
    ensures Extends(cl, r)
    ensures ClosedFrom(g, r, 0)
    ensures JustifiedFrom(g, r, |cl|)
    ensures ClosedFrom(g, cl, 0) ==> r == cl
    decreases StartingItems(g) - ItemSet(cl)
  {
    var s := ClosureScan(g, cl, 0, false);
    StartingItemsShrink(g, cl, s.items);
    if s.added then
      var r := ClosureLoop(g, s.items);
      ExtendsTransitive(cl, s.items, r);
      assert r[..|s.items|] == s.items;
      JustifiedGrows(g, s.items, r, |cl|);
      r
    else s.items
  }

  /** Grammar::calculateClosure. The input is a prefix of the result; every added item is
      new, is the starting item of a production of `g`, and is called for by an earlier
      item; the result is closed; and a closed input comes back unchanged. */
  function Closure(g: Grammar, items: seq<LR0Item>): (r: seq<LR0Item>)
    ensures |items| <= |r| && r[..|items|] == items
    ensures forall k | |items| <= k < |r| :: r[k] !in r[..k]
    ensures forall k | |items| <= k < |r| :: JustifiedBy(g, r[..k], r[k])
    ensures Closed(g, r)
    ensures Closed(g, items) <==> r == items
  {
    var r := ClosureLoop(g, items);
    ClosedFromStart(g, items);
    ClosedFromStart(g, r);
    r
  }

  /** Closing twice is closing once. */
  lemma ClosureIdempotent(g: Grammar, items: seq<LR0Item>)
    ensures Closure(g, Closure(g, items)) == Closure(g, items)
  {
  }

  /** Closure keeps items within the grammar, and keeps a duplicate-free sequence so. */
  lemma ClosureKeepsItems(g: Grammar, items: seq<LR0Item>)
    ensures (forall it | it in items :: ItemOf(g, it)) ==> forall it | it in Closure(g, items) :: ItemOf(g, it)
    ensures Distinct(items) ==> Distinct(Closure(g, items))
  {
    var r := Closure(g, items);
    if forall it | it in items :: ItemOf(g, it) {
      forall it | it in r ensures ItemOf(g, it) {
        var k :| 0 <= k < |r| && r[k] == it;
        if k < |items| {
          assert items[k] == it;
        } else {
          assert JustifiedBy(g, r[..k], r[k]);
        }
      }
    }
    if Distinct(items) {
      ExtendsDistinct(items, r);
    }
  }

  /** The dot of `it` can move over `x`. */
  predicate Advances(it: LR0Item, x: string) {
    !IsComplete(it) && NextSymbol(it) == x
  }

  /** `it` with the dot moved one place right. */
  function Advance(it: LR0Item): LR0Item {
    LR0Item(it.lhs, it.rhs, it.dot + 1)
  }

  /** `it` with the dot moved one place left: the item that advances to `it`. */
  function Retreat(it: LR0Item): LR0Item
    requires it.dot > 0
  {
    LR0Item(it.lhs, it.rhs, it.dot - 1)
  }

  /** `it` is the advance of an item of `items` that can move over `x`. */
  predicate AdvancedFrom(items: seq<LR0Item>, x: string, it: LR0Item) {
    it.dot > 0 && Retreat(it) in items && Advances(Retreat(it), x)
  }

  /** The item sequence collected by computeGoto under key `x`: exactly the items of `items`
      that can move over `x`, advanced, in the order of `items`. */
  function GotoItems(items: seq<LR0Item>, x: string): (r: seq<LR0Item>)
    ensures forall it :: it in r <==> AdvancedFrom(items, x, it)
    ensures r == [] <==> forall it | it in items :: !Advances(it, x)
    ensures |r| <= |items|
    decreases |items|
  {
    if items == [] then []
    else
      var rest := GotoItems(items[1..], x);
      assert forall it :: it in items <==> it == items[0] || it in items[1..] by {
        assert items == [items[0]] + items[1..];
      }
      assert Advances(items[0], x) ==> Retreat(Advance(items[0])) == items[0];
      (if Advances(items[0], x) then [Advance(items[0])] else []) + rest
  }

  /** Advancing is injective, so goto keeps a duplicate-free sequence duplicate-free. */
  lemma {:induction false} GotoItemsDistinct(items: seq<LR0Item>, x: string)
    requires Distinct(items)
    ensures Distinct(GotoItems(items, x))
    decreases |items|
  {
    if items != [] {
      var rest := GotoItems(items[1..], x);
      DistinctTail(items);
      GotoItemsDistinct(items[1..], x);
      if Advances(items[0], x) {
        assert Advance(items[0]) !in rest by {
          assert Retreat(Advance(items[0])) == items[0];
        }
      }
    }
  }

  /** Grammar::computeGoto: a map that is empty when no item can move over `x`, and
      otherwise maps just `x` to the advanced items. */
  function ComputeGoto(items: seq<LR0Item>, x: string): (r: map<string, seq<LR0Item>>)
    ensures r.Keys <= {x}
    ensures r == map[] <==> forall it | it in items :: !Advances(it, x)
    ensures x in r ==> r[x] == GotoItems(items, x) && r[x] != []
    ensures x in r ==> forall it :: it in r[x] <==> AdvancedFrom(items, x, it)
  {
    var s := GotoItems(items, x);
    if s == [] then map[] else assert x in map[x := s]; map[x := s]
  }

  /** Advancing keeps items within the grammar. */
  lemma GotoKeepsItems(g: Grammar, items: seq<LR0Item>, x: string)
    requires forall it | it in items :: ItemOf(g, it)
    ensures forall it | it in GotoItems(items, x) :: ItemOf(g, it)
  {
    forall it | it in GotoItems(items, x) ensures ItemOf(g, it) {
      assert ItemOf(g, Retreat(it));
    }
  }

  /** Position of the first production of `n` at or after `from`, or -1. */
  function FirstProductionOf(ps: seq<Production>, n: string, from: nat): (r: int)
    requires from <= |ps|
    ensures r >= -1
    ensures r == -1 <==> forall i | from <= i < |ps| :: ps[i].left != n
    ensures r >= 0 ==> from <= r < |ps| && ps[r].left == n && forall i | from <= i < r :: ps[i].left != n
    decreases |ps| - from
  {
    if from == |ps| then -1
    else if ps[from].left == n then from
    else FirstProductionOf(ps, n, from + 1)
  }

  /** The kernel built by generateInitialItemSet: the starting item of the first production
      of the start symbol, if it has one. */
  function StartKernel(g: Grammar): (r: seq<LR0Item>)
    ensures |r| <= 1
    ensures r == [] <==> forall p | p in g.productions :: p.left != g.startSymbol
    ensures r != [] ==> exists k :: (0 <= k < |g.productions|
              && g.productions[k].left == g.startSymbol
              && (forall i | 0 <= i < k :: g.productions[i].left != g.startSymbol)
              && r[0] == LR0Item(g.startSymbol, g.productions[k].right, 0))
  {
    var k := FirstProductionOf(g.productions, g.startSymbol, 0);
    if k == -1 then
      assert forall p | p in g.productions :: p.left != g.startSymbol by {
        forall p | p in g.productions ensures p.left != g.startSymbol {
          var i :| 0 <= i < |g.productions| && g.productions[i] == p;
        }
      }
      []
    else
      [LR0Item(g.startSymbol, g.productions[k].right, 0)]
  }

  /** Grammar::generateInitialItemSet: the closure of the start kernel. It starts with the
      kernel item, is closed, and every later item is called for by an earlier one; with no
      production for the start symbol it is empty. */
  function InitialItemSet(g: Grammar): (r: seq<LR0Item>)
    ensures StartKernel(g) != [] ==> |r| >= 1 && r[0] == StartKernel(g)[0]
    ensures StartKernel(g) == [] ==> r == []
    ensures Closed(g, r)
    ensures forall k | |StartKernel(g)| <= k < |r| :: JustifiedBy(g, r[..k], r[k])
    ensures Distinct(r) && forall it | it in r :: ItemOf(g, it)
  {
    var kernel := StartKernel(g);
    ClosureKeepsItems(g, kernel);
    if kernel == [] then Closure(g, kernel)
    else
      var k :| 0 <= k < |g.productions| && g.productions[k].left == g.startSymbol
        && kernel[0] == LR0Item(g.startSymbol, g.productions[k].right, 0);
      assert g.productions[k] == Production(kernel[0].lhs, kernel[0].rhs);
      Closure(g, kernel)
  }
}
