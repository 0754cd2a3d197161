/** The canonical collection of LR(0) item sets (Grammar::constructLR0Automaton): states
    discovered breadth-first from the initial item set, with one transition per state and
    grammar symbol whose goto set is non-empty. */
module Automaton {
  import opened GrammarModel
  import opened Items

  /** An LR(0) state: an item sequence, compared as a sequence. */
  type State = seq<LR0Item>

  /** The transition map: (state index, symbol) to state index. */
  type Transitions = map<(nat, string), nat>

  /** The symbols the automaton moves over: terminals first, then nonterminals, each in
      set order, as the two symbol loops of constructLR0Automaton visit them. */
  function GrammarSymbols(g: Grammar): seq<string> {
    g.terminals + g.nonTerminals
  }

  /** Grammar::getOrCreateStateIndex: the first position of `s` in `aut`, or `|aut|` (the
      index `s` receives when appended) when it is not there. */
  function GetOrCreateStateIndex(aut: seq<State>, s: State): (r: nat)
    ensures r <= |aut|
    ensures r < |aut| ==> aut[r] == s
    ensures r == |aut| <==> s !in aut
    ensures forall i | 0 <= i < r :: aut[i] != s
  {
    FindState(aut, s, 0)
  }

  function FindState(aut: seq<State>, s: State, from: nat): (r: nat)
    requires from <= |aut|
    ensures from <= r <= |aut|
    ensures r < |aut| ==> aut[r] == s
    ensures r == |aut| <==> s !in aut[from..]
    ensures forall i | from <= i < r :: aut[i] != s
    decreases |aut| - from
  {
    if from == |aut| then |aut|
    else if aut[from] == s then from
    else
      assert aut[from..] == [aut[from]] + aut[from + 1..];
      FindState(aut, s, from + 1)
  }

  /** A state as the automaton holds it: closed, without repeated items, and made of items
      of the grammar. */
  predicate GoodState(g: Grammar, s: State) {
    Closed(g, s) && Distinct(s) && forall it | it in s :: ItemOf(g, it)
  }

  /** `t` is the state reached from state `s` over `x`: the closure of goto(s, x), which
      is non-empty. */
  predicate ValidTransition(g: Grammar, aut: seq<State>, s: nat, x: string, t: nat) {
    && s < |aut| && t < |aut|
    && (x in g.terminals || x in g.nonTerminals)
    && GotoItems(aut[s], x) != []
    && aut[t] == Closure(g, GotoItems(aut[s], x))
  }

  /** State `i` is the target of a transition from an earlier state. */
  predicate ReachedFromBelow(trans: Transitions, i: nat) {
    exists k | k in trans :: k.0 < i && trans[k] == i
  }

  /** Every state after the first is reached from an earlier state. */
  predicate Reached(aut: seq<State>, trans: Transitions) {
    forall i: nat | 1 <= i < |aut| :: ReachedFromBelow(trans, i)
  }

  /** The states are distinct good states, starting with the initial item set. */
  predicate StatesOk(g: Grammar, aut: seq<State>) {
    && 1 <= |aut|
    && aut[0] == InitialItemSet(g)
    && (forall i, j | 0 <= i < j < |aut| :: aut[i] != aut[j])
    && (forall i | 0 <= i < |aut| :: GoodState(g, aut[i]))
  }

  /** Every transition is valid and leaves a state with index below `head`. */
  predicate TransOk(g: Grammar, aut: seq<State>, trans: Transitions, head: nat) {
    forall k | k in trans :: k.0 < head && ValidTransition(g, aut, k.0, k.1, trans[k])
  }

  /** The invariant of the worklist: the states are distinct good states starting with the
      initial item set, every transition is valid and leaves an already processed state
      (index below `head`), and every state was reached. */
  predicate Inv(g: Grammar, aut: seq<State>, trans: Transitions, head: nat) {
    head <= |aut| && StatesOk(g, aut) && TransOk(g, aut, trans, head) && Reached(aut, trans)
  }

  /** Every symbol of `xs` with a non-empty goto set from state `s` has a transition. */
  predicate CompleteFor(aut: seq<State>, trans: Transitions, s: nat, xs: seq<string>)
    requires s < |aut|
  {
    forall x | x in xs :: GotoItems(aut[s], x) != [] ==> (s, x) in trans
  }

  // ---------------------------------------------------------------------------------------
  // Termination: a good state is a duplicate-free sequence over the finite item universe.

  /** All sequences of length at most `n` over `u`. */
  ghost function SeqsOver(u: set<LR0Item>, n: nat): set<seq<LR0Item>>
  {
    if n == 0 then {[]}
    else {[]} + set x, t | x in u && t in SeqsOver(u, n - 1) :: [x] + t
  }

  ghost function StateBound(g: Grammar): set<seq<LR0Item>> {
    SeqsOver(ItemUniverse(g), |ItemUniverse(g)|)
  }

  ghost function StateSet(aut: seq<State>): set<State> {
    set s | s in aut
  }

  lemma {:induction false} DistinctCard(s: seq<LR0Item>)
    requires Distinct(s)
    ensures |ItemSet(s)| == |s|
    decreases |s|
  {
    if s != [] {
      DistinctTail(s);
      DistinctCard(s[1..]);
      assert ItemSet(s) == {s[0]} + ItemSet(s[1..]) by {
        assert s == [s[0]] + s[1..];
      }
    }
  }

  lemma SubsetCard(a: set<LR0Item>, b: set<LR0Item>)
    requires a <= b
    ensures |a| <= |b|
  {
    assert b == a + (b - a);
  }

  lemma {:induction false} InSeqsOver(u: set<LR0Item>, s: seq<LR0Item>, n: nat)
    requires |s| <= n && ItemSet(s) <= u
    ensures s in SeqsOver(u, n)
    decreases n
  {
    if s != [] {
      assert ItemSet(s[1..]) <= ItemSet(s);
      InSeqsOver(u, s[1..], n - 1);
      assert s == [s[0]] + s[1..];
    }
  }

  lemma GoodStateBounded(g: Grammar, s: State)
    requires GoodState(g, s)
    ensures s in StateBound(g)
  {
    var u := ItemUniverse(g);
    forall it | it in ItemSet(s) ensures it in u {
      ItemOfInUniverse(g, it);
    }
    DistinctCard(s);
    SubsetCard(ItemSet(s), u);
    InSeqsOver(u, s, |u|);
  }

  // ---------------------------------------------------------------------------------------
  // The worklist

  lemma AppendState(g: Grammar, aut: seq<State>, next: State)
    requires StatesOk(g, aut) && GoodState(g, next) && next !in aut
    ensures StatesOk(g, aut + [next])
  {
    var aut' := aut + [next];
    forall i, j | 0 <= i < j < |aut'| ensures aut'[i] != aut'[j] {
      assert aut'[i] == aut[i];
      if j < |aut| {
        assert aut'[j] == aut[j];
      }
    }
    forall i | 0 <= i < |aut'| ensures GoodState(g, aut'[i]) {
      if i < |aut| {
        assert aut'[i] == aut[i];
      }
    }
  }

  lemma BoundShrinks(g: Grammar, aut: seq<State>, next: State)
    requires GoodState(g, next) && next !in aut
    ensures StateBound(g) - StateSet(aut + [next]) < StateBound(g) - StateSet(aut)
  {
    GoodStateBounded(g, next);
    assert StateSet(aut + [next]) == StateSet(aut) + {next};
  }

  lemma TransOkGrows(g: Grammar, aut: seq<State>, aut': seq<State>, trans: Transitions, head: nat)
    requires TransOk(g, aut, trans, head)
    requires |aut| <= |aut'| && aut'[..|aut|] == aut
    ensures TransOk(g, aut', trans, head)
  {
    forall k | k in trans ensures ValidTransition(g, aut', k.0, k.1, trans[k]) {
      assert aut'[k.0] == aut[k.0] && aut'[trans[k]] == aut[trans[k]];
    }
  }

  lemma TransOkAdd(g: Grammar, aut: seq<State>, trans: Transitions, head: nat, cur: nat, x: string, t: nat)
    requires TransOk(g, aut, trans, head)
    requires cur < head && ValidTransition(g, aut, cur, x, t)
    ensures TransOk(g, aut, trans[(cur, x) := t], head)
  {
  }

  /** Recording a transition that already exists with another target would break `Reached`;
      it cannot happen, since both targets hold the same state. */
  lemma TransitionUnique(g: Grammar, aut: seq<State>, trans: Transitions, head: nat, cur: nat, x: string, t: nat)
    requires StatesOk(g, aut) && TransOk(g, aut, trans, head)
    requires (cur, x) in trans && ValidTransition(g, aut, cur, x, t)
    ensures trans[(cur, x)] == t
  {
    var t' := trans[(cur, x)];
    assert ValidTransition(g, aut, cur, x, t');
    assert aut[t] == aut[t'];
  }

  lemma ReachedAdd(aut: seq<State>, aut': seq<State>, trans: Transitions, cur: nat, x: string, t: nat)
    requires Reached(aut, trans) && |aut| <= |aut'| <= |aut| + 1
    requires (cur, x) in trans ==> trans[(cur, x)] == t
    requires |aut'| > |aut| ==> t == |aut| && cur < t
    ensures Reached(aut', trans[(cur, x) := t])
  {
    var trans' := trans[(cur, x) := t];
    forall i: nat | 1 <= i < |aut'| ensures ReachedFromBelow(trans', i) {
      if i < |aut| {
        assert ReachedFromBelow(trans, i);
        var k :| k in trans && k.0 < i && trans[k] == i;
        assert k in trans' && trans'[k] == i;
      } else {
        assert (cur, x) in trans' && trans'[(cur, x)] == i;
      }
    }
  }

  /** The transitions and states after processing symbol `x` for state `cur`. */
  datatype Builder = Builder(aut: seq<State>, trans: Transitions)

  /** Records the transition from `cur` over `x` to `next`, appending `next` as a new state
      when it is not already one. */
  function Record(b: Builder, cur: nat, x: string, next: State): Builder {
    var idx := GetOrCreateStateIndex(b.aut, next);
    Builder(if idx == |b.aut| then b.aut + [next] else b.aut, b.trans[(cur, x) := idx])
  }

  lemma RecordKeepsInv(g: Grammar, b: Builder, cur: nat, x: string, r: Builder)
    requires Inv(g, b.aut, b.trans, cur + 1) && cur < |b.aut|
    requires x in g.terminals || x in g.nonTerminals
    requires GotoItems(b.aut[cur], x) != []
    requires r == Record(b, cur, x, Closure(g, GotoItems(b.aut[cur], x)))
    ensures Inv(g, r.aut, r.trans, cur + 1)
  {
    var next := Closure(g, GotoItems(b.aut[cur], x));
    var idx := GetOrCreateStateIndex(b.aut, next);
    NewStateGood(g, b.aut[cur], x);
    if idx == |b.aut| {
      assert r.aut == b.aut + [next];
      AppendState(g, b.aut, next);
      TransOkGrows(g, b.aut, r.aut, b.trans, cur + 1);
      assert r.aut[cur] == b.aut[cur] && r.aut[idx] == next;
      TransOkAdd(g, r.aut, b.trans, cur + 1, cur, x, idx);
      assert (cur, x) !in b.trans;
      ReachedAdd(b.aut, r.aut, b.trans, cur, x, idx);
    } else {
      assert r.aut == b.aut;
      TransOkAdd(g, r.aut, b.trans, cur + 1, cur, x, idx);
      if (cur, x) in b.trans {
        TransitionUnique(g, b.aut, b.trans, cur + 1, cur, x, idx);
      }
      ReachedAdd(b.aut, r.aut, b.trans, cur, x, idx);
    }
  }

  lemma RecordGrows(g: Grammar, b: Builder, cur: nat, x: string, next: State, r: Builder)
    requires GoodState(g, next) && r == Record(b, cur, x, next)
    ensures |b.aut| <= |r.aut| <= |b.aut| + 1 && r.aut[..|b.aut|] == b.aut
    ensures |r.aut| > |b.aut| ==> StateBound(g) - StateSet(r.aut) < StateBound(g) - StateSet(b.aut)
    ensures |r.aut| == |b.aut| ==> r.aut == b.aut
  {
    if GetOrCreateStateIndex(b.aut, next) == |b.aut| {
      assert r.aut == b.aut + [next];
      BoundShrinks(g, b.aut, next);
      assert r.aut[..|b.aut|] == b.aut;
    }
  }

  /** The body of one symbol loop of constructLR0Automaton: if goto(cur, x) is non-empty, its
      closure is looked up (or appended as a new state) and the transition recorded. */
  function ProcessSymbol(g: Grammar, b: Builder, cur: nat, x: string): (r: Builder)
    requires Inv(g, b.aut, b.trans, cur + 1) && cur < |b.aut|
    requires x in g.terminals || x in g.nonTerminals
    ensures Inv(g, r.aut, r.trans, cur + 1)
    ensures |b.aut| <= |r.aut| <= |b.aut| + 1 && r.aut[..|b.aut|] == b.aut
    ensures |r.aut| > |b.aut| ==> StateBound(g) - StateSet(r.aut) < StateBound(g) - StateSet(b.aut)
    ensures |r.aut| == |b.aut| ==> r.aut == b.aut
    ensures b.trans.Keys <= r.trans.Keys
    ensures GotoItems(b.aut[cur], x) != [] ==> (cur, x) in r.trans
    ensures GotoItems(b.aut[cur], x) == [] ==> r == b
  {
    var gm := ComputeGoto(b.aut[cur], x);
    if gm == map[] then b
    else
      var r := Record(b, cur, x, Closure(g, gm[x]));
      RecordKeepsInv(g, b, cur, x, r);
      NewStateGood(g, b.aut[cur], x);
      RecordGrows(g, b, cur, x, Closure(g, gm[x]), r);
      r
  }

  /** The closure of a goto set of a good state is a good state. */
  lemma NewStateGood(g: Grammar, s: State, x: string)
    requires GoodState(g, s)
    ensures GoodState(g, Closure(g, GotoItems(s, x)))
  {
    GotoItemsDistinct(s, x);
    GotoKeepsItems(g, s, x);
    ClosureKeepsItems(g, GotoItems(s, x));
  }

  /** The two symbol loops of constructLR0Automaton for the state `cur` taken from the
      queue: afterwards every symbol with a non-empty goto set from `cur` has a transition. */
  method ProcessState(g: Grammar, aut0: seq<State>, trans0: Transitions, cur: nat)
    returns (aut: seq<State>, trans: Transitions)
    requires cur < |aut0| && Inv(g, aut0, trans0, cur + 1)
    requires forall s | 0 <= s < cur :: CompleteFor(aut0, trans0, s, GrammarSymbols(g))
    ensures Inv(g, aut, trans, cur + 1)
    ensures |aut0| <= |aut| && aut[..|aut0|] == aut0
    ensures |aut| > |aut0| ==> StateBound(g) - StateSet(aut) < StateBound(g) - StateSet(aut0)
    ensures |aut| == |aut0| ==> aut == aut0
    ensures forall s | 0 <= s <= cur :: CompleteFor(aut, trans, s, GrammarSymbols(g))
  {
    var syms := GrammarSymbols(g);
    aut, trans := aut0, trans0;
    var i := 0;
    while i < |syms|
      invariant i <= |syms|
      invariant Inv(g, aut, trans, cur + 1)
      invariant |aut0| <= |aut| && aut[..|aut0|] == aut0
      invariant |aut| > |aut0| ==> StateBound(g) - StateSet(aut) < StateBound(g) - StateSet(aut0)
      invariant |aut| == |aut0| ==> aut == aut0
      invariant forall s | 0 <= s < cur :: CompleteFor(aut, trans, s, syms)
      invariant CompleteFor(aut, trans, cur, syms[..i])
    {
      var b := ProcessSymbol(g, Builder(aut, trans), cur, syms[i]);
      CompleteGrows(aut, trans, b, cur, syms, i);
      PrefixGrows(g, aut0, aut, b.aut);
      aut, trans := b.aut, b.trans;
      i := i + 1;
    }
    assert syms[..i] == syms;
  }

  lemma PrefixGrows(g: Grammar, a: seq<State>, b: seq<State>, c: seq<State>)
    requires |a| <= |b| && b[..|a|] == a
    requires |b| > |a| ==> StateBound(g) - StateSet(b) < StateBound(g) - StateSet(a)
    requires |b| == |a| ==> b == a
    requires |b| <= |c| && c[..|b|] == b
    requires |c| > |b| ==> StateBound(g) - StateSet(c) < StateBound(g) - StateSet(b)
    requires |c| == |b| ==> c == b
    ensures |a| <= |c| && c[..|a|] == a
    ensures |c| > |a| ==> StateBound(g) - StateSet(c) < StateBound(g) - StateSet(a)
    ensures |c| == |a| ==> c == a
  {
    assert c[..|a|] == c[..|b|][..|a|];
  }

  /** Grammar::constructLR0Automaton. The queue of the source always holds exactly the
      indices from `head` to the last state, in order, so it is represented by `head`.
      State 0 is the initial item set; the states are pairwise distinct closed item sets;
      every transition leads to the closure of the goto set of its source; every state and
      symbol with a non-empty goto set has a transition; and every state after the first is
      reached by a transition from an earlier one. */
  method ConstructLR0Automaton(g: Grammar) returns (aut: seq<State>, trans: Transitions)
    ensures |aut| >= 1 && aut[0] == InitialItemSet(g)
    ensures forall i, j | 0 <= i < j < |aut| :: aut[i] != aut[j]
    ensures forall i | 0 <= i < |aut| :: GoodState(g, aut[i])
    ensures forall k | k in trans :: ValidTransition(g, aut, k.0, k.1, trans[k])
    ensures forall s | 0 <= s < |aut| :: CompleteFor(aut, trans, s, GrammarSymbols(g))
    ensures Reached(aut, trans)
  {
    var init := InitialItemSet(g);
    assert GoodState(g, init) by {
      ClosureKeepsItems(g, StartKernel(g));
    }
    aut := [init];
    trans := map[];
    var head := 0;
    while head < |aut|
      invariant Inv(g, aut, trans, head)
      invariant forall s | 0 <= s < head :: CompleteFor(aut, trans, s, GrammarSymbols(g))
      decreases StateBound(g) - StateSet(aut), |aut| - head
    {
      aut, trans := ProcessState(g, aut, trans, head);
      head := head + 1;
    }
  }

  /** The bookkeeping of one iteration of the symbol loop. */
  lemma CompleteGrows(aut: seq<State>, trans: Transitions, b: Builder, cur: nat, syms: seq<string>, i: nat)
    requires cur < |aut| && i < |syms|
    requires |aut| <= |b.aut| && b.aut[..|aut|] == aut
    requires trans.Keys <= b.trans.Keys
    requires GotoItems(aut[cur], syms[i]) != [] ==> (cur, syms[i]) in b.trans
    requires forall s | 0 <= s < cur :: CompleteFor(aut, trans, s, syms)
    requires CompleteFor(aut, trans, cur, syms[..i])
    ensures forall s | 0 <= s < cur :: CompleteFor(b.aut, b.trans, s, syms)
    ensures CompleteFor(b.aut, b.trans, cur, syms[..i + 1])
  {
    forall s | 0 <= s <= cur ensures b.aut[s] == aut[s] {
      assert b.aut[..|aut|][s] == aut[s];
    }
    forall s | 0 <= s < cur ensures CompleteFor(b.aut, b.trans, s, syms) {
      assert CompleteFor(aut, trans, s, syms);
    }
    assert syms[..i + 1] == syms[..i] + [syms[i]];
  }
}
