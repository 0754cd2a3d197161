/** The SLR(1) parsing table (Grammar::constructParsingTable): one row per automaton state,
    columns for the terminals in set order, then `$`, then the nonterminals in set order.
    Later writes overwrite earlier ones: shifts first, then gotos, then the reduce and
    accept entries of the reducible items in state order. */
module ParsingTable {
  import opened Symbols
  import opened GrammarModel
  import opened Items
  import opened Automaton
  import opened FirstFollow

  datatype ActionType = Shift | Reduce | Goto | Accept | Error

  /** An action; `value` is the target state of a shift or goto and the production index
      of a reduce. */
  datatype Action = Action(kind: ActionType, value: int)

  /** The entry every cell starts with. */
  const ErrorAction: Action := Action(Error, -1)

  type Table = seq<seq<Action>>

  /** The number of columns. */
  function Width(g: Grammar): nat {
    |g.terminals| + |g.nonTerminals| + 1
  }

  /** The column of `$`, right after the terminal columns. */
  function EndColumn(g: Grammar): nat {
    |g.terminals|
  }

  /** The column of the nonterminal at position `i` of the nonterminal set. */
  function GotoColumn(g: Grammar, i: nat): nat {
    |g.terminals| + 1 + i
  }

  // ---------------------------------------------------------------------------------------
  // The three passes over a row

  /** The loop over the terminals: column `i` becomes a shift to the target of the
      transition over the `i`-th terminal, when there is one. */
  function ShiftPass(g: Grammar, trans: Transitions, s: nat, row: seq<Action>, i: nat): (r: seq<Action>)
    requires |row| == Width(g) && i <= |g.terminals|
    ensures |r| == |row|
    ensures forall c | i <= c < |g.terminals| && (s, g.terminals[c]) in trans ::
              r[c] == Action(Shift, trans[(s, g.terminals[c])])
    ensures forall c | 0 <= c < |r| && !(i <= c < |g.terminals| && (s, g.terminals[c]) in trans) ::
              r[c] == row[c]
    decreases |g.terminals| - i
  {
    if i == |g.terminals| then row
    else
      var t := g.terminals[i];
      var row' := if (s, t) in trans then row[i := Action(Shift, trans[(s, t)])] else row;
      ShiftPass(g, trans, s, row', i + 1)
  }

  /** The loop over the nonterminals: the column of the `i`-th nonterminal becomes a goto to
      the target of the transition over it, when there is one. */
  function GotoPass(g: Grammar, trans: Transitions, s: nat, row: seq<Action>, i: nat): (r: seq<Action>)
    requires |row| == Width(g) && i <= |g.nonTerminals|
    ensures |r| == |row|
    ensures forall k | i <= k < |g.nonTerminals| && (s, g.nonTerminals[k]) in trans ::
              r[GotoColumn(g, k)] == Action(Goto, trans[(s, g.nonTerminals[k])])
    ensures forall k | i <= k < |g.nonTerminals| && (s, g.nonTerminals[k]) !in trans ::
              r[GotoColumn(g, k)] == row[GotoColumn(g, k)]
    ensures forall c | 0 <= c < GotoColumn(g, i) :: r[c] == row[c]
    decreases |g.nonTerminals| - i
  {
    if i == |g.nonTerminals| then row
    else
      var n := g.nonTerminals[i];
      var row' := if (s, n) in trans then row[GotoColumn(g, i) := Action(Goto, trans[(s, n)])] else row;
      GotoPass(g, trans, s, row', i + 1)
  }

  /** An item whose production is reduced: complete, or an epsilon production. */
  predicate Reducible(it: LR0Item) {
    IsEpsilonRhs(it.rhs) || IsComplete(it)
  }

  /** Every FOLLOW symbol other than `$` has a terminal column. Without it the source writes
      through index -1. */
  predicate FollowInColumns(g: Grammar, follow: SymbolSets) {
    forall k | k in follow :: forall t | t in follow[k] :: t == EndMarker || t in g.terminals
  }

  /** The loop over FOLLOW(lhs) of a reducible item writes column `c`. Each FOLLOW symbol
      has its own column, so the order of that loop does not matter. */
  predicate Writes(g: Grammar, follow: SymbolSets, it: LR0Item, c: nat) {
    && Reducible(it)
    && ((c == EndColumn(g) && EndMarker in Lookup(follow, it.lhs))
        || (c < |g.terminals| && g.terminals[c] in Lookup(follow, it.lhs) && g.terminals[c] != EndMarker))
  }

  /** What a reducible item writes: accept in the `$` column for the start symbol, and
      otherwise a reduce by its production's index (which may be -1 when the production is
      not in the grammar). */
  function Written(g: Grammar, it: LR0Item, c: nat): Action {
    if c == EndColumn(g) && it.lhs == g.startSymbol then Action(Accept, -1)
    else Action(Reduce, ProductionIndex(g, it.lhs, it.rhs))
  }

  /** The body of the item loop for one item. */
  function ReduceItem(g: Grammar, follow: SymbolSets, row: seq<Action>, it: LR0Item): (r: seq<Action>)
    ensures |r| == |row|
  {
    seq(|row|, c requires 0 <= c < |row| => if Writes(g, follow, it, c) then Written(g, it, c) else row[c])
  }

  /** The item loop of constructParsingTable over a state. */
  function ReducePass(g: Grammar, follow: SymbolSets, row: seq<Action>, items: seq<LR0Item>): (r: seq<Action>)
    ensures |r| == |row|
    decreases |items|
  {
    if items == [] then row
    else ReducePass(g, follow, ReduceItem(g, follow, row, items[0]), items[1..])
  }

  /** The row of state `s`. */
  function Row(g: Grammar, aut: seq<State>, trans: Transitions, follow: SymbolSets, s: nat): (r: seq<Action>)
    requires s < |aut|
    ensures |r| == Width(g)
  {
    var initial := seq(Width(g), _ => ErrorAction);
    ReducePass(g, follow, GotoPass(g, trans, s, ShiftPass(g, trans, s, initial, 0), 0), aut[s])
  }

  /** Grammar::constructParsingTable: one row of `Width(g)` cells per state. */
  function ConstructParsingTable(g: Grammar, aut: seq<State>, trans: Transitions, follow: SymbolSets): (t: Table)
    requires FollowInColumns(g, follow)
    ensures |t| == |aut|
    ensures forall s | 0 <= s < |t| :: |t[s]| == Width(g)
  {
    seq(|aut|, s requires 0 <= s < |aut| => Row(g, aut, trans, follow, s))
  }

  // ---------------------------------------------------------------------------------------
  // The cells, independently of the order of the writes

  /** The position of the last item of `items` that writes column `c`, or -1. */
  function LastWriter(g: Grammar, follow: SymbolSets, items: seq<LR0Item>, c: nat): (r: int)
    ensures -1 <= r < |items|
    ensures r >= 0 ==> Writes(g, follow, items[r], c)
    ensures forall j | r < j < |items| :: !Writes(g, follow, items[j], c)
    decreases |items|
  {
    if items == [] then -1
    else if Writes(g, follow, items[|items| - 1], c) then |items| - 1
    else LastWriter(g, follow, items[..|items| - 1], c)
  }

  /** The cell as the last write to it decides: the last reducible item of the state that
      writes the column, else the shift or goto of a transition, else the error entry. */
  function ExpectedCell(g: Grammar, aut: seq<State>, trans: Transitions, follow: SymbolSets, s: nat, c: nat): Action
    requires s < |aut|
  {
    var w := LastWriter(g, follow, aut[s], c);
    if w >= 0 then Written(g, aut[s][w], c)
    else if c < |g.terminals| && (s, g.terminals[c]) in trans then Action(Shift, trans[(s, g.terminals[c])])
    else if EndColumn(g) < c < Width(g) && (s, g.nonTerminals[c - GotoColumn(g, 0)]) in trans then
      Action(Goto, trans[(s, g.nonTerminals[c - GotoColumn(g, 0)])])
    else ErrorAction
  }

  lemma {:induction false} ReducePassSnoc(g: Grammar, follow: SymbolSets, row: seq<Action>, items: seq<LR0Item>, it: LR0Item)
    ensures ReducePass(g, follow, row, items + [it]) == ReduceItem(g, follow, ReducePass(g, follow, row, items), it)
    decreases |items|
  {
    if items == [] {
      assert [it][1..] == [];
    } else {
      assert (items + [it])[1..] == items[1..] + [it];
      ReducePassSnoc(g, follow, ReduceItem(g, follow, row, items[0]), items[1..], it);
    }
  }

  /** Last write wins: after the item loop, a cell holds what its last writer wrote, and
      is untouched when no item writes it. */
  lemma {:induction false} ReducePassCell(g: Grammar, follow: SymbolSets, row: seq<Action>, items: seq<LR0Item>, c: nat)
    requires c < |row|
    ensures var w := LastWriter(g, follow, items, c);
      ReducePass(g, follow, row, items)[c] == if w >= 0 then Written(g, items[w], c) else row[c]
    decreases |items|
  {
    if items != [] {
      var init := items[..|items| - 1];
      var last := items[|items| - 1];
      assert items == init + [last];
      ReducePassSnoc(g, follow, row, init, last);
      ReducePassCell(g, follow, row, init, c);
    }
  }

  /** Every cell of the table is the one its last write decides. */
  lemma TableCells(g: Grammar, aut: seq<State>, trans: Transitions, follow: SymbolSets, s: nat, c: nat)
    requires FollowInColumns(g, follow)
    requires s < |aut| && c < Width(g)
    ensures ConstructParsingTable(g, aut, trans, follow)[s][c] == ExpectedCell(g, aut, trans, follow, s, c)
  {
    var initial := seq(Width(g), _ => ErrorAction);
    var shifted := ShiftPass(g, trans, s, initial, 0);
    var base := GotoPass(g, trans, s, shifted, 0);
    ReducePassCell(g, follow, base, aut[s], c);
    if EndColumn(g) < c {
      var k := c - GotoColumn(g, 0);
      assert c == GotoColumn(g, k);
    }
  }

  // ---------------------------------------------------------------------------------------
  // Consequences

  /** Accept appears only in the `$` column. */
  predicate AcceptOnlyAtEnd(g: Grammar, t: Table) {
    forall s: nat, c: nat | s < |t| && c < |t[s]| :: t[s][c].kind == Accept ==> c == EndColumn(g)
  }

  /** Accept is written only in the `$` column, and only for a reducible item of the start
      symbol whose FOLLOW set holds `$`. */
  lemma AcceptCells(g: Grammar, aut: seq<State>, trans: Transitions, follow: SymbolSets)
    requires FollowInColumns(g, follow)
    ensures AcceptOnlyAtEnd(g, ConstructParsingTable(g, aut, trans, follow))
    ensures forall s | 0 <= s < |aut| ::
              ConstructParsingTable(g, aut, trans, follow)[s][EndColumn(g)].kind == Accept ==>
              exists it | it in aut[s] :: Reducible(it) && it.lhs == g.startSymbol && EndMarker in Lookup(follow, it.lhs)
  {
    var t: Table := ConstructParsingTable(g, aut, trans, follow);
    forall s: nat, c: nat | s < |t| && c < |t[s]| && t[s][c].kind == Accept
      ensures c == EndColumn(g)
      ensures c == EndColumn(g) ==> exists it | it in aut[s] :: Reducible(it) && it.lhs == g.startSymbol && EndMarker in Lookup(follow, it.lhs)
    {
      TableCells(g, aut, trans, follow, s, c);
      var w := LastWriter(g, follow, aut[s], c);
      assert aut[s][w] in aut[s];
    }
  }

  /** The goto columns hold exactly the nonterminal transitions, and error elsewhere. */
  lemma GotoCells(g: Grammar, aut: seq<State>, trans: Transitions, follow: SymbolSets, s: nat, k: nat)
    requires FollowInColumns(g, follow)
    requires s < |aut| && k < |g.nonTerminals|
    ensures var cell := ConstructParsingTable(g, aut, trans, follow)[s][GotoColumn(g, k)];
      && ((s, g.nonTerminals[k]) in trans ==> cell == Action(Goto, trans[(s, g.nonTerminals[k])]))
      && ((s, g.nonTerminals[k]) !in trans ==> cell == ErrorAction)
  {
    TableCells(g, aut, trans, follow, s, GotoColumn(g, k));
  }

  /** A terminal column holds a shift exactly when there is a transition over the terminal
      and no reducible item writes the column; the `$` column never holds a shift. */
  lemma ShiftCells(g: Grammar, aut: seq<State>, trans: Transitions, follow: SymbolSets, s: nat, c: nat)
    requires FollowInColumns(g, follow)
    requires s < |aut| && c < Width(g)
    ensures var cell := ConstructParsingTable(g, aut, trans, follow)[s][c];
      cell.kind == Shift <==>
        c < |g.terminals| && (s, g.terminals[c]) in trans && LastWriter(g, follow, aut[s], c) < 0
    ensures var cell := ConstructParsingTable(g, aut, trans, follow)[s][c];
      cell.kind == Shift ==> cell.value == trans[(s, g.terminals[c])]
  {
    TableCells(g, aut, trans, follow, s, c);
  }

  /** The reduce entries of a state name the productions of its reducible items. For a table
      built from automaton states these are productions of the grammar. */
  lemma ReduceCells(g: Grammar, aut: seq<State>, trans: Transitions, follow: SymbolSets, s: nat, c: nat)
    requires FollowInColumns(g, follow)
    requires s < |aut| && c < Width(g)
    requires forall it | it in aut[s] :: ItemOf(g, it)
    ensures var cell := ConstructParsingTable(g, aut, trans, follow)[s][c];
      cell.kind == Reduce ==>
        && c <= EndColumn(g)
        && 0 <= cell.value < |g.productions|
        && exists it | it in aut[s] :: Reducible(it) && Writes(g, follow, it, c)
             && g.productions[cell.value] == Production(it.lhs, it.rhs)
  {
    TableCells(g, aut, trans, follow, s, c);
    var w := LastWriter(g, follow, aut[s], c);
    if w >= 0 {
      assert aut[s][w] in aut[s];
    }
  }

  /** The table of an automaton: shift and goto targets are states. */
  lemma TargetsAreStates(g: Grammar, aut: seq<State>, trans: Transitions, follow: SymbolSets, s: nat, c: nat)
    requires FollowInColumns(g, follow)
    requires s < |aut| && c < Width(g)
    requires forall k | k in trans :: trans[k] < |aut|
    ensures var cell := ConstructParsingTable(g, aut, trans, follow)[s][c];
      cell.kind == Shift || cell.kind == Goto ==> 0 <= cell.value < |aut|
  {
    TableCells(g, aut, trans, follow, s, c);
  }

  /** Cell `c` of state `s` has no two different candidate writes: all its writers write
      the same action, and none of them meets a shift. */
  predicate CellConflictFree(g: Grammar, aut: seq<State>, trans: Transitions, follow: SymbolSets, s: nat, c: nat)
    requires s < |aut|
  {
    && (forall i, j | 0 <= i < |aut[s]| && 0 <= j < |aut[s]|
          && Writes(g, follow, aut[s][i], c) && Writes(g, follow, aut[s][j], c) ::
          Written(g, aut[s][i], c) == Written(g, aut[s][j], c))
    && (c < |g.terminals| && (s, g.terminals[c]) in trans ==>
          forall i | 0 <= i < |aut[s]| :: !Writes(g, follow, aut[s][i], c))
  }

  /** The grammar is SLR(1) for this table: no cell has a conflict. */
  predicate ConflictFree(g: Grammar, aut: seq<State>, trans: Transitions, follow: SymbolSets) {
    forall s: nat, c: nat | s < |aut| && c < Width(g) :: CellConflictFree(g, aut, trans, follow, s, c)
  }

  /** Without conflicts the order of the writes is irrelevant: every writer's action is the
      cell's. */
  lemma ConflictFreeCells(g: Grammar, aut: seq<State>, trans: Transitions, follow: SymbolSets, s: nat, i: nat, c: nat)
    requires FollowInColumns(g, follow) && ConflictFree(g, aut, trans, follow)
    requires s < |aut| && i < |aut[s]| && c < Width(g)
    requires Writes(g, follow, aut[s][i], c)
    ensures ConstructParsingTable(g, aut, trans, follow)[s][c] == Written(g, aut[s][i], c)
  {
    TableCells(g, aut, trans, follow, s, c);
    var w := LastWriter(g, follow, aut[s], c);
    assert w >= 0;
    assert CellConflictFree(g, aut, trans, follow, s, c);
  }
}
