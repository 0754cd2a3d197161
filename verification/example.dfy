/** A worked instance of the pipeline for the expression grammar
      E' -> E,  E -> E + T,  E -> T,  T -> id
    with start symbol E'. On the input `id +` the parse loop as written accepts with `+`
    still unread; the corrected loop rejects it. */
module AcceptExample {
  import opened Symbols
  import opened GrammarModel
  import opened Items
  import opened Automaton
  import opened FirstFollow
  import opened ParsingTable
  import opened Parser

  const Productions: seq<Production> := [
    Production("E'", ["E"]),
    Production("E", ["E", "+", "T"]),
    Production("E", ["T"]),
    Production("T", ["id"])
  ]

  /** The grammar as loading the four productions leaves it: terminals `+ id`, nonterminals
      `E E' T` (in string order), start symbol E'. */
  const G: Grammar := Grammar(["+", "id"], ["E", "E'", "T"], "E'", Productions)

  /** `G` is what registering `Productions` in order with start symbol E' builds. */
  lemma GIsBuilt()
    ensures BuildGrammar("E'", Productions) == G
  {
    var g1 := Grammar([], ["E'"], "E'", Productions[..1]);
    var g2 := Grammar(["+"], ["E", "E'"], "E'", Productions[..2]);
    var g3 := Grammar(["+"], ["E", "E'"], "E'", Productions[..3]);
    LoadFirst(EmptyGrammar("E'"), Productions);
    Registers1();
    LoadFirst(g1, Productions[1..]);
    Registers2();
    LoadFirst(g2, Productions[2..]);
    Registers3();
    LoadFirst(g3, Productions[3..]);
    Registers4();
  }

  /** Registering a non-empty list registers its head, then the rest. */
  lemma LoadFirst(g: Grammar, ps: seq<Production>)
    requires WellFormed(g) && ps != []
    ensures WellFormed(AddProduction(g, ps[0].left, ps[0].right))
    ensures AddProductions(g, ps) == AddProductions(AddProduction(g, ps[0].left, ps[0].right), ps[1..])
  {
    AddFirstProduction(g, ps);
  }

  lemma Registers1()
    ensures AddProduction(EmptyGrammar("E'"), "E'", ["E"]) == Grammar([], ["E'"], "E'", Productions[..1])
  {
    assert !IsTerminal("E");
  }

  lemma Registers2()
    ensures AddProduction(Grammar([], ["E'"], "E'", Productions[..1]), "E", ["E", "+", "T"])
      == Grammar(["+"], ["E", "E'"], "E'", Productions[..2])
  {
    assert StrLess("E", "E'");
    assert InsertTerminals([], ["E", "+", "T"]) == InsertTerminals([], ["+", "T"]);
    assert InsertTerminals([], ["+", "T"]) == InsertTerminals(["+"], ["T"]);
    assert InsertTerminals(["+"], ["T"]) == InsertTerminals(["+"], []);
  }

  lemma Registers3()
    ensures AddProduction(Grammar(["+"], ["E", "E'"], "E'", Productions[..2]), "E", ["T"])
      == Grammar(["+"], ["E", "E'"], "E'", Productions[..3])
  {
    assert InsertTerminals(["+"], ["T"]) == InsertTerminals(["+"], []);
  }

  lemma Registers4()
    ensures AddProduction(Grammar(["+"], ["E", "E'"], "E'", Productions[..3]), "T", ["id"]) == G
  {
    assert StrLess("E", "T") && StrLess("E'", "T") && StrLess("+", "id");
    assert !StrLess("T", "E") && !StrLess("T", "E'") && !StrLess("id", "+");
    assert SetInsert(["E", "E'"], "T") == ["E"] + SetInsert(["E'"], "T");
    assert SetInsert(["+"], "id") == ["+"] + SetInsert([], "id");
    assert InsertTerminals(["+"], ["id"]) == InsertTerminals(["+", "id"], []);
  }

  /** The six LR(0) states in discovery order. */
  const States: seq<State> := [
    [LR0Item("E'", ["E"], 0), LR0Item("E", ["E", "+", "T"], 0), LR0Item("E", ["T"], 0), LR0Item("T", ["id"], 0)],
    [LR0Item("T", ["id"], 1)],
    [LR0Item("E'", ["E"], 1), LR0Item("E", ["E", "+", "T"], 1)],
    [LR0Item("E", ["T"], 1)],
    [LR0Item("E", ["E", "+", "T"], 2), LR0Item("T", ["id"], 0)],
    [LR0Item("E", ["E", "+", "T"], 3)]
  ]

  const Trans: Transitions := map[
    (0, "id") := 1, (0, "E") := 2, (0, "T") := 3,
    (2, "+") := 4,
    (4, "id") := 1, (4, "T") := 5
  ]

  const Follow: SymbolSets := map["E'" := {"$"}, "E" := {"$", "+"}, "T" := {"$", "+"}]

  /** The token stream of `id +`, with the end marker the lexer appends. */
  const Input: seq<string> := ["id", "+", "$"]

  /** The cells of the table (columns `+`, `id`, `$`, E, E', T) that the two parses of
      `id +` read. */
  predicate ReadCells(t: Table) {
    && |t| == 6 && (forall s | 0 <= s < 6 :: |t[s]| == 6)
    && t[0][1] == Action(Shift, 1)
    && t[0][2] == ErrorAction
    && t[0][3] == Action(Goto, 2)
    && t[0][5] == Action(Goto, 3)
    && t[1][0] == Action(Reduce, 3)
    && t[1][2] == Action(Reduce, 3)
    && t[2][0] == Action(Shift, 4)
    && t[2][2] == Action(Accept, -1)
    && t[3][0] == Action(Reduce, 2)
    && t[3][2] == Action(Reduce, 2)
    && t[4][2] == ErrorAction
  }

  /** On such a table the parse loop as written shifts `id`, reduces it to T and then to E,
      and accepts with `+` still under the cursor. */
  lemma AsWrittenOnIdPlus(t: Table)
    requires ReadCells(t)
    ensures ParseInputAsWritten(G, t, Input, 10) == Accepted(1)
  {
    assert StepAsWritten(G, t, Input, Config([0], 0)) == Running(Config([0, 1], 1));
    assert StepAsWritten(G, t, Input, Config([0, 1], 1)) == Running(Config([0, 3], 1));
    assert StepAsWritten(G, t, Input, Config([0, 3], 1)) == Running(Config([0, 2], 1));
    assert StepAsWritten(G, t, Input, Config([0, 2], 1)) == Accepted(1);
  }

  /** The corrected loop takes the same reductions, then shifts `+` and finds the error
      entry under the end marker. */
  lemma CorrectedOnIdPlus(t: Table)
    requires ReadCells(t)
    ensures Parse(G, t, Input, 10) == Rejected(2)
  {
    assert Step(G, t, Input, Config([0], 0)) == Running(Config([0, 1], 1));
    assert Step(G, t, Input, Config([0, 1], 1)) == Running(Config([0, 3], 1));
    assert Step(G, t, Input, Config([0, 3], 1)) == Running(Config([0, 2], 1));
    assert Step(G, t, Input, Config([0, 2], 1)) == Running(Config([0, 2, 4], 2));
    assert Step(G, t, Input, Config([0, 2, 4], 2)) == Rejected(2);
  }

  lemma FollowFits()
    ensures FollowInColumns(G, Follow)
  {
  }

  lemma Cell01()
    ensures ExpectedCell(G, States, Trans, Follow, 0, 1) == Action(Shift, 1)
  {
  }

  lemma Cell02()
    ensures ExpectedCell(G, States, Trans, Follow, 0, 2) == ErrorAction
  {
  }

  lemma Cell03()
    ensures ExpectedCell(G, States, Trans, Follow, 0, 3) == Action(Goto, 2)
  {
  }

  lemma Cell05()
    ensures ExpectedCell(G, States, Trans, Follow, 0, 5) == Action(Goto, 3)
  {
  }

  lemma Cell10()
    ensures ExpectedCell(G, States, Trans, Follow, 1, 0) == Action(Reduce, 3)
  {
  }

  lemma Cell12()
    ensures ExpectedCell(G, States, Trans, Follow, 1, 2) == Action(Reduce, 3)
  {
  }

  lemma Cell20()
    ensures ExpectedCell(G, States, Trans, Follow, 2, 0) == Action(Shift, 4)
  {
  }

  lemma Cell22()
    ensures ExpectedCell(G, States, Trans, Follow, 2, 2) == Action(Accept, -1)
  {
  }

  lemma Cell30()
    ensures ExpectedCell(G, States, Trans, Follow, 3, 0) == Action(Reduce, 2)
  {
  }

  lemma Cell32()
    ensures ExpectedCell(G, States, Trans, Follow, 3, 2) == Action(Reduce, 2)
  {
  }

  lemma Cell42()
    ensures ExpectedCell(G, States, Trans, Follow, 4, 2) == ErrorAction
  {
  }

  /** The table constructParsingTable builds for the grammar holds those cells. */
  lemma TableReadCells()
    ensures FollowInColumns(G, Follow)
    ensures ReadCells(ConstructParsingTable(G, States, Trans, Follow))
  {
    FollowFits();
    TableCells(G, States, Trans, Follow, 0, 1); Cell01();
    TableCells(G, States, Trans, Follow, 0, 2); Cell02();
    TableCells(G, States, Trans, Follow, 0, 3); Cell03();
    TableCells(G, States, Trans, Follow, 0, 5); Cell05();
    TableCells(G, States, Trans, Follow, 1, 0); Cell10();
    TableCells(G, States, Trans, Follow, 1, 2); Cell12();
    TableCells(G, States, Trans, Follow, 2, 0); Cell20();
    TableCells(G, States, Trans, Follow, 2, 2); Cell22();
    TableCells(G, States, Trans, Follow, 3, 0); Cell30();
    TableCells(G, States, Trans, Follow, 3, 2); Cell32();
    TableCells(G, States, Trans, Follow, 4, 2); Cell42();
  }

  /** The counterexample: on the table of the grammar the productions build, parseInput as written accepts `id +`
      before reading `+`; the corrected loop rejects it. */
  lemma EarlyAccept()
    ensures BuildGrammar("E'", Productions) == G
    ensures FollowInColumns(G, Follow)
    ensures var t := ConstructParsingTable(G, States, Trans, Follow);
      && ParseInputAsWritten(G, t, Input, 10) == Accepted(1)
      && Lookahead(Input, 1) != EndMarker
      && Parse(G, t, Input, 10) == Rejected(2)
  {
    GIsBuilt();
    TableReadCells();
    AsWrittenOnIdPlus(ConstructParsingTable(G, States, Trans, Follow));
    CorrectedOnIdPlus(ConstructParsingTable(G, States, Trans, Follow));
  }
}
