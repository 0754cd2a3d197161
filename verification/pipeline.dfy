/** The analysis steps of the driver, in its order: register the productions, build the
    LR(0) automaton, compute FIRST and FOLLOW, build the table and parse the token stream
    with `$` appended. Reading the grammar and the token files and all output are not part
    of this model. */
module Pipeline {
  import opened Symbols
  import opened GrammarModel
  import opened Items
  import opened Automaton
  import opened FirstFollow
  import opened ParsingTable
  import opened Parser

  /** FOLLOW sets computed for a registered grammar hold only `$` and terminals of the
      grammar, so every one of them has a column. */
  lemma FollowHasColumns(g: Grammar, first: SymbolSets, follow: SymbolSets)
    requires WellFormed(g)
    requires forall k :: Lookup(first, k) <= FirstUniverse(g)
    requires forall k :: Lookup(follow, k) <= FollowUniverse(g, first)
    ensures FollowInColumns(g, follow)
  {
    forall v | v in FirstValues(first) ensures v in FirstUniverse(g) {
      var k :| k in first && v in first[k];
      assert v in Lookup(first, k);
    }
    forall k, t | k in follow && t in follow[k] ensures t == EndMarker || t in g.terminals {
      assert t in Lookup(follow, k);
      assert t in Elems(g.terminals) || t == EndMarker;
    }
  }

  /** A table built from states of the grammar and transitions between them: accept only
      in the `$` column, shift and goto entries that name states, reduce entries that name
      productions. */
  predicate SoundTable(g: Grammar, t: Table) {
    && AcceptOnlyAtEnd(g, t)
    && (forall s, c | 0 <= s < |t| && 0 <= c < |t[s]| ::
          t[s][c].kind == Shift || t[s][c].kind == Goto ==> 0 <= t[s][c].value < |t|)
    && (forall s, c | 0 <= s < |t| && 0 <= c < |t[s]| ::
          t[s][c].kind == Reduce ==> 0 <= t[s][c].value < |g.productions|)
  }

  lemma TableOfAutomaton(g: Grammar, aut: seq<State>, trans: Transitions, follow: SymbolSets)
    requires FollowInColumns(g, follow)
    requires forall s | 0 <= s < |aut| :: forall it | it in aut[s] :: ItemOf(g, it)
    requires forall k | k in trans :: trans[k] < |aut|
    ensures SoundTable(g, ConstructParsingTable(g, aut, trans, follow))
  {
    var t: Table := ConstructParsingTable(g, aut, trans, follow);
    AcceptCells(g, aut, trans, follow);
    forall s, c | 0 <= s < |t| && 0 <= c < |t[s]|
      ensures t[s][c].kind == Shift || t[s][c].kind == Goto ==> 0 <= t[s][c].value < |t|
      ensures t[s][c].kind == Reduce ==> 0 <= t[s][c].value < |g.productions|
    {
      TargetsAreStates(g, aut, trans, follow, s, c);
      ReduceCells(g, aut, trans, follow, s, c);
    }
  }

  datatype Analysis = Analysis(g: Grammar, aut: seq<State>, trans: Transitions,
                               first: SymbolSets, follow: SymbolSets, table: Table)

  /** Everything the driver computes before parsing: the grammar the productions register,
      and a sound table of one row of `|T| + |N| + 1` cells per state. */
  method Analyse(start: string, ps: seq<Production>) returns (a: Analysis)
    ensures a.g.productions == ps && a.g.startSymbol == start && WellFormed(a.g)
    ensures |a.table| == |a.aut| >= 1
    ensures forall s | 0 <= s < |a.table| :: |a.table[s]| == Width(a.g)
    ensures SoundTable(a.g, a.table)
  {
    var g := BuildGrammar(start, ps);
    var aut, trans := ConstructLR0Automaton(g);
    var first := ComputeFirstSets(g);
    var follow := ComputeFollowSets(g, first);
    FollowHasColumns(g, first, follow);
    assert forall s | 0 <= s < |aut| :: GoodState(g, aut[s]);
    TableOfAutomaton(g, aut, trans, follow);
    a := Analysis(g, aut, trans, first, follow, ConstructParsingTable(g, aut, trans, follow));
  }

  /** The driver without its output: analyse the grammar, then run parseInput as written on
      the lexed tokens with `$` appended, within `fuel` steps. The early accept only adds
      acceptances: every input the corrected loop accepts, the driver accepts too. */
  method Drive(start: string, ps: seq<Production>, lexed: seq<string>, fuel: nat) returns (a: Analysis, o: Outcome)
    ensures a.g.productions == ps && a.g.startSymbol == start
    ensures o == ParseInputAsWritten(a.g, a.table, lexed + [EndMarker], fuel)
    ensures Parse(a.g, a.table, lexed + [EndMarker], fuel).Accepted? ==> o.Accepted?
  {
    a := Analyse(start, ps);
    var tokens := lexed + [EndMarker];
    o := ParseInputAsWritten(a.g, a.table, tokens, fuel);
    if Parse(a.g, a.table, tokens, fuel).Accepted? {
      CorrectedAcceptImpliesAsWritten(a.g, a.table, tokens, Start, fuel);
    }
  }

  /** The driver with the corrected parse loop in place of parseInput. Acceptance happens
      only with `$` under the cursor, so when the lexed tokens do not contain `$` an
      accepted input has been read to the end. */
  method DriveCorrected(start: string, ps: seq<Production>, lexed: seq<string>, fuel: nat) returns (a: Analysis, o: Outcome)
    ensures a.g.productions == ps && a.g.startSymbol == start
    ensures o == Parse(a.g, a.table, lexed + [EndMarker], fuel)
    ensures o.Accepted? ==> Lookahead(lexed + [EndMarker], o.at) == EndMarker
    ensures o.Accepted? && EndMarker !in lexed ==> o.at >= |lexed|
  {
    a := Analyse(start, ps);
    var tokens := lexed + [EndMarker];
    o := Parse(a.g, a.table, tokens, fuel);
    RunAcceptsAtEnd(a.g, a.table, tokens, Start, fuel);
    assert forall i | 0 <= i < |lexed| :: tokens[i] == lexed[i];
  }
}
