/** The grammar being analysed: productions in insertion order, and the terminal and
    nonterminal sets that registering them implies. */
module GrammarModel {
  import opened Symbols

  datatype Production = Production(left: string, right: seq<string>)

  /** The grammar part of the C++ `Grammar` class; the derived artefacts (automaton,
      transitions, FIRST and FOLLOW sets) are results of the later stages. */
  datatype Grammar = Grammar(
    terminals: SymbolSet,
    nonTerminals: SymbolSet,
    startSymbol: string,
    productions: seq<Production>)

  function EmptyGrammar(start: string): Grammar {
    Grammar([], [], start, [])
  }

  /** Nonterminal classification: membership in the set of left-hand sides registered. */
  predicate IsNonTerminal(g: Grammar, s: string) {
    s in g.nonTerminals
  }

  /** In a registered grammar the nonterminals are exactly the left-hand sides. */
  lemma IsNonTerminalIsLeft(g: Grammar, s: string)
    requires WellFormed(g)
    ensures IsNonTerminal(g, s) <==> exists p | p in g.productions :: p.left == s
  {
    if IsNonTerminal(g, s) {
      assert s in Lefts(g.productions);
      var p :| p in g.productions && p.left == s;
    }
    if exists p | p in g.productions :: p.left == s {
      var p :| p in g.productions && p.left == s;
      assert s in Lefts(g.productions);
    }
  }

  /** A right-hand side marking an epsilon production. The source reads `rhs[0]` even for an
      empty right-hand side; the model reads an empty one as not epsilon. */
  predicate IsEpsilonRhs(right: seq<string>) {
    |right| > 0 && right[0] == Epsilon
  }

  function TerminalsOf(right: seq<string>): set<string> {
    set x | x in right && IsTerminal(x)
  }

  function Lefts(ps: seq<Production>): set<string> {
    set p | p in ps :: p.left
  }

  function RhsTerminals(ps: seq<Production>): set<string> {
    set p, x | p in ps && x in p.right && IsTerminal(x) :: x
  }

  /** The terminal and nonterminal sets are exactly what the registered productions imply. */
  predicate WellFormed(g: Grammar) {
    && Elems(g.nonTerminals) == Lefts(g.productions)
    && Elems(g.terminals) == RhsTerminals(g.productions)
  }

  /** The loop of `addProduction` over the right-hand side: every terminal is inserted. */
  function InsertTerminals(ts: SymbolSet, right: seq<string>): (r: SymbolSet)
    ensures Elems(r) == Elems(ts) + TerminalsOf(right)
    decreases |right|
  {
    if right == [] then ts
    else
      var ts' := if IsTerminal(right[0]) then SetInsert(ts, right[0]) else ts;
      var r := InsertTerminals(ts', right[1..]);
      assert TerminalsOf(right) == (if IsTerminal(right[0]) then {right[0]} else {}) + TerminalsOf(right[1..]) by {
        assert right == [right[0]] + right[1..];
      }
      r
  }

  /** Grammar::addProduction. */
  function AddProduction(g: Grammar, left: string, right: seq<string>): (r: Grammar)
    ensures r.productions == g.productions + [Production(left, right)]
    ensures Elems(r.nonTerminals) == Elems(g.nonTerminals) + {left}
    ensures Elems(r.terminals) == Elems(g.terminals) + TerminalsOf(right)
    ensures r.startSymbol == g.startSymbol
  {
    Grammar(InsertTerminals(g.terminals, right), SetInsert(g.nonTerminals, left),
            g.startSymbol, g.productions + [Production(left, right)])
  }

  lemma AddProductionKeepsWellFormed(g: Grammar, left: string, right: seq<string>)
    requires WellFormed(g)
    ensures WellFormed(AddProduction(g, left, right))
  {
    var r := AddProduction(g, left, right);
    var ps := g.productions + [Production(left, right)];
    assert Lefts(ps) == Lefts(g.productions) + {left} by {
      assert forall p :: p in ps <==> p in g.productions || p == Production(left, right);
    }
    assert RhsTerminals(ps) == RhsTerminals(g.productions) + TerminalsOf(right) by {
      assert forall p :: p in ps <==> p in g.productions || p == Production(left, right);
      forall x | x in RhsTerminals(ps) ensures x in RhsTerminals(g.productions) + TerminalsOf(right) {
        var p :| p in ps && x in p.right && IsTerminal(x);
      }
    }
  }

  /** Registering the first of `ps` leaves the rest to register. */
  lemma AddFirstProduction(g: Grammar, ps: seq<Production>)
    requires WellFormed(g) && ps != []
    ensures var g' := AddProduction(g, ps[0].left, ps[0].right);
      WellFormed(g') && g.productions + ps == g'.productions + ps[1..]
  {
    AddProductionKeepsWellFormed(g, ps[0].left, ps[0].right);
    assert ps == [ps[0]] + ps[1..];
  }

  /** Registers `ps` in order, as the grammar loader does line by line. */
  function AddProductions(g: Grammar, ps: seq<Production>): (r: Grammar)
    requires WellFormed(g)
    ensures WellFormed(r)
    ensures r.productions == g.productions + ps
    ensures r.startSymbol == g.startSymbol
    decreases |ps|
  {
    if ps == [] then g
    else
      AddFirstProduction(g, ps);
      AddProductions(AddProduction(g, ps[0].left, ps[0].right), ps[1..])
  }

  /** The grammar that loading `ps` with start symbol `start` produces. */
  function BuildGrammar(start: string, ps: seq<Production>): (g: Grammar)
    ensures WellFormed(g)
    ensures g.productions == ps && g.startSymbol == start
  {
    AddProductions(EmptyGrammar(start), ps)
  }

  /** Grammar::getProductionIndex: the first position holding `left -> right`, or -1. */
  function ProductionIndex(g: Grammar, left: string, right: seq<string>): (r: int)
    ensures -1 <= r < |g.productions|
    ensures r == -1 <==> Production(left, right) !in g.productions
    ensures r >= 0 ==> g.productions[r] == Production(left, right)
    ensures r >= 0 ==> forall i :: 0 <= i < r ==> g.productions[i] != Production(left, right)
  {
    FirstIndex(g.productions, Production(left, right), 0)
  }

  function FirstIndex(ps: seq<Production>, p: Production, from: nat): (r: int)
    requires from <= |ps|
    ensures -1 <= r < |ps|
    ensures r == -1 <==> p !in ps[from..]
    ensures r >= 0 ==> from <= r && ps[r] == p && forall i :: from <= i < r ==> ps[i] != p
    decreases |ps| - from
  {
    if from == |ps| then -1
    else if ps[from] == p then from
    else
      assert ps[from..] == [ps[from]] + ps[from + 1..];
      FirstIndex(ps, p, from + 1)
  }

  /** Grammar::getTerminalIndex: the table column of a terminal, or -1. */
  function TerminalIndex(g: Grammar, t: string): (r: int)
    ensures r == -1 <==> t !in g.terminals
    ensures r >= 0 ==> r < |g.terminals| && g.terminals[r] == t
  {
    IndexOf(g.terminals, t)
  }

  /** Grammar::getNonTerminalIndex: the table column of a nonterminal, which comes after the
      terminal columns and the `$` column, or -1. */
  function NonTerminalIndex(g: Grammar, n: string): (r: int)
    ensures r == -1 <==> n !in g.nonTerminals
    ensures r >= 0 ==> |g.terminals| + 1 <= r < |g.terminals| + 1 + |g.nonTerminals|
    ensures r >= 0 ==> g.nonTerminals[r - |g.terminals| - 1] == n
  {
    var k := IndexOf(g.nonTerminals, n);
    if k == -1 then -1 else |g.terminals| + 1 + k
  }
}
