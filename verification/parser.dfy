/** The table-driven parse loop (Grammar::parseInput), without its trace output. A
    configuration is the state stack (top at the end) and the position in the token stream.
    Stepping past the end of the stack, into a row that does not exist or through index -1
    is undefined behaviour in the source; the model reports it as `Undefined`. The loop need
    not terminate for an arbitrary table, so runs take a step budget. */
module Parser {
  import opened Symbols
  import opened GrammarModel
  import opened ParsingTable

  datatype Config = Config(stack: seq<int>, cursor: nat)

  datatype Outcome =
    | Accepted(at: nat)
    | Rejected(at: nat)
    | Undefined
    | Running(next: Config)
    | OutOfFuel

  /** The token under the cursor, or `$` past the end. */
  function Lookahead(tokens: seq<string>, cursor: nat): (t: string)
    ensures cursor < |tokens| ==> t == tokens[cursor]
    ensures cursor >= |tokens| ==> t == EndMarker
  {
    if cursor < |tokens| then tokens[cursor] else EndMarker
  }

  /** The column the parser reads for a lookahead: `$` has its own column, a terminal its
      position in the terminal set; -1 for any other token. */
  function InputColumn(g: Grammar, t: string): (c: int)
    ensures c == -1 <==> t != EndMarker && t !in g.terminals
    ensures t == EndMarker ==> c == EndColumn(g)
    ensures t != EndMarker && c >= 0 ==> c < |g.terminals| && g.terminals[c] == t
  {
    if t == EndMarker then EndColumn(g) else TerminalIndex(g, t)
  }

  /** The number of states a reduce by `p` pops: none for an epsilon production, otherwise
      one per right-hand-side symbol. */
  function PopCount(p: Production): (n: nat)
    ensures IsEpsilonRhs(p.right) ==> n == 0
    ensures !IsEpsilonRhs(p.right) ==> n == |p.right|
  {
    if IsEpsilonRhs(p.right) then 0 else |p.right|
  }

  /** The top state of a non-empty stack, if it names a row of the table. */
  predicate TopIsRow(t: Table, c: Config) {
    c.stack != [] && 0 <= c.stack[|c.stack| - 1] < |t|
  }

  function Top(c: Config): int
    requires c.stack != []
  {
    c.stack[|c.stack| - 1]
  }

  /** A reduce by production `pi`: pop, read the goto entry of the uncovered state for the
      production's left-hand side, and push its value. */
  function ReduceBy(g: Grammar, t: Table, c: Config, pi: int): (o: Outcome)
  {
    if !(0 <= pi < |g.productions|) then Undefined
    else
      var p := g.productions[pi];
      var n := PopCount(p);
      if n >= |c.stack| then Undefined
      else
        var rest := c.stack[..|c.stack| - n];
        var uncovered := rest[|rest| - 1];
        var col := NonTerminalIndex(g, p.left);
        if !(0 <= uncovered < |t|) || !(0 <= col < |t[uncovered]|) then Undefined
        else Running(Config(rest + [t[uncovered][col].value], c.cursor))
  }

  /** The shift, reduce and error branches of the loop body, shared by both parsers. */
  function Act(g: Grammar, t: Table, tokens: seq<string>, c: Config): (o: Outcome)
    requires TopIsRow(t, c)
  {
    var col := InputColumn(g, Lookahead(tokens, c.cursor));
    if col == -1 then Rejected(c.cursor)
    else if col >= |t[Top(c)]| then Undefined
    else
      var a := t[Top(c)][col];
      match a.kind
      case Shift => Running(Config(c.stack + [a.value], c.cursor + 1))
      case Reduce => ReduceBy(g, t, c, a.value)
      case _ => Rejected(c.cursor)
  }

  /** One iteration of the loop of parseInput as written: it accepts as soon as the `$`
      column of the top state holds accept, whatever the lookahead. */
  function StepAsWritten(g: Grammar, t: Table, tokens: seq<string>, c: Config): (o: Outcome)
  {
    if c.stack == [] then Rejected(c.cursor)
    else if !TopIsRow(t, c) || EndColumn(g) >= |t[Top(c)]| then Undefined
    else if t[Top(c)][EndColumn(g)].kind == Accept then Accepted(c.cursor)
    else Act(g, t, tokens, c)
  }

  /** One iteration of the corrected loop: accept is read from the lookahead's cell like
      every other action. */
  function Step(g: Grammar, t: Table, tokens: seq<string>, c: Config): (o: Outcome)
  {
    if c.stack == [] then Rejected(c.cursor)
    else if !TopIsRow(t, c) then Undefined
    else
      var col := InputColumn(g, Lookahead(tokens, c.cursor));
      if 0 <= col < |t[Top(c)]| && t[Top(c)][col].kind == Accept then Accepted(c.cursor)
      else Act(g, t, tokens, c)
  }

  function RunAsWritten(g: Grammar, t: Table, tokens: seq<string>, c: Config, fuel: nat): (o: Outcome)
    ensures !o.Running?
    decreases fuel
  {
    if fuel == 0 then OutOfFuel
    else
      match StepAsWritten(g, t, tokens, c)
      case Running(c') => RunAsWritten(g, t, tokens, c', fuel - 1)
      case o => o
  }

  function Run(g: Grammar, t: Table, tokens: seq<string>, c: Config, fuel: nat): (o: Outcome)
    ensures !o.Running?
    decreases fuel
  {
    if fuel == 0 then OutOfFuel
    else
      match Step(g, t, tokens, c)
      case Running(c') => Run(g, t, tokens, c', fuel - 1)
      case o => o
  }

  /** The initial configuration: state 0 on the stack, the cursor on the first token. */
  const Start: Config := Config([0], 0)

  /** Grammar::parseInput as written, with at most `fuel` iterations. */
  function ParseInputAsWritten(g: Grammar, t: Table, tokens: seq<string>, fuel: nat): (o: Outcome)
    ensures !o.Running?
  {
    RunAsWritten(g, t, tokens, Start, fuel)
  }

  /** The corrected parse loop, with at most `fuel` iterations. */
  function Parse(g: Grammar, t: Table, tokens: seq<string>, fuel: nat): (o: Outcome)
    ensures !o.Running?
  {
    Run(g, t, tokens, Start, fuel)
  }

  // ---------------------------------------------------------------------------------------
  // Properties of a step

  /** A shift pushes the shift target and consumes the lookahead. */
  lemma ShiftStep(g: Grammar, t: Table, tokens: seq<string>, c: Config)
    requires TopIsRow(t, c)
    requires var col := InputColumn(g, Lookahead(tokens, c.cursor));
      0 <= col < |t[Top(c)]| && t[Top(c)][col].kind == Shift
    ensures var a := t[Top(c)][InputColumn(g, Lookahead(tokens, c.cursor))];
      Act(g, t, tokens, c) == Running(Config(c.stack + [a.value], c.cursor + 1))
  {
  }

  /** A reduce by production `pi` pops nothing for an epsilon production and one state per
      right-hand-side symbol otherwise, then pushes the goto entry of the uncovered state
      for the left-hand side, and leaves the cursor alone. */
  lemma ReduceStep(g: Grammar, t: Table, c: Config, pi: int)
    requires ReduceBy(g, t, c, pi).Running?
    ensures 0 <= pi < |g.productions|
    ensures var c' := ReduceBy(g, t, c, pi).next;
      var n := if IsEpsilonRhs(g.productions[pi].right) then 0 else |g.productions[pi].right|;
      && n < |c.stack|
      && |c'.stack| == |c.stack| - n + 1
      && c'.stack[..|c.stack| - n] == c.stack[..|c.stack| - n]
      && c'.stack[|c'.stack| - 1] == t[c.stack[|c.stack| - n - 1]][NonTerminalIndex(g, g.productions[pi].left)].value
      && c'.cursor == c.cursor
  {
    var n := PopCount(g.productions[pi]);
    var c' := ReduceBy(g, t, c, pi).next;
    assert c'.stack[..|c.stack| - n] == c.stack[..|c.stack| - n];
  }

  /** The source parser accepts exactly when the `$` cell of the top state holds accept. */
  lemma AsWrittenAccepts(g: Grammar, t: Table, tokens: seq<string>, c: Config)
    ensures StepAsWritten(g, t, tokens, c).Accepted? <==>
      TopIsRow(t, c) && EndColumn(g) < |t[Top(c)]| && t[Top(c)][EndColumn(g)].kind == Accept
  {
    if TopIsRow(t, c) && EndColumn(g) < |t[Top(c)]| && t[Top(c)][EndColumn(g)].kind != Accept {
      var col := InputColumn(g, Lookahead(tokens, c.cursor));
      if col != -1 && col < |t[Top(c)]| && t[Top(c)][col].kind == Reduce {
        NotAcceptedByReduce(g, t, c, t[Top(c)][col].value);
      }
    }
  }

  lemma NotAcceptedByReduce(g: Grammar, t: Table, c: Config, pi: int)
    ensures !ReduceBy(g, t, c, pi).Accepted?
  {
  }

  /** Where accept appears only in the `$` column, the two loops take the same step whenever
      the `$` cell of the top state is not accept or the lookahead is `$`. */
  lemma StepsAgree(g: Grammar, t: Table, tokens: seq<string>, c: Config)
    requires AcceptOnlyAtEnd(g, t)
    requires !TopIsRow(t, c) || EndColumn(g) >= |t[Top(c)]| || t[Top(c)][EndColumn(g)].kind != Accept
      || Lookahead(tokens, c.cursor) == EndMarker
    requires c.stack != [] && TopIsRow(t, c) ==> EndColumn(g) < |t[Top(c)]|
    ensures StepAsWritten(g, t, tokens, c) == Step(g, t, tokens, c)
  {
  }

  /** The corrected loop accepts only with `$` as lookahead, where accept appears only in
      the `$` column. */
  lemma {:induction false} RunAcceptsAtEnd(g: Grammar, t: Table, tokens: seq<string>, c: Config, fuel: nat)
    requires AcceptOnlyAtEnd(g, t)
    ensures Run(g, t, tokens, c, fuel).Accepted? ==>
      Lookahead(tokens, Run(g, t, tokens, c, fuel).at) == EndMarker
    decreases fuel
  {
    if fuel > 0 {
      var o := Step(g, t, tokens, c);
      if o.Running? {
        RunAcceptsAtEnd(g, t, tokens, o.next, fuel - 1);
      } else if o.Accepted? {
        var col := InputColumn(g, Lookahead(tokens, c.cursor));
        assert 0 <= col < |t[Top(c)]| && t[Top(c)][col].kind == Accept by {
          if !(0 <= col < |t[Top(c)]| && t[Top(c)][col].kind == Accept) && 0 <= col < |t[Top(c)]| {
            NotAcceptedByReduce(g, t, c, t[Top(c)][col].value);
          }
        }
      }
    }
  }

  /** The defect only adds acceptances: on a table with accept only in the `$` column and
      well-formed rows, whatever the corrected loop accepts, the source loop accepts too
      (possibly earlier). */
  lemma {:induction false} CorrectedAcceptImpliesAsWritten(g: Grammar, t: Table, tokens: seq<string>, c: Config, fuel: nat)
    requires AcceptOnlyAtEnd(g, t)
    requires forall s | 0 <= s < |t| :: EndColumn(g) < |t[s]|
    requires Run(g, t, tokens, c, fuel).Accepted?
    ensures RunAsWritten(g, t, tokens, c, fuel).Accepted?
    decreases fuel
  {
    if TopIsRow(t, c) && t[Top(c)][EndColumn(g)].kind == Accept {
      assert StepAsWritten(g, t, tokens, c) == Accepted(c.cursor);
    } else {
      StepsAgree(g, t, tokens, c);
      var o := Step(g, t, tokens, c);
      if o.Running? {
        CorrectedAcceptImpliesAsWritten(g, t, tokens, o.next, fuel - 1);
      }
    }
  }
}
