/** The driver of the FTS5 query parser. */
module FtsParser {
  import opened Options
  import opened LrTables
  import opened Lr
  import opened LrStack
  import opened LrSteps
  import opened LrRun
  import opened LrDerive

  const YYSTACKDEPTH: nat := 100

  /** The parse tree is a derivation of these tokens from the start symbol by the 24 rules. */
  ghost predicate Derives(root: Option<Tree>, tokens: seq<Token>) {
    root.Some? && root.value.Ok() && root.value.Sym() == N_INPUT && root.value.Yield() == tokens
  }

  /** The operators in the parse tree bind as the grammar's precedences say. */
  ghost predicate Proper(root: Option<Tree>) { root.Some? && Binds(root.value) }

  ghost predicate IsReduced(st: seq<Entry>, r: nat, st2: seq<Entry>)
    requires r < RULES
  {
    Fits(st, r) && HasGoto(st[|st| - |Rhs(r)| - 1].state, Lhs(r)) && st2 == Reduced(st, r)
  }

  /** The stack overflows, or no action is left for the token. */
  ghost predicate Fails(c: Config, n: nat, tok: Token) {
    Run(c, n).Some? && (Peak(c, n) > YYSTACKDEPTH || Stops(Run(c, n).value, tok))
  }

  ghost predicate Stops(d: Config, tok: Token) { d.rest == [tok] && Step(d).None? && !d.Accepts() }

  /** The expression on the stack is what the parser has found. */
  ghost predicate Succeeds(c: Config, n: nat, tok: Token, root: Option<Tree>) {
    Run(c, n).Some? && Peak(c, n) <= YYSTACKDEPTH && Finishes(Run(c, n).value, tok, root)
  }

  ghost predicate Finishes(d: Config, tok: Token, root: Option<Tree>) {
    d.rest == [tok] && d.Accepts() && |d.st| == 2 && root == Some(Node(0, [d.st[1].tree]))
  }

  ghost predicate ReducesTo(st: seq<Entry>, r: nat, st2: seq<Entry>) { CanReduce(st, r) && st2 == Reduced(st, r) }

  /** Only a reduction by a rule without a right-hand side can make the stack overflow. */
  ghost predicate Overflows(st: seq<Entry>, r: nat) { CanReduce(st, r) && Rhs(r) == [] && |st| == YYSTACKDEPTH }

  class Parser {
    var yystack: array<Entry>
    var yyidx: int
    var yyerrcnt: int
    /** Errors reported to the caller. */
    var errors: nat
    /** What sqlite3Fts5ParseFinished was given, below the rule for the input. */
    var root: Option<Tree>
    /** The tokens shifted since the parser started on this input. */
    ghost var shifted: seq<Token>

    ghost function Stack(): seq<Entry>
      reads this, yystack
      requires -1 <= yyidx < yystack.Length
    {
      yystack[..yyidx + 1]
    }

    ghost predicate Valid()
      reads this, yystack
    {
      && yystack.Length == YYSTACKDEPTH && -1 <= yyidx < YYSTACKDEPTH
      && (yyidx >= 0 ==> Good(Stack(), shifted))
      && (errors == 0 ==> yyerrcnt <= 0 && (yyidx >= 0 ==> Tidy(Stack())))
    }

    /** The tokens of this input taken so far. */
    ghost function Taken(): seq<Token>
      reads this
    {
      if yyidx < 0 then [] else shifted
    }

    /** While no error has been reported, the last token of the input was shifted. */
    ghost predicate Ready()
      reads this, yystack
    {
      errors == 0 && 0 < yyidx < yystack.Length ==> yystack[yyidx].tree.Leaf?
    }

    /** The automaton before the parser takes a token. */
    ghost function Begin(tok: Token): Config
      reads this, yystack
      requires yyidx < yystack.Length
    {
      Config(if yyidx < 0 then [BOTTOM] else Stack(), [tok])
    }

    /** The parser has done as the automaton does in n steps from c, or has reported why it could not. */
    ghost predicate Did(c: Config, n: nat, tok: Token)
      reads this, yystack
      requires -1 <= yyidx < yystack.Length
    {
      if errors > 0 then Fails(c, n, tok)
      else if tok.major == EOF then Succeeds(c, n, tok, root)
      else Run(c, n) == Some(Config(Stack(), [])) && Peak(c, n) <= YYSTACKDEPTH
    }

    constructor ()
      ensures Valid() && Ready() && yyidx == -1 && errors == 0 && root == None && fresh(yystack)
    {
      yystack := new Entry[YYSTACKDEPTH](_ => Entry(0, 0, Leaf(Token(0, ""))));
      yyidx, yyerrcnt, errors, root, shifted := -1, -1, 0, None, [];
    }

    method PopAll()
      modifies this`yyidx
      ensures yyidx == if old(yyidx) >= 0 then -1 else old(yyidx)
    {
      while yyidx >= 0
        invariant yyidx == old(yyidx) || (yyidx >= -1 && old(yyidx) >= 0)
      {
        yyidx := yyidx - 1;
      }
    }

    /** yy_shift: pushes an entry, or reports an overflow and drops the whole stack. */
    method Shift(yyNewState: nat, major: nat, tree: Tree)
      requires yystack.Length == YYSTACKDEPTH && 0 <= yyidx < YYSTACKDEPTH
      modifies this`yyidx, this`errors, yystack
      ensures old(yyidx) + 1 < YYSTACKDEPTH ==>
        errors == old(errors) && yyidx == old(yyidx) + 1 && Stack() == old(Stack()) + [Entry(yyNewState, major, tree)]
      ensures old(yyidx) + 1 >= YYSTACKDEPTH ==> errors == old(errors) + 1 && yyidx == -1
    {
      yyidx := yyidx + 1;
      if yyidx >= YYSTACKDEPTH {
        yyidx := yyidx - 1;
        PopAll();
        errors := errors + 1;
        return;
      }
      yystack[yyidx] := Entry(yyNewState, major, tree);
    }

    /** yy_reduce, with the action found for the left-hand side in the state below the right-hand side. */
    method Reduce(yyruleno: nat, ghost look: nat)
      requires yystack.Length == YYSTACKDEPTH && 0 <= yyidx < YYSTACKDEPTH && yyruleno < RULES
      requires Good(Stack(), shifted) && Reduces(yystack[yyidx].state, look, yyruleno)
      modifies this`yyidx, this`errors, this`root, yystack
      ensures yyruleno == 0 ==> yyidx == -1 && errors == old(errors) && Derives(root, shifted)
      ensures yyruleno == 0 ==> |old(Stack())| == 2 && root == Some(Node(0, [old(Stack())[1].tree]))
      ensures yyruleno > 0 ==> root == old(root)
      ensures yyruleno > 0 && yyidx < 0 ==> yyidx == -1 && errors == old(errors) + 1 && |old(Stack())| == YYSTACKDEPTH && Rhs(yyruleno) == []
      ensures yyruleno > 0 && yyidx >= 0 ==> errors == old(errors) && yyidx < YYSTACKDEPTH
      ensures yyruleno > 0 && yyidx >= 0 ==> IsReduced(old(Stack()), yyruleno, Stack())
    {
      hide Good, Fits, Reduces, Rhs, Lhs, HasGoto, FindReduceAction, Trees;
      ghost var st := Stack();
      ReduceNode(st, shifted, look, yyruleno);
      var yysize := Nrhs(yyruleno);
      SizeFits(st, yyruleno);
      var kids := Values(yysize);
      var value := Node(yyruleno, kids);
      if yyruleno == 0 { root := Some(value); }
      yyidx := yyidx - yysize;
      var yyact := FindReduceAction(yystack[yyidx].state, Lhs(yyruleno));
      if yyruleno == 0 { AcceptGood(st, shifted, look); OneTree(st); } else { ReduceGood(st, shifted, look, yyruleno); }
      if yyact <= YY_MAX_SHIFTREDUCE {
        if yysize > 0 {
          yyidx := yyidx + 1;
          yystack[yyidx] := Entry(Pushed(yyact), Lhs(yyruleno), value);
        } else {
          Shift(Pushed(yyact), Lhs(yyruleno), value);
        }
      } else {
        PopAll();
      }
    }

    method Start()
      requires Valid() && yyidx < 0
      modifies this`yyidx, this`yyerrcnt, this`shifted, yystack
      ensures Valid() && yyidx == 0 && Ready() && shifted == [] && Stack() == [BOTTOM]
    {
      yyidx, yyerrcnt := 0, -1;
      yystack[0] := BOTTOM;
      shifted := [];
      assert Stack() == [yystack[0]] && Stack()[1..] == [] && Trees([]) == [];
    }

    /** A syntax error: reported unless fewer than three tokens were shifted since the last one; the token is dropped. */
    method SyntaxError(yyendofinput: bool)
      requires Valid() && yyidx >= 0
      modifies this`yyidx, this`yyerrcnt, this`errors
      ensures Valid() && errors > 0 && errors >= old(errors)
      ensures if yyendofinput then yyidx == -1 else yyidx == old(yyidx)
    {
      if yyerrcnt <= 0 { errors := errors + 1; }
      yyerrcnt := 3;
      if yyendofinput { PopAll(); }
    }

    /** A shift: the token goes on the stack with the new state or the postponed reduction. */
    method TakeShift(tok: Token, yyact: nat)
      requires Valid() && yyidx >= 0 && tok.major <= STAR && (errors == 0 ==> Awaits(Stack(), tok.major))
      requires yyact == FindShiftAction(yystack[yyidx].state, tok.major) <= YY_MAX_SHIFTREDUCE
      modifies this`yyidx, this`yyerrcnt, this`errors, this`shifted, yystack
      ensures Valid() && errors >= old(errors)
      ensures errors == 0 ==> tok.major != EOF && yyidx > 0 && shifted == old(shifted) + [tok] && Ready()
      ensures if errors == old(errors) then yyidx >= 0 && Stack() == Shifted(old(Stack()), yyact, tok) else |old(Stack())| == YYSTACKDEPTH
    {
      hide Good, Tidy, Awaits, StateAction, Rhs, Lhs;
      ghost var st := Stack();
      TopState(st, shifted);
      ShiftGood(st, shifted, yyact, tok);
      if errors == 0 { ShiftTidy(st, yyact, tok); }
      Shift(Pushed(yyact), tok.major, Leaf(tok));
      if yyidx >= 0 { shifted := shifted + [tok]; }
      yyerrcnt := yyerrcnt - 1;
    }

    /** A reduction: by the first rule it accepts; by any other it brings the parser closer to the next shift. */
    method TakeReduce(look: nat, yyruleno: nat)
      requires Valid() && yyidx >= 0 && look <= STAR && (errors == 0 ==> Awaits(Stack(), look))
      requires yyruleno < RULES && Reduces(yystack[yyidx].state, look, yyruleno)
      modifies this`yyidx, this`errors, this`root, yystack
      ensures Valid() && errors >= old(errors)
      ensures yyidx < 0 ==> errors > old(errors) || (look == EOF && Derives(root, shifted) && (errors == 0 ==> Proper(root)))
      ensures yyidx >= 0 ==> Measure(Stack()) < old(Measure(Stack())) && (errors == 0 ==> Awaits(Stack(), look))
      ensures yyruleno == 0 ==> errors == old(errors) && yyidx < 0 && |old(Stack())| == 2 && root == Some(Node(0, [old(Stack())[1].tree]))
      ensures yyruleno > 0 && yyidx >= 0 ==> errors == old(errors) && ReducesTo(old(Stack()), yyruleno, Stack())
      ensures yyruleno > 0 && yyidx < 0 ==> errors > old(errors) && Overflows(old(Stack()), yyruleno)
    {
      hide Good, Tidy, Awaits, Reduces, Fits, Derives, Rhs, Lhs, HasGoto, FindReduceAction, Measure, Binds, Reduced, CanReduce, ReducesTo, Overflows, IsReduced;
      ghost var st := Stack();
      if yyruleno > 0 { Reducible(st, shifted, look, yyruleno); }
      Reduce(yyruleno, look);
      if yyruleno > 0 { AfterReduce(st, yyruleno, Stack()); }
      if yyruleno == 0 {
        AcceptAtEnd(st, shifted, look);
        if errors == 0 { RootBinds(st); }
      } else if yyidx >= 0 {
        ReduceGood(st, shifted, look, yyruleno);
        ReduceShrinks(st, shifted, look, yyruleno);
        if errors == 0 { ReduceTidy(st, shifted, look, yyruleno); }
      }
    }

    /** sqlite3Fts5Parser: takes one token. */
    method Parse(tok: Token) returns (ghost n: nat)
      requires Valid() && Ready() && tok.major <= STAR
      modifies this, yystack
      ensures Valid() && Ready() && yystack == old(yystack) && errors >= old(errors)
      ensures errors == 0 && tok.major != EOF ==> yyidx >= 0 && Taken() == old(Taken()) + [tok]
      ensures errors == 0 && tok.major == EOF ==> yyidx == -1 && Derives(root, old(Taken())) && Proper(root)
      ensures old(errors) == 0 ==> Did(old(Begin(tok)), n, tok)
    {
      hide Good, Reduces, Tidy, Awaits, FindShiftAction, Derives, Measure, Proper, Run, Peak, Fails, Succeeds, Reduced, Shifted, CanReduce, ReducesTo, Overflows;
      n := 0;
      ghost var c := Begin(tok);
      if yyidx < 0 { Start(); }
      NoRun(c);
      ghost var taken := shifted;
      var yymajor := tok.major;
      if errors == 0 { StartAwaits(Stack(), yymajor); }
      while yymajor != YYNOCODE && yyidx >= 0
        invariant Valid() && yystack == old(yystack) && errors >= old(errors)
        invariant yymajor == tok.major || yymajor == YYNOCODE
        invariant yymajor == tok.major && yyidx >= 0 && errors == 0 ==> Awaits(Stack(), yymajor)
        invariant yymajor == tok.major && yyidx >= 0 ==> shifted == taken
        invariant errors == 0 && yyidx < 0 ==> tok.major == EOF && Derives(root, taken) && Proper(root)
        invariant errors == 0 && yymajor == YYNOCODE ==> tok.major != EOF && yyidx > 0 && shifted == taken + [tok] && Ready()
        invariant old(errors) == 0 && errors == 0 && yymajor == tok.major && yyidx >= 0 ==>
          Run(c, n) == Some(Config(Stack(), [tok])) && Peak(c, n) <= YYSTACKDEPTH
        invariant old(errors) == 0 && (errors > 0 || yymajor == YYNOCODE || yyidx < 0) ==> Did(c, n, tok)
        invariant errors > 0 && old(errors) == 0 ==> yymajor == YYNOCODE || yyidx < 0
        decreases if yymajor == YYNOCODE then 0 else 1, if yyidx < 0 then 0 else 1 + Measure(Stack())
      {
        ghost var st, before := Stack(), errors;
        TopState(Stack(), shifted);
        Actions(yystack[yyidx].state, yymajor);
        var yyact := FindShiftAction(yystack[yyidx].state, yymajor);
        if yyact <= YY_MAX_SHIFTREDUCE {
          TakeShift(tok, yyact);
          yymajor := YYNOCODE;
          if old(errors) == 0 && before == 0 { n := DidShift(c, n, st, tok, yyact, errors, Stack()); }
        } else if yyact <= YY_MAX_REDUCE {
          TakeReduce(yymajor, yyact - YY_MIN_REDUCE);
          if old(errors) == 0 && before == 0 { n := DidReduce(c, n, st, tok, yyact - YY_MIN_REDUCE, errors, yyidx, root, Stack()); }
        } else {
          SyntaxError(tok.major == EOF);
          yymajor := YYNOCODE;
          if old(errors) == 0 && before == 0 { DidStop(c, n, st, tok); }
        }
      }
    }

    method Values(n: nat) returns (kids: seq<Tree>)
      requires -1 <= yyidx < yystack.Length && n <= yyidx
      ensures kids == Trees(Stack()[yyidx + 1 - n..])
    {
      kids := seq(n, i requires 0 <= i < n => Leaf(Token(0, "")));
      for i := 0 to n
        invariant |kids| == n && forall t | 0 <= t < i :: kids[t] == yystack[yyidx + 1 - n + t].tree
      {
        kids := kids[i := yystack[yyidx + 1 - n + i].tree];
      }
    }
  }

  /** One more step of the automaton. */
  lemma OneMore(c: Config, n: nat, d: Config, e: Config)
    requires Run(c, n) == Some(d) && Peak(c, n) <= YYSTACKDEPTH && Step(d) == Some(e) && |d.st| <= YYSTACKDEPTH
    ensures Run(c, n + 1) == Some(e) && Peak(c, n + 1) == Max(Peak(c, n), |e.st|)
  {
    hide Run, Peak, Step;
    StepRun(d);
    RunOn(c, n, d, 1);
    PeakEnd(c, n, d);
  }

  lemma {:induction false} PeakEnd(c: Config, n: nat, d: Config)
    requires Run(c, n) == Some(d)
    ensures Peak(c, n) >= |d.st|
    decreases n
  {
    hide Step;
    if n > 0 { PeakEnd(Step(c).value, n - 1, d); }
  }

  lemma DidShift(c: Config, n: nat, st: seq<Entry>, tok: Token, act: nat, errors: nat, st2: seq<Entry>) returns (m: nat)
    requires st != [] && |st| <= YYSTACKDEPTH && Run(c, n) == Some(Config(st, [tok])) && Peak(c, n) <= YYSTACKDEPTH
    requires act == FindShiftAction(st[|st| - 1].state, tok.major) <= YY_MAX_SHIFTREDUCE
    requires if errors == 0 then st2 == Shifted(st, act, tok) && |st2| <= YYSTACKDEPTH else |st| == YYSTACKDEPTH
    ensures if errors > 0 then Fails(c, m, tok) else Run(c, m) == Some(Config(st2, [])) && Peak(c, m) <= YYSTACKDEPTH
  {
    hide Run, Peak, FindShiftAction, Step;
    StepShift(st, tok, []);
    assert [tok] + [] == [tok];
    OneMore(c, n, Config(st, [tok]), Config(Shifted(st, act, tok), []));
    m := n + 1;
  }

  lemma DidReduce(c: Config, n: nat, st: seq<Entry>, tok: Token, r: nat, errors: nat, yyidx: int, root: Option<Tree>, st2: seq<Entry>)
    returns (m: nat)
    requires st != [] && |st| <= YYSTACKDEPTH && Run(c, n) == Some(Config(st, [tok])) && Peak(c, n) <= YYSTACKDEPTH
    requires FindShiftAction(st[|st| - 1].state, tok.major) == YY_MIN_REDUCE + r && r < RULES
    requires r == 0 ==> errors == 0 && yyidx < 0 && |st| == 2 && root == Some(Node(0, [st[1].tree]))
    requires r > 0 && yyidx >= 0 ==> errors == 0 && ReducesTo(st, r, st2) && |st2| <= YYSTACKDEPTH
    requires r > 0 && yyidx < 0 ==> errors > 0 && Overflows(st, r)
    ensures r == 0 ==> Succeeds(c, m, tok, root)
    ensures r > 0 && yyidx >= 0 ==> Run(c, m) == Some(Config(st2, [tok])) && Peak(c, m) <= YYSTACKDEPTH
    ensures r > 0 && yyidx < 0 ==> Fails(c, m, tok)
  {
    hide Run, Peak, FindShiftAction, HasGoto, FindReduceAction, Rhs, Lhs;
    m := n;
    if r > 0 {
      OneMore(c, n, Config(st, [tok]), Config(Reduced(st, r), [tok]));
      m := n + 1;
    }
  }

  lemma DidStop(c: Config, n: nat, st: seq<Entry>, tok: Token)
    requires st != [] && Run(c, n) == Some(Config(st, [tok])) && FindShiftAction(st[|st| - 1].state, tok.major) > YY_MAX_REDUCE
    ensures Fails(c, n, tok)
  {
    hide Run, Peak, FindShiftAction;
  }

  lemma Reducible(st: seq<Entry>, shifted: seq<Token>, look: nat, r: nat)
    requires Good(st, shifted) && Reduces(st[|st| - 1].state, look, r) && 0 < r < RULES
    ensures CanReduce(st, r)
  {
    hide Good, Reduces, Rhs, Lhs, HasGoto, FindReduceAction, Reduced, Base;
    ReduceGood(st, shifted, look, r);
  }

  lemma AfterReduce(st: seq<Entry>, r: nat, st2: seq<Entry>)
    requires CanReduce(st, r)
    ensures IsReduced(st, r, st2) ==> ReducesTo(st, r, st2) && Fits(st, r) && HasGoto(st[|st| - |Rhs(r)| - 1].state, Lhs(r)) && st2 == Reduced(st, r)
    ensures Rhs(r) == [] && |st| == YYSTACKDEPTH ==> Overflows(st, r)
  {
    hide Rhs, Lhs, HasGoto, FindReduceAction, Reduced, Base, Fits;
  }

  lemma SizeFits(st: seq<Entry>, r: nat)
    requires Fits(st, r)
    ensures Nrhs(r) == |Rhs(r)| < |st|
  {
  }

  lemma StartAwaits(st: seq<Entry>, look: nat)
    requires 0 < |st| && (|st| > 1 ==> st[|st| - 1].tree.Leaf?)
    ensures Awaits(st, look)
  {
  }

  lemma TopState(st: seq<Entry>, shifted: seq<Token>)
    requires Good(st, shifted)
    ensures var t := st[|st| - 1].state; t <= YY_MAX_SHIFT || YY_MIN_REDUCE <= t <= YY_MAX_REDUCE
  {
    var t := st[|st| - 1].state;
    if t != 0 { var s, x, _ := Back(st, 0); }
  }

  lemma AcceptAtEnd(st: seq<Entry>, shifted: seq<Token>, look: nat)
    requires Good(st, shifted) && Reduces(st[|st| - 1].state, look, 0)
    ensures look == EOF
  {
    var s, x, t := Back(st, 0);
  }

  lemma OneTree(st: seq<Entry>)
    requires |st| == 2
    ensures Trees(st[1..]) == [st[1].tree]
  {
  }

  lemma RootBinds(st: seq<Entry>)
    requires Tidy(st) && |st| == 2
    ensures Binds(Node(0, [st[1].tree]))
  {
  }

  // ---- a query ----

  /** Tree t derives the tokens, and its operators bind as they should. */
  ghost predicate Parses(t: Tree, tokens: seq<Token>) { Derives(Some(t), tokens) && Binds(t) }

  /** The run from c has come to an end that is not the end of a query. */
  ghost predicate GaveUp(c: Config, n: nat) {
    Run(c, n).Some? && (Peak(c, n) > YYSTACKDEPTH || (Step(Run(c, n).value).None? && !Run(c, n).value.Accepts()))
  }

  lemma Fed(c: Config, k: nat, st: seq<Entry>, tok: Token, more: seq<Token>, n: nat, st2: seq<Entry>)
    requires Run(c, k) == Some(Config(st, [tok] + more)) && Peak(c, k) <= YYSTACKDEPTH
    requires Run(Config(st, [tok]), n) == Some(Config(st2, [])) && Peak(Config(st, [tok]), n) <= YYSTACKDEPTH
    ensures Run(c, k + n) == Some(Config(st2, more)) && Peak(c, k + n) <= YYSTACKDEPTH
  {
    hide Run, Peak, Step;
    RunMore(Config(st, [tok]), n, more);
    assert [] + more == more;
    RunOn(c, k, Config(st, [tok] + more), n);
  }

  lemma FedInVain(c: Config, k: nat, st: seq<Entry>, tok: Token, more: seq<Token>, n: nat)
    requires Run(c, k) == Some(Config(st, [tok] + more)) && Peak(c, k) <= YYSTACKDEPTH && Fails(Config(st, [tok]), n, tok)
    ensures GaveUp(c, k + n)
  {
    hide Run, Peak, FindShiftAction, CanReduce, Reduced;
    RunMore(Config(st, [tok]), n, more);
    RunOn(c, k, Config(st, [tok] + more), n);
    var d := Run(Config(st, [tok]), n).value;
    if Stops(d, tok) { assert (d.rest + more)[0] == tok; }
  }

  lemma FedLast(c: Config, k: nat, st: seq<Entry>, eof: Token, n: nat, root: Option<Tree>)
    requires Run(c, k) == Some(Config(st, [eof])) && Peak(c, k) <= YYSTACKDEPTH && Succeeds(Config(st, [eof]), n, eof, root)
    ensures Succeeds(c, k + n, eof, root)
  {
    hide Run, Peak, Finishes;
    RunOn(c, k, Config(st, [eof]), n);
  }

  /** What the parser did is what the derivation asks for. */
  lemma Concludes(t: Tree, tokens: seq<Token>, eof: Token, k: nat, errors: nat, root: Option<Tree>)
    requires Parses(t, tokens) && eof.major == EOF
    requires var c := Config([BOTTOM], tokens + [eof]); if errors == 0 then Succeeds(c, k, eof, root) else GaveUp(c, k)
    ensures if Need(t) < YYSTACKDEPTH then errors == 0 && root == Some(t) else errors > 0
  {
    hide Run, Peak, Step, Config.Accepts;
    var c := Config([BOTTOM], tokens + [eof]);
    var n, d := InputDerived(t, eof);
    AcceptsStops(d);
    if Run(c, k).value.Accepts() { AcceptsStops(Run(c, k).value); }
    OneEnd(c, n, k);
  }

  /** A query of 98 tokens never fills the stack. */
  lemma ShortQuery(t: Tree, tokens: seq<Token>)
    requires Parses(t, tokens) && |tokens| + 1 < YYSTACKDEPTH
    ensures Need(t) < YYSTACKDEPTH
  {
    NeedBound(t);
  }

  /** The parser is fed the tokens of a query and the end mark, until an error is reported. */
  method ParseQuery(p: Parser, tokens: seq<Token>)
    requires p.Valid() && p.yyidx == -1 && p.errors == 0
    requires forall i | 0 <= i < |tokens| :: 0 < tokens[i].major <= STAR
    modifies p, p.yystack
    ensures p.errors == 0 ==> Derives(p.root, tokens) && Proper(p.root)
    ensures p.errors == 0 <==> exists t :: Parses(t, tokens) && Need(t) < YYSTACKDEPTH
    ensures forall t | Parses(t, tokens) :: if Need(t) < YYSTACKDEPTH then p.errors == 0 && p.root == Some(t) else p.errors > 0
  {
    hide Good, Tidy, Derives, Proper, Run, Peak, Fails, Succeeds, GaveUp, Parses;
    var i := 0;
    ghost var eof, k := Token(EOF, ""), 0;
    ghost var c := Config([BOTTOM], tokens + [eof]);
    NoRun(c);
    assert tokens[0..] == tokens;
    while i < |tokens| && p.errors == 0
      invariant p.Valid() && p.Ready() && p.yystack == old(p.yystack) && i <= |tokens|
      invariant p.errors == 0 ==> p.Taken() == tokens[..i] && (i == 0 || p.yyidx >= 0)
      invariant if p.errors > 0 then GaveUp(c, k) else
        Run(c, k) == Some(Config(if p.yyidx < 0 then [BOTTOM] else p.Stack(), tokens[i..] + [eof])) && Peak(c, k) <= YYSTACKDEPTH
      decreases |tokens| - i
    {
      ghost var b, more := p.Begin(tokens[i]), tokens[i + 1..] + [eof];
      assert tokens[i..] + [eof] == [tokens[i]] + more;
      ghost var n := p.Parse(tokens[i]);
      if p.errors > 0 { FedInVain(c, k, b.st, tokens[i], more, n); } else { Fed(c, k, b.st, tokens[i], more, n, p.Stack()); }
      i, k := i + 1, k + n;
    }
    if p.errors == 0 {
      assert tokens[..i] == tokens;
      ghost var b := p.Begin(eof);
      assert tokens[i..] + [eof] == [eof] && [eof] + [] == [eof];
      ghost var n := p.Parse(Token(EOF, ""));
      if p.errors > 0 { FedInVain(c, k, b.st, eof, [], n); } else { FedLast(c, k, b.st, eof, n, p.root); }
      k := k + n;
    }
    forall t | Parses(t, tokens) ensures if Need(t) < YYSTACKDEPTH then p.errors == 0 && p.root == Some(t) else p.errors > 0 {
      Concludes(t, tokens, eof, k, p.errors, p.root);
    }
    if p.errors == 0 { RootParses(p.root, tokens); }
  }

  lemma RootParses(root: Option<Tree>, tokens: seq<Token>)
    requires Derives(root, tokens) && Proper(root)
    ensures root.Some? && Parses(root.value, tokens)
  {
  }
}
