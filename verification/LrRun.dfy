/** Runs of the push-down automaton on a stack and an input. */
module LrRun {
  import opened Options
  import opened LrTables
  import opened Lr
  import opened LrStack
  import opened LrSteps

  /** The stack, and the tokens still to be taken. */
  datatype Config = Config(st: seq<Entry>, rest: seq<Token>) {
    /** What the state on the top of the stack does with the next token. */
    function Act(): nat
      requires st != [] && rest != []
    {
      FindShiftAction(st[|st| - 1].state, rest[0].major)
    }

    /** The expression on the stack is the whole input. */
    predicate Accepts() { st != [] && rest != [] && Act() == YY_MIN_REDUCE }
  }

  /** Rule r, other than the first, has its right-hand side on the stack. */
  predicate CanReduce(st: seq<Entry>, r: nat) {
    && 0 < r < RULES && |Rhs(r)| < |st| && HasGoto(st[|st| - |Rhs(r)| - 1].state, Lhs(r))
    && FindReduceAction(st[|st| - |Rhs(r)| - 1].state, Lhs(r)) <= YY_MAX_SHIFTREDUCE
  }

  /** One shift or one reduction. */
  function Step(c: Config): Option<Config> {
    hide Config.Act, Reduced, Shifted, HasGoto, FindReduceAction, Rhs, Lhs;
    if c.st == [] || c.rest == [] then None
    else if c.Act() <= YY_MAX_SHIFTREDUCE then Some(Config(Shifted(c.st, c.Act(), c.rest[0]), c.rest[1..]))
    else if YY_MIN_REDUCE <= c.Act() && CanReduce(c.st, c.Act() - YY_MIN_REDUCE) then Some(Config(Reduced(c.st, c.Act() - YY_MIN_REDUCE), c.rest))
    else None
  }

  function Run(c: Config, n: nat): Option<Config>
    decreases n
  {
    hide Step;
    if n == 0 then Some(c) else match Step(c) case None => None case Some(d) => Run(d, n - 1)
  }

  function Max(a: nat, b: nat): nat { if a < b then b else a }

  /** The most entries on the stack in a run of n steps. */
  function Peak(c: Config, n: nat): nat
    decreases n
  {
    hide Step;
    if n == 0 then |c.st| else match Step(c) case None => |c.st| case Some(d) => Max(|c.st|, Peak(d, n - 1))
  }

  lemma NoRun(c: Config)
    ensures Run(c, 0) == Some(c) && Peak(c, 0) == |c.st|
  {
  }

  lemma {:induction false} RunOn(c: Config, n: nat, d: Config, m: nat)
    requires Run(c, n) == Some(d)
    ensures Run(c, n + m) == Run(d, m) && Peak(c, n + m) == Max(Peak(c, n), Peak(d, m))
    decreases n
  {
    hide Step;
    PeakStarts(d, m);
    if n > 0 { RunOn(Step(c).value, n - 1, d, m); } 
  }

  lemma {:induction false} PeakStarts(c: Config, n: nat)
    ensures Peak(c, n) >= |c.st|
  {
    hide Step;
  }

  lemma StepRun(c: Config)
    ensures Run(c, 1) == Step(c)
    ensures Step(c).Some? ==> Peak(c, 1) == Max(|c.st|, |Step(c).value.st|)
  {
    hide Step;
    if Step(c).Some? { assert Run(Step(c).value, 0) == Step(c); }
  }

  /** Tokens further on make no difference. */
  lemma {:induction false} RunMore(c: Config, n: nat, more: seq<Token>)
    requires Run(c, n).Some?
    ensures Run(Config(c.st, c.rest + more), n) == Some(Config(Run(c, n).value.st, Run(c, n).value.rest + more))
    ensures Peak(Config(c.st, c.rest + more), n) == Peak(c, n)
    decreases n
  {
    hide CanReduce, Reduced, FindShiftAction;
    if n > 0 {
      var d := Config(c.st, c.rest + more);
      assert d.rest[0] == c.rest[0] && d.rest[1..] == c.rest[1..] + more;
      RunMore(Step(c).value, n - 1, more);
    }
  }

  lemma StepShift(st: seq<Entry>, tok: Token, rest: seq<Token>)
    requires st != [] && FindShiftAction(st[|st| - 1].state, tok.major) <= YY_MAX_SHIFTREDUCE
    ensures Step(Config(st, [tok] + rest)) == Some(Config(Shifted(st, FindShiftAction(st[|st| - 1].state, tok.major), tok), rest))
  {
    hide FindShiftAction, Shifted, CanReduce, Reduced;
    assert ([tok] + rest)[0] == tok && ([tok] + rest)[1..] == rest;
  }
}
