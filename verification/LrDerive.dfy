/** Every derivation in which the operators bind as they should is the one the automaton finds. */
module LrDerive {
  import opened Options
  import opened LrTables
  import opened Lr
  import opened LrStack
  import opened LrSteps
  import opened LrRun
  import opened LrWays

  // ---- the next token ----

  lemma Terminal(t: Tree)
    requires t.Ok() && t.Sym() <= STAR
    ensures t.Leaf?
  {
  }

  /** Only optional symbols derive nothing; the others derive something they may start with. */
  lemma {:induction false} Starts(t: Tree)
    requires t.Ok()
    ensures if t.Yield() == [] then MayBeEmpty(t.Sym()) else t.Yield()[0].major <= STAR && MayStart(t.Sym(), t.Yield()[0].major)
  {
    match t
    case Leaf(tok) =>
    case Node(r, ks) =>
      hide MayStart, MayBeEmpty, Rhs, Lhs;
      if ks == [] {
        NoRhs(r);
      } else {
        assert ks[0].Sym() == Rhs(r)[0] && ks[0].Ok();
        Starts(ks[0]);
        if ks[0].Yield() == [] { EmptyFollows(r, 0); }
        FirstStarts(r, ks[0].Yield()[0].major);
        assert t.Yield() == ks[0].Yield() + Yields(ks[1..]);
      }
  }

  /** The token after a node may follow it. */
  predicate Before(r: nat, look: nat) { look <= STAR && if r == 0 then look == EOF else MayFollow(Lhs(r), look) }

  /** The tokens from the kid after kid i on. */
  ghost function After(ks: seq<Tree>, i: nat, rest: seq<Token>): seq<Token>
    requires i < |ks|
  {
    Yields(ks[i + 1..]) + rest
  }

  /** The token after kid i of a node may follow that kid. */
  lemma NextLook(r: nat, ks: seq<Tree>, i: nat, rest: seq<Token>)
    requires Node(r, ks).Ok() && i < |ks| && rest != [] && Before(r, rest[0].major)
    ensures After(ks, i, rest) != [] && After(ks, i, rest)[0].major <= STAR && MayFollow(Rhs(r)[i], After(ks, i, rest)[0].major)
    ensures i + 1 < |ks| && Rhs(r)[i + 1] <= STAR ==> After(ks, i, rest)[0].major == Rhs(r)[i + 1]
    ensures i + 1 == |ks| ==> After(ks, i, rest)[0] == rest[0]
  {
    hide MayFollow, MayStart, MayBeEmpty, Rhs, Lhs;
    assert ks[i].Sym() == Rhs(r)[i];
    if i + 1 == |ks| {
      LastFollows(r, rest[0].major);
    } else {
      assert ks[i + 1].Sym() == Rhs(r)[i + 1] && ks[i + 1].Ok();
      assert ks[i + 1..][0] == ks[i + 1] && ks[i + 1..][1..] == ks[i + 2..];
      Starts(ks[i + 1]);
      if ks[i + 1].Sym() <= STAR { Terminal(ks[i + 1]); }
      if ks[i + 1].Yield() != [] {
        NextFollows(r, i, ks[i + 1].Yield()[0].major);
      } else {
        EmptyFollows(r, i + 1);
        assert Yields(ks[i + 1..]) == Yields(ks[i + 2..]);
        if i + 2 < |ks| {
          assert ks[i + 2].Sym() == RP && ks[i + 2].Ok();
          Terminal(ks[i + 2]);
          assert ks[i + 2..][0] == ks[i + 2];
          assert Yields(ks[i + 2..])[0] == ks[i + 2].tok;
        }
        AfterEmpty(Rhs(r)[i], if i + 2 < |ks| then RP else rest[0].major);
      }
    }
  }

  lemma AfterEmpty(x: nat, look: nat)
    requires look <= STAR && (x <= STAR || (x == N_NEARPHRASES && look == RP))
    ensures MayFollow(x, look)
  {
  }

  // ---- how much stack a derivation needs ----

  ghost function Need(t: Tree): nat {
    match t case Leaf(_) => 1 case Node(r, ks) => Max(1, NeedTo(ks, |ks|))
  }

  ghost function NeedTo(ks: seq<Tree>, i: nat): nat
    requires i <= |ks|
    decreases ks, i
  {
    if i == 0 then 0 else Max(NeedTo(ks, i - 1), i - 1 + Need(ks[i - 1]))
  }

  // ---- a symbol after another ----

  /** Tree t may be derived on this stack, before a token look, and leads to state u. */
  ghost predicate Fits1(st: seq<Entry>, t: Tree, u: nat, look: nat) {
    && st != [] && t.Ok() && Binds(t) && Into(st[|st| - 1].state, t.Sym(), u) && look <= STAR
    && (t.Node? ==> t.rule > 0 && Wants(st[|st| - 1].state, t.Sym()) && MayFollow(t.Sym(), look) && Level(u, t) && Follows(t, look))
  }

  lemma NotWeak(t: Tree, s: nat, u: nat)
    requires t.Node? && Into(s, Lhs(t.rule), u) && Wants(s, Lhs(t.rule)) && Level(u, t)
    ensures !Weak(t.rule, s)
  {
  }

  lemma NotTighter(t: Tree, look: nat)
    requires t.Node? && Follows(t, look)
    ensures !Tighter(t.rule, look)
  {
  }

  /** The entries for the first i kids. */
  ghost function Stacked(r: nat, s: nat, ks: seq<Tree>, i: nat): (st: seq<Entry>)
    requires i <= |ks| && |Way(r, s)| == |ks| + 1
    ensures |st| == i && forall k | 0 <= k < i :: st[k] == Entry(Way(r, s)[k + 1], ks[k].Sym(), ks[k])
  {
    seq(i, k requires 0 <= k < i => Entry(Way(r, s)[k + 1], ks[k].Sym(), ks[k]))
  }

  /** What may come after a kid, and binds no less tightly than the operator on its other side. */
  lemma OperandFits(r: nat, ks: seq<Tree>, s: nat, i: nat, look: nat, next: nat)
    requires 1 <= r <= 4 && Node(r, ks).Ok() && Binds(Node(r, ks)) && Base(r, s) && i < |ks| && |Way(r, s)| == |ks| + 1
    requires !Tighter(r, look) && Rhs(r)[i] == N_EXPR
    requires next == (if i + 1 < |ks| then Rhs(r)[i + 1] else look)
    ensures Level(Way(r, s)[i + 1], ks[i]) && Follows(ks[i], next)
  {
  }

  lemma NoOperator(t: Tree, u: nat, look: nat)
    requires t.Ok() && t.Sym() != N_EXPR
    ensures Level(u, t) && Follows(t, look)
  {
  }

  lemma KidFits(st: seq<Entry>, r: nat, ks: seq<Tree>, s: nat, i: nat, look: nat, next: nat)
    requires Node(r, ks).Ok() && Binds(Node(r, ks)) && 0 < r && Base(r, s) && i < |ks| && |Way(r, s)| == |ks| + 1
    requires !Tighter(r, look) && st != [] && st[|st| - 1].state == Way(r, s)[i] && next <= STAR && MayFollow(Rhs(r)[i], next)
    requires if i + 1 < |ks| && Rhs(r)[i + 1] <= STAR then next == Rhs(r)[i + 1] else i + 1 < |ks| || next == look
    ensures Fits1(st, ks[i], Way(r, s)[i + 1], next)
  {
    hide Way, Base, Rhs, Lhs, MayFollow, Level, Follows, Wants, Tighter;
    Hops(r, s, i);
    assert ks[i].Sym() == Rhs(r)[i] && ks[i].Ok();
    if ks[i].Node? {
      Nonterminal(ks[i]);
      if ks[i].Sym() == N_EXPR {
        ExprIn(r, i);
        OperandFits(r, ks, s, i, look, next);
      } else {
        NoOperator(ks[i], Way(r, s)[i + 1], next);
      }
    }
  }

  lemma Nonterminal(t: Tree)
    requires t.Ok() && t.Node?
    ensures t.Sym() > STAR && (t.Sym() != N_INPUT ==> t.rule > 0)
  {
  }

  /** Expressions are operands, or in parentheses. */
  lemma ExprIn(r: nat, i: nat)
    requires 0 < r < RULES && i < |Rhs(r)| && Rhs(r)[i] == N_EXPR
    ensures r <= 4 && (i + 1 < |Rhs(r)| ==> Rhs(r)[i + 1] <= STAR)
  {
  }

  // ---- the run that derives a tree ----

  lemma ShiftStep(st: seq<Entry>, tok: Token, u: nat, rest: seq<Token>)
    requires st != [] && tok.major <= STAR && Into(st[|st| - 1].state, tok.major, u)
    ensures Step(Config(st, [tok] + rest)) == Some(Config(st + [Entry(u, tok.major, Leaf(tok))], rest))
  {
    hide Into, StateAction;
    IntoEdge(st[|st| - 1].state, tok.major, u);
    assert ([tok] + rest)[1..] == rest;
  }

  lemma ReduceStep(st: seq<Entry>, r: nat, ks: seq<Tree>, u: nat, rest: seq<Token>)
    requires st != [] && Node(r, ks).Ok() && 0 < r && Base(r, st[|st| - 1].state) && Into(st[|st| - 1].state, Lhs(r), u)
    requires rest != [] && MayFollow(Lhs(r), rest[0].major) && !Tighter(r, rest[0].major)
    ensures |Way(r, st[|st| - 1].state)| == |ks| + 1
    ensures Step(Config(st + Stacked(r, st[|st| - 1].state, ks, |ks|), rest)) == Some(Config(st + [Entry(u, Lhs(r), Node(r, ks))], rest))
  {
    hide Into, Base, Way, Rhs, MayFollow, HasGoto, FindReduceAction, FindShiftAction, Lhs, Tighter;
    var s := st[|st| - 1].state;
    Ends(r, s, rest[0].major);
    GotoExists(r, s);
    GotoIs(r, s, u);
    var more := Stacked(r, s, ks, |ks|);
    var full := st + more;
    TopAt(st, r, s, ks, |ks|);
    assert full[..|st|] == st && full[|st|..] == more;
    assert Trees(more) == ks;
    assert CanReduce(full, r);
    assert Reduced(full, r) == st + [Entry(u, Lhs(r), Node(r, ks))];
  }

  lemma GotoIs(r: nat, s: nat, u: nat)
    requires r < RULES && Into(s, Lhs(r), u) && HasGoto(s, Lhs(r))
    ensures u == Pushed(FindReduceAction(s, Lhs(r)))
  {
    hide Into, HasGoto, FindReduceAction;
    IntoEdge(s, Lhs(r), u);
    assert Lhs(r) > STAR;
  }

  /** A tree that fits is derived from its tokens, with no more stack than it needs. */
  lemma {:induction false} Derived(st: seq<Entry>, t: Tree, u: nat, rest: seq<Token>) returns (n: nat)
    requires rest != [] && Fits1(st, t, u, rest[0].major)
    ensures Run(Config(st, t.Yield() + rest), n) == Some(Config(st + [Entry(u, t.Sym(), t)], rest))
    ensures Peak(Config(st, t.Yield() + rest), n) == |st| + Need(t)
    decreases t
  {
    hide Into, Step, Run, Peak, Wants, Level, Follows, MayFollow, Way, Rhs, Stacked;
    var c := Config(st, t.Yield() + rest);
    match t
    case Leaf(tok) =>
      n := 1;
      ShiftStep(st, tok, u, rest);
      StepRun(c);
    case Node(r, ks) =>
      var s := st[|st| - 1].state;
      NotWeak(t, s, u);
      Wanted(r, s);
      NotTighter(t, rest[0].major);
      ReduceStep(st, r, ks, u, rest);
      var m := KidsDerived(st, r, ks, |ks|, rest);
      var d := Config(st + Stacked(r, s, ks, |ks|), rest);
      assert ks[|ks|..] == [] && Yields(ks[|ks|..]) + rest == rest;
      StepRun(d);
      RunOn(c, m, d, 1);
      NeedSize(ks, |ks|);
      n := m + 1;
  }

  lemma {:induction false} KidsDerived(st: seq<Entry>, r: nat, ks: seq<Tree>, i: nat, rest: seq<Token>) returns (n: nat)
    requires st != [] && Node(r, ks).Ok() && Binds(Node(r, ks)) && 0 < r && Base(r, st[|st| - 1].state) && i <= |ks|
    requires rest != [] && rest[0].major <= STAR && MayFollow(Lhs(r), rest[0].major) && !Tighter(r, rest[0].major)
    ensures |Way(r, st[|st| - 1].state)| == |ks| + 1
    ensures Run(Config(st, Yields(ks) + rest), n) == Some(Config(st + Stacked(r, st[|st| - 1].state, ks, i), Yields(ks[i..]) + rest))
    ensures Peak(Config(st, Yields(ks) + rest), n) == |st| + NeedTo(ks, i)
    decreases ks, i
  {
    hide Into, Run, Peak, Wants, Level, Follows, MayFollow, Base, Way, Rhs, Tighter, Fits1, Lhs, Stacked;
    var s := st[|st| - 1].state;
    WaySize(r, s);
    assert |ks| == |Rhs(r)|;
    if i == 0 {
      n := 0;
      assert ks[0..] == ks && st + Stacked(r, s, ks, 0) == st;
      NoRun(Config(st, Yields(ks) + rest));
    } else {
      var m := KidsDerived(st, r, ks, i - 1, rest);
      var st1, next := st + Stacked(r, s, ks, i - 1), Yields(ks[i..]) + rest;
      NextLook(r, ks, i - 1, rest);
      TopAt(st, r, s, ks, i - 1);
      KidFits(st1, r, ks, s, i - 1, rest[0].major, next[0].major);
      var k := Derived(st1, ks[i - 1], Way(r, s)[i], next);
      assert ks[i - 1..][0] == ks[i - 1] && ks[i - 1..][1..] == ks[i..];
      assert Yields(ks[i - 1..]) + rest == ks[i - 1].Yield() + next;
      StackedNext(st, r, s, ks, i);
      RunOn(Config(st, Yields(ks) + rest), m, Config(st1, Yields(ks[i - 1..]) + rest), k);
      n := m + k;
    }
  }

  lemma StackedNext(st: seq<Entry>, r: nat, s: nat, ks: seq<Tree>, i: nat)
    requires 0 < i <= |ks| && |Way(r, s)| == |ks| + 1
    ensures st + Stacked(r, s, ks, i) == (st + Stacked(r, s, ks, i - 1)) + [Entry(Way(r, s)[i], ks[i - 1].Sym(), ks[i - 1])]
  {
    hide Way, Tree.Sym;
  }

  lemma TopAt(st: seq<Entry>, r: nat, s: nat, ks: seq<Tree>, i: nat)
    requires st != [] && s == st[|st| - 1].state && |Way(r, s)| == |ks| + 1 && i <= |ks|
    ensures var st1 := st + Stacked(r, s, ks, i); st1[|st1| - 1].state == Way(r, s)[i]
  {
    WaySize(r, s);
    hide Way;
  }

  lemma {:induction false} NeedSize(ks: seq<Tree>, i: nat)
    requires i <= |ks|
    ensures NeedTo(ks, i) >= i
  {
  }

  // ---- the whole input ----

  const BOTTOM := Entry(0, 0, Leaf(Token(0, "")))

  lemma InputRule(t: Tree)
    requires t.Ok() && t.Sym() == N_INPUT
    ensures t.Node? && t.rule == 0 && t.kids == [t.kids[0]] && t.kids[0].Ok() && t.kids[0].Sym() == N_EXPR
    ensures t.kids[0].Node? && t.kids[0].rule > 0
  {
  }

  /** The automaton finds every derivation of the input whose operators bind as they should. */
  lemma InputDerived(t: Tree, eof: Token) returns (n: nat, d: Config)
    requires t.Ok() && t.Sym() == N_INPUT && Binds(t) && eof.major == EOF
    ensures Run(Config([BOTTOM], t.Yield() + [eof]), n) == Some(d) && Peak(Config([BOTTOM], t.Yield() + [eof]), n) == 1 + Need(t)
    ensures d.Accepts() && |d.st| == 2 && t == Node(0, [d.st[1].tree])
  {
    hide Run, Peak;
    InputRule(t);
    var e := t.kids[0];
    FirstState(e);
    n := Derived([BOTTOM], e, 15, [eof]);
    YieldsOne(e);
    NeedOne(e);
    d := Config([BOTTOM] + [Entry(15, N_EXPR, e)], [eof]);
  }

  lemma FirstState(e: Tree)
    requires e.Ok() && e.Sym() == N_EXPR && e.Node? && e.rule > 0 && Binds(e)
    ensures Fits1([BOTTOM], e, 15, EOF)
    ensures FindShiftAction(15, EOF) == YY_MIN_REDUCE
  {
  }

  lemma NeedOne(e: Tree)
    ensures Need(Node(0, [e])) == Need(e)
  {
    assert NeedTo([e], 0) == 0;
  }

  /** From one start there is one end. */
  lemma {:induction false} OneEnd(c: Config, n: nat, m: nat)
    requires Run(c, n).Some? && Step(Run(c, n).value).None? && Run(c, m).Some?
    ensures m <= n && Peak(c, m) <= Peak(c, n)
    ensures Step(Run(c, m).value).None? ==> m == n
    decreases n
  {
    hide Step;
    if n > 0 && m > 0 { OneEnd(Step(c).value, n - 1, m - 1); }
    if m == 0 { PeakStarts(c, n); }
  }

  lemma AcceptsStops(d: Config)
    requires d.Accepts()
    ensures Step(d).None?
  {
  }

  /** The grammar with its precedences is unambiguous. */
  lemma Unambiguous(t: Tree, u: Tree)
    requires t.Ok() && t.Sym() == N_INPUT && Binds(t) && u.Ok() && u.Sym() == N_INPUT && Binds(u) && t.Yield() == u.Yield()
    ensures t == u
  {
    hide Run, Peak, Step, Config.Accepts;
    var eof := Token(EOF, "");
    var n, d := InputDerived(t, eof);
    var m, e := InputDerived(u, eof);
    AcceptsStops(d);
    AcceptsStops(e);
    OneEnd(Config([BOTTOM], t.Yield() + [eof]), n, m);
  }

  // ---- the stack needed is bounded by the number of tokens ----

  ghost function Empties(r: nat, i: nat): nat { if r == 15 && i == 4 then 1 else 0 }

  lemma EmptyAt(r: nat, k: nat)
    requires r < RULES && k + 1 < |Rhs(r)| && MayBeEmpty(Rhs(r)[k])
    ensures r == 15 && k == 3 && Rhs(r)[4] == RP && |Rhs(r)| == 5
  {
  }

  lemma YieldsNext(ks: seq<Tree>, i: nat)
    requires 0 < i <= |ks|
    ensures Yields(ks[..i]) == Yields(ks[..i - 1]) + ks[i - 1].Yield()
  {
    assert ks[..i] == ks[..i - 1] + [ks[i - 1]];
    YieldsConcat(ks[..i - 1], [ks[i - 1]]);
    YieldsOne(ks[i - 1]);
  }

  /** The kids before another derive a token each, or one less if the distance of a NEAR group is left out. */
  lemma {:induction false} KidsYield(r: nat, ks: seq<Tree>, i: nat)
    requires Node(r, ks).Ok() && i < |ks|
    ensures |Yields(ks[..i])| + Empties(r, i) >= i
    decreases i
  {
    hide MayBeEmpty, Rhs, MayStart;
    if i > 0 {
      KidsYield(r, ks, i - 1);
      YieldsNext(ks, i);
      assert ks[i - 1].Sym() == Rhs(r)[i - 1] && ks[i - 1].Ok();
      Starts(ks[i - 1]);
      if ks[i - 1].Yield() == [] { EmptyAt(r, i - 1); }
      if r == 15 && i - 1 == 4 { FiveKids(); }
    }
  }

  lemma FiveKids()
    ensures |Rhs(15)| == 5 && Rhs(15)[4] == RP
  {
  }

  /** Besides the bottom entry, the stack holds at most one entry more than there are tokens. */
  lemma {:induction false} NeedBound(t: Tree)
    requires t.Ok()
    ensures Need(t) <= |t.Yield()| + 1
    decreases t
  {
    match t
    case Leaf(_) =>
    case Node(r, ks) =>
      KidsBound(r, ks, |ks|);
      assert ks[..|ks|] == ks;
  }

  lemma {:induction false} KidsBound(r: nat, ks: seq<Tree>, i: nat)
    requires Node(r, ks).Ok() && i <= |ks|
    ensures NeedTo(ks, i) <= |Yields(ks[..i])| + 1
    decreases ks, i
  {
    hide Rhs;
    if i > 0 {
      KidsBound(r, ks, i - 1);
      YieldsNext(ks, i);
      KidsYield(r, ks, i - 1);
      assert ks[i - 1].Sym() == Rhs(r)[i - 1] && ks[i - 1].Ok();
      NeedBound(ks[i - 1]);
      if r == 15 && i - 1 == 4 { FiveKids(); Terminal(ks[4]); }
    }
  }
}
