/** Shift and reduce as steps on the stack, and what every step keeps. */
module LrSteps {
  import opened LrTables
  import opened Lr
  import opened LrStack

  function Trees(st: seq<Entry>): (r: seq<Tree>)
    ensures |r| == |st| && forall i | 0 <= i < |r| :: r[i] == st[i].tree
  {
    seq(|st|, i requires 0 <= i < |st| => st[i].tree)
  }

  function Majors(st: seq<Entry>): (r: seq<nat>)
    ensures |r| == |st| && forall i | 0 <= i < |r| :: r[i] == st[i].major
  {
    seq(|st|, i requires 0 <= i < |st| => st[i].major)
  }

  function Shifted(st: seq<Entry>, act: nat, tok: Token): seq<Entry> {
    st + [Entry(Pushed(act), tok.major, Leaf(tok))]
  }

  /** The right-hand side gives way to the left-hand side. */
  function Reduced(st: seq<Entry>, r: nat): seq<Entry>
    requires |Rhs(r)| < |st| && HasGoto(st[|st| - |Rhs(r)| - 1].state, Lhs(r))
  {
    var n := |st| - |Rhs(r)|;
    st[..n] + [Entry(Pushed(FindReduceAction(st[n - 1].state, Lhs(r))), Lhs(r), Node(r, Trees(st[n..])))]
  }

  /** The stack is a path, the values are derivations of their symbols, and together they derive the tokens shifted. */
  ghost predicate Good(st: seq<Entry>, shifted: seq<Token>) {
    && 0 < |st| && Path(st)
    && (forall i | 0 < i < |st| :: st[i].tree.Ok() && st[i].tree.Sym() == st[i].major)
    && Yields(Trees(st[1..])) == shifted
  }

  lemma {:induction false} YieldsConcat(a: seq<Tree>, b: seq<Tree>)
    ensures Yields(a + b) == Yields(a) + Yields(b)
  {
    hide Tree.Yield;
    if a == [] {
      assert a + b == b;
    } else {
      YieldsConcat(a[1..], b);
      var c := a + b;
      assert c[0] == a[0] && c[1..] == a[1..] + b;
    }
  }

  lemma YieldsOne(t: Tree)
    ensures Yields([t]) == t.Yield()
  {
    assert [t][1..] == [];
  }

  lemma ShiftEdge(s: nat, tok: Token, act: nat)
    requires s <= YY_MAX_SHIFT && tok.major <= STAR && act == StateAction(s, tok.major) <= YY_MAX_SHIFTREDUCE
    ensures Into(s, tok.major, Pushed(act)) && tok.major != EOF
  {
    hide StateAction, Into;
    Edges(s, tok.major, Pushed(act));
    NoEofEdge(s, Pushed(act));
  }

  lemma NoEofEdge(s: nat, t: nat)
    ensures !Into(s, EOF, t)
  {
  }

  lemma PathPush(st: seq<Entry>, e: Entry)
    requires 0 < |st| && Path(st) && Into(st[|st| - 1].state, e.major, e.state)
    ensures Path(st + [e])
  {
    hide Into;
  }

  lemma PathPrefix(st: seq<Entry>, n: nat)
    requires 0 < n <= |st| && Path(st)
    ensures Path(st[..n])
  {
    hide Into;
  }

  lemma ShiftGood(st: seq<Entry>, shifted: seq<Token>, act: nat, tok: Token)
    requires Good(st, shifted) && tok.major <= STAR && st[|st| - 1].state <= YY_MAX_SHIFT
    requires act == StateAction(st[|st| - 1].state, tok.major) <= YY_MAX_SHIFTREDUCE
    ensures Good(Shifted(st, act, tok), shifted + [tok]) && tok.major != EOF
  {
    hide Path, StateAction, Into, Yields, Trees;
    var e := Entry(Pushed(act), tok.major, Leaf(tok));
    ShiftEdge(st[|st| - 1].state, tok, act);
    PathPush(st, e);
    assert Shifted(st, act, tok)[1..] == st[1..] + [e];
    assert Trees(st[1..] + [e]) == Trees(st[1..]) + [e.tree];
    YieldsConcat(Trees(st[1..]), [e.tree]);
    YieldsOne(e.tree);
    assert e.tree.Yield() == [tok];
  }

  lemma ReduceNode(st: seq<Entry>, shifted: seq<Token>, look: nat, r: nat)
    requires Good(st, shifted) && Reduces(st[|st| - 1].state, look, r) && r < RULES
    ensures Fits(st, r) && HasGoto(st[|st| - |Rhs(r)| - 1].state, Lhs(r))
    ensures Node(r, Trees(st[|st| - |Rhs(r)|..])).Ok()
  {
    hide Path, Into, Rhs, Lhs, Base, Reduces, HasGoto, Yields;
    ReductionFits(st, look, r);
    GotoExists(r, st[|st| - |Rhs(r)| - 1].state);
    var ts, n := Trees(st[|st| - |Rhs(r)|..]), |st| - |Rhs(r)|;
    forall i | 0 <= i < |ts| ensures ts[i].Sym() == Rhs(r)[i] && ts[i].Ok() {
      assert ts[i] == st[n + i].tree;
    }
  }

  /** After a reduction by any rule but the first, the stack is as good as before. */
  lemma ReduceGood(st: seq<Entry>, shifted: seq<Token>, look: nat, r: nat)
    requires Good(st, shifted) && Reduces(st[|st| - 1].state, look, r) && 0 < r < RULES
    ensures Fits(st, r) && HasGoto(st[|st| - |Rhs(r)| - 1].state, Lhs(r))
    ensures FindReduceAction(st[|st| - |Rhs(r)| - 1].state, Lhs(r)) <= YY_MAX_SHIFTREDUCE
    ensures Good(Reduced(st, r), shifted)
  {
    hide Path, Into, Rhs, Lhs, Base, Reduces, HasGoto, FindReduceAction, Yields, Trees;
    ReduceNode(st, shifted, look, r);
    var n := |st| - |Rhs(r)|;
    GotoExists(r, st[n - 1].state);
    var e := Entry(Pushed(FindReduceAction(st[n - 1].state, Lhs(r))), Lhs(r), Node(r, Trees(st[n..])));
    PathPrefix(st, n);
    PathPush(st[..n], e);
    assert st[..n][1..] == st[1..n];
    assert Reduced(st, r)[1..] == st[1..n] + [e];
    assert st[1..] == st[1..n] + st[n..];
    assert Trees(st[1..n] + [e]) == Trees(st[1..n]) + [e.tree];
    assert Trees(st[1..n] + st[n..]) == Trees(st[1..n]) + Trees(st[n..]);
    YieldsConcat(Trees(st[1..n]), [e.tree]);
    YieldsConcat(Trees(st[1..n]), Trees(st[n..]));
    YieldsOne(e.tree);
    assert e.tree.Yield() == Yields(Trees(st[n..]));
  }

  lemma ZeroFirst(st: seq<Entry>, k: nat)
    requires k < |st| && Path(st) && st[k].state == 0
    ensures k == 0
  {
    if k > 0 { NoZero(st[k - 1].state, st[k].major); }
  }

  lemma NoZero(s: nat, x: nat)
    ensures !Into(s, x, 0)
  {
  }

  /** The first rule is reduced only when the stack holds one expression, which derives all the tokens. */
  lemma AcceptGood(st: seq<Entry>, shifted: seq<Token>, look: nat)
    requires Good(st, shifted) && Reduces(st[|st| - 1].state, look, 0)
    ensures |st| == 2 && HasGoto(st[0].state, Lhs(0)) && FindReduceAction(st[0].state, Lhs(0)) == YY_ACCEPT_ACTION
    ensures var t := Node(0, Trees(st[1..])); t.Ok() && t.Sym() == N_INPUT && t.Yield() == shifted
  {
    hide Yields, HasGoto, FindReduceAction;
    ReduceNode(st, shifted, look, 0);
    GotoExists(0, st[|st| - 2].state);
    ZeroFirst(st, |st| - 2);
  }

  // ---- precedence ----

  predicate By(t: Tree, r: nat) { t.Node? && t.rule == r }

  /** What may stand to the left of an operator: no OR before AND, neither before NOT. */
  predicate Follows(t: Tree, m: nat) {
    (m == NOT ==> !By(t, 1) && !By(t, 2)) && (m == AND ==> !By(t, 2))
  }

  /** What may stand to the right of an operator: nothing that binds no tighter than it. */
  predicate Level(s: nat, t: Tree) {
    && (s == 67 ==> !By(t, 1) && !By(t, 2) && !By(t, 3))
    && (s == 25 ==> !By(t, 1) && !By(t, 2))
    && (s == 17 ==> !By(t, 2))
  }

  /** NOT binds tighter than AND, AND tighter than OR, and all of them to the left. */
  ghost predicate Binds(t: Tree) {
    match t
    case Leaf(_) => true
    case Node(r, ks) =>
      && (forall i | 0 <= i < |ks| :: Binds(ks[i]))
      && (r == 3 && |ks| == 3 ==> Follows(ks[0], NOT) && !By(ks[2], 1) && !By(ks[2], 2) && !By(ks[2], 3))
      && (r == 1 && |ks| == 3 ==> Follows(ks[0], AND) && !By(ks[2], 1) && !By(ks[2], 2))
      && (r == 2 && |ks| == 3 ==> !By(ks[2], 2))
  }

  ghost predicate Tidy(st: seq<Entry>) {
    && (forall i | 0 < i < |st| :: Level(st[i].state, st[i].tree) && Binds(st[i].tree))
    && (forall i | 1 < i < |st| :: Follows(st[i - 1].tree, st[i].major))
  }

  /** The next token may come after the expression on the top of the stack. */
  ghost predicate Awaits(st: seq<Entry>, look: nat) { |st| > 1 ==> Follows(st[|st| - 1].tree, look) }

  lemma ShiftTidy(st: seq<Entry>, act: nat, tok: Token)
    requires 0 < |st| && Tidy(st) && Awaits(st, tok.major)
    ensures Tidy(Shifted(st, act, tok))
  {
  }

  lemma ReduceBinds(st: seq<Entry>, shifted: seq<Token>, look: nat, r: nat)
    requires Good(st, shifted) && Tidy(st) && Reduces(st[|st| - 1].state, look, r) && r < RULES
    requires Fits(st, r)
    ensures Binds(Node(r, Trees(st[|st| - |Rhs(r)|..])))
  {
    hide Yields, Base, Lhs, Path;
    var n := |st| - |Rhs(r)|;
    var ts := Trees(st[n..]);
    forall i | 0 <= i < |ts| ensures ts[i] == st[n + i].tree && Binds(ts[i]) {}
    if 1 <= r <= 3 {
      Operator(st, look, r);
    }
  }

  lemma Operator(st: seq<Entry>, look: nat, r: nat)
    requires |st| > 3 && Path(st) && Tidy(st) && Reduces(st[|st| - 1].state, look, r) && 1 <= r <= 3
    requires st[|st| - 2].major == Rhs(r)[1]
    ensures Follows(st[|st| - 3].tree, Rhs(r)[1])
    ensures !By(st[|st| - 1].tree, 2) && (r != 2 ==> !By(st[|st| - 1].tree, 1)) && (r == 3 ==> !By(st[|st| - 1].tree, 3))
  {
    hide Path, Binds;
    var s, x, t := Back(st, 0);
    assert Level(st[|st| - 1].state, st[|st| - 1].tree);
  }

  lemma ReduceTidy(st: seq<Entry>, shifted: seq<Token>, look: nat, r: nat)
    requires Good(st, shifted) && Tidy(st) && Awaits(st, look) && Reduces(st[|st| - 1].state, look, r) && 0 < r < RULES
    requires Fits(st, r) && HasGoto(st[|st| - |Rhs(r)| - 1].state, Lhs(r))
    requires FindReduceAction(st[|st| - |Rhs(r)| - 1].state, Lhs(r)) <= YY_MAX_SHIFTREDUCE
    ensures Tidy(Reduced(st, r)) && Awaits(Reduced(st, r), look)
  {
    hide Yields, Path, Base, Lhs, HasGoto, FindReduceAction, Reduces, Binds, Follows, Level;
    var n := |st| - |Rhs(r)|;
    ReduceBinds(st, shifted, look, r);
    GotoExists(r, st[n - 1].state);
    var e := Entry(Pushed(FindReduceAction(st[n - 1].state, Lhs(r))), Lhs(r), Node(r, Trees(st[n..])));
    ReduceLevel(st[n - 1].state, r, e.state, e.tree);
    LhsFollows(e.tree, st[n - 1].tree, r);
    LookFollows(st, look, r, e.tree);
  }

  lemma ReduceLevel(s: nat, r: nat, t: nat, tree: Tree)
    requires Base(r, s) && 0 < r < RULES && Into(s, Lhs(r), t) && By(tree, r)
    ensures Level(t, tree)
  {
  }

  lemma LhsFollows(tree: Tree, below: Tree, r: nat)
    requires r < RULES
    ensures Follows(below, Lhs(r))
  {
  }

  lemma LookFollows(st: seq<Entry>, look: nat, r: nat, tree: Tree)
    requires |st| > 0 && Path(st) && Fits(st, r) && Reduces(st[|st| - 1].state, look, r) && 0 < r < RULES && By(tree, r)
    ensures Follows(tree, look)
  {
    hide Path, Base;
    if r == 1 || r == 2 { var s, x, t := Back(st, 0); }
  }

  // ---- the reductions for one token come to an end ----

  function Weight(x: nat): nat {
    match x
    case 16 => 1 case 17 => 3 case 18 => 2 case 19 => 4 case 20 => 2
    case 21 => 1 case 22 => 2 case 23 => 5 case 24 => 1 case 25 => 1
    case 10 => 5 case 13 => 2
    case _ => 1
  }

  function Weights(xs: seq<nat>): nat { if xs == [] then 0 else Weight(xs[0]) + Weights(xs[1..]) }

  /** States from which an empty right-hand side can be reduced. */
  function Bonus(s: nat): nat { if s == 6 || s == 9 || s == 10 || s == 12 || s == 13 then 2 else 0 }

  function Measure(st: seq<Entry>): nat
    requires 0 < |st|
  {
    Weights(Majors(st)) + Bonus(st[|st| - 1].state)
  }

  lemma {:induction false} WeightsConcat(a: seq<nat>, b: seq<nat>)
    ensures Weights(a + b) == Weights(a) + Weights(b)
  {
    hide Weight;
    if a == [] {
      assert a + b == b;
    } else {
      WeightsConcat(a[1..], b);
      assert (a + b)[1..] == a[1..] + b;
    }
  }

  lemma RuleShrinks(r: nat, s: nat, t: nat, top: nat)
    requires 0 < r < RULES && Into(s, Lhs(r), t)
    ensures |Rhs(r)| > 0 ==> Weight(Lhs(r)) + Bonus(t) < Weights(Rhs(r))
    ensures |Rhs(r)| == 0 ==> Weight(Lhs(r)) + Bonus(t) < 2
  {
    RhsWeights(r);
  }

  lemma RhsWeights(r: nat)
    requires 0 < r < RULES
    ensures |Rhs(r)| > 0 ==> Weights(Rhs(r)) >= Weight(Lhs(r)) + 1
    ensures Lhs(r) == N_NEARPHRASES ==> Weights(Rhs(r)) >= 5
  {
    var x := Rhs(r);
    if x != [] { AtLeast(x[1..]); }
    if r == 17 { assert x[1..] == [N_PHRASE] && x[1..][1..] == []; }
  }

  lemma {:induction false} AtLeast(xs: seq<nat>)
    ensures Weights(xs) >= |xs|
  {
    if xs != [] { AtLeast(xs[1..]); }
  }

  lemma EmptyBonus(st: seq<Entry>, look: nat, r: nat)
    requires 0 < |st| && Path(st) && Reduces(st[|st| - 1].state, look, r) && 0 < r < RULES && Rhs(r) == []
    ensures Bonus(st[|st| - 1].state) == 2
  {
    hide Path;
    var s, x, t := Back(st, 0);
  }

  lemma ReduceShrinks(st: seq<Entry>, shifted: seq<Token>, look: nat, r: nat)
    requires Good(st, shifted) && Reduces(st[|st| - 1].state, look, r) && 0 < r < RULES
    requires Fits(st, r) && HasGoto(st[|st| - |Rhs(r)| - 1].state, Lhs(r))
    ensures Measure(Reduced(st, r)) < Measure(st)
  {
    hide Yields, Path, Base, Lhs, Rhs, HasGoto, FindReduceAction, Reduces, Into, Weight, Bonus;
    var n := |st| - |Rhs(r)|;
    GotoExists(r, st[n - 1].state);
    var t := Pushed(FindReduceAction(st[n - 1].state, Lhs(r)));
    RuleShrinks(r, st[n - 1].state, t, st[|st| - 1].state);
    var m, e := Majors(st), [Lhs(r)];
    assert m == m[..n] + m[n..] && Majors(Reduced(st, r)) == m[..n] + e;
    assert m[n..] == Rhs(r);
    WeightsConcat(m[..n], m[n..]);
    WeightsConcat(m[..n], e);
    assert e[1..] == [];
    if Rhs(r) == [] { EmptyBonus(st, look, r); }
  }
}
