/** What the parser's stack holds: a path through the automaton, on which every reduction finds its right-hand side. */
module LrStack {
  import opened LrTables
  import opened Lr

  datatype Token = Token(major: nat, text: string)

  /** The value of a symbol: the token itself, or the rule used and the values of its right-hand side. */
  datatype Tree = Leaf(tok: Token) | Node(rule: nat, kids: seq<Tree>) {
    function Sym(): nat { if Leaf? then tok.major else Lhs(rule) }

    /** A derivation by the 24 rules. */
    ghost predicate Ok() {
      match this
      case Leaf(t) => t.major <= STAR
      case Node(r, ks) => r < RULES && |ks| == |Rhs(r)| && forall i | 0 <= i < |ks| :: ks[i].Sym() == Rhs(r)[i] && ks[i].Ok()
    }

    /** The tokens derived. */
    ghost function Yield(): seq<Token> {
      match this
      case Leaf(t) => [t]
      case Node(r, ks) => Yields(ks)
    }
  }

  ghost function Yields(ts: seq<Tree>): seq<Token> {
    if ts == [] then [] else ts[0].Yield() + Yields(ts[1..])
  }

  datatype Entry = Entry(state: nat, major: nat, tree: Tree)

  /** The states follow each other by edges of the automaton. */
  ghost predicate Path(st: seq<Entry>) {
    && 0 < |st| && st[0].state == 0
    && forall i | 0 < i < |st| :: Into(st[i - 1].state, st[i].major, st[i].state)
  }

  predicate Base(r: nat, s: nat) {
    match r
    case 0 => s == 0
    case 1 => s == 0 || s == 1 || s == 3
    case 2 => s <= 1
    case 3 => s == 0 || s == 1 || s == 3 || s == 4
    case 4 => s <= 4
    case 5 => s <= 4
    case 6 => s <= 4
    case 7 => s <= 4
    case 8 => s <= 5
    case 9 => s <= 5
    case 10 => s <= 5
    case 11 => s <= 5
    case 12 => s == 11
    case 13 => s == 11
    case 14 => s <= 5 || s == 8
    case 15 => s <= 5 || s == 8
    case 16 => s == 7
    case 17 => s == 7
    case 18 => s == 6
    case 19 => s == 6
    case 20 => s <= 8
    case 21 => s <= 8
    case 22 => s == 9 || s == 10 || s == 12 || s == 13
    case 23 => s == 9 || s == 10 || s == 12 || s == 13
    case _ => false
  }

  ghost predicate Fits(st: seq<Entry>, r: nat) {
    && Nrhs(r) == |Rhs(r)| < |st|
    && (forall i | 0 <= i < |Rhs(r)| :: st[|st| - |Rhs(r)| + i].major == Rhs(r)[i])
    && Base(r, st[|st| - |Rhs(r)| - 1].state)
  }

  lemma Back(st: seq<Entry>, k: nat) returns (s: nat, x: nat, t: nat)
    requires Path(st) && k < |st| && st[|st| - 1 - k].state != 0
    ensures k + 1 < |st| && s == st[|st| - 2 - k].state && x == st[|st| - 1 - k].major && t == st[|st| - 1 - k].state && Into(s, x, t)
  {
    assert |st| - 1 - k != 0;
    s, x, t := st[|st| - 2 - k].state, st[|st| - 1 - k].major, st[|st| - 1 - k].state;
  }

  lemma Fits0To2(st: seq<Entry>, look: nat, r: nat)
    requires 0 < |st| && Path(st) && Reduces(st[|st| - 1].state, look, r) && 0 <= r <= 2
    ensures Fits(st, r)
  {
    hide Path;
    var s0, x0, t0 := Back(st, 0);
    if r == 1 || r == 2 { var s1, x1, t1 := Back(st, 1); }
    if r == 1 || r == 2 { var s2, x2, t2 := Back(st, 2); }
  }

  lemma Fits3To4(st: seq<Entry>, look: nat, r: nat)
    requires 0 < |st| && Path(st) && Reduces(st[|st| - 1].state, look, r) && 3 <= r <= 4
    ensures Fits(st, r)
  {
    hide Path;
    var s0, x0, t0 := Back(st, 0);
    var s1, x1, t1 := Back(st, 1);
    var s2, x2, t2 := Back(st, 2);
  }

  lemma Fits5To7(st: seq<Entry>, look: nat, r: nat)
    requires 0 < |st| && Path(st) && Reduces(st[|st| - 1].state, look, r) && 5 <= r <= 7
    ensures Fits(st, r)
  {
    hide Path;
    var s0, x0, t0 := Back(st, 0);
    if r == 7 { var s1, x1, t1 := Back(st, 1); }
  }

  lemma Fits8To9(st: seq<Entry>, look: nat, r: nat)
    requires 0 < |st| && Path(st) && Reduces(st[|st| - 1].state, look, r) && 8 <= r <= 9
    ensures Fits(st, r)
  {
    hide Path;
    var s0, x0, t0 := Back(st, 0);
    if r == 9 { var s1, x1, t1 := Back(st, 1); }
    if r == 9 { var s2, x2, t2 := Back(st, 2); }
  }

  lemma Fits10To11(st: seq<Entry>, look: nat, r: nat)
    requires 0 < |st| && Path(st) && Reduces(st[|st| - 1].state, look, r) && 10 <= r <= 11
    ensures Fits(st, r)
  {
    hide Path;
    var s0, x0, t0 := Back(st, 0);
    if r == 10 { var s1, x1, t1 := Back(st, 1); }
    if r == 10 { var s2, x2, t2 := Back(st, 2); }
  }

  lemma Fits12To14(st: seq<Entry>, look: nat, r: nat)
    requires 0 < |st| && Path(st) && Reduces(st[|st| - 1].state, look, r) && 12 <= r <= 14
    ensures Fits(st, r)
  {
    hide Path;
    var s0, x0, t0 := Back(st, 0);
    if r == 12 { var s1, x1, t1 := Back(st, 1); }
  }

  lemma Fits15(st: seq<Entry>, look: nat, r: nat)
    requires 0 < |st| && Path(st) && Reduces(st[|st| - 1].state, look, r) && r == 15
    ensures Fits(st, r)
  {
    hide Path;
    var s0, x0, t0 := Back(st, 0);
    var s1, x1, t1 := Back(st, 1);
    var s2, x2, t2 := Back(st, 2);
    var s3, x3, t3 := Back(st, 3);
    var s4, x4, t4 := Back(st, 4);
  }

  lemma Fits16To19(st: seq<Entry>, look: nat, r: nat)
    requires 0 < |st| && Path(st) && Reduces(st[|st| - 1].state, look, r) && 16 <= r <= 19
    ensures Fits(st, r)
  {
    hide Path;
    var s0, x0, t0 := Back(st, 0);
    if r == 17 || r == 19 { var s1, x1, t1 := Back(st, 1); }
  }

  lemma Fits20(st: seq<Entry>, look: nat, r: nat)
    requires 0 < |st| && Path(st) && Reduces(st[|st| - 1].state, look, r) && r == 20
    ensures Fits(st, r)
  {
    hide Path;
    var s0, x0, t0 := Back(st, 0);
    var s1, x1, t1 := Back(st, 1);
    var s2, x2, t2 := Back(st, 2);
    var s3, x3, t3 := Back(st, 3);
  }

  lemma Fits21To23(st: seq<Entry>, look: nat, r: nat)
    requires 0 < |st| && Path(st) && Reduces(st[|st| - 1].state, look, r) && 21 <= r <= 23
    ensures Fits(st, r)
  {
    hide Path;
    var s0, x0, t0 := Back(st, 0);
    if r == 21 { var s1, x1, t1 := Back(st, 1); }
  }

  /** The right-hand side of the rule is on the stack, above one of the states the rule can start from. */
  lemma ReductionFits(st: seq<Entry>, look: nat, r: nat)
    requires 0 < |st| && Path(st) && Reduces(st[|st| - 1].state, look, r) && r < RULES
    ensures Fits(st, r)
  {
    hide Path, Fits, Reduces;
    if r <= 2 { Fits0To2(st, look, r); }
    else if r <= 4 { Fits3To4(st, look, r); }
    else if r <= 7 { Fits5To7(st, look, r); }
    else if r <= 9 { Fits8To9(st, look, r); }
    else if r <= 11 { Fits10To11(st, look, r); }
    else if r <= 14 { Fits12To14(st, look, r); }
    else if r <= 15 { Fits15(st, look, r); }
    else if r <= 19 { Fits16To19(st, look, r); }
    else if r <= 20 { Fits20(st, look, r); }
    else { Fits21To23(st, look, r); }
  }

  lemma GotoExists0To4(r: nat, s: nat)
    requires r <= 4 && Base(r, s)
    ensures HasGoto(s, Lhs(r))
    ensures r == 0 ==> FindReduceAction(s, Lhs(r)) == YY_ACCEPT_ACTION
    ensures r != 0 ==> FindReduceAction(s, Lhs(r)) <= YY_MAX_SHIFTREDUCE
  {
  }

  lemma GotoExists5To9(r: nat, s: nat)
    requires 5 <= r <= 9 && Base(r, s)
    ensures HasGoto(s, Lhs(r))
    ensures FindReduceAction(s, Lhs(r)) <= YY_MAX_SHIFTREDUCE
  {
  }

  lemma GotoExists10To15(r: nat, s: nat)
    requires 10 <= r <= 15 && Base(r, s)
    ensures HasGoto(s, Lhs(r))
    ensures FindReduceAction(s, Lhs(r)) <= YY_MAX_SHIFTREDUCE
  {
  }

  lemma GotoExists16To23(r: nat, s: nat)
    requires 16 <= r < RULES && Base(r, s)
    ensures HasGoto(s, Lhs(r))
    ensures FindReduceAction(s, Lhs(r)) <= YY_MAX_SHIFTREDUCE
  {
  }

  /** The assertions of yy_find_reduce_action hold wherever a rule can start. */
  lemma GotoExists(r: nat, s: nat)
    requires r < RULES && Base(r, s)
    ensures HasGoto(s, Lhs(r))
    ensures r == 0 ==> FindReduceAction(s, Lhs(r)) == YY_ACCEPT_ACTION
    ensures r != 0 ==> FindReduceAction(s, Lhs(r)) <= YY_MAX_SHIFTREDUCE && Into(s, Lhs(r), Pushed(FindReduceAction(s, Lhs(r))))
  {
    hide Into, HasGoto, FindReduceAction, Base;
    if r <= 4 { GotoExists0To4(r, s); }
    else if r <= 9 { GotoExists5To9(r, s); }
    else if r <= 15 { GotoExists10To15(r, s); }
    else { GotoExists16To23(r, s); }
    if r != 0 {
      LowState(s, Lhs(r));
      Edges(s, Lhs(r), Pushed(FindReduceAction(s, Lhs(r))));
    }
  }

  lemma LowState(s: nat, x: nat)
    requires HasGoto(s, x)
    ensures s <= YY_MAX_SHIFT
  {
  }
}
