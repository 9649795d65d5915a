/** The ways through the right-hand sides of the rules, as the tables have them. */
module LrWays {
  import opened LrTables
  import opened Lr
  import opened LrStack

  /** Symbols that can come after one, in a query. */
  predicate MayFollow(x: nat, look: nat) {
    match x
    case 16 => look == EOF || look == OR || look == AND || look == NOT || look == RP
    case 17 => MayFollow(N_EXPR, look) || look == STRING || look == LCP
    case 18 => MayFollow(N_EXPR, look) || look == STRING || look == LCP
    case 19 => MayFollow(N_EXPR, look) || look == STRING || look == LCP
    case 20 => look == COLON
    case 21 => look == STRING || look == RCP
    case 22 => look == STRING || look == COMMA || look == RP
    case 23 => MayFollow(N_EXPR, look) || look == STRING || look == LCP || look == PLUS || look == COMMA
    case 24 => look == RP
    case 25 => MayFollow(N_PHRASE, look)
    case _ => look <= STAR
  }

  /** Tokens that a symbol can begin with. */
  predicate MayStart(x: nat, first: nat) {
    match x
    case 15 => first == LP || first == STRING || first == LCP
    case 16 => first == LP || first == STRING || first == LCP
    case 17 => first == STRING || first == LCP
    case 18 => first == STRING || first == LCP
    case 19 => first == STRING
    case 20 => first == STRING || first == LCP
    case 21 => first == STRING
    case 22 => first == STRING
    case 23 => first == STRING
    case 24 => first == COMMA
    case 25 => first == STAR
    case _ => first == x
  }

  predicate MayBeEmpty(x: nat) { x == N_NEARDIST_OPT || x == N_STAR_OPT }

  /** The states in which a nonterminal may come. */
  predicate Wants(s: nat, x: nat) {
    match x
    case 16 => s <= 4
    case 17 => s <= 5
    case 18 => s <= 4
    case 19 => s <= 5 || s == 8
    case 20 => s <= 5
    case 21 => s == 11
    case 22 => s == 7
    case 23 => s <= 8
    case 24 => s == 6
    case 25 => s == 9 || s == 10 || s == 12 || s == 13
    case _ => false
  }

  /** The state after an expression. */
  function OnExpr(s: nat): nat { match s case 0 => 15 case 1 => 14 case 2 => 67 case 3 => 17 case _ => 25 }

  function OnPhrase(s: nat): nat { if s == 6 then 20 else if s == 7 then 18 else 23 }

  function OnString(s: nat): nat { if s == 8 then 10 else if s == 6 || s == 7 then 12 else 9 }

  /** The states on the way through the right-hand side of rule r, from state s. */
  function Way(r: nat, s: nat): seq<nat> {
    match r
    case 1 => [s, OnExpr(s), 4, 25]
    case 2 => [s, OnExpr(s), 3, 17]
    case 3 => [s, OnExpr(s), 2, 67]
    case 4 => [s, 1, 14, 68]
    case 5 => [s, 5]
    case 6 => [s, 70]
    case 7 => [s, 5, 71]
    case 8 => [s, if s == 8 then 73 else 72]
    case 9 => [s, 24, 8, 73]
    case 10 => [s, 11, 16, 74]
    case 11 => [s, 9]
    case 12 => [s, 16, 76]
    case 13 => [s, 77]
    case 14 => [s, 23]
    case 15 => [s, OnString(s), 7, 6, 21, 79]
    case 16 => [s, 18]
    case 17 => [s, 6, 20]
    case 18 => [s]
    case 19 => [s, 19, 83]
    case 20 => [s, OnPhrase(s), 22, 13, 84]
    case 21 => [s, OnString(s), 85]
    case 22 => [s, 86]
    case 23 => [s]
    case _ => [s, 15]
  }

  /** The symbol may come in state s, and leads to state t. */
  predicate Hop(s: nat, x: nat, t: nat) { Into(s, x, t) && (x > STAR ==> Wants(s, x)) }

  lemma WaySize(r: nat, s: nat)
    ensures |Way(r, s)| == |Rhs(r)| + 1 || r >= RULES
    ensures |Way(r, s)| > 0 && Way(r, s)[0] == s
  {
  }

  lemma Hops0To3(r: nat, s: nat, i: nat)
    requires 0 <= r <= 3 && Base(r, s) && i < |Rhs(r)| && |Way(r, s)| == |Rhs(r)| + 1
    ensures Hop(Way(r, s)[i], Rhs(r)[i], Way(r, s)[i + 1])
  {
  }

  lemma Hops4To12(r: nat, s: nat, i: nat)
    requires 4 <= r <= 12 && Base(r, s) && i < |Rhs(r)| && |Way(r, s)| == |Rhs(r)| + 1
    ensures Hop(Way(r, s)[i], Rhs(r)[i], Way(r, s)[i + 1])
  {
  }

  lemma Hops13To18(r: nat, s: nat, i: nat)
    requires 13 <= r <= 18 && Base(r, s) && i < |Rhs(r)| && |Way(r, s)| == |Rhs(r)| + 1
    ensures Hop(Way(r, s)[i], Rhs(r)[i], Way(r, s)[i + 1])
  {
  }

  lemma Hops19To23(r: nat, s: nat, i: nat)
    requires 19 <= r <= 23 && Base(r, s) && i < |Rhs(r)| && |Way(r, s)| == |Rhs(r)| + 1
    ensures Hop(Way(r, s)[i], Rhs(r)[i], Way(r, s)[i + 1])
  {
  }

  /** Each symbol of the right-hand side may come where it comes, and leads on. */
  lemma Hops(r: nat, s: nat, i: nat)
    requires r < RULES && Base(r, s) && i < |Rhs(r)|
    ensures |Way(r, s)| == |Rhs(r)| + 1 && Hop(Way(r, s)[i], Rhs(r)[i], Way(r, s)[i + 1])
  {
    hide Hop, Base, Way, Rhs;
    WaySize(r, s);
    if r <= 3 { Hops0To3(r, s, i); } else if r <= 12 { Hops4To12(r, s, i); } else if r <= 18 { Hops13To18(r, s, i); } else { Hops19To23(r, s, i); }
  }

  lemma IntoShifts1(s: nat, x: nat, t: nat)
    requires Into(s, x, t) && (t == 1 || t == 2 || t == 3 || t == 4)
    ensures Edge(s, x, t)
  {
    hide HasGoto, FindReduceAction;
    if t == 1 {} else if t == 2 {} else if t == 3 {} else {}
  }

  lemma IntoShifts2(s: nat, x: nat, t: nat)
    requires Into(s, x, t) && (t == 7 || t == 8)
    ensures Edge(s, x, t)
  {
    hide HasGoto, FindReduceAction;
    if t == 7 {} else {}
  }

  lemma IntoShifts3(s: nat, x: nat, t: nat)
    requires Into(s, x, t) && (t == 9 || t == 10)
    ensures Edge(s, x, t)
  {
    hide HasGoto, FindReduceAction;
    if t == 9 {} else {}
  }

  lemma IntoShifts4(s: nat, x: nat, t: nat)
    requires Into(s, x, t) && (t == 11 || t == 12 || t == 13)
    ensures Edge(s, x, t)
  {
    hide HasGoto, FindReduceAction;
    if t == 11 {} else if t == 12 {} else {}
  }

  lemma IntoShifts5(s: nat, x: nat, t: nat)
    requires Into(s, x, t) && (t == 19 || t == 22 || t == 68 || t == 74)
    ensures Edge(s, x, t)
  {
    hide HasGoto, FindReduceAction;
    if t == 19 {} else if t == 22 {} else if t == 68 {} else {}
  }

  lemma IntoShifts6(s: nat, x: nat, t: nat)
    requires Into(s, x, t) && (t == 76 || t == 77 || t == 79 || t == 83)
    ensures Edge(s, x, t)
  {
    hide HasGoto, FindReduceAction;
    if t == 76 {} else if t == 77 {} else if t == 79 {} else {}
  }

  lemma IntoShifts7(s: nat, x: nat, t: nat)
    requires Into(s, x, t) && (t == 86)
    ensures Edge(s, x, t)
  {
    hide HasGoto, FindReduceAction;
  }

  lemma IntoGotos1(s: nat, x: nat, t: nat)
    requires Into(s, x, t) && (t == 5 || t == 6 || t == 14 || t == 15)
    ensures Edge(s, x, t)
  {
    hide StateAction;
    if t == 5 {} else if t == 6 {} else if t == 14 {} else {}
  }

  lemma IntoGotos2(s: nat, x: nat, t: nat)
    requires Into(s, x, t) && (t == 16 || t == 17 || t == 18 || t == 20 || t == 21)
    ensures Edge(s, x, t)
  {
    hide StateAction;
    if t == 16 {} else if t == 17 {} else if t == 18 {} else if t == 20 {} else {}
  }

  lemma IntoGotos3(s: nat, x: nat, t: nat)
    requires Into(s, x, t) && (t == 23 || t == 24)
    ensures Edge(s, x, t)
  {
    hide StateAction;
    if t == 23 {} else {}
  }

  lemma IntoGotos4(s: nat, x: nat, t: nat)
    requires Into(s, x, t) && (t == 25 || t == 67 || t == 70)
    ensures Edge(s, x, t)
  {
    hide StateAction;
    if t == 25 {} else if t == 67 {} else {}
  }

  lemma IntoGotos5(s: nat, x: nat, t: nat)
    requires Into(s, x, t) && (t == 71 || t == 72)
    ensures Edge(s, x, t)
  {
    hide StateAction;
    if t == 71 {} else {}
  }

  lemma IntoGotos6(s: nat, x: nat, t: nat)
    requires Into(s, x, t) && (t == 73 || t == 84 || t == 85)
    ensures Edge(s, x, t)
  {
    hide StateAction;
    if t == 73 {} else if t == 84 {} else {}
  }

  lemma IntoRange(s: nat, x: nat, t: nat)
    requires Into(s, x, t)
    ensures 1 <= t <= 25 || 67 <= t <= 68 || 70 <= t <= 74 || 76 <= t <= 77 || t == 79 || 83 <= t <= 86
  {
  }

  /** The edges listed are edges of the tables. */
  lemma IntoEdge(s: nat, x: nat, t: nat)
    requires Into(s, x, t)
    ensures Edge(s, x, t)
  {
    hide Into, Edge;
    IntoRange(s, x, t);
    if t == 1 || t == 2 || t == 3 || t == 4 { IntoShifts1(s, x, t); } else if t == 7 || t == 8 { IntoShifts2(s, x, t); } else if t == 9 || t == 10 { IntoShifts3(s, x, t); } else if t == 11 || t == 12 || t == 13 { IntoShifts4(s, x, t); } else if t == 19 || t == 22 || t == 68 || t == 74 { IntoShifts5(s, x, t); } else if t == 76 || t == 77 || t == 79 || t == 83 { IntoShifts6(s, x, t); } else if t == 86 { IntoShifts7(s, x, t); } else if t == 5 || t == 6 || t == 14 || t == 15 { IntoGotos1(s, x, t); } else if t == 16 || t == 17 || t == 18 || t == 20 || t == 21 { IntoGotos2(s, x, t); } else if t == 23 || t == 24 { IntoGotos3(s, x, t); } else if t == 25 || t == 67 || t == 70 { IntoGotos4(s, x, t); } else if t == 71 || t == 72 { IntoGotos5(s, x, t); } else { IntoGotos6(s, x, t); }
  }

  /** Rules for operators do not begin where they would bind too weakly. */
  predicate Weak(r: nat, s: nat) { (r == 1 && (s == 2 || s == 4)) || (r == 2 && 2 <= s <= 4) || (r == 3 && s == 2) }

  lemma Wanted(r: nat, s: nat)
    requires 0 < r < RULES && Wants(s, Lhs(r)) && !Weak(r, s)
    ensures Base(r, s)
  {
  }

  /** What may not come after an expression with an operator: one that binds tighter. */
  predicate Tighter(r: nat, look: nat) { (r == 1 && look == NOT) || (r == 2 && (look == AND || look == NOT)) }

  lemma Ends1To13(r: nat, s: nat, look: nat)
    requires 0 < r <= 13 && Base(r, s) && MayFollow(Lhs(r), look) && !Tighter(r, look) && |Way(r, s)| == |Rhs(r)| + 1
    ensures FindShiftAction(Way(r, s)[|Rhs(r)|], look) == YY_MIN_REDUCE + r
  {
  }

  lemma Ends14To16(r: nat, s: nat, look: nat)
    requires 14 <= r <= 16 && Base(r, s) && MayFollow(Lhs(r), look) && |Way(r, s)| == |Rhs(r)| + 1
    ensures FindShiftAction(Way(r, s)[|Rhs(r)|], look) == YY_MIN_REDUCE + r
  {
  }

  lemma Ends17To19(r: nat, s: nat, look: nat)
    requires 17 <= r <= 19 && Base(r, s) && MayFollow(Lhs(r), look) && |Way(r, s)| == |Rhs(r)| + 1
    ensures FindShiftAction(Way(r, s)[|Rhs(r)|], look) == YY_MIN_REDUCE + r
  {
  }

  lemma Ends20To22(r: nat, s: nat, look: nat)
    requires 20 <= r <= 22 && Base(r, s) && MayFollow(Lhs(r), look) && |Way(r, s)| == |Rhs(r)| + 1
    ensures FindShiftAction(Way(r, s)[|Rhs(r)|], look) == YY_MIN_REDUCE + r
  {
  }

  lemma NoStar(s: nat, look: nat)
    requires (s == 9 || s == 10) && MayFollow(N_STAR_OPT, look)
    ensures StateAction(s, look) == YY_MIN_REDUCE + 23
  {
  }

  lemma NoStar2(s: nat, look: nat)
    requires (s == 12 || s == 13) && MayFollow(N_STAR_OPT, look)
    ensures StateAction(s, look) == YY_MIN_REDUCE + 23
  {
  }

  lemma Ends23(s: nat, look: nat)
    requires Base(23, s) && MayFollow(N_STAR_OPT, look)
    ensures FindShiftAction(s, look) == YY_MIN_REDUCE + 23 && Lhs(23) == N_STAR_OPT && Rhs(23) == [] && Way(23, s) == [s]
  {
    hide StateAction, MayFollow;
    if s <= 10 { NoStar(s, look); } else { NoStar2(s, look); }
  }

  lemma StarLhs()
    ensures Lhs(23) == N_STAR_OPT
  {
  }

  /** After the right-hand side the rule is reduced. */
  lemma Ends(r: nat, s: nat, look: nat)
    requires 0 < r < RULES && Base(r, s) && MayFollow(Lhs(r), look) && !Tighter(r, look)
    ensures |Way(r, s)| == |Rhs(r)| + 1 && FindShiftAction(Way(r, s)[|Rhs(r)|], look) == YY_MIN_REDUCE + r
  {
    hide Base, Way, Rhs, Lhs, FindShiftAction, MayFollow;
    WaySize(r, s);
    if r <= 13 { Ends1To13(r, s, look); } else if r <= 16 { Ends14To16(r, s, look); } else if r <= 19 { Ends17To19(r, s, look); } else if r <= 22 { Ends20To22(r, s, look); } else { StarLhs(); Ends23(s, look); }
  }

  /** What follows the left-hand side may follow its last symbol. */
  lemma LastFollows(r: nat, look: nat)
    requires r < RULES && Rhs(r) != [] && (r == 0 ==> look == EOF) && (r > 0 ==> MayFollow(Lhs(r), look)) && look <= STAR
    ensures MayFollow(Rhs(r)[|Rhs(r)| - 1], look)
  {
  }

  lemma NextFollows0To9(r: nat, i: nat, first: nat)
    requires r <= 9 && i + 1 < |Rhs(r)| && MayStart(Rhs(r)[i + 1], first) && first <= STAR
    ensures MayFollow(Rhs(r)[i], first)
  {
  }

  lemma NextFollows10To23(r: nat, i: nat, first: nat)
    requires 10 <= r < RULES && i + 1 < |Rhs(r)| && MayStart(Rhs(r)[i + 1], first) && first <= STAR
    ensures MayFollow(Rhs(r)[i], first)
  {
  }

  /** What the next symbol starts with may follow the one before it. */
  lemma NextFollows(r: nat, i: nat, first: nat)
    requires r < RULES && i + 1 < |Rhs(r)| && MayStart(Rhs(r)[i + 1], first) && first <= STAR
    ensures MayFollow(Rhs(r)[i], first)
  {
    hide MayStart, MayFollow, Rhs;
    if r <= 9 { NextFollows0To9(r, i, first); } else { NextFollows10To23(r, i, first); }
  }

  /** Only the distance of a NEAR group, and the star of a phrase, may be left out. */
  lemma EmptyFollows(r: nat, i: nat)
    requires r < RULES && i < |Rhs(r)| && MayBeEmpty(Rhs(r)[i])
    ensures i > 0 && (i + 1 == |Rhs(r)| || (i + 2 == |Rhs(r)| && Rhs(r)[i + 1] == RP))
    ensures i + 1 == |Rhs(r)| ==> Rhs(r)[i - 1] <= STAR
    ensures i + 2 == |Rhs(r)| ==> Rhs(r)[i - 1] == N_NEARPHRASES
  {
  }

  lemma FirstStarts(r: nat, first: nat)
    requires r < RULES && Rhs(r) != [] && MayStart(Rhs(r)[0], first)
    ensures MayStart(Lhs(r), first) && !MayBeEmpty(Rhs(r)[0])
  {
  }

  lemma NoRhs(r: nat)
    requires r < RULES && Rhs(r) == []
    ensures MayBeEmpty(Lhs(r))
  {
  }
}
