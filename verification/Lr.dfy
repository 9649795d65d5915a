/** The push-down automaton the tables make: its edges, and what lies below a state on the stack. */
module Lr {
  import opened LrTables

  /** Action of a state that is not a postponed reduction, for a terminal. */
  function StateAction(s: nat, t: nat): nat {
    var ofst := ShiftOfst(s);
    if ofst == YY_SHIFT_USE_DFLT then Default(s)
    else
      var i := ofst + t;
      if i < 0 || i >= YY_ACTTAB_COUNT || Lookahead(i) != t then Default(s) else Action(i)
  }

  /** yy_find_shift_action: a state from YY_MIN_REDUCE on is a reduction that was postponed by a shift. */
  function FindShiftAction(s: nat, t: nat): nat {
    if s >= YY_MIN_REDUCE then s else StateAction(s, t)
  }

  /** The assertions of yy_find_reduce_action. */
  predicate HasGoto(s: nat, x: nat) {
    && s <= YY_REDUCE_COUNT && ReduceOfst(s) != YY_REDUCE_USE_DFLT
    && 0 <= ReduceOfst(s) + x < YY_ACTTAB_COUNT && Lookahead(ReduceOfst(s) + x) == x
  }

  function FindReduceAction(s: nat, x: nat): nat
    requires HasGoto(s, x)
  {
    Action(ReduceOfst(s) + x)
  }

  /** The state that goes on the stack for an action: shift-reduce becomes a postponed reduction. */
  function Pushed(act: nat): nat {
    if act > YY_MAX_SHIFT then act + (YY_MIN_REDUCE - YY_MIN_SHIFTREDUCE) else act
  }

  predicate Edge(s: nat, x: nat, t: nat) {
    && s <= YY_MAX_SHIFT
    && if x <= STAR then StateAction(s, x) <= YY_MAX_SHIFTREDUCE && t == Pushed(StateAction(s, x))
       else HasGoto(s, x) && FindReduceAction(s, x) <= YY_MAX_SHIFTREDUCE && t == Pushed(FindReduceAction(s, x))
  }

  /** The symbol that leads into state t, and the states it is met in. */
  predicate Into(s: nat, x: nat, t: nat) {
    match t
    case 1 => x == LP && s <= 4
    case 2 => x == NOT && (s == 14 || s == 15 || s == 17 || s == 25)
    case 3 => x == OR && 14 <= s <= 15
    case 4 => x == AND && (s == 14 || s == 15 || s == 17)
    case 5 => x == N_EXPRLIST && s <= 4
    case 6 => x == N_NEARPHRASES && s == 7
    case 7 => x == LP && 9 <= s <= 10
    case 8 => x == COLON && s == 24
    case 9 => x == STRING && s <= 5
    case 10 => x == STRING && s == 8
    case 11 => x == LCP && s <= 5
    case 12 => x == STRING && 6 <= s <= 7
    case 13 => x == STRING && s == 22
    case 14 => x == N_EXPR && s == 1
    case 15 => x == N_EXPR && s == 0
    case 16 => x == N_COLSETLIST && s == 11
    case 17 => x == N_EXPR && s == 3
    case 18 => x == N_PHRASE && s == 7
    case 19 => x == COMMA && s == 6
    case 20 => x == N_PHRASE && s == 6
    case 21 => x == N_NEARDIST_OPT && s == 6
    case 22 => x == PLUS && (s == 18 || s == 20 || s == 23)
    case 23 => x == N_PHRASE && (s <= 5 || s == 8)
    case 24 => x == N_COLSET && s <= 5
    case 25 => x == N_EXPR && s == 4
    case 67 => x == N_EXPR && s == 2
    case 68 => x == RP && s == 14
    case 70 => x == N_CNEARSET && s <= 4
    case 71 => x == N_CNEARSET && s == 5
    case 72 => x == N_NEARSET && s <= 5
    case 73 => x == N_NEARSET && s == 8
    case 74 => x == RCP && s == 16
    case 76 => x == STRING && s == 16
    case 77 => x == STRING && s == 11
    case 79 => x == RP && s == 21
    case 83 => x == STRING && s == 19
    case 84 => x == N_STAR_OPT && s == 13
    case 85 => x == N_STAR_OPT && (s == 9 || s == 10 || s == 12)
    case 86 => x == STAR && (s == 9 || s == 10 || s == 12 || s == 13)
    case _ => false
  }

  lemma Shifts0To3(s: nat, x: nat, t: nat)
    requires Edge(s, x, t) && x <= STAR && 0 <= s <= 3
    ensures Into(s, x, t)
  {
  }

  lemma Shifts4To7(s: nat, x: nat, t: nat)
    requires Edge(s, x, t) && x <= STAR && 4 <= s <= 7
    ensures Into(s, x, t)
  {
  }

  lemma Shifts8To11(s: nat, x: nat, t: nat)
    requires Edge(s, x, t) && x <= STAR && 8 <= s <= 11
    ensures Into(s, x, t)
  {
  }

  lemma Shifts12To16(s: nat, x: nat, t: nat)
    requires Edge(s, x, t) && x <= STAR && 12 <= s <= 16
    ensures Into(s, x, t)
  {
  }

  lemma Shifts17To20(s: nat, x: nat, t: nat)
    requires Edge(s, x, t) && x <= STAR && 17 <= s <= 20
    ensures Into(s, x, t)
  {
  }

  lemma Shifts21To25(s: nat, x: nat, t: nat)
    requires Edge(s, x, t) && x <= STAR && 21 <= s <= 25
    ensures Into(s, x, t)
  {
  }

  lemma GotosLow(s: nat, x: nat, t: nat)
    requires Edge(s, x, t) && x > STAR && x < N_NEARSET && s <= 4
    ensures Into(s, x, t)
  {
  }

  lemma GotosHigh(s: nat, x: nat, t: nat)
    requires Edge(s, x, t) && x > STAR && N_NEARSET <= x && s <= 4
    ensures Into(s, x, t)
  {
  }

  lemma Gotos5To8(s: nat, x: nat, t: nat)
    requires Edge(s, x, t) && x > STAR && 5 <= s <= 8
    ensures Into(s, x, t)
  {
  }

  lemma Gotos9To13(s: nat, x: nat, t: nat)
    requires Edge(s, x, t) && x > STAR && 9 <= s <= 13
    ensures Into(s, x, t)
  {
  }

  /** Every edge of the tables is one of those listed. */
  lemma Edges(s: nat, x: nat, t: nat)
    requires Edge(s, x, t)
    ensures Into(s, x, t)
  {
    hide Into, StateAction, FindReduceAction, ReduceOfst, Lookahead;
    if x <= STAR {
      if s <= 3 { Shifts0To3(s, x, t); } else if s <= 7 { Shifts4To7(s, x, t); } else if s <= 11 { Shifts8To11(s, x, t); } else if s <= 16 { Shifts12To16(s, x, t); } else if s <= 20 { Shifts17To20(s, x, t); } else { Shifts21To25(s, x, t); }
    } else {
      if s <= 4 { if x < N_NEARSET { GotosLow(s, x, t); } else { GotosHigh(s, x, t); } }
      else if s <= 8 { Gotos5To8(s, x, t); } else { Gotos9To13(s, x, t); }
    }
  }

  /** What a state on the top of the stack does with a terminal, when it is not a shift. */
  predicate Reduces(t: nat, look: nat, r: nat) {
    if t >= YY_MIN_REDUCE then t == YY_MIN_REDUCE + r
    else match r
      case 0 => t == 15 && look == EOF
      case 1 => t == 25 && look != NOT
      case 2 => t == 17 && look != AND && look != NOT
      case 5 => t == 5
      case 11 => t == 9 && look == COLON
      case 14 => t == 23
      case 16 => t == 18
      case 17 => t == 20
      case 18 => t == 6
      case 23 => t == 9 || t == 10 || t == 12 || t == 13
      case _ => false
  }

  ghost predicate ActionOk(t: nat, look: nat) {
    var a := FindShiftAction(t, look);
    && (a <= YY_MAX_SHIFT || YY_MIN_SHIFTREDUCE <= a <= YY_MAX_SHIFTREDUCE || YY_MIN_REDUCE <= a <= YY_ERROR_ACTION)
    && (YY_MIN_REDUCE <= a <= YY_MAX_REDUCE ==> Reduces(t, look, a - YY_MIN_REDUCE))
  }

  lemma FirstActions(t: nat, look: nat)
    requires look <= STAR && t <= 4
    ensures ActionOk(t, look)
  {
  }

  lemma LowActions(t: nat, look: nat)
    requires look <= STAR && 5 <= t <= 9
    ensures ActionOk(t, look)
  {
  }

  lemma MiddleActions(t: nat, look: nat)
    requires look <= STAR && 10 <= t <= 17
    ensures ActionOk(t, look)
  {
  }

  lemma HighActions(t: nat, look: nat)
    requires look <= STAR && 18 <= t <= YY_MAX_SHIFT
    ensures ActionOk(t, look)
  {
  }

  lemma Actions(t: nat, look: nat)
    requires look <= STAR && (t <= YY_MAX_SHIFT || YY_MIN_REDUCE <= t <= YY_MAX_REDUCE)
    ensures ActionOk(t, look)
  {
    hide StateAction;
    if t <= 4 { FirstActions(t, look); } else if t <= 9 { LowActions(t, look); } else if t <= 17 { MiddleActions(t, look); } else if t <= YY_MAX_SHIFT { HighActions(t, look); }
  }
}
