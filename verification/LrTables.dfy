/** The tables of the generated FTS5 query parser. */
module LrTables {
  const YYNOCODE: nat := 27
  const YY_MAX_SHIFT: nat := 25
  const YY_MIN_SHIFTREDUCE: nat := 40
  const YY_MAX_SHIFTREDUCE: nat := 63
  const YY_MIN_REDUCE: nat := 64
  const YY_MAX_REDUCE: nat := 87
  const YY_ERROR_ACTION: nat := 88
  const YY_ACCEPT_ACTION: nat := 89
  const YY_ACTTAB_COUNT: nat := 78
  const YY_REDUCE_COUNT: nat := 13
  const YY_SHIFT_USE_DFLT: int := -5
  const YY_REDUCE_USE_DFLT: int := -16

  /** yy_action */
  function Action(i: int): nat {
    match i
    case 0 => 89 case 1 => 15 case 2 => 46 case 3 => 5 case 4 => 48 case 5 => 24 case 6 => 12 case 7 => 19 case 8 => 23
    case 9 => 14 case 10 => 46 case 11 => 5 case 12 => 48 case 13 => 24 case 14 => 20 case 15 => 21 case 16 => 23 case 17 => 43
    case 18 => 46 case 19 => 5 case 20 => 48 case 21 => 24 case 22 => 6 case 23 => 18 case 24 => 23 case 25 => 17 case 26 => 46
    case 27 => 5 case 28 => 48 case 29 => 24 case 30 => 75 case 31 => 7 case 32 => 23 case 33 => 25 case 34 => 46 case 35 => 5
    case 36 => 48 case 37 => 24 case 38 => 62 case 39 => 47 case 40 => 23 case 41 => 48 case 42 => 24 case 43 => 7 case 44 => 11
    case 45 => 23 case 46 => 9 case 47 => 3 case 48 => 4 case 49 => 2 case 50 => 62 case 51 => 50 case 52 => 52 case 53 => 44
    case 54 => 64 case 55 => 3 case 56 => 4 case 57 => 2 case 58 => 49 case 59 => 4 case 60 => 2 case 61 => 1 case 62 => 23
    case 63 => 11 case 64 => 16 case 65 => 9 case 66 => 12 case 67 => 2 case 68 => 10 case 69 => 61 case 70 => 53 case 71 => 59
    case 72 => 62 case 73 => 60 case 74 => 22 case 75 => 13 case 76 => 55 case 77 => 8
    case _ => 90
  }

  /** yy_lookahead */
  function Lookahead(i: int): nat {
    match i
    case 0 => 15 case 1 => 16 case 2 => 17 case 3 => 18 case 4 => 19 case 5 => 20 case 6 => 10 case 7 => 11 case 8 => 23
    case 9 => 16 case 10 => 17 case 11 => 18 case 12 => 19 case 13 => 20 case 14 => 23 case 15 => 24 case 16 => 23 case 17 => 16
    case 18 => 17 case 19 => 18 case 20 => 19 case 21 => 20 case 22 => 22 case 23 => 23 case 24 => 23 case 25 => 16 case 26 => 17
    case 27 => 18 case 28 => 19 case 29 => 20 case 30 => 5 case 31 => 6 case 32 => 23 case 33 => 16 case 34 => 17 case 35 => 18
    case 36 => 19 case 37 => 20 case 38 => 13 case 39 => 17 case 40 => 23 case 41 => 19 case 42 => 20 case 43 => 6 case 44 => 8
    case 45 => 23 case 46 => 10 case 47 => 1 case 48 => 2 case 49 => 3 case 50 => 13 case 51 => 9 case 52 => 10 case 53 => 7
    case 54 => 0 case 55 => 1 case 56 => 2 case 57 => 3 case 58 => 19 case 59 => 2 case 60 => 3 case 61 => 6 case 62 => 23
    case 63 => 8 case 64 => 21 case 65 => 10 case 66 => 10 case 67 => 3 case 68 => 10 case 69 => 25 case 70 => 10 case 71 => 10
    case 72 => 13 case 73 => 25 case 74 => 12 case 75 => 10 case 76 => 7 case 77 => 5
    case _ => 27
  }

  /** yy_shift_ofst */
  function ShiftOfst(s: int): int {
    match s
    case 0 => 55 case 1 => 55 case 2 => 55 case 3 => 55 case 4 => 55 case 5 => 36 case 6 => -4 case 7 => 56 case 8 => 58
    case 9 => 25 case 10 => 37 case 11 => 60 case 12 => 59 case 13 => 59 case 14 => 46 case 15 => 54 case 16 => 42 case 17 => 57
    case 18 => 62 case 19 => 61 case 20 => 62 case 21 => 69 case 22 => 65 case 23 => 62 case 24 => 72 case 25 => 64
    case _ => -5
  }

  /** yy_reduce_ofst */
  function ReduceOfst(s: int): int {
    match s
    case 0 => -15 case 1 => -7 case 2 => 1 case 3 => 9 case 4 => 17 case 5 => 22 case 6 => -9 case 7 => 0 case 8 => 39
    case 9 => 44 case 10 => 44 case 11 => 43 case 12 => 44 case 13 => 48
    case _ => -16
  }

  /** yy_default */
  function Default(s: int): nat {
    match s
    case 0 => 88 case 1 => 88 case 2 => 88 case 3 => 88 case 4 => 88 case 5 => 69 case 6 => 82 case 7 => 88 case 8 => 88
    case 9 => 87 case 10 => 87 case 11 => 88 case 12 => 87 case 13 => 87 case 14 => 88 case 15 => 88 case 16 => 88 case 17 => 66
    case 18 => 80 case 19 => 88 case 20 => 81 case 21 => 88 case 22 => 88 case 23 => 78 case 24 => 88 case 25 => 65
    case _ => 88
  }

  // Symbols: terminals 0 to 13, nonterminals 15 to 25.
  const EOF: nat := 0
  const OR: nat := 1
  const AND: nat := 2
  const NOT: nat := 3
  const COLON: nat := 5
  const LP: nat := 6
  const RP: nat := 7
  const LCP: nat := 8
  const RCP: nat := 9
  const STRING: nat := 10
  const COMMA: nat := 11
  const PLUS: nat := 12
  const STAR: nat := 13

  const N_INPUT: nat := 15
  const N_EXPR: nat := 16
  const N_CNEARSET: nat := 17
  const N_EXPRLIST: nat := 18
  const N_NEARSET: nat := 19
  const N_COLSET: nat := 20
  const N_COLSETLIST: nat := 21
  const N_NEARPHRASES: nat := 22
  const N_PHRASE: nat := 23
  const N_NEARDIST_OPT: nat := 24
  const N_STAR_OPT: nat := 25

  const RULES: nat := 24

  /** Left-hand side of a rule. */
  function Lhs(r: int): nat {
    match r
    case 0 => N_INPUT case 1 => N_EXPR case 2 => N_EXPR case 3 => N_EXPR
    case 4 => N_EXPR case 5 => N_EXPR case 6 => N_EXPRLIST case 7 => N_EXPRLIST
    case 8 => N_CNEARSET case 9 => N_CNEARSET case 10 => N_COLSET case 11 => N_COLSET
    case 12 => N_COLSETLIST case 13 => N_COLSETLIST case 14 => N_NEARSET case 15 => N_NEARSET
    case 16 => N_NEARPHRASES case 17 => N_NEARPHRASES case 18 => N_NEARDIST_OPT case 19 => N_NEARDIST_OPT
    case 20 => N_PHRASE case 21 => N_PHRASE case 22 => N_STAR_OPT case 23 => N_STAR_OPT
    case _ => YYNOCODE
  }

  /** Number of symbols on the right-hand side, as the parser has it in yyRuleInfo. */
  function Nrhs(r: int): nat {
    match r
    case 0 => 1 case 1 => 3 case 2 => 3 case 3 => 3 case 4 => 3 case 5 => 1 case 6 => 1 case 7 => 2 case 8 => 1 case 9 => 3 case 10 => 3 case 11 => 1
    case 12 => 2 case 13 => 1 case 14 => 1 case 15 => 5 case 16 => 1 case 17 => 2 case 18 => 0 case 19 => 2 case 20 => 4 case 21 => 2 case 22 => 1 case 23 => 0
    case _ => 0
  }

  /** Right-hand side, as the grammar has it. */
  function Rhs(r: int): seq<nat> {
    match r
    case 0 => [N_EXPR]
    case 1 => [N_EXPR, AND, N_EXPR]
    case 2 => [N_EXPR, OR, N_EXPR]
    case 3 => [N_EXPR, NOT, N_EXPR]
    case 4 => [LP, N_EXPR, RP]
    case 5 => [N_EXPRLIST]
    case 6 => [N_CNEARSET]
    case 7 => [N_EXPRLIST, N_CNEARSET]
    case 8 => [N_NEARSET]
    case 9 => [N_COLSET, COLON, N_NEARSET]
    case 10 => [LCP, N_COLSETLIST, RCP]
    case 11 => [STRING]
    case 12 => [N_COLSETLIST, STRING]
    case 13 => [STRING]
    case 14 => [N_PHRASE]
    case 15 => [STRING, LP, N_NEARPHRASES, N_NEARDIST_OPT, RP]
    case 16 => [N_PHRASE]
    case 17 => [N_NEARPHRASES, N_PHRASE]
    case 18 => []
    case 19 => [COMMA, STRING]
    case 20 => [N_PHRASE, PLUS, STRING, N_STAR_OPT]
    case 21 => [STRING, N_STAR_OPT]
    case 22 => [STAR]
    case 23 => []
    case _ => []
  }
}
