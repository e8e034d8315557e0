/**
 * The plain declarations of uncrustify's type header: the brace stages used
 * while matching braces, the keyword pattern classes, and the records for
 * the paren stack, the parse frame, a chunk and an alignment slot, with the
 * fixed capacities of the arrays that hold them.
 *
 * The header declares these and gives them no behaviour, so the module
 * states only what the declarations fix: the numbering of the enumerators,
 * the widths of the fields and the array capacities.
 */
module UncrustifyTypes {
  import PcfFlags

  /** C `int` on the platforms uncrustify targets: 32-bit two's complement. */
  newtype Int32 = x: int | -0x8000_0000 <= x < 0x8000_0000

  /** `UINT32` from the base types header. */
  newtype UInt32 = x: int | 0 <= x < 0x1_0000_0000

  /**
   * A token kind (`c_token_t`). Its enumerators live in the token header,
   * which is not part of this model; a kind is known here only by its number.
   */
  datatype CToken = CToken(ordinal: nat)

  // ---------------------------------------------------------------------
  // brstage_e
  // ---------------------------------------------------------------------

  /** Where brace matching is inside an `if`/`for`/`do`/... construct. */
  datatype BraceStage =
    | BsNone
    | BsParen1     // parens of if/for/switch/while
    | BsOpParen1   // optional parens, as in `catch () {`
    | BsWodParen   // parens of the `while` of a `do`
    | BsWodSemi    // semicolon after the `while` of a `do`
    | BsBraceDo    // body of a `do`
    | BsBrace2     // body of if/else/for/switch/while
    | BsElse       // an `else` may follow an `if`
    | BsElseIf     // an `if` may follow an `else`
    | BsWhile      // the `while` that must follow a `do`

  /** The stages in declaration order; C numbers them 0, 1, 2, ... in this order. */
  const BRACE_STAGES: seq<BraceStage> := [
    BsNone, BsParen1, BsOpParen1, BsWodParen, BsWodSemi,
    BsBraceDo, BsBrace2, BsElse, BsElseIf, BsWhile
  ]

  /** The C value of a stage: its position in the declaration. */
  function BraceStageValue(s: BraceStage): (n: nat)
    ensures n < |BRACE_STAGES| && BRACE_STAGES[n] == s
  {
    match s
    case BsNone => 0
    case BsParen1 => 1
    case BsOpParen1 => 2
    case BsWodParen => 3
    case BsWodSemi => 4
    case BsBraceDo => 5
    case BsBrace2 => 6
    case BsElse => 7
    case BsElseIf => 8
    case BsWhile => 9
  }

  /** Each of the ten values 0..9 belongs to exactly one stage. */
  lemma BraceStageNumbering(n: nat)
    requires n < |BRACE_STAGES|
    ensures |BRACE_STAGES| == 10
    ensures BraceStageValue(BRACE_STAGES[n]) == n
  {
  }

  // ---------------------------------------------------------------------
  // pattern_class
  // ---------------------------------------------------------------------

  /** How a special keyword is followed, for brace and paren matching. */
  datatype PatternClass =
    | PatclsNone
    | PatclsBraced    // a block follows the keyword directly (`do`, `try`)
    | PatclsPBraced   // a parenthesised condition, then a block (`if`, `while`, ...)
    | PatclsOpBraced  // the parentheses before the block may be absent (`catch`)
    | PatclsVBraced   // a name or value, then a block (`namespace`)
    | PatclsParen     // only a parenthesised part, no block (`while` closing a `do`)
    | PatclsElse      // like PatclsBraced, but an `if` may come next (`else`)

  /** The classes in declaration order, numbered from 0. */
  const PATTERN_CLASSES: seq<PatternClass> := [
    PatclsNone, PatclsBraced, PatclsPBraced, PatclsOpBraced,
    PatclsVBraced, PatclsParen, PatclsElse
  ]

  /** The C value of a pattern class: its position in the declaration. */
  function PatternClassValue(p: PatternClass): (n: nat)
    ensures n < |PATTERN_CLASSES| && PATTERN_CLASSES[n] == p
  {
    match p
    case PatclsNone => 0
    case PatclsBraced => 1
    case PatclsPBraced => 2
    case PatclsOpBraced => 3
    case PatclsVBraced => 4
    case PatclsParen => 5
    case PatclsElse => 6
  }

  /** Each of the seven values 0..6 belongs to exactly one class. */
  lemma PatternClassNumbering(n: nat)
    requires n < |PATTERN_CLASSES|
    ensures |PATTERN_CLASSES| == 7
    ensures PatternClassValue(PATTERN_CLASSES[n]) == n
  {
  }

  // ---------------------------------------------------------------------
  // Records and capacities
  // ---------------------------------------------------------------------

  /** Entries in the paren stack of one parse frame (`pse[128]`). */
  const PAREN_STACK_CAPACITY: nat := 128

  /** Parse frames kept by the parser state (`frames[16]`). */
  const FRAME_CAPACITY: nat := 16

  /** Alignment slots kept by the parser state (`al[80]`). */
  const ALIGN_CAPACITY: nat := 80

  /** One level of nesting: what opened it and how its contents are indented. */
  datatype ParenStackEntry = ParenStackEntry(
    tokenType: CToken,      // the token that opened the entry
    level: Int32,           // level of the opening token
    openLine: Int32,        // line of the opening token
    braceIndent: Int32,     // indent for braces
    indent: Int32,
    indentTmp: Int32,
    indentTab: Int32,       // the tab indent, never past the real column
    ref: Int32,
    parent: CToken,         // the construct: if, for, function, ...
    stage: BraceStage,
    inPreproc: bool         // created inside a preprocessor line
  )

  /** An entry with every field zero, the state of a fresh C array slot. */
  const BLANK_ENTRY: ParenStackEntry :=
    ParenStackEntry(CToken(0), 0, 0, 0, 0, 0, 0, 0, CToken(0), BsNone, false)

  /** The paren stack of a frame: the `pse` array, always 128 entries long. */
  type ParenStack = s: seq<ParenStackEntry> | |s| == PAREN_STACK_CAPACITY
    witness seq(PAREN_STACK_CAPACITY, _ => BLANK_ENTRY)

  /** The nesting state of the parser at one point. */
  datatype ParseFrame = ParseFrame(
    level: Int32,           // parens, squares, angles and braces
    braceLevel: Int32,      // braces and virtual braces only
    ppLevel: Int32,         // preprocessor #if nesting
    sparenCount: Int32,
    pse: ParenStack,
    pseTos: Int32,          // index of the top of the paren stack
    parenCount: Int32,
    inIfdef: Int32,
    stmtCount: Int32,
    exprCount: Int32,
    maybeDecl: bool,
    maybeCast: bool
  )

  /**
   * One token of the input. The `next`/`prev` links of the chunk list are
   * not part of this model; `flags` holds the `PCF_*` bits.
   */
  datatype Chunk = Chunk(
    tokenType: CToken,
    parentType: CToken,     // usually the "none" token kind
    origLine: UInt32,
    origCol: UInt32,
    origColEnd: UInt32,
    flags: PcfFlags.Flags,
    column: Int32,
    columnIndent: Int32,    // for the first chunk of a line, its indent column
    nlCount: Int32,         // newlines in a newline chunk
    level: Int32,           // nesting in braces, parens and squares
    braceLevel: Int32,      // nesting in braces only
    ppLevel: Int32,         // nesting in preprocessor #if
    afterTab: bool,
    len: Int32,
    str: string
  )

  /** One column an alignment pass lines tokens up on. */
  datatype AlignEntry = AlignEntry(
    col: Int32,
    tokenType: CToken,
    len: Int32              // length of the token plus its space
  )
}
