/**
 * Chunk context flags of uncrustify (the `PCF_*` bits of `chunk_t.flags`),
 * the mask of flags a newly inserted chunk inherits from its neighbour,
 * and the table of flag names indexed by bit position.
 *
 * The flag word is a 32-bit unsigned value (`UINT32 flags` in `chunk_t`),
 * modelled as `bv32`. Beside the constants, the module gives a view of a
 * flag word as the list of named flags it holds (`Flag`, `Combine`,
 * `Decompose`) and proves that the view and the word determine each other.
 */
module PcfFlags {

  /** The flag word of a chunk. */
  type Flags = bv32

  // ---------------------------------------------------------------------
  // The single-bit flags, as defined in the header
  // ---------------------------------------------------------------------

  const PCF_STMT_START: Flags := 1 << 0
  const PCF_EXPR_START: Flags := 1 << 1
  const PCF_IN_PREPROC: Flags := 1 << 2
  const PCF_DONT_INDENT: Flags := 1 << 3
  const PCF_MFC_PAREN: Flags := 1 << 4
  const PCF_VAR_DEF: Flags := 1 << 5
  const PCF_VAR_1ST: Flags := 1 << 6
  const PCF_VAR_INLINE: Flags := 1 << 7
  const PCF_IN_ENUM: Flags := 1 << 8
  const PCF_IN_FCN_DEF: Flags := 1 << 9
  const PCF_IN_FCN_CALL: Flags := 1 << 10
  const PCF_IN_SPAREN: Flags := 1 << 11
  const PCF_RIGHT_COMMENT: Flags := 1 << 12
  const PCF_OLD_FCN_PARAMS: Flags := 1 << 13
  const PCF_WAS_ALIGNED: Flags := 1 << 14
  const PCF_OPTIONAL: Flags := 1 << 15
  const PCF_IN_TYPEDEF: Flags := 1 << 16
  const PCF_IN_CONST_ARGS: Flags := 1 << 17
  const PCF_LVALUE: Flags := 1 << 18
  const PCF_IN_ARRAY_ASSIGN: Flags := 1 << 19
  const PCF_IN_CLASS: Flags := 1 << 20
  const PCF_IN_NAMESPACE: Flags := 1 << 21
  const PCF_IN_FOR: Flags := 1 << 22
  const PCF_ONE_LINER: Flags := 1 << 23

  // The two composite masks
  const PCF_VAR_1ST_DEF: Flags := PCF_VAR_DEF | PCF_VAR_1ST
  const PCF_ONE_CLASS: Flags := PCF_ONE_LINER | PCF_IN_CLASS

  /**
   * The flags that get copied when a new chunk is inserted, written as the
   * header writes it: `PCF_IN_CLASS` appears twice in the operand list.
   */
  const PCF_COPY_FLAGS: Flags :=
    PCF_IN_PREPROC | PCF_IN_SPAREN | PCF_IN_ENUM |
    PCF_IN_FCN_DEF | PCF_IN_FCN_CALL | PCF_IN_TYPEDEF |
    PCF_IN_ARRAY_ASSIGN | PCF_IN_CLASS | PCF_IN_NAMESPACE |
    PCF_IN_CLASS | PCF_IN_FOR

  /** The number of single-bit flags, which is also the length of the name table. */
  const FLAG_COUNT: nat := 24

  /** The bits 0 .. FLAG_COUNT-1, the only ones a flag can occupy. */
  const PCF_ALL_BITS: Flags := 0xFF_FFFF

  /** `pcf_names`: entry i names the flag defined as `1 << i`. */
  const PCF_NAMES: seq<string> := [
    "STMT_START",
    "EXPR_START",
    "IN_PREPROC",
    "DONT_INDENT",
    "MFC_PAREN",
    "VAR_DEF",
    "VAR_1ST",
    "VAR_INLINE",
    "IN_ENUM",
    "IN_FCN_DEF",
    "IN_FCN_CALL",
    "IN_SPAREN",
    "RIGHT_COMMENT",
    "OLD_FCN_PARAMS",
    "WAS_ALIGNED",
    "OPTIONAL",
    "IN_TYPEDEF",
    "IN_CONST_ARGS",
    "LVALUE",
    "IN_ARRAY_ASSIGN",
    "IN_CLASS",
    "IN_NAMESPACE",
    "IN_FOR",
    "ONE_LINER"
  ]

  // ---------------------------------------------------------------------
  // The flags as named values
  // ---------------------------------------------------------------------

  /** One constructor per single-bit `PCF_*` flag, in definition order. */
  datatype Flag =
    | StmtStart | ExprStart | InPreproc | DontIndent | MfcParen | VarDef
    | Var1st | VarInline | InEnum | InFcnDef | InFcnCall | InSparen
    | RightComment | OldFcnParams | WasAligned | Optional | InTypedef
    | InConstArgs | Lvalue | InArrayAssign | InClass | InNamespace | InFor
    | OneLiner

  /** The bit position of a flag: the `n` of its `(1 << n)` definition. */
  function Bit(fl: Flag): (n: nat)
    ensures n < FLAG_COUNT
  {
    match fl
    case StmtStart => 0
    case ExprStart => 1
    case InPreproc => 2
    case DontIndent => 3
    case MfcParen => 4
    case VarDef => 5
    case Var1st => 6
    case VarInline => 7
    case InEnum => 8
    case InFcnDef => 9
    case InFcnCall => 10
    case InSparen => 11
    case RightComment => 12
    case OldFcnParams => 13
    case WasAligned => 14
    case Optional => 15
    case InTypedef => 16
    case InConstArgs => 17
    case Lvalue => 18
    case InArrayAssign => 19
    case InClass => 20
    case InNamespace => 21
    case InFor => 22
    case OneLiner => 23
  }

  /** All flags in bit order: entry `n` is the flag defined as `1 << n`. */
  const ALL_FLAGS: seq<Flag> := [
    StmtStart, ExprStart, InPreproc, DontIndent, MfcParen, VarDef,
    Var1st, VarInline, InEnum, InFcnDef, InFcnCall, InSparen,
    RightComment, OldFcnParams, WasAligned, Optional, InTypedef,
    InConstArgs, Lvalue, InArrayAssign, InClass, InNamespace, InFor,
    OneLiner
  ]

  /** The `PCF_*` constant of a flag: a single bit, inside bits 0..23. */
  function Mask(fl: Flag): (m: Flags)
    ensures m != 0 && m & (m - 1) == 0
    ensures m & PCF_ALL_BITS == m
  {
    match fl
    case StmtStart => PCF_STMT_START
    case ExprStart => PCF_EXPR_START
    case InPreproc => PCF_IN_PREPROC
    case DontIndent => PCF_DONT_INDENT
    case MfcParen => PCF_MFC_PAREN
    case VarDef => PCF_VAR_DEF
    case Var1st => PCF_VAR_1ST
    case VarInline => PCF_VAR_INLINE
    case InEnum => PCF_IN_ENUM
    case InFcnDef => PCF_IN_FCN_DEF
    case InFcnCall => PCF_IN_FCN_CALL
    case InSparen => PCF_IN_SPAREN
    case RightComment => PCF_RIGHT_COMMENT
    case OldFcnParams => PCF_OLD_FCN_PARAMS
    case WasAligned => PCF_WAS_ALIGNED
    case Optional => PCF_OPTIONAL
    case InTypedef => PCF_IN_TYPEDEF
    case InConstArgs => PCF_IN_CONST_ARGS
    case Lvalue => PCF_LVALUE
    case InArrayAssign => PCF_IN_ARRAY_ASSIGN
    case InClass => PCF_IN_CLASS
    case InNamespace => PCF_IN_NAMESPACE
    case InFor => PCF_IN_FOR
    case OneLiner => PCF_ONE_LINER
  }

  /**
   * The name of a flag: its `PCF_*` identifier without the prefix. The
   * name table holds it at the flag's bit position.
   */
  function Name(fl: Flag): (s: string)
    ensures |PCF_NAMES| == FLAG_COUNT && PCF_NAMES[Bit(fl)] == s
  {
    match fl
    case StmtStart => "STMT_START"
    case ExprStart => "EXPR_START"
    case InPreproc => "IN_PREPROC"
    case DontIndent => "DONT_INDENT"
    case MfcParen => "MFC_PAREN"
    case VarDef => "VAR_DEF"
    case Var1st => "VAR_1ST"
    case VarInline => "VAR_INLINE"
    case InEnum => "IN_ENUM"
    case InFcnDef => "IN_FCN_DEF"
    case InFcnCall => "IN_FCN_CALL"
    case InSparen => "IN_SPAREN"
    case RightComment => "RIGHT_COMMENT"
    case OldFcnParams => "OLD_FCN_PARAMS"
    case WasAligned => "WAS_ALIGNED"
    case Optional => "OPTIONAL"
    case InTypedef => "IN_TYPEDEF"
    case InConstArgs => "IN_CONST_ARGS"
    case Lvalue => "LVALUE"
    case InArrayAssign => "IN_ARRAY_ASSIGN"
    case InClass => "IN_CLASS"
    case InNamespace => "IN_NAMESPACE"
    case InFor => "IN_FOR"
    case OneLiner => "ONE_LINER"
  }

  /** Whether the flag word `f` has flag `fl` set. */
  predicate Has(f: Flags, fl: Flag) {
    f & Mask(fl) != 0
  }

  /** Each flag constant is `1 << n` for its bit position `n`. */
  lemma MaskIsShift(fl: Flag)
    ensures Mask(fl) == 1 << Bit(fl)
  {
    match fl
    case StmtStart =>
    case ExprStart =>
    case InPreproc =>
    case DontIndent =>
    case MfcParen =>
    case VarDef =>
    case Var1st =>
    case VarInline =>
    case InEnum =>
    case InFcnDef =>
    case InFcnCall =>
    case InSparen =>
    case RightComment =>
    case OldFcnParams =>
    case WasAligned =>
    case Optional =>
    case InTypedef =>
    case InConstArgs =>
    case Lvalue =>
    case InArrayAssign =>
    case InClass =>
    case InNamespace =>
    case InFor =>
    case OneLiner =>
  }

  /** `ALL_FLAGS` lists every flag once, at its bit position. */
  lemma AllFlagsBit(fl: Flag)
    ensures |ALL_FLAGS| == FLAG_COUNT
    ensures ALL_FLAGS[Bit(fl)] == fl
  {
  }

  /** Entry `n` of `ALL_FLAGS` is the flag at bit position `n`. */
  lemma AllFlagsIndex(n: nat)
    requires n < |ALL_FLAGS|
    ensures Bit(ALL_FLAGS[n]) == n
  {
  }

  /** Two flag constants share a bit exactly when they are the same flag. */
  lemma MasksOverlap(a: Flag, b: Flag)
    ensures Has(Mask(a), b) <==> a == b
  {
    if Has(Mask(a), b) {
      SingleBitsMeet(Mask(a), Mask(b));
      FlagOfMask(a);
      FlagOfMask(b);
    }
  }

  /** Two single bits that meet are the same bit. */
  lemma SingleBitsMeet(x: Flags, y: Flags)
    requires x != 0 && x & (x - 1) == 0 && y != 0 && y & (y - 1) == 0
    requires x & y != 0
    ensures x == y
  {
  }

  /** The 24 flag constants are pairwise disjoint single bits. */
  lemma MasksDisjoint()
    ensures forall a: Flag, b: Flag :: a != b ==> Mask(a) & Mask(b) == 0
  {
    forall a: Flag, b: Flag | a != b
      ensures Mask(a) & Mask(b) == 0
    {
      MasksOverlap(a, b);
    }
  }

  // ---------------------------------------------------------------------
  // A flag word as the list of flags it holds
  // ---------------------------------------------------------------------

  /** A flag constant meets any word in all of its bit or in nothing. */
  lemma SingleBit(x: Flags, fl: Flag)
    ensures x & Mask(fl) == 0 || x & Mask(fl) == Mask(fl)
  {
  }

  /** A word holds a flag of an OR exactly when one of the operands does. */
  lemma HasOr(a: Flags, b: Flags, fl: Flag)
    ensures Has(a | b, fl) <==> Has(a, fl) || Has(b, fl)
  {
    var m := Mask(fl);
    HasMask(a | b, fl, m);
    HasMask(a, fl, m);
    HasMask(b, fl, m);
    OrMeets(a, b, m);
  }

  // The same bit fact is stated again for `bv8` in the language module: the
  // two modules are independent and the widths differ.
  lemma OrMeets(a: Flags, b: Flags, m: Flags)
    ensures (a | b) & m != 0 <==> a & m != 0 || b & m != 0
  {
  }

  /** The OR of the constants of a list of flags, as a `PCF_A | PCF_B | ...` expression builds it. */
  function Combine(fs: seq<Flag>): (f: Flags)
    ensures f & PCF_ALL_BITS == f
  {
    if fs == [] then 0
    else
      var rest := Combine(fs[..|fs| - 1]);
      var m := Mask(fs[|fs| - 1]);
      OrInside(rest, m, PCF_ALL_BITS);
      rest | m
  }

  /** An OR of flags holds exactly the flags listed. */
  lemma {:induction false} CombineHas(fs: seq<Flag>, fl: Flag)
    ensures Has(Combine(fs), fl) <==> fl in fs
  {
    if fs != [] {
      var init, last := fs[..|fs| - 1], fs[|fs| - 1];
      assert fs == init + [last];
      CombineHas(init, fl);
      HasOr(Combine(init), Mask(last), fl);
      MasksOverlap(last, fl);
    }
  }

  /** `CombineHas` for every flag at once. */
  lemma CombineFlags(fs: seq<Flag>)
    ensures forall fl :: Has(Combine(fs), fl) <==> fl in fs
  {
    forall fl ensures Has(Combine(fs), fl) <==> fl in fs {
      CombineHas(fs, fl);
    }
  }

  lemma OrInside(a: Flags, b: Flags, m: Flags)
    requires a & m == a && b & m == b
    ensures (a | b) & m == a | b
  {
  }

  /** Appending a flag to a list ORs its constant into the list's value. */
  lemma CombineSnoc(fs: seq<Flag>, fl: Flag)
    ensures Combine(fs + [fl]) == Combine(fs) | Mask(fl)
  {
    assert (fs + [fl])[..|fs|] == fs;
  }

  /** The value of a prefix is the value of the shorter prefix OR the next flag. */
  lemma CombinePrefix(fs: seq<Flag>, k: nat)
    requires 0 < k <= |fs|
    ensures Combine(fs[..k]) == Combine(fs[..k - 1]) | Mask(fs[k - 1])
  {
    assert fs[..k][..k - 1] == fs[..k - 1];
  }

  /** The first `k` flags of the name table fill exactly bits `0..k-1`. */
  lemma {:induction false} CombineLowFlags(k: nat)
    requires k <= FLAG_COUNT
    ensures |ALL_FLAGS| == FLAG_COUNT
    ensures Combine(ALL_FLAGS[..k]) == ((1 as Flags) << k) - 1
  {
    if k > 0 {
      CombineLowFlags(k - 1);
      CombinePrefix(ALL_FLAGS, k);
      AllFlagsIndex(k - 1);
      MaskIsShift(ALL_FLAGS[k - 1]);
      LowOnesStep(k - 1);
    }
  }

  lemma LowOnesStep(k: nat)
    requires k < FLAG_COUNT
    ensures (((1 as Flags) << k) - 1) | ((1 as Flags) << k) == ((1 as Flags) << (k + 1)) - 1
  {
  }

  /** The 24 flags together fill exactly bits 0..23. */
  lemma CombineAllFlags()
    ensures Combine(ALL_FLAGS) == PCF_ALL_BITS
  {
    CombineLowFlags(FLAG_COUNT);
    assert ALL_FLAGS[..FLAG_COUNT] == ALL_FLAGS;
  }

  /** Flags listed in strictly increasing bit order. */
  predicate Ascending(fs: seq<Flag>) {
    forall i, j :: 0 <= i < j < |fs| ==> Bit(fs[i]) < Bit(fs[j])
  }

  /** The flags of `fs` that the word `f` holds, in their order in `fs`. */
  function Held(f: Flags, fs: seq<Flag>): (r: seq<Flag>)
    ensures |r| <= |fs|
  {
    if fs == [] then []
    else
      var init, last := fs[..|fs| - 1], fs[|fs| - 1];
      if Has(f, last) then Held(f, init) + [last] else Held(f, init)
  }

  /** `Held` keeps a flag of the list exactly when the word holds it. */
  lemma {:induction false} HeldHas(f: Flags, fs: seq<Flag>, fl: Flag)
    ensures fl in Held(f, fs) <==> fl in fs && Has(f, fl)
  {
    if fs != [] {
      var init, last := fs[..|fs| - 1], fs[|fs| - 1];
      HeldHas(f, init, fl);
      assert fs == init + [last];
    }
  }

  /** `Held` keeps the order of the list it filters. */
  lemma {:induction false} HeldAscending(f: Flags, fs: seq<Flag>)
    requires Ascending(fs)
    ensures Ascending(Held(f, fs))
  {
    if fs != [] {
      var init, last := fs[..|fs| - 1], fs[|fs| - 1];
      var h := Held(f, init);
      HeldAscending(f, init);
      if Has(f, last) {
        forall k | 0 <= k < |h| ensures Bit(h[k]) < Bit(last) {
          HeldHas(f, init, h[k]);
          var i :| 0 <= i < |init| && init[i] == h[k];
          assert fs[i] == h[k];
        }
      }
    }
  }

  /** Words that hold the same flags keep the same flags of any list. */
  lemma {:induction false} HeldAgree(x: Flags, y: Flags, fs: seq<Flag>)
    requires forall fl :: Has(x, fl) <==> Has(y, fl)
    ensures Held(x, fs) == Held(y, fs)
  {
    if fs != [] {
      HeldAgree(x, y, fs[..|fs| - 1]);
      assert Has(x, fs[|fs| - 1]) <==> Has(y, fs[|fs| - 1]);
    }
  }

  /** OR-ing the flags of `fs` that `f` holds gives the bits of `f` among those of `fs`. */
  lemma {:induction false} CombineHeld(f: Flags, fs: seq<Flag>)
    ensures Combine(Held(f, fs)) == f & Combine(fs)
    decreases |fs|, 1
  {
    if fs != [] {
      var init, last := fs[..|fs| - 1], fs[|fs| - 1];
      assert fs == init + [last];
      CombineHeldIn(f, init, last);
      CombineHeldOut(f, init, last);
    }
  }

  /** Appending a flag to a list changes what a word holding it keeps by that flag. */
  lemma HeldSnoc(f: Flags, fs: seq<Flag>, fl: Flag)
    ensures Held(f, fs + [fl]) == if Has(f, fl) then Held(f, fs) + [fl] else Held(f, fs)
  {
    assert (fs + [fl])[..|fs|] == fs;
  }

  // `CombineHeldIn` and `CombineHeldOut` are the two cases of the step of
  // `CombineHeld`. Each states its case as an implication so that the step
  // calls both without splitting on `Has(f, last)`: a case split there, or a
  // `requires` the caller must discharge, leaves the solver to reason about
  // the bit-vector goal in each branch, which it does not finish.
  lemma {:induction false} CombineHeldIn(f: Flags, init: seq<Flag>, last: Flag)
    ensures Has(f, last) ==> Combine(Held(f, init + [last])) == f & Combine(init + [last])
    decreases |init| + 1, 0
  {
    CombineHeld(f, init);
    SingleBit(f, last);
    HeldSnoc(f, init, last);
    CombineSnoc(init, last);
    CombineSnoc(Held(f, init), last);
    AndOrIn(f, Combine(init), Mask(last));
  }

  lemma {:induction false} CombineHeldOut(f: Flags, init: seq<Flag>, last: Flag)
    ensures !Has(f, last) ==> Combine(Held(f, init + [last])) == f & Combine(init + [last])
    decreases |init| + 1, 0
  {
    CombineHeld(f, init);
    HeldSnoc(f, init, last);
    CombineSnoc(init, last);
    AndOrOut(f, Combine(init), Mask(last));
  }

  // The two bit facts behind `CombineHeldIn` and `CombineHeldOut`, as
  // implications for the same reason: they are called whether or not `f`
  // holds the bit.
  lemma AndOrIn(f: Flags, c: Flags, m: Flags)
    ensures f & m == m ==> f & (c | m) == (f & c) | m
  {
  }

  lemma AndOrOut(f: Flags, c: Flags, m: Flags)
    ensures f & m == 0 ==> f & (c | m) == f & c
  {
  }

  /** The flags a flag word holds, in increasing bit order. */
  function Decompose(f: Flags): (fs: seq<Flag>)
    ensures |fs| <= FLAG_COUNT
  {
    Held(f, ALL_FLAGS)
  }

  /** `Decompose` lists the flags in the order of the name table. */
  lemma DecomposeAscending(f: Flags)
    ensures Ascending(Decompose(f))
  {
    AllFlagsAscending();
    HeldAscending(f, ALL_FLAGS);
  }

  lemma AllFlagsAscending()
    ensures Ascending(ALL_FLAGS)
  {
    forall i, j | 0 <= i < j < |ALL_FLAGS| ensures Bit(ALL_FLAGS[i]) < Bit(ALL_FLAGS[j]) {
      AllFlagsIndex(i);
      AllFlagsIndex(j);
    }
  }

  /** `Decompose` lists exactly the flags the word holds. */
  lemma DecomposeHas(f: Flags, fl: Flag)
    ensures fl in Decompose(f) <==> Has(f, fl)
  {
    HeldHas(f, ALL_FLAGS, fl);
    AllFlagsBit(fl);
  }

  /**
   * The flag whose constant is the single bit `m`: the inverse of `Mask`
   * on the single bits inside bits 0..23.
   */
  function FlagOfBit(m: Flags): (fl: Flag)
    requires m != 0 && m & (m - 1) == 0 && m & PCF_ALL_BITS == m
    ensures Mask(fl) == m
  {
    if m == PCF_STMT_START then StmtStart
    else if m == PCF_EXPR_START then ExprStart
    else if m == PCF_IN_PREPROC then InPreproc
    else if m == PCF_DONT_INDENT then DontIndent
    else if m == PCF_MFC_PAREN then MfcParen
    else if m == PCF_VAR_DEF then VarDef
    else if m == PCF_VAR_1ST then Var1st
    else if m == PCF_VAR_INLINE then VarInline
    else if m == PCF_IN_ENUM then InEnum
    else if m == PCF_IN_FCN_DEF then InFcnDef
    else if m == PCF_IN_FCN_CALL then InFcnCall
    else if m == PCF_IN_SPAREN then InSparen
    else if m == PCF_RIGHT_COMMENT then RightComment
    else if m == PCF_OLD_FCN_PARAMS then OldFcnParams
    else if m == PCF_WAS_ALIGNED then WasAligned
    else if m == PCF_OPTIONAL then Optional
    else if m == PCF_IN_TYPEDEF then InTypedef
    else if m == PCF_IN_CONST_ARGS then InConstArgs
    else if m == PCF_LVALUE then Lvalue
    else if m == PCF_IN_ARRAY_ASSIGN then InArrayAssign
    else if m == PCF_IN_CLASS then InClass
    else if m == PCF_IN_NAMESPACE then InNamespace
    else if m == PCF_IN_FOR then InFor
    else OneLiner
  }

  /** Round trip: the flag of a flag's constant is that flag. */
  lemma FlagOfMask(fl: Flag)
    ensures FlagOfBit(Mask(fl)) == fl
  {
  }

  /**
   * Whether a word has a flag is whether it meets the flag's constant. The
   * constant is passed as `l` and named by the premise `Mask(fl) == l`,
   * which callers establish by choosing `l := Mask(fl)`: the fact is then
   * about the plain bit-vector `l`, and the solver does not unfold `Mask`
   * into its 24 cases at the call.
   */
  lemma HasMask(x: Flags, fl: Flag, l: Flags)
    ensures Mask(fl) == l ==> (Has(x, fl) <==> x & l != 0)
  {
  }

  /** Round trip: OR-ing the flags of a word gives back its flag bits. */
  lemma CombineDecompose(f: Flags)
    ensures Combine(Decompose(f)) == f & PCF_ALL_BITS
  {
    CombineHeld(f, ALL_FLAGS);
    CombineAllFlags();
  }

  /** A flag word inside bits 0..23 is determined by the flags it holds. */
  lemma SameFlagsSameWord(x: Flags, y: Flags)
    requires x & PCF_ALL_BITS == x && y & PCF_ALL_BITS == y
    requires forall fl :: Has(x, fl) <==> Has(y, fl)
    ensures x == y
  {
    HeldAgree(x, y, ALL_FLAGS);
    CombineDecompose(x);
    CombineDecompose(y);
  }

  /** Round trip: the flags of an OR of flags are the flags OR-ed. */
  lemma DecomposeCombine(fs: seq<Flag>, fl: Flag)
    ensures fl in Decompose(Combine(fs)) <==> fl in fs
  {
    DecomposeHas(Combine(fs), fl);
    CombineHas(fs, fl);
  }

  /** The value of an OR of flags depends only on which flags are listed. */
  lemma CombineIgnoresOrderAndRepeats(a: seq<Flag>, b: seq<Flag>)
    requires forall fl :: fl in a <==> fl in b
    ensures Combine(a) == Combine(b)
  {
    CombineFlags(a);
    CombineFlags(b);
    SameFlagsSameWord(Combine(a), Combine(b));
  }

  // ---------------------------------------------------------------------
  // The composite masks
  // ---------------------------------------------------------------------

  /** `PCF_VAR_1ST_DEF` is the word holding exactly `VAR_DEF` and `VAR_1ST`. */
  lemma VarFirstDefFlags(fl: Flag)
    ensures PCF_VAR_1ST_DEF == Combine([VarDef, Var1st])
    ensures Has(PCF_VAR_1ST_DEF, fl) <==> fl == VarDef || fl == Var1st
  {
    CombineHas([VarDef, Var1st], fl);
  }

  /** `PCF_ONE_CLASS` is the word holding exactly `ONE_LINER` and `IN_CLASS`. */
  lemma OneClassFlags(fl: Flag)
    ensures PCF_ONE_CLASS == Combine([OneLiner, InClass])
    ensures Has(PCF_ONE_CLASS, fl) <==> fl == OneLiner || fl == InClass
  {
    CombineHas([OneLiner, InClass], fl);
  }

  // ---------------------------------------------------------------------
  // The flags a newly inserted chunk inherits
  // ---------------------------------------------------------------------

  /** The operands of `PCF_COPY_FLAGS`, in the header's order, `InClass` twice. */
  const COPY_OPERANDS: seq<Flag> := [
    InPreproc, InSparen, InEnum, InFcnDef, InFcnCall, InTypedef,
    InArrayAssign, InClass, InNamespace, InClass, InFor
  ]

  /** The ten context flags a new chunk copies from its neighbour. */
  const COPIED: set<Flag> := {
    InPreproc, InSparen, InEnum, InFcnDef, InFcnCall, InTypedef,
    InArrayAssign, InClass, InNamespace, InFor
  }

  /** The 14 flags that describe one chunk only and are never copied. */
  const NOT_COPIED: set<Flag> := {
    StmtStart, ExprStart, DontIndent, MfcParen, VarDef, Var1st, VarInline,
    RightComment, OldFcnParams, WasAligned, Optional, InConstArgs, Lvalue,
    OneLiner
  }

  /** The flags of `f` that a chunk inserted next to one with flags `f` starts with. */
  function CopyFlags(f: Flags): (r: Flags)
    ensures r & !f == 0
    ensures r & !PCF_COPY_FLAGS == 0
    ensures f & PCF_COPY_FLAGS == PCF_COPY_FLAGS ==> r == PCF_COPY_FLAGS
  {
    f & PCF_COPY_FLAGS
  }

  /**
   * The mask is the OR of its operands, the repeated `IN_CLASS` changes
   * nothing, and its value is the OR of the ten copied flags.
   */
  lemma CopyMaskOperands()
    ensures PCF_COPY_FLAGS == 0x79_0F04
    ensures Combine(COPY_OPERANDS) == PCF_COPY_FLAGS
    ensures Combine(COPY_OPERANDS[..9] + COPY_OPERANDS[10..]) == PCF_COPY_FLAGS
  {
    CopyOperandsValue();
    CopyOperandsOnce();
  }

  /** The first four operands of the copy mask. */
  lemma CopyOperandsFirst()
    ensures Combine(COPY_OPERANDS[..4]) == 0xB04
  {
    CombinePrefix(COPY_OPERANDS, 1);
    CombinePrefix(COPY_OPERANDS, 2);
    CombinePrefix(COPY_OPERANDS, 3);
    CombinePrefix(COPY_OPERANDS, 4);
  }

  /** The first eight operands of the copy mask. */
  lemma CopyOperandsMiddle()
    ensures Combine(COPY_OPERANDS[..8]) == 0x19_0F04
  {
    CopyOperandsFirst();
    CombinePrefix(COPY_OPERANDS, 5);
    CombinePrefix(COPY_OPERANDS, 6);
    CombinePrefix(COPY_OPERANDS, 7);
    CombinePrefix(COPY_OPERANDS, 8);
  }

  /** All eleven operands of the copy mask. */
  lemma CopyOperandsAll()
    ensures Combine(COPY_OPERANDS[..11]) == 0x79_0F04
  {
    CopyOperandsMiddle();
    CombinePrefix(COPY_OPERANDS, 9);
    CombinePrefix(COPY_OPERANDS, 10);
    CombinePrefix(COPY_OPERANDS, 11);
  }

  lemma CopyOperandsValue()
    ensures Combine(COPY_OPERANDS) == 0x79_0F04
  {
    CopyOperandsAll();
    assert COPY_OPERANDS[..11] == COPY_OPERANDS;
  }

  /** Dropping the second `InClass` leaves the same word. */
  lemma CopyOperandsOnce()
    ensures Combine(COPY_OPERANDS[..9] + COPY_OPERANDS[10..]) == Combine(COPY_OPERANDS)
  {
    var once := COPY_OPERANDS[..9] + COPY_OPERANDS[10..];
    forall fl ensures fl in once <==> fl in COPY_OPERANDS {
      assert COPY_OPERANDS[9] == COPY_OPERANDS[7];
    }
    CombineIgnoresOrderAndRepeats(once, COPY_OPERANDS);
  }

  /** The copy mask holds a flag exactly when the flag is one of the ten copied. */
  lemma CopyMaskHas(fl: Flag)
    ensures Has(PCF_COPY_FLAGS, fl) <==> fl in COPIED
  {
    CopyMaskOperands();
    CombineHas(COPY_OPERANDS, fl);
  }

  /** Every flag is either copied or not, never both. */
  lemma CopiedPartition(fl: Flag)
    ensures fl in COPIED <==> fl !in NOT_COPIED
  {
  }

  /** A word ANDed with another holds a flag exactly when both words hold it. */
  lemma HasAnd(a: Flags, b: Flags, fl: Flag)
    ensures Has(a & b, fl) <==> Has(a, fl) && Has(b, fl)
  {
    var m := Mask(fl);
    HasMask(a & b, fl, m);
    HasMask(a, fl, m);
    HasMask(b, fl, m);
    SingleBitAnd(a, b, m);
  }

  lemma SingleBitAnd(a: Flags, b: Flags, m: Flags)
    requires m != 0 && m & (m - 1) == 0
    ensures (a & b) & m != 0 <==> a & m != 0 && b & m != 0
  {
  }

  /** A copied word holds a flag exactly when the original holds it and it is copied. */
  lemma CopyFlagsHas(f: Flags, fl: Flag)
    ensures Has(CopyFlags(f), fl) <==> Has(f, fl) && fl in COPIED
  {
    HasAnd(f, PCF_COPY_FLAGS, fl);
    CopyMaskHas(fl);
  }

  /** None of the 14 per-chunk flags survives the copy. */
  lemma CopyFlagsDrops(f: Flags, fl: Flag)
    requires fl in NOT_COPIED
    ensures !Has(CopyFlags(f), fl)
  {
    CopyFlagsHas(f, fl);
  }

  /** Copying the flags of a copy changes nothing. */
  lemma CopyFlagsIdempotent(f: Flags)
    ensures CopyFlags(CopyFlags(f)) == CopyFlags(f)
  {
  }

  /** The flags of `fs` that lie in `keep`, in their order in `fs`. */
  function Keep(fs: seq<Flag>, keep: set<Flag>): (r: seq<Flag>)
    ensures |r| <= |fs|
  {
    if fs == [] then []
    else
      var init, last := fs[..|fs| - 1], fs[|fs| - 1];
      if last in keep then Keep(init, keep) + [last] else Keep(init, keep)
  }

  /** `Keep` keeps a flag of the list exactly when it lies in the set. */
  lemma {:induction false} KeepHas(fs: seq<Flag>, keep: set<Flag>, fl: Flag)
    ensures fl in Keep(fs, keep) <==> fl in fs && fl in keep
  {
    if fs != [] {
      var init, last := fs[..|fs| - 1], fs[|fs| - 1];
      KeepHas(init, keep, fl);
      assert fs == init + [last];
    }
  }

  /**
   * When `g` holds exactly the flags of `f` that lie in `keep`, listing the
   * flags of `g` is listing those of `f` and keeping the ones in `keep`.
   */
  lemma {:induction false} HeldKeep(f: Flags, g: Flags, keep: set<Flag>, fs: seq<Flag>)
    requires forall fl :: Has(g, fl) <==> Has(f, fl) && fl in keep
    ensures Held(g, fs) == Keep(Held(f, fs), keep)
  {
    if fs != [] {
      var init, last := fs[..|fs| - 1], fs[|fs| - 1];
      var h := Held(f, init);
      HeldKeep(f, g, keep, init);
      assert Has(g, last) <==> Has(f, last) && last in keep;
      if Has(f, last) {
        assert (h + [last])[..|h|] == h;
      }
    }
  }

  /** The flags of a copy are the copied flags of the original, in bit order. */
  lemma DecomposeCopy(f: Flags)
    ensures Decompose(CopyFlags(f)) == Keep(Decompose(f), COPIED)
  {
    forall fl ensures Has(CopyFlags(f), fl) <==> Has(f, fl) && fl in COPIED {
      CopyFlagsHas(f, fl);
    }
    HeldKeep(f, CopyFlags(f), COPIED, ALL_FLAGS);
  }

  /**
   * Reference reading of the copy: list the flags of `f`, keep the copied
   * ones and OR them together. The mask gives the same word.
   */
  lemma CopyFlagsByFlags(f: Flags)
    ensures CopyFlags(f) == Combine(Keep(Decompose(f), COPIED))
  {
    DecomposeCopy(f);
    CombineDecompose(CopyFlags(f));
    CopyInside(f);
  }

  lemma CopyInside(f: Flags)
    ensures CopyFlags(f) & PCF_ALL_BITS == CopyFlags(f)
  {
  }

  /**
   * A chunk inserted next to one inside a preprocessor line and inside
   * function call parens, whose other flags are all per-chunk ones, starts
   * with exactly `IN_PREPROC` and `IN_FCN_CALL`.
   */
  lemma CopyInPreprocCall(f: Flags)
    requires Has(f, InPreproc) && Has(f, InFcnCall)
    requires forall fl :: Has(f, fl) ==> fl == InPreproc || fl == InFcnCall || fl in NOT_COPIED
    ensures CopyFlags(f) == PCF_IN_PREPROC | PCF_IN_FCN_CALL
  {
    var both := Combine([InPreproc, InFcnCall]);
    forall fl ensures Has(CopyFlags(f), fl) <==> Has(both, fl) {
      CopyInPreprocCallHas(f, fl);
      CombineHas([InPreproc, InFcnCall], fl);
    }
    CopyInside(f);
    SameFlagsSameWord(CopyFlags(f), both);
    PreprocCallValue();
  }

  lemma CopyInPreprocCallHas(f: Flags, fl: Flag)
    requires Has(f, InPreproc) && Has(f, InFcnCall)
    requires Has(f, fl) ==> fl == InPreproc || fl == InFcnCall || fl in NOT_COPIED
    ensures Has(CopyFlags(f), fl) <==> fl == InPreproc || fl == InFcnCall
  {
    CopyFlagsHas(f, fl);
  }

  lemma PreprocCallValue()
    ensures Combine([InPreproc, InFcnCall]) == PCF_IN_PREPROC | PCF_IN_FCN_CALL
  {
    CombinePrefix([InPreproc, InFcnCall], 1);
    CombinePrefix([InPreproc, InFcnCall], 2);
    assert [InPreproc, InFcnCall][..2] == [InPreproc, InFcnCall];
  }

  // ---------------------------------------------------------------------
  // The name table
  // ---------------------------------------------------------------------

  /**
   * `pcf_names` has one entry per flag, and entry `n` is the name of the
   * flag defined as `1 << n`.
   */
  lemma NameTableEntry(n: nat)
    requires n < FLAG_COUNT
    ensures |PCF_NAMES| == FLAG_COUNT
    ensures |ALL_FLAGS| == FLAG_COUNT
    ensures Mask(ALL_FLAGS[n]) == 1 << n
    ensures PCF_NAMES[n] == Name(ALL_FLAGS[n])
  {
    AllFlagsIndex(n);
    MaskIsShift(ALL_FLAGS[n]);
  }

  /** Different flags have different names, so the table can be read back. */
  lemma NamesDistinct(a: Flag, b: Flag)
    ensures Name(a) == Name(b) <==> a == b
  {
  }
}
