/**
 * The language mask of uncrustify: one bit per supported dialect, the two
 * composites `LANG_ALLC` and `LANG_ALL`, and the `FLAG_PP` marker for
 * keywords that only appear in a preprocessor line.
 *
 * The enumerators are C `int` constants; the mask is stored in the 8-bit
 * `lang_flags` fields (`UINT8`), modelled as `bv8`. `ToUint8` is the
 * conversion that happens when an enumerator is stored there.
 */
module LangFlags {

  /** The `lang_flags` field of a keyword entry and of the parser state. */
  type LangMask = bv8

  // The enumerators, with their declared values
  const LANG_C: int := 0x01
  const LANG_CPP: int := 0x02
  const LANG_D: int := 0x04
  /** C# */
  const LANG_CS: int := 0x08
  const LANG_JAVA: int := 0x10
  /** Objective C */
  const LANG_OC: int := 0x20
  const LANG_PAWN: int := 0x40

  const LANG_ALLC: int := 0x3f
  const LANG_ALL: int := 0x7f

  /** Marks a keyword that only appears in a preprocessor line. */
  const FLAG_PP: int := 0x80

  /** Every enumerator of the anonymous enum, in declaration order. */
  const ENUMERATORS: seq<int> :=
    [LANG_C, LANG_CPP, LANG_D, LANG_CS, LANG_JAVA, LANG_OC, LANG_PAWN, LANG_ALLC, LANG_ALL, FLAG_PP]

  /**
   * Storing an `int` into a `UINT8` field keeps its value modulo 256; a
   * value in 0..255 is kept unchanged.
   */
  function ToUint8(v: int): (b: LangMask)
    ensures 0 <= v < 256 ==> b as int == v
  {
    (v % 256) as LangMask
  }

  /** Every enumerator fits in the 8-bit field: storing it loses nothing. */
  lemma EnumeratorsFit(i: nat)
    requires i < |ENUMERATORS|
    ensures 0 <= ENUMERATORS[i] < 256
    ensures ToUint8(ENUMERATORS[i]) as int == ENUMERATORS[i]
  {
  }

  /** The dialects uncrustify can format. */
  datatype Lang = C | Cpp | D | CSharp | Java | ObjC | Pawn

  /** All dialects, in declaration order. */
  const ALL_LANGS: seq<Lang> := [C, Cpp, D, CSharp, Java, ObjC, Pawn]

  /** The six C-family dialects, the operands of `LANG_ALLC`. */
  const C_FAMILY: seq<Lang> := [C, Cpp, D, CSharp, Java, ObjC]

  /** The enumerator of a dialect. */
  function Value(l: Lang): (v: int)
    ensures v in ENUMERATORS
  {
    match l
    case C => LANG_C
    case Cpp => LANG_CPP
    case D => LANG_D
    case CSharp => LANG_CS
    case Java => LANG_JAVA
    case ObjC => LANG_OC
    case Pawn => LANG_PAWN
  }

  /** The bit a dialect occupies in a stored mask: a single bit, below `FLAG_PP`. */
  function LangBit(l: Lang): (m: LangMask)
    ensures m != 0 && m & (m - 1) == 0
    ensures m & 0x80 == 0
  {
    match l
    case C => 0x01
    case Cpp => 0x02
    case D => 0x04
    case CSharp => 0x08
    case Java => 0x10
    case ObjC => 0x20
    case Pawn => 0x40
  }

  /** A dialect's bit is its enumerator, stored in the field. */
  lemma LangBitIsEnumerator(l: Lang)
    ensures LangBit(l) == ToUint8(Value(l))
    ensures LangBit(l) as int == Value(l)
  {
  }

  /** The composites and `FLAG_PP` as they read once stored. */
  lemma StoredComposites()
    ensures ToUint8(LANG_ALLC) == 0x3F
    ensures ToUint8(LANG_ALL) == 0x7F
    ensures ToUint8(FLAG_PP) == 0x80
  {
  }

  /** Whether the stored mask `f` enables dialect `l`. */
  predicate HasLang(f: LangMask, l: Lang) {
    f & LangBit(l) != 0
  }

  /**
   * Whether a mask enables a dialect is whether it meets the dialect's bit,
   * named `m` by the premise so that the fact is about a plain bit-vector
   * and `LangBit` is not unfolded at the call.
   */
  lemma HasLangBit(f: LangMask, l: Lang, m: LangMask)
    ensures LangBit(l) == m ==> (HasLang(f, l) <==> f & m != 0)
  {
  }

  /** Two dialect bits meet exactly when they are the same dialect. */
  lemma LangBitsOverlap(a: Lang, b: Lang)
    ensures HasLang(LangBit(a), b) <==> a == b
  {
  }

  /** The seven dialect bits are pairwise disjoint. */
  lemma LangBitsDisjoint()
    ensures forall a: Lang, b: Lang :: a != b ==> LangBit(a) & LangBit(b) == 0
  {
    forall a: Lang, b: Lang | a != b
      ensures LangBit(a) & LangBit(b) == 0
    {
      LangBitsOverlap(a, b);
    }
  }

  /** The OR of the bits of a list of dialects. */
  function Langs(ls: seq<Lang>): (f: LangMask)
    ensures f & 0x80 == 0
  {
    if ls == [] then 0
    else
      var rest := Langs(ls[..|ls| - 1]);
      var m := LangBit(ls[|ls| - 1]);
      OrOutside(rest, m, 0x80);
      rest | m
  }

  lemma OrOutside(a: LangMask, b: LangMask, m: LangMask)
    requires a & m == 0 && b & m == 0
    ensures (a | b) & m == 0
  {
  }

  /** A word holds a dialect of an OR exactly when one of the operands does. */
  lemma HasLangOr(a: LangMask, b: LangMask, l: Lang)
    ensures HasLang(a | b, l) <==> HasLang(a, l) || HasLang(b, l)
  {
    var m := LangBit(l);
    HasLangBit(a | b, l, m);
    HasLangBit(a, l, m);
    HasLangBit(b, l, m);
    OrMeets(a, b, m);
  }

  // The `bv8` counterpart of the flag module's `OrMeets`; the two modules
  // are independent and the widths differ.
  lemma OrMeets(a: LangMask, b: LangMask, m: LangMask)
    ensures (a | b) & m != 0 <==> a & m != 0 || b & m != 0
  {
  }

  /** An OR of dialect bits enables exactly the dialects listed. */
  lemma {:induction false} LangsHas(ls: seq<Lang>, l: Lang)
    ensures HasLang(Langs(ls), l) <==> l in ls
  {
    if ls != [] {
      var init, last := ls[..|ls| - 1], ls[|ls| - 1];
      assert ls == init + [last];
      LangsHas(init, l);
      HasLangOr(Langs(init), LangBit(last), l);
      LangBitsOverlap(last, l);
    }
  }

  /** The value of a prefix is the value of the shorter prefix OR the next dialect. */
  lemma LangsPrefix(ls: seq<Lang>, k: nat)
    requires 0 < k <= |ls|
    ensures Langs(ls[..k]) == Langs(ls[..k - 1]) | LangBit(ls[k - 1])
  {
    assert ls[..k][..k - 1] == ls[..k - 1];
  }

  /** `LANG_ALLC` is the OR of the six C-family dialects. */
  lemma AllCIsCFamily()
    ensures ToUint8(LANG_ALLC) == Langs(C_FAMILY)
  {
    StoredComposites();
    LangsPrefix(C_FAMILY, 1);
    LangsPrefix(C_FAMILY, 2);
    LangsPrefix(C_FAMILY, 3);
    LangsPrefix(C_FAMILY, 4);
    LangsPrefix(C_FAMILY, 5);
    LangsPrefix(C_FAMILY, 6);
    assert C_FAMILY[..6] == C_FAMILY;
  }

  /** `LANG_ALLC` enables every dialect except Pawn. */
  lemma AllCExcludesPawn(l: Lang)
    ensures HasLang(ToUint8(LANG_ALLC), l) <==> l != Pawn
  {
    AllCIsCFamily();
    LangsHas(C_FAMILY, l);
  }

  /** `LANG_ALL` is `LANG_ALLC` plus Pawn, that is, the OR of all seven dialects. */
  lemma AllIsAllCWithPawn()
    ensures ToUint8(LANG_ALL) == ToUint8(LANG_ALLC) | LangBit(Pawn)
    ensures ToUint8(LANG_ALL) == Langs(ALL_LANGS)
  {
    StoredComposites();
    AllCIsCFamily();
    assert ALL_LANGS[..6] == C_FAMILY;
    LangsPrefix(ALL_LANGS, 7);
    assert ALL_LANGS[..7] == ALL_LANGS;
  }

  /** `LANG_ALL` enables every dialect. */
  lemma AllHasEveryLang(l: Lang)
    ensures HasLang(ToUint8(LANG_ALL), l)
  {
    AllIsAllCWithPawn();
    LangsHas(ALL_LANGS, l);
  }

  /**
   * `FLAG_PP` is no dialect and shares no bit with `LANG_ALL`; with it the
   * mask uses all eight bits of the field and no more.
   */
  lemma PreprocFlagApart(l: Lang)
    ensures !HasLang(ToUint8(FLAG_PP), l)
    ensures ToUint8(FLAG_PP) & ToUint8(LANG_ALL) == 0
    ensures (ToUint8(LANG_ALL) | ToUint8(FLAG_PP)) as int == 0xFF
    ensures LANG_ALL + FLAG_PP == 0xFF
  {
    StoredComposites();
  }
}
