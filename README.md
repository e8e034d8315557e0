# uncrustify type header, modelled in Dafny

uncrustify is a source code beautifier for C, C++, C#, D, Java, Objective-C
and Pawn. Its type header `src/uncrustify_types.h` defines four things:

- the vocabulary the brace-matching and formatting passes share;
- the `PCF_*` context flags stored in every chunk (token);
- the subset of those flags, `PCF_COPY_FLAGS`, that a newly inserted
  chunk inherits from its neighbour;
- the `LANG_*` language mask, plus the enumerations and records for the
  paren stack, the parse frame, a chunk and an alignment slot.

The header declares things but does nothing. So the model states and
proves what the declarations fix: bit positions, disjointness, composite
masks, the copy rule, the name table and the numbering of enumerators.

Three modules make up the model:

- `PcfFlags` (`pcf_flags.dfy`): the 24 `PCF_*` flags.
  - A flag word is a `bv32`, the `UINT32 flags` of `chunk_t`.
  - It is also read as the list of named flags it holds. `Combine` ORs a
    list of flags into a word, the way the header's `PCF_A | PCF_B`
    expressions do. `Decompose` lists the flags of a word in bit order.
  - Round trips are proved in both directions.
  - `CopyFlags` is the copy mask applied to a word. It is proved against
    the reference reading: keep the ten context flags from the flags the
    word holds.
- `LangFlags` (`lang_flags.dfy`): the anonymous `LANG_*` enum.
  - The enumerators are C `int` constants, as declared.
  - They are stored in the 8-bit `lang_flags` fields (`UINT8`, modelled as
    `bv8`) through `ToUint8`.
  - A dialect's bit, the `LANG_ALLC` and `LANG_ALL` composites and
    `FLAG_PP` are related to each other and to the OR of the dialect bits.
- `UncrustifyTypes` (`types.dfy`): the two enumerations and the four records.
  - The enumerations are `brstage_e` and `pattern_class`, each with its C
    numbering.
  - The records are `paren_stack_entry`, `parse_frame`, `chunk_t` and
    `align_t`.
  - The array capacities 128, 16 and 80 are constants. A frame's paren
    stack is a sequence of exactly 128 entries by its type, so no frame
    with any other number can be built.

## Model

| member | source | states |
|---|---|---|
| PcfFlags.Bit | src/uncrustify_types.h:82-106 | every flag is defined at a bit position below 24 |
| PcfFlags.Mask | src/uncrustify_types.h:82-106 | every `PCF_*` flag constant is a single nonzero bit lying inside bits 0..23 |
| PcfFlags.MaskIsShift | src/uncrustify_types.h:82-106 | each flag constant equals `1 << n` for its bit position `n` |
| PcfFlags.AllFlagsBit | src/uncrustify_types.h:82-106 | the list of all flags has 24 entries and holds each flag at its bit position |
| PcfFlags.AllFlagsIndex | src/uncrustify_types.h:82-106 | entry `n` of the list of all flags is the flag at bit `n` |
| PcfFlags.MasksOverlap | src/uncrustify_types.h:82-106 | two flag constants share a bit if and only if they are the same flag |
| PcfFlags.MasksDisjoint | src/uncrustify_types.h:82-106 | the 24 flag constants are pairwise disjoint (their AND is 0) |
| PcfFlags.SingleBit | src/uncrustify_types.h:82-106 | a flag constant meets any word either in all of its bit or not at all |
| PcfFlags.HasOr | src/uncrustify_types.h:82-106 | an OR of two words holds a flag exactly when one of the two does |
| PcfFlags.HasAnd | src/uncrustify_types.h:82-106 | an AND of two words holds a flag exactly when both do |
| PcfFlags.FlagOfBit | src/uncrustify_types.h:82-106 | every single bit inside bits 0..23 is the constant of some flag |
| PcfFlags.FlagOfMask | src/uncrustify_types.h:82-106 | going from a flag to its constant and back gives the same flag |
| PcfFlags.Combine | src/uncrustify_types.h:110-113 | an OR of flag constants never sets a bit above bit 23 |
| PcfFlags.CombineHas | src/uncrustify_types.h:110-113 | an OR of flag constants holds a flag if and only if that flag is listed |
| PcfFlags.CombineFlags | src/uncrustify_types.h:110-113 | the same, for every flag at once |
| PcfFlags.CombineLowFlags | src/uncrustify_types.h:82-106 | the first `k` flags in definition order together fill exactly bits `0..k-1` |
| PcfFlags.CombineAllFlags | src/uncrustify_types.h:82-106 | all 24 flags together fill exactly bits 0..23 |
| PcfFlags.CombineHeld | src/uncrustify_types.h:155 | ORing the flags of a list that a word holds gives the word ANDed with the list's OR |
| PcfFlags.Decompose | src/uncrustify_types.h:155 | a flag word holds at most 24 named flags |
| PcfFlags.DecomposeHas | src/uncrustify_types.h:155 | the flags listed for a word are exactly the flags the word holds |
| PcfFlags.DecomposeAscending | src/uncrustify_types.h:155 | the flags of a word are listed in strictly increasing bit order |
| PcfFlags.CombineDecompose | src/uncrustify_types.h:155 | round trip: ORing the flags of a word gives back its bits 0..23 |
| PcfFlags.DecomposeCombine | src/uncrustify_types.h:155 | round trip: the flags of an OR of flags are exactly the flags ORed |
| PcfFlags.SameFlagsSameWord | src/uncrustify_types.h:155 | two words inside bits 0..23 holding the same flags are equal |
| PcfFlags.CombineIgnoresOrderAndRepeats | src/uncrustify_types.h:110-113 | an OR of flags depends only on which flags are listed, not on order or repeats |
| PcfFlags.VarFirstDefFlags | src/uncrustify_types.h:89 | `PCF_VAR_1ST_DEF` is the OR of `VAR_DEF` and `VAR_1ST` and holds exactly those two flags |
| PcfFlags.OneClassFlags | src/uncrustify_types.h:107 | `PCF_ONE_CLASS` is the OR of `ONE_LINER` and `IN_CLASS` and holds exactly those two flags |
| PcfFlags.CopyMaskOperands | src/uncrustify_types.h:109-113 | `PCF_COPY_FLAGS` is `0x790F04` and equals the OR of its eleven operands; the OR without the repeated `IN_CLASS` is the same word |
| PcfFlags.CopyOperandsOnce | src/uncrustify_types.h:112-113 | the second `PCF_IN_CLASS` operand does not change the mask |
| PcfFlags.CopyMaskHas | src/uncrustify_types.h:109-113 | the copy mask holds a flag if and only if it is one of the ten context flags (preprocessor, special parens, enum, function definition parens, function call parens, typedef, array assignment, class, namespace, for) |
| PcfFlags.CopiedPartition | src/uncrustify_types.h:82-113 | every flag is either one of the ten copied flags or one of the 14 per-chunk flags, never both |
| PcfFlags.CopyFlags | src/uncrustify_types.h:109-113 | the copied word is a subset of the original and of the mask; a word holding every copied flag copies to the whole mask |
| PcfFlags.CopyFlagsHas | src/uncrustify_types.h:109-113 | the copied word holds a flag if and only if the original holds it and it is a copied flag |
| PcfFlags.CopyFlagsDrops | src/uncrustify_types.h:109-113 | none of the 14 per-chunk flags (statement/expression start, variable definition roles, one-liner, ...) survives a copy |
| PcfFlags.CopyFlagsIdempotent | src/uncrustify_types.h:109-113 | copying a copied word changes nothing |
| PcfFlags.DecomposeCopy | src/uncrustify_types.h:109-113 | the flags of a copied word are the copied flags of the original, in the same order |
| PcfFlags.CopyFlagsByFlags | src/uncrustify_types.h:109-113 | the mask gives the same word as the reference reading: list the flags, keep the copied ones, OR them |
| PcfFlags.CopyInPreprocCall | src/uncrustify_types.h:109-113 | a chunk next to one inside a preprocessor line and function call parens, with otherwise only per-chunk flags, starts with exactly `IN_PREPROC` and `IN_FCN_CALL` |
| PcfFlags.Name | src/uncrustify_types.h:116-142 | the name table has 24 entries and holds each flag's name at the flag's bit position |
| PcfFlags.NameTableEntry | src/uncrustify_types.h:116-142 | entry `n` of `pcf_names` is the name of the flag whose constant is `1 << n` |
| PcfFlags.NamesDistinct | src/uncrustify_types.h:116-142 | two flags have the same name if and only if they are the same flag |
| LangFlags.ToUint8 | src/uncrustify_types.h:202 | storing a value in 0..255 in a `UINT8` field keeps it unchanged |
| LangFlags.EnumeratorsFit | src/uncrustify_types.h:168-182 | every `LANG_*` enumerator and `FLAG_PP` lies in 0..255, so storing it loses nothing |
| LangFlags.Value | src/uncrustify_types.h:170-176 | every dialect's value is one of the declared enumerators |
| LangFlags.LangBit | src/uncrustify_types.h:170-176 | every dialect occupies a single nonzero bit, apart from the `FLAG_PP` bit |
| LangFlags.LangBitIsEnumerator | src/uncrustify_types.h:170-176 | a dialect's bit is its enumerator as stored in the 8-bit field |
| LangFlags.StoredComposites | src/uncrustify_types.h:178-181 | `LANG_ALLC`, `LANG_ALL` and `FLAG_PP` read `0x3F`, `0x7F` and `0x80` once stored |
| LangFlags.LangBitsOverlap | src/uncrustify_types.h:170-176 | two dialect bits meet if and only if they are the same dialect |
| LangFlags.LangBitsDisjoint | src/uncrustify_types.h:170-176 | the seven dialect bits are pairwise disjoint |
| LangFlags.HasLangOr | src/uncrustify_types.h:170-176 | an OR of two masks enables a dialect exactly when one of the two does |
| LangFlags.Langs | src/uncrustify_types.h:178-179 | an OR of dialect bits never sets the `FLAG_PP` bit |
| LangFlags.LangsHas | src/uncrustify_types.h:178-179 | an OR of dialect bits enables a dialect if and only if it is listed |
| LangFlags.AllCIsCFamily | src/uncrustify_types.h:178 | `LANG_ALLC` is the OR of C, C++, D, C#, Java and Objective-C |
| LangFlags.AllCExcludesPawn | src/uncrustify_types.h:178 | `LANG_ALLC` enables a dialect if and only if it is not Pawn |
| LangFlags.AllIsAllCWithPawn | src/uncrustify_types.h:178-179 | `LANG_ALL` is `LANG_ALLC` plus Pawn, the OR of all seven dialects |
| LangFlags.AllHasEveryLang | src/uncrustify_types.h:179 | `LANG_ALL` enables every dialect |
| LangFlags.PreprocFlagApart | src/uncrustify_types.h:179-181 | `FLAG_PP` is no dialect and is disjoint from `LANG_ALL`; together they fill all eight bits of the field |
| UncrustifyTypes.BraceStageValue | src/uncrustify_types.h:28-40 | each brace stage's C value is below 10 and is its position in the declaration |
| UncrustifyTypes.BraceStageNumbering | src/uncrustify_types.h:28-40 | there are ten stages and each value 0..9 belongs to exactly one |
| UncrustifyTypes.PatternClassValue | src/uncrustify_types.h:187-196 | each pattern class's C value is below 7 and is its position in the declaration |
| UncrustifyTypes.PatternClassNumbering | src/uncrustify_types.h:187-196 | there are seven classes and each value 0..6 belongs to exactly one |

## Left out

- The brace-matching state machine that drives `brstage_e` and the parse frames lives outside this header. Only the stage values are modelled, not their transitions.
- The `next`/`prev` links of `chunk_t` and the chunk list operations are left out. `Chunk` holds every other field.
- The chunk stack (`chunk_stack_entry_t`, `chunk_stack_t`, lines 227-238) holds raw chunk pointers. Its push/pop operations are defined elsewhere.
- `cp_data` and the global `cpd` are left out. Most of their fields are I/O handles, options or detection counters. The `al[80]` and `frames[16]` arrays appear only as the capacity constants `ALIGN_CAPACITY` and `FRAME_CAPACITY`.
- The keyword lookup types `chunk_tag_t`, `lookup_entry_t` and `define_tag_t` are left out, as are the tables built from them. Only their `lang_flags` width (`UINT8`) is used, for `LangMask`.
- The included headers are not part of this model: `c_token_t` enumerators, option values, the logger and the base integer types. A token kind is an opaque number (`CToken`). `UINT32` and C `int` fields are range-restricted integers (`UInt32`, `Int32`) with no arithmetic on them.
- `Chunk.str` is modelled as a character string, not as a pointer to `len` bytes of the source text. `Chunk.len` is a separate field that nothing ties to the string's length, because the header states no relation between the two.
- `pcf_names` is compiled only under `DEFINE_PCF_NAMES`. The model always defines it.
- Bits 24..31 of a chunk's flag word are never named by a flag. `Decompose` ignores them, and `CombineDecompose` restores the word only within bits 0..23.
- LangFlags.ToUint8: states only that values in 0..255 are kept. Its body reduces any other value modulo 256, but no enumerator needs that.
- The fixed array sizes (128 paren stack entries, 16 frames, 80 alignment slots) follow the header. Overflow checks against them happen in code outside this header.
