/** The size oracle: the exact size in words of a heap closure or a stack
    frame, computed from its kind and the kind's own size parameters.  The
    collector steps over objects by these sizes, so they must agree with the
    layouts: the lemmas below relate the fast paths to the generic
    layout-descriptor formula and the sizes to what replaces a closure in
    place.
 */
module Sizes {
  import opened Bits
  import opened Config
  import opened Closures

  // ---------------------------------------------------------------------
  // Size helpers (sizeofW(StgPtr) == sizeofW(StgWord) == 1)

  /** PAP_sizeW: a PAP covers a header and one word per argument. */
  function PapSizeW(cfg: Config, nArgs: nat): (r: nat)
    ensures cfg.Valid() ==> r >= cfg.headerW + nArgs
  {
    cfg.papW + nArgs
  }

  /** AP_sizeW: an AP is a thunk, so it covers a thunk header, and one word
      per argument. */
  function ApSizeW(cfg: Config, nArgs: nat): (r: nat)
    ensures cfg.Valid() ==> r >= cfg.thunkHeaderW + nArgs
  {
    cfg.apW + nArgs
  }

  /** AP_STACK_sizeW: a thunk header and the saved stack chunk. */
  function ApStackSizeW(cfg: Config, size: nat): (r: nat)
    ensures cfg.Valid() ==> r >= cfg.thunkHeaderW + size
  {
    cfg.apStackW + size
  }

  /** CONSTR_sizeW: a constructor with `p` pointer and `np` non-pointer
      fields has the size the generic layout formula gives it. */
  function ConstrSizeW(cfg: Config, p: nat, np: nat): (r: nat)
    ensures r == SizeWFromItbl(cfg, InfoTable(CONSTR, p, np))
  {
    cfg.headerW + p + np
  }

  /** THUNK_SELECTOR_sizeW: a selector thunk covers a thunk header. */
  function ThunkSelectorSizeW(cfg: Config): (r: nat)
    ensures cfg.Valid() ==> r >= cfg.thunkHeaderW
  {
    cfg.selectorW
  }

  /** BLACKHOLE_sizeW: a BLACKHOLE is a kind of indirection, which covers a
      header and fits in a thunk header. */
  function BlackholeSizeW(cfg: Config): (r: nat)
    ensures cfg.Valid() ==> cfg.headerW <= r <= cfg.thunkHeaderW
  {
    cfg.indW
  }

  /** sizeW_fromITBL: a header plus the fields the layout describes. */
  function SizeWFromItbl(cfg: Config, info: InfoTable): (r: nat)
    ensures r >= cfg.headerW
  {
    cfg.headerW + info.ptrs + info.nptrs
  }

  /** thunk_sizeW_fromITBL: a thunk header plus the fields the layout
      describes, so never smaller than a plain closure of that layout. */
  function ThunkSizeWFromItbl(cfg: Config, info: InfoTable): (r: nat)
    ensures r >= cfg.thunkHeaderW
    ensures cfg.Valid() ==> r >= SizeWFromItbl(cfg, info)
  {
    cfg.thunkHeaderW + info.ptrs + info.nptrs
  }

  /** arr_words_words: the fewest words that hold the array's bytes. */
  function ArrWordsWords(cfg: Config, bytes: nat): (r: nat)
    requires cfg.wordBytes >= 1
    ensures r * cfg.wordBytes >= bytes
    ensures r == 0 || (r - 1) * cfg.wordBytes < bytes
  {
    RoundupBytesToWds(cfg, bytes)
  }

  /** arr_words_sizeW: the header, then enough words for the bytes. */
  function ArrWordsSizeW(cfg: Config, bytes: nat): (r: nat)
    requires cfg.wordBytes >= 1
    ensures cfg.Valid() ==> r >= cfg.headerW && (r - cfg.headerW) * cfg.wordBytes >= bytes
  {
    var words := ArrWordsWords(cfg, bytes);
    ArrWordsPastHeader(cfg, words);
    cfg.arrWordsW + words
  }

  lemma ArrWordsPastHeader(cfg: Config, words: nat)
    ensures cfg.Valid() ==> cfg.arrWordsW + words - cfg.headerW >= words
    ensures cfg.Valid() ==> (cfg.arrWordsW + words - cfg.headerW) * cfg.wordBytes >= words * cfg.wordBytes
  {
    if cfg.Valid() {
      MulMono(cfg.wordBytes, words, cfg.arrWordsW + words - cfg.headerW);
    }
  }

  /** mut_arr_ptrs_sizeW: the header plus the `size` field, which covers the
      elements and the card table; `ptrs` is not read. */
  function MutArrPtrsSizeW(cfg: Config, size: nat): (r: nat)
    ensures cfg.Valid() ==> r >= cfg.headerW + size
  {
    cfg.mutArrPtrsW + size
  }

  /** stack_sizeW: a header plus the stack area. */
  function StackSizeW(cfg: Config, stackSize: nat): (r: nat)
    ensures cfg.Valid() ==> r >= cfg.headerW + stackSize
  {
    cfg.stackW + stackSize
  }

  /** bco_sizeW: a BCO stores its own size. */
  function BcoSizeW(size: nat): nat { size }

  // ---------------------------------------------------------------------
  // closure_sizeW_ and closure_sizeW

  /** The types that the switch of closure_sizeW_ names; every other type
      takes its default branch. */
  predicate HasOwnCase(t: ClosureType) {
    IsFixedArity(t) || t == THUNK || t == THUNK_SELECTOR || t == AP_STACK || t == AP
    || t == PAP || t == IND || t == IND_PERM || t == ARR_WORDS || IsMutArrPtrs(t)
    || t == TSO || t == STACK || t == BCO || t == TREC_CHUNK
  }

  /** closure_sizeW_(p, info): the size of the closure whose own fields are
      `f`, read as a closure described by `info` (the collector passes an
      info table separately when the header word is a forwarding marker).
      Every closure covers its header, and every thunk-headed closure covers
      its thunk header. */
  function ClosureSizeW_(cfg: Config, f: SizeFields, info: InfoTable): (r: nat)
    requires cfg.Valid() && FieldsFit(info.closureType, f)
    ensures info.closureType != BCO ==> r >= cfg.headerW
    ensures IsThunkHeaded(info.closureType) ==> r >= cfg.thunkHeaderW
  {
    match info.closureType
    case THUNK_0_1 => cfg.thunkHeaderW + 1
    case THUNK_1_0 => cfg.thunkHeaderW + 1
    case FUN_0_1 => cfg.headerW + 1
    case CONSTR_0_1 => cfg.headerW + 1
    case FUN_1_0 => cfg.headerW + 1
    case CONSTR_1_0 => cfg.headerW + 1
    case THUNK_0_2 => cfg.thunkHeaderW + 2
    case THUNK_1_1 => cfg.thunkHeaderW + 2
    case THUNK_2_0 => cfg.thunkHeaderW + 2
    case FUN_0_2 => cfg.headerW + 2
    case CONSTR_0_2 => cfg.headerW + 2
    case FUN_1_1 => cfg.headerW + 2
    case CONSTR_1_1 => cfg.headerW + 2
    case FUN_2_0 => cfg.headerW + 2
    case CONSTR_2_0 => cfg.headerW + 2
    case THUNK => ThunkSizeWFromItbl(cfg, info)
    case THUNK_SELECTOR => ThunkSelectorSizeW(cfg)
    case AP_STACK => ApStackSizeW(cfg, f.size)
    case AP => ApSizeW(cfg, f.nArgs)
    case PAP => PapSizeW(cfg, f.nArgs)
    case IND => cfg.indW
    case IND_PERM => cfg.indW
    case ARR_WORDS => ArrWordsSizeW(cfg, f.bytes)
    case MUT_ARR_PTRS_CLEAN => MutArrPtrsSizeW(cfg, f.size)
    case MUT_ARR_PTRS_DIRTY => MutArrPtrsSizeW(cfg, f.size)
    case MUT_ARR_PTRS_FROZEN => MutArrPtrsSizeW(cfg, f.size)
    case MUT_ARR_PTRS_FROZEN0 => MutArrPtrsSizeW(cfg, f.size)
    case TSO => cfg.tsoW
    case STACK => StackSizeW(cfg, f.stackSize)
    case BCO => BcoSizeW(f.size)
    case TREC_CHUNK => cfg.trecChunkW
    case _ => SizeWFromItbl(cfg, info)
  }

  /** closure_sizeW: the definitive size of a closure, read through its own
      info table. */
  function ClosureSizeW(cfg: Config, c: Closure): (r: nat)
    requires cfg.Valid() && FieldsFit(c.info.closureType, c.fields)
    ensures c.info.closureType != BCO ==> r >= cfg.headerW
    ensures IsThunkHeaded(c.info.closureType) ==> r >= cfg.thunkHeaderW
  {
    ClosureSizeW_(cfg, c.fields, c.info)
  }

  // ---------------------------------------------------------------------
  // Properties of the size oracle

  /** A fixed-arity kind's size is its header (a thunk header for thunks)
      plus its arity, whatever the info table's layout fields and the
      closure's own fields say. */
  lemma FixedAritySize(cfg: Config, f: SizeFields, info: InfoTable)
    requires cfg.Valid() && FieldsFit(info.closureType, f) && IsFixedArity(info.closureType)
    ensures ClosureSizeW_(cfg, f, info) ==
      (if IsFixedThunk(info.closureType) then cfg.thunkHeaderW else cfg.headerW)
      + FixedArity(info.closureType).0 + FixedArity(info.closureType).1
    ensures 1 <= FixedArity(info.closureType).0 + FixedArity(info.closureType).1 <= 2
  {
  }

  /** The size of a fixed-arity closure depends on its kind only. */
  lemma FixedSizeDependsOnlyOnKind(cfg: Config, f1: SizeFields, info1: InfoTable, f2: SizeFields, info2: InfoTable)
    requires cfg.Valid() && FieldsFit(info1.closureType, f1) && FieldsFit(info2.closureType, f2)
    requires info1.closureType == info2.closureType && IsFixedArity(info1.closureType)
    ensures ClosureSizeW_(cfg, f1, info1) == ClosureSizeW_(cfg, f2, info2)
  {
    FixedAritySize(cfg, f1, info1);
    FixedAritySize(cfg, f2, info2);
  }

  /** The fast paths agree with the generic layout formula: a thunk (fixed or
      generic) has thunk_sizeW_fromITBL words, and a fixed-arity function or
      constructor has sizeW_fromITBL words, which for a constructor is
      CONSTR_sizeW of its arity, whenever the info table's field counts are
      the ones the kind's name announces. */
  lemma FastPathMatchesLayout(cfg: Config, f: SizeFields, info: InfoTable)
    requires cfg.Valid() && FieldsFit(info.closureType, f) && LayoutMatchesName(info)
    ensures IsFixedThunk(info.closureType) || info.closureType == THUNK ==>
      ClosureSizeW_(cfg, f, info) == ThunkSizeWFromItbl(cfg, info)
    ensures IsFixedArity(info.closureType) && !IsFixedThunk(info.closureType) ==>
      ClosureSizeW_(cfg, f, info) == SizeWFromItbl(cfg, info)
      == ConstrSizeW(cfg, info.ptrs, info.nptrs)
  {
  }

  /** Kinds without a case of their own are sized by their layout. */
  lemma DefaultSizeFromLayout(cfg: Config, f: SizeFields, info: InfoTable)
    requires cfg.Valid() && FieldsFit(info.closureType, f) && !HasOwnCase(info.closureType)
    ensures ClosureSizeW_(cfg, f, info) == cfg.headerW + info.ptrs + info.nptrs
  {
    assert ClosureSizeW_(cfg, f, info) == SizeWFromItbl(cfg, info);
  }

  /** Sizes of the kinds that keep a size in the closure itself: a header
      plus the argument count or captured stack size; a stack's header plus
      its stack size; a BCO's stored size. */
  lemma VariableSizes(cfg: Config, f: SizeFields, info: InfoTable)
    requires cfg.Valid() && FieldsFit(info.closureType, f)
    ensures info.closureType == PAP ==> ClosureSizeW_(cfg, f, info) == cfg.papW + f.nArgs
    ensures info.closureType == AP ==> ClosureSizeW_(cfg, f, info) == cfg.apW + f.nArgs
    ensures info.closureType == AP_STACK ==> ClosureSizeW_(cfg, f, info) == cfg.apStackW + f.size
    ensures info.closureType == STACK ==> ClosureSizeW_(cfg, f, info) == cfg.stackW + f.stackSize
    ensures info.closureType == BCO ==> ClosureSizeW_(cfg, f, info) == f.size
  {
  }

  /** The kinds of one fixed shape: a selector thunk, a thread state object
      and a transaction record chunk are always their structure's size. */
  lemma FixedShapeSizes(cfg: Config, f: SizeFields, info: InfoTable)
    requires cfg.Valid() && FieldsFit(info.closureType, f)
    ensures info.closureType == THUNK_SELECTOR ==> ClosureSizeW_(cfg, f, info) == cfg.selectorW
    ensures info.closureType == TSO ==> ClosureSizeW_(cfg, f, info) == cfg.tsoW
    ensures info.closureType == TREC_CHUNK ==> ClosureSizeW_(cfg, f, info) == cfg.trecChunkW
  {
  }

  /** Every pointer-array variant is its header plus its `size` field, which
      covers the elements and the card table; its `ptrs` field plays no part. */
  lemma MutArrPtrsSize(cfg: Config, ptrs: nat, size: nat, info: InfoTable, ptrs': nat)
    requires cfg.Valid() && IsMutArrPtrs(info.closureType)
    ensures ClosureSizeW_(cfg, MutArrPtrsFields(ptrs, size), info) == cfg.mutArrPtrsW + size
    ensures ClosureSizeW_(cfg, MutArrPtrsFields(ptrs', size), info)
         == ClosureSizeW_(cfg, MutArrPtrsFields(ptrs, size), info)
  {
  }

  /** A byte array is its header plus the fewest words that hold its bytes. */
  lemma ArrWordsSize(cfg: Config, bytes: nat, info: InfoTable)
    requires cfg.Valid() && info.closureType == ARR_WORDS
    ensures var words := ClosureSizeW_(cfg, ArrWordsFields(bytes), info) - cfg.arrWordsW;
      && ClosureSizeW_(cfg, ArrWordsFields(bytes), info) >= cfg.arrWordsW
      && words * cfg.wordBytes >= bytes
      && (words == 0 || (words - 1) * cfg.wordBytes < bytes)
  {
    assert ClosureSizeW_(cfg, ArrWordsFields(bytes), info) == cfg.arrWordsW + ArrWordsWords(cfg, bytes);
  }

  /** A BLACKHOLE or indirection never outgrows the closure it replaces in
      place: it is no larger than any thunk-headed closure, and IND and
      IND_PERM closures have exactly BLACKHOLE_sizeW words. */
  lemma IndirectionFits(cfg: Config, f: SizeFields, info: InfoTable)
    requires cfg.Valid() && FieldsFit(info.closureType, f)
    ensures IsThunkHeaded(info.closureType) ==> BlackholeSizeW(cfg) <= ClosureSizeW_(cfg, f, info)
    ensures info.closureType == IND || info.closureType == IND_PERM ==>
      ClosureSizeW_(cfg, f, info) == BlackholeSizeW(cfg)
  {
  }

  // ---------------------------------------------------------------------
  // STATIC_LINK

  /** The payload slot a static closure keeps its static link in:
      FUN_STATIC_LINK, THUNK_STATIC_LINK, IND_STATIC_LINK, and otherwise the
      first slot past the fields its layout describes. */
  function StaticLinkSlot(info: InfoTable): nat {
    match info.closureType
    case THUNK_STATIC => 1
    case FUN_STATIC => 0
    case IND_STATIC => 1
    case _ => info.ptrs + info.nptrs
  }

  /** STATIC_LINK(info, p): the byte address `&p->payload[slot]`. */
  function StaticLink(cfg: Config, info: InfoTable, p: nat): (a: nat)
    ensures a >= p + cfg.headerW * cfg.wordBytes
  {
    MulMono(cfg.wordBytes, cfg.headerW, cfg.headerW + StaticLinkSlot(info));
    p + (cfg.headerW + StaticLinkSlot(info)) * cfg.wordBytes
  }

  /** STATIC_LINK2(info, p): the byte address of the slot after the one
      STATIC_LINK uses for a layout-described static closure. */
  function StaticLink2(cfg: Config, info: InfoTable, p: nat): (a: nat)
    ensures !(info.closureType in {THUNK_STATIC, FUN_STATIC, IND_STATIC}) ==>
      a == StaticLink(cfg, info, p) + cfg.wordBytes
  {
    var n := cfg.headerW + info.ptrs + info.nptrs;
    assert (n + 1) * cfg.wordBytes == n * cfg.wordBytes + cfg.wordBytes;
    p + (n + 1) * cfg.wordBytes
  }

  /** For a layout-described static closure the static link is the first
      word past a closure of that layout (sizeW_fromITBL words from the
      start), and STATIC_LINK2 is the word after it. */
  lemma StaticLinkPastLayout(cfg: Config, info: InfoTable, p: nat)
    requires !(info.closureType == THUNK_STATIC || info.closureType == FUN_STATIC || info.closureType == IND_STATIC)
    ensures StaticLink(cfg, info, p) == p + SizeWFromItbl(cfg, info) * cfg.wordBytes
    ensures StaticLink2(cfg, info, p) == p + (SizeWFromItbl(cfg, info) + 1) * cfg.wordBytes
  {
  }

  /** The hard-coded static links: a static function keeps its link in the
      first payload word, a static thunk and a static indirection in the
      second. */
  lemma StaticLinkFixedSlots(cfg: Config, info: InfoTable, p: nat)
    ensures info.closureType == FUN_STATIC ==> StaticLink(cfg, info, p) == p + cfg.headerW * cfg.wordBytes
    ensures info.closureType == THUNK_STATIC || info.closureType == IND_STATIC ==>
      StaticLink(cfg, info, p) == p + (cfg.headerW + 1) * cfg.wordBytes
  {
  }

  // ---------------------------------------------------------------------
  // stack_frame_sizeW

  /** What a return frame's size is read from: its return info table's type,
      the size of its small bitmap (BITMAP_SIZE of layout.bitmap) and of its
      large bitmap (GET_LARGE_BITMAP(...)->size), as decoded from the table. */
  datatype RetInfoTable = RetInfoTable(closureType: ClosureType, bitmapSize: nat, largeBitmapSize: nat)

  /** The size-carrying contents of the frame itself, per kind. */
  datatype FrameFields =
    | PlainFrame
    | RetDynFrame(livePtrs: nat, liveNonPtrs: nat)  // RET_DYN_PTRS/NONPTRS(dyn->liveness)
    | RetFunFrame(size: nat)                         // StgRetFun.size
    | RetBcoFrame(bcoBitmapSize: nat)                // BCO_BITMAP_SIZE of the frame's BCO

  datatype Frame = Frame(info: RetInfoTable, fields: FrameFields)

  predicate FrameFieldsFit(f: Frame) {
    match f.info.closureType
    case RET_DYN => f.fields.RetDynFrame?
    case RET_FUN => f.fields.RetFunFrame?
    case RET_BCO => f.fields.RetBcoFrame?
    case _ => true
  }

  /** stack_frame_sizeW: every frame covers at least its info pointer. */
  function StackFrameSizeW(cfg: Config, f: Frame): (r: nat)
    requires cfg.Valid() && FrameFieldsFit(f)
    ensures r >= 1
  {
    match f.info.closureType
    case RET_DYN =>
      cfg.retDynW + cfg.retDynBitmapSize + cfg.retDynNonptrRegsSize
      + f.fields.livePtrs + f.fields.liveNonPtrs
    case RET_FUN => cfg.retFunW + f.fields.size
    case RET_BIG => 1 + f.info.largeBitmapSize
    case RET_BCO => 2 + f.fields.bcoBitmapSize
    case _ => 1 + f.info.bitmapSize
  }

  /** A small-bitmap frame is its info pointer plus one word per bitmap bit;
      a RET_DYN frame is its fixed part, the saved registers' bitmap and
      non-pointer registers, and its live pointers and non-pointers; a
      RET_FUN frame is its fixed part plus its stored argument size; a
      RET_BIG frame is its info pointer plus its large bitmap; a RET_BCO frame
      is its info pointer, its BCO pointer and the BCO's bitmap. */
  lemma FrameSizes(cfg: Config, f: Frame)
    requires cfg.Valid() && FrameFieldsFit(f)
    ensures f.info.closureType == RET_DYN ==>
      StackFrameSizeW(cfg, f) == (cfg.retDynW + cfg.retDynBitmapSize + cfg.retDynNonptrRegsSize
                                  + f.fields.livePtrs + f.fields.liveNonPtrs)
    ensures f.info.closureType == RET_FUN ==> StackFrameSizeW(cfg, f) == cfg.retFunW + f.fields.size
    ensures f.info.closureType == RET_BIG ==> StackFrameSizeW(cfg, f) == 1 + f.info.largeBitmapSize
    ensures f.info.closureType == RET_BCO ==> StackFrameSizeW(cfg, f) == 2 + f.fields.bcoBitmapSize
    ensures !(f.info.closureType in {RET_DYN, RET_FUN, RET_BIG, RET_BCO}) ==>
      StackFrameSizeW(cfg, f) == 1 + f.info.bitmapSize
  {
  }
}
