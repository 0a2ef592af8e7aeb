/** Build configuration of the runtime.

    The header is compiled once per build; the switches it tests
    (`TABLES_NEXT_TO_CODE`, `PROFILING`, `THREADED_RTS`, `DEBUG`), the word
    size, the tag width and the sizes of the `Stg*` structures it reads with
    `sizeofW` are all fixed by the build.  They are gathered here in one value
    that every operation takes, so each configuration can be reasoned about on
    its own.  The structure layouts themselves are defined elsewhere in the
    runtime; `Valid` states the few facts about them that this layer relies on.
 */
module Config {
  import opened Bits

  datatype Config = Config(
    // StgWord: width in bits and sizeof(W_) in bytes
    wordBits: nat,
    wordBytes: nat,
    // TAG_BITS: TAG_MASK == 2^tagBits - 1
    tagBits: nat,
    // MUT_ARR_PTRS_CARD_BITS: one card byte covers 2^cardBits elements
    cardBits: nat,
    // build switches
    tablesNextToCode: bool,
    profiling: bool,
    threaded: bool,
    debug: bool,
    // sizeofW of closure structures, in words
    headerW: nat,         // StgHeader (and StgClosure, whose payload is flexible)
    thunkHeaderW: nat,    // StgThunkHeader (and StgThunk, whose payload is flexible)
    selectorW: nat,       // StgSelector
    papW: nat,            // StgPAP
    apW: nat,             // StgAP
    apStackW: nat,        // StgAP_STACK
    indW: nat,            // StgInd
    arrWordsW: nat,       // StgArrWords
    mutArrPtrsW: nat,     // StgMutArrPtrs
    tsoW: nat,            // StgTSO
    stackW: nat,          // StgStack
    trecChunkW: nat,      // StgTRecChunk
    // sizeofW of stack-frame structures, in words
    retFunW: nat,         // StgRetFun
    retDynW: nat,         // StgRetDyn
    retDynBitmapSize: nat,       // RET_DYN_BITMAP_SIZE
    retDynNonptrRegsSize: nat,   // RET_DYN_NONPTR_REGS_SIZE
    // sizeof of info-table structures, in bytes
    infoTableBytes: nat,       // StgInfoTable
    retInfoTableBytes: nat,    // StgRetInfoTable
    funInfoTableBytes: nat,    // StgFunInfoTable
    thunkInfoTableBytes: nat,  // StgThunkInfoTable
    conInfoTableBytes: nat     // StgConInfoTable
  ) {

    /** The layout facts this layer relies on. */
    ghost predicate Valid() {
      && wordBytes >= 1
      && wordBits == 8 * wordBytes
      // the tag lives strictly below the word's top bit
      && tagBits < wordBits
      // every closure starts with a header holding the info pointer, and in
      // profiling builds also the cost-centre stack
      && headerW >= (if profiling then 2 else 1)
      // a thunk header is at least a header (threaded builds add a padding word)
      && thunkHeaderW >= headerW
      // selectors, APs and AP_STACKs start with a thunk header
      && selectorW >= thunkHeaderW && apW >= thunkHeaderW && apStackW >= thunkHeaderW
      // an indirection (and so a BLACKHOLE) fits in the smallest thunk
      && headerW <= indW <= thunkHeaderW
      // the remaining closure structures start with a header
      && papW >= headerW && arrWordsW >= headerW && mutArrPtrsW >= headerW
      && tsoW >= headerW && stackW >= headerW && trecChunkW >= headerW
      // return frames start with their info pointer
      && retFunW >= 1 && retDynW >= 1
    }

    /** TAG_MASK */
    function TagMask(): nat {
      Pow2(tagBits) - 1
    }

    /** `(1 << MUT_ARR_PTRS_CARD_BITS)`, the number of elements one card covers. */
    function CardSpan(): (r: nat)
      ensures r >= 1
    {
      Pow2(cardBits)
    }

    /** Whether `OVERWRITING_CLOSURE(c)` expands to a call of `overwritingClosure`. */
    predicate OverwritingEnabled() {
      profiling || (!threaded && debug)
    }
  }

  /** ROUNDUP_BYTES_TO_WDS: `(n + sizeof(W_) - 1) / sizeof(W_)`. */
  function RoundupBytesToWds(cfg: Config, n: nat): (r: nat)
    requires cfg.wordBytes >= 1
    ensures r * cfg.wordBytes >= n
    ensures r == 0 || (r - 1) * cfg.wordBytes < n
  {
    var r := (n + cfg.wordBytes - 1) / cfg.wordBytes;
    CeilDivBounds(n, cfg.wordBytes);
    r
  }

  /** `(n + d - 1) / d` is the least `r` with `r * d >= n`. */
  lemma CeilDivBounds(n: nat, d: nat)
    requires d >= 1
    ensures ((n + d - 1) / d) * d >= n
    ensures (n + d - 1) / d == 0 || ((n + d - 1) / d - 1) * d < n
  {
    var q := (n + d - 1) / d;
    var s := (n + d - 1) % d;
    assert n + d - 1 == q * d + s;
  }
}
