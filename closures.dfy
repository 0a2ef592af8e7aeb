/** The closure kinds and the parts of a closure the size oracle reads.

    A closure is its info table (its kind and, for layout-described kinds,
    the pointer and non-pointer field counts) plus the few fields of the
    closure itself that some kinds keep their size in.  Payload contents are
    not part of the model: no size depends on them.
 */
module Closures {

  /** Closure types (info->type).  The header names the constructors below
      explicitly; `CONSTR`, `FUN` and `BLACKHOLE` stand for the generic kinds
      that take the default branches, and `OTHER_TYPE` for every further
      closure type of the runtime, which this header never names. */
  datatype ClosureType =
    | INVALID_OBJECT
    | CONSTR | CONSTR_1_0 | CONSTR_0_1 | CONSTR_2_0 | CONSTR_1_1 | CONSTR_0_2
    | FUN | FUN_1_0 | FUN_0_1 | FUN_2_0 | FUN_1_1 | FUN_0_2 | FUN_STATIC
    | THUNK | THUNK_1_0 | THUNK_0_1 | THUNK_2_0 | THUNK_1_1 | THUNK_0_2 | THUNK_STATIC
    | THUNK_SELECTOR
    | BCO | AP | PAP | AP_STACK
    | IND | IND_PERM | IND_STATIC | BLACKHOLE
    | RET_BCO | RET_BIG | RET_DYN | RET_FUN
    | ARR_WORDS
    | MUT_ARR_PTRS_CLEAN | MUT_ARR_PTRS_DIRTY | MUT_ARR_PTRS_FROZEN0 | MUT_ARR_PTRS_FROZEN
    | TSO | STACK | TREC_CHUNK
    | OTHER_TYPE(code: nat)

  /** The layout part of an info table: its type and `layout.payload`. */
  datatype InfoTable = InfoTable(closureType: ClosureType, ptrs: nat, nptrs: nat)

  /** The size-carrying fields of the closure itself, per kind. */
  datatype SizeFields =
    | NoSizeFields
    | ApStackFields(size: nat)              // StgAP_STACK.size
    | ApFields(nArgs: nat)                  // StgAP.n_args
    | PapFields(nArgs: nat)                 // StgPAP.n_args
    | ArrWordsFields(bytes: nat)            // StgArrWords.bytes
    | MutArrPtrsFields(ptrs: nat, size: nat) // StgMutArrPtrs.ptrs and .size
    | StackFields(stackSize: nat)           // StgStack.stack_size
    | BcoFields(size: nat)                  // StgBCO.size

  datatype Closure = Closure(info: InfoTable, fields: SizeFields)

  predicate IsMutArrPtrs(t: ClosureType) {
    t == MUT_ARR_PTRS_CLEAN || t == MUT_ARR_PTRS_DIRTY
    || t == MUT_ARR_PTRS_FROZEN0 || t == MUT_ARR_PTRS_FROZEN
  }

  /** The closure really is of the kind its info table says: the casts in
      the size oracle read the structure of that kind. */
  predicate FieldsFit(t: ClosureType, f: SizeFields) {
    if t == AP_STACK then f.ApStackFields?
    else if t == AP then f.ApFields?
    else if t == PAP then f.PapFields?
    else if t == ARR_WORDS then f.ArrWordsFields?
    else if IsMutArrPtrs(t) then f.MutArrPtrsFields?
    else if t == STACK then f.StackFields?
    else if t == BCO then f.BcoFields?
    else true
  }

  /** The small fixed-arity kinds and their (pointer, non-pointer) counts. */
  function FixedArity(t: ClosureType): (nat, nat) {
    match t
    case THUNK_1_0 => (1, 0)  case THUNK_0_1 => (0, 1)
    case THUNK_2_0 => (2, 0)  case THUNK_1_1 => (1, 1)  case THUNK_0_2 => (0, 2)
    case FUN_1_0 => (1, 0)    case FUN_0_1 => (0, 1)
    case FUN_2_0 => (2, 0)    case FUN_1_1 => (1, 1)    case FUN_0_2 => (0, 2)
    case CONSTR_1_0 => (1, 0) case CONSTR_0_1 => (0, 1)
    case CONSTR_2_0 => (2, 0) case CONSTR_1_1 => (1, 1) case CONSTR_0_2 => (0, 2)
    case _ => (0, 0)
  }

  predicate IsFixedArity(t: ClosureType) {
    t.THUNK_1_0? || t.THUNK_0_1? || t.THUNK_2_0? || t.THUNK_1_1? || t.THUNK_0_2?
    || t.FUN_1_0? || t.FUN_0_1? || t.FUN_2_0? || t.FUN_1_1? || t.FUN_0_2?
    || t.CONSTR_1_0? || t.CONSTR_0_1? || t.CONSTR_2_0? || t.CONSTR_1_1? || t.CONSTR_0_2?
  }

  predicate IsFixedThunk(t: ClosureType) {
    t.THUNK_1_0? || t.THUNK_0_1? || t.THUNK_2_0? || t.THUNK_1_1? || t.THUNK_0_2?
  }

  /** Kinds whose structure starts with a thunk header: these are the ones
      updated in place (blackholed, then overwritten by an indirection). */
  predicate IsThunkHeaded(t: ClosureType) {
    IsFixedThunk(t) || t == THUNK || t == THUNK_SELECTOR || t == AP || t == AP_STACK
  }

  /** The info table agrees with the kind's name on its field counts. */
  predicate LayoutMatchesName(info: InfoTable) {
    IsFixedArity(info.closureType) ==> (info.ptrs, info.nptrs) == FixedArity(info.closureType)
  }
}
