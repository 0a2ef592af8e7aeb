/** Info-table addressing.

    A closure's first word, its info pointer, points at its info table.  With
    `TABLES_NEXT_TO_CODE` the table is placed immediately before the entry
    code and the info pointer points at the END of the table (the start of
    the code), so the table's structure starts one table width lower.
    Otherwise the info pointer points at the start of the table.  Every
    specialised table (return, function, thunk, constructor) ends with the
    generic `StgInfoTable`, so in the first layout all of them end at the
    info pointer.  Addresses are byte addresses.
 */
module InfoTables {
  import opened Config

  /** The info-table structures the header converts to. */
  datatype TableKind = Generic | Ret | Fun | Thunk | Con

  /** sizeof of the structure of that kind, in bytes. */
  function TableBytes(cfg: Config, kind: TableKind): nat {
    match kind
    case Generic => cfg.infoTableBytes
    case Ret => cfg.retInfoTableBytes
    case Fun => cfg.funInfoTableBytes
    case Thunk => cfg.thunkInfoTableBytes
    case Con => cfg.conInfoTableBytes
  }

  /** What a caller must supply: with tables next to code, an info pointer
      lies past the table that ends at it (pointer arithmetic never goes
      below address 0). */
  predicate IsInfoPtrFor(cfg: Config, kind: TableKind, info: nat) {
    cfg.tablesNextToCode ==> info >= TableBytes(cfg, kind)
  }

  /** INFO_PTR_TO_STRUCT, RET_INFO_PTR_TO_STRUCT, FUN_INFO_PTR_TO_STRUCT,
      THUNK_INFO_PTR_TO_STRUCT and CON_INFO_PTR_TO_STRUCT: `(T *)(info) - 1`
      with tables next to code, `(T *)info` otherwise. */
  function InfoPtrToStruct(cfg: Config, kind: TableKind, info: nat): nat
    requires IsInfoPtrFor(cfg, kind, info)
  {
    if cfg.tablesNextToCode then info - TableBytes(cfg, kind) else info
  }

  /** What a caller of an itbl_to_* conversion must supply: a generic table
      that is the tail of a table of the wanted kind. */
  predicate IsTableFor(cfg: Config, kind: TableKind, itbl: nat) {
    cfg.tablesNextToCode ==> itbl + TableBytes(cfg, Generic) >= TableBytes(cfg, kind)
  }

  /** itbl_to_fun_itbl, itbl_to_ret_itbl, itbl_to_thunk_itbl and
      itbl_to_con_itbl: `(T *)((StgInfoTable *)(i) + 1) - 1` with tables
      next to code (step past the generic table, back one specialised
      table), `(T *)(i)` otherwise. */
  function ItblToKind(cfg: Config, kind: TableKind, itbl: nat): nat
    requires IsTableFor(cfg, kind, itbl)
  {
    if cfg.tablesNextToCode then itbl + TableBytes(cfg, Generic) - TableBytes(cfg, kind)
    else itbl
  }

  /** The table a structure-pointer conversion yields ends exactly at the
      info pointer when tables sit next to code: the info label is at the
      end of the table.  Without that layout the table starts at it. */
  lemma TableEndsAtInfoPtr(cfg: Config, kind: TableKind, info: nat)
    requires IsInfoPtrFor(cfg, kind, info)
    ensures cfg.tablesNextToCode ==> InfoPtrToStruct(cfg, kind, info) + TableBytes(cfg, kind) == info
    ensures !cfg.tablesNextToCode ==> InfoPtrToStruct(cfg, kind, info) == info
  {
  }

  /** Converting the generic table of an info pointer to a specialised table
      lands on the same structure as converting the info pointer directly:
      `itbl_to_fun_itbl(INFO_PTR_TO_STRUCT(info)) == FUN_INFO_PTR_TO_STRUCT(info)`,
      and likewise for return, thunk and constructor tables, in both layouts. */
  lemma ItblToKindAgrees(cfg: Config, kind: TableKind, info: nat)
    requires IsInfoPtrFor(cfg, Generic, info) && IsInfoPtrFor(cfg, kind, info)
    ensures IsTableFor(cfg, kind, InfoPtrToStruct(cfg, Generic, info))
    ensures ItblToKind(cfg, kind, InfoPtrToStruct(cfg, Generic, info)) == InfoPtrToStruct(cfg, kind, info)
  {
  }

  /** Without tables next to code every conversion is the identity. */
  lemma ConversionsIdentityWithoutTntc(cfg: Config, kind: TableKind, p: nat)
    requires !cfg.tablesNextToCode
    ensures InfoPtrToStruct(cfg, kind, p) == p && ItblToKind(cfg, kind, p) == p
  {
  }

  /** Different info pointers give different tables: the conversion loses
      nothing, so the info pointer can be recovered from the table. */
  lemma InfoPtrToStructInjective(cfg: Config, kind: TableKind, info1: nat, info2: nat)
    requires IsInfoPtrFor(cfg, kind, info1) && IsInfoPtrFor(cfg, kind, info2)
    ensures InfoPtrToStruct(cfg, kind, info1) == InfoPtrToStruct(cfg, kind, info2) <==> info1 == info2
  {
  }
}
