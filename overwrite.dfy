/** Installing headers and overwriting closures in place.

    The heap is an array of words indexed by word address.  A closure at word
    address `p` has its info pointer at `p`, in profiling builds its
    cost-centre stack at `p + 1`, and its payload after the header.  Before a
    closure changes kind in place (a thunk updated to an indirection, say),
    debugging and profiling builds zero the words that will no longer belong
    to any live field (the slop), so that a heap walker never reads stale
    pointers there.
 */
module Overwrite {
  import opened Config
  import opened Closures
  import opened Sizes

  /** One call of LDV_recordDead(c, size) made to the profiler. */
  datatype DeadRecord = DeadRecord(closure: nat, size: nat)

  /** The words `s` with the ones at indices `[lo, hi)` zeroed. */
  function ZeroSlop(s: seq<nat>, lo: nat, hi: nat): seq<nat>
    requires lo <= hi <= |s|
  {
    s[..lo] + seq(hi - lo, _ => 0) + s[hi..]
  }

  /** Zeroing changes exactly the words in range, to zero, and no others. */
  lemma ZeroSlopAt(s: seq<nat>, lo: nat, hi: nat)
    requires lo <= hi <= |s|
    ensures |ZeroSlop(s, lo, hi)| == |s|
    ensures forall i :: 0 <= i < |s| ==>
      ZeroSlop(s, lo, hi)[i] == if lo <= i < hi then 0 else s[i]
  {
    var r := ZeroSlop(s, lo, hi);
    forall i | 0 <= i < |s|
      ensures r[i] == if lo <= i < hi then 0 else s[i]
    {
      if i < lo {
        assert r[i] == s[..lo][i];
      } else if i < hi {
        assert r[i] == seq(hi - lo, _ => 0)[i - lo];
      } else {
        assert r[i] == s[hi..][i - hi];
      }
    }
  }

  /** A sequence that agrees with `s` outside `[lo, hi)` and is zero inside
      it is `s` with that range zeroed. */
  lemma ZeroSlopFromPointwise(s: seq<nat>, t: seq<nat>, lo: nat, hi: nat)
    requires lo <= hi <= |s| && |t| == |s|
    requires forall k :: 0 <= k < |s| ==> t[k] == if lo <= k < hi then 0 else s[k]
    ensures t == ZeroSlop(s, lo, hi)
  {
    ZeroSlopAt(s, lo, hi);
  }

  /** Zeroing the slop twice is zeroing it once. */
  lemma ZeroSlopIdempotent(s: seq<nat>, lo: nat, hi: nat)
    requires lo <= hi <= |s|
    ensures ZeroSlop(ZeroSlop(s, lo, hi), lo, hi) == ZeroSlop(s, lo, hi)
  {
    var once := ZeroSlop(s, lo, hi);
    ZeroSlopAt(s, lo, hi);
    ZeroSlopAt(once, lo, hi);
    assert ZeroSlop(once, lo, hi) == once;
  }

  /** Whether overwritingClosure returns before doing anything: in profiling
      builds it does so while the profiling era is not positive. */
  predicate SkipsOverwrite(cfg: Config, era: int) {
    cfg.profiling && era <= 0
  }

  class Heap {
    const mem: array<nat>
    /** The closures reported dead to the lifetime profiler, in order. */
    ghost var deadRecords: seq<DeadRecord>

    constructor (words: nat)
      ensures mem.Length == words && fresh(mem) && deadRecords == []
      ensures forall i :: 0 <= i < words ==> mem[i] == 0
    {
      mem := new nat[words](_ => 0);
      deadRecords := [];
    }

    /** SET_INFO(c, i): install an info pointer. */
    method SetInfo(c: nat, info: nat)
      requires c < mem.Length
      modifies mem
      ensures mem[..] == old(mem[..])[c := info]
    {
      mem[c] := info;
    }

    /** SET_HDR(c, info, ccs): install an info pointer and, in profiling
        builds, the cost-centre stack. */
    method SetHdr(cfg: Config, c: nat, info: nat, ccs: nat)
      requires cfg.Valid() && c + cfg.headerW <= mem.Length
      modifies mem
      ensures mem[..] == if cfg.profiling then old(mem[..])[c := info][c + 1 := ccs]
                         else old(mem[..])[c := info]
    {
      mem[c] := info;
      if cfg.profiling {
        mem[c + 1] := ccs;
      }
    }

    /** SET_ARR_HDR(c, info, ccs, n_bytes): SET_HDR, then the byte count of
        the StgArrWords, the word after the header. */
    method SetArrHdr(cfg: Config, c: nat, info: nat, ccs: nat, nBytes: nat)
      requires cfg.Valid() && c + cfg.headerW < mem.Length
      modifies mem
      ensures mem[..] == (if cfg.profiling then old(mem[..])[c := info][c + 1 := ccs]
                          else old(mem[..])[c := info])[c + cfg.headerW := nBytes]
    {
      SetHdr(cfg, c, info, ccs);
      mem[c + cfg.headerW] := nBytes;
    }

    /** overwritingClosure(p): zero the payload of the closure at `p` past a
        thunk header, up to the closure's size, and in profiling builds
        report the closure dead first.  The loop bound is the unsigned
        `size - sizeofW(StgThunkHeader)`, so the closure must be at least a
        thunk header long. */
    method OverwritingClosure(cfg: Config, era: int, p: nat, c: Closure)
      requires cfg.Valid() && FieldsFit(c.info.closureType, c.fields)
      requires ClosureSizeW(cfg, c) >= cfg.thunkHeaderW
      requires p + ClosureSizeW(cfg, c) <= mem.Length
      modifies mem, this`deadRecords
      ensures mem[..] == if SkipsOverwrite(cfg, era) then old(mem[..])
                         else ZeroSlop(old(mem[..]), p + cfg.thunkHeaderW, p + ClosureSizeW(cfg, c))
      ensures deadRecords == old(deadRecords)
        + (if cfg.profiling && era > 0 then [DeadRecord(p, ClosureSizeW(cfg, c))] else [])
    {
      if cfg.profiling && era <= 0 {
        return;
      }
      var size := ClosureSizeW(cfg, c);
      if cfg.profiling {
        deadRecords := deadRecords + [DeadRecord(p, size)];
      }
      ZeroThunkPayload(cfg, p, size - cfg.thunkHeaderW);
    }

    /** The loop of overwritingClosure: `payload[i] := 0` for the first `n`
        payload words of the thunk at `p`. */
    method ZeroThunkPayload(cfg: Config, p: nat, n: nat)
      requires p + cfg.thunkHeaderW + n <= mem.Length
      modifies mem
      ensures mem[..] == ZeroSlop(old(mem[..]), p + cfg.thunkHeaderW, p + cfg.thunkHeaderW + n)
    {
      ghost var before := mem[..];
      var payload := p + cfg.thunkHeaderW;
      for i := 0 to n
        invariant forall k :: 0 <= k < mem.Length ==>
          mem[k] == if payload <= k < payload + i then 0 else before[k]
      {
        mem[payload + i] := 0;
      }
      ZeroSlopFromPointwise(before, mem[..], payload, payload + n);
    }

    /** OVERWRITING_CLOSURE(c): overwritingClosure in profiling builds and in
        single-threaded debugging builds, nothing otherwise. */
    method OverwritingClosureIfEnabled(cfg: Config, era: int, p: nat, c: Closure)
      requires cfg.Valid() && FieldsFit(c.info.closureType, c.fields)
      requires cfg.OverwritingEnabled() ==>
        ClosureSizeW(cfg, c) >= cfg.thunkHeaderW && p + ClosureSizeW(cfg, c) <= mem.Length
      modifies mem, this`deadRecords
      ensures mem[..] == if !cfg.OverwritingEnabled() || SkipsOverwrite(cfg, era) then old(mem[..])
                         else ZeroSlop(old(mem[..]), p + cfg.thunkHeaderW, p + ClosureSizeW(cfg, c))
      ensures deadRecords == old(deadRecords)
        + (if cfg.profiling && era > 0 then [DeadRecord(p, ClosureSizeW(cfg, c))] else [])
    {
      if cfg.OverwritingEnabled() {
        OverwritingClosure(cfg, era, p, c);
      }
    }

    /** OVERWRITE_INFO(c, new_info): zero the old closure's slop when that is
        enabled, then install the new info pointer. */
    method OverwriteInfo(cfg: Config, era: int, p: nat, c: Closure, newInfo: nat)
      requires cfg.Valid() && FieldsFit(c.info.closureType, c.fields)
      requires p < mem.Length
      requires cfg.OverwritingEnabled() ==>
        ClosureSizeW(cfg, c) >= cfg.thunkHeaderW && p + ClosureSizeW(cfg, c) <= mem.Length
      modifies mem, this`deadRecords
      ensures mem[..] == (if !cfg.OverwritingEnabled() || SkipsOverwrite(cfg, era) then old(mem[..])
                          else ZeroSlop(old(mem[..]), p + cfg.thunkHeaderW, p + ClosureSizeW(cfg, c)))[p := newInfo]
      ensures deadRecords == old(deadRecords)
        + (if cfg.profiling && era > 0 then [DeadRecord(p, ClosureSizeW(cfg, c))] else [])
    {
      OverwritingClosureIfEnabled(cfg, era, p, c);
      SetInfo(p, newInfo);
    }
  }

  /** What overwriting a thunk-headed closure leaves: its header words and
      every word outside the closure as they were, every word from the end of
      the thunk header to the end of the closure zero, and room in the
      closure for the indirection that replaces it. */
  lemma OverwriteThunkFootprint(cfg: Config, s: seq<nat>, p: nat, c: Closure, i: nat)
    requires cfg.Valid() && FieldsFit(c.info.closureType, c.fields)
    requires IsThunkHeaded(c.info.closureType)
    requires p + ClosureSizeW(cfg, c) <= |s| && i < |s|
    ensures BlackholeSizeW(cfg) <= ClosureSizeW(cfg, c)
    ensures p + cfg.thunkHeaderW <= p + ClosureSizeW(cfg, c)
    ensures var r := ZeroSlop(s, p + cfg.thunkHeaderW, p + ClosureSizeW(cfg, c));
      && |r| == |s|
      && (i < p + cfg.thunkHeaderW || i >= p + ClosureSizeW(cfg, c) ==> r[i] == s[i])
      && (p + cfg.thunkHeaderW <= i < p + ClosureSizeW(cfg, c) ==> r[i] == 0)
  {
    IndirectionFits(cfg, c.fields, c.info);
    ZeroSlopAt(s, p + cfg.thunkHeaderW, p + ClosureSizeW(cfg, c));
  }
}
