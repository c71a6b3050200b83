/** Copies over whole regions and over lists of segments, and the resolution of atomic operands. */
module MrSegment {
  import opened PdcTypes
  import opened FlatMem
  import opened MrCopy
  import opened MrRegion

  datatype Region =
    | Contig(base: int, len: nat)
    | Vector(iov: seq<Iov>, len: nat)
    | Paged(pbl: Pbl, len: nat)

  /** A registered region; `baseVa` is the address of its first byte in the convention of its users. */
  datatype Mr = Mr(region: Region, baseVa: nat, enabled: bool)

  ghost predicate RegionIn(r: Region, size: nat) {
    match r
    case Contig(base, len) => 0 <= base && base + len <= size
    case Vector(iov, len) => IovIn(iov, size) && len == |IovAddrs(iov)|
    case Paged(pbl, len) => PblIn(pbl, len, size)
  }

  /** The flattened address space of a region. */
  ghost function Addrs(r: Region): seq<int> {
    match r
    case Contig(base, len) => Range(base, len)
    case Vector(iov, _) => IovAddrs(iov)
    case Paged(pbl, len) => PblAddrs(pbl, len)
  }

  lemma RegionInMem(r: Region, size: nat)
    requires RegionIn(r, size)
    ensures |Addrs(r)| == r.len && InMem(Addrs(r), size)
  {
    match r
    case Contig(_, _) =>
    case Vector(iov, _) => IovInMem(iov, size);
    case Paged(pbl, len) => PblInMem(pbl, len, size);
  }

  /** `uet_mr_scatter`: all of the source, or nothing when the region is too short at that offset. */
  method MrScatter(mem: array<Byte>, r: Region, offset: nat, src: seq<Byte>) returns (placed: nat)
    requires RegionIn(r, mem.Length)
    modifies mem
    ensures placed == if offset + |src| <= r.len then |src| else 0
    ensures if offset + |src| <= r.len then Stored(old(mem[..]), mem[..], Addrs(r), offset, src, |src|)
            else mem[..] == old(mem[..])
  {
    if offset > r.len || |src| > r.len - offset {
      return 0;
    }
    RegionInMem(r, mem.Length);
    match r
    case Contig(base, len) =>
      StoredNone(mem[..], Addrs(r), offset, src);
      RangeSlice(base, len, offset, |src|);
      CopyRun(mem, base + offset, src, 0, |src|, old(mem[..]), Addrs(r), offset);
      placed := |src|;
    case Vector(iov, _) =>
      placed := ScatterIov(mem, iov, src, offset);
    case Paged(pbl, len) =>
      placed := ScatterPbl(mem, pbl, len, offset, src);
  }

  /** `uet_mr_gather`. */
  method MrGather(mem: array<Byte>, r: Region, offset: nat, n: nat) returns (dst: seq<Byte>)
    requires RegionIn(r, mem.Length)
    ensures if offset + n <= r.len then |dst| == n && Loaded(mem[..], Addrs(r), offset, dst) else dst == []
  {
    dst := [];
    if offset > r.len || n > r.len - offset {
      return;
    }
    RegionInMem(r, mem.Length);
    match r
    case Contig(base, len) =>
      RangeSlice(base, len, offset, n);
      dst := ReadRun(mem, base + offset, [], n, Addrs(r), offset);
    case Vector(iov, _) =>
      dst := GatherIov(mem, iov, n, offset);
    case Paged(pbl, len) =>
      dst := GatherPbl(mem, pbl, len, offset, n);
  }

  /** `uet_mr_addr_to_offset`: defined exactly for ranges inside the region. */
  function AddrToOffset(mr: Mr, addr: nat, len: nat): (off: Option<nat>)
    ensures off.Some? <==> mr.baseVa <= addr && addr + len <= mr.baseVa + mr.region.len
    ensures off.Some? ==> mr.baseVa + off.value == addr
  {
    if addr < mr.baseVa then None
    else if addr - mr.baseVa > mr.region.len || len > mr.region.len - (addr - mr.baseVa) then None
    else Some(addr - mr.baseVa)
  }

  // ---------------------------------------------------------------- segment lists

  datatype Seg = Seg(mr: Mr, addr: nat, len: nat)

  predicate SegOk(s: Seg) {
    s.mr.enabled && AddrToOffset(s.mr, s.addr, s.len).Some?
  }

  /** `uet_seg_validate`. */
  method SegValidate(segs: seq<Seg>) returns (ok: bool)
    ensures ok <==> segs != [] && forall i :: 0 <= i < |segs| ==> SegOk(segs[i])
  {
    if |segs| == 0 {
      return false;
    }
    var i := 0;
    while i < |segs|
      invariant 0 <= i <= |segs|
      invariant forall j :: 0 <= j < i ==> SegOk(segs[j])
    {
      if !SegOk(segs[i]) {
        return false;
      }
      i := i + 1;
    }
    ok := true;
  }

  /** The segments name parts of regions that lie in memory. */
  ghost predicate SegsIn(segs: seq<Seg>, size: nat) {
    forall i :: 0 <= i < |segs| ==> SegOk(segs[i]) && RegionIn(segs[i].mr.region, size)
  }

  ghost function SegAddrs(s: Seg, size: nat): (r: seq<int>)
    requires SegOk(s) && RegionIn(s.mr.region, size)
    ensures |r| == s.len && InMem(r, size)
  {
    RegionInMem(s.mr.region, size);
    var off := s.addr - s.mr.baseVa;
    Addrs(s.mr.region)[off..off + s.len]
  }

  ghost function SegParts(segs: seq<Seg>, size: nat): (r: seq<seq<int>>)
    requires SegsIn(segs, size)
    ensures |r| == |segs| && forall i :: 0 <= i < |segs| ==> r[i] == SegAddrs(segs[i], size)
  {
    seq(|segs|, i requires 0 <= i < |segs| => SegAddrs(segs[i], size))
  }

  ghost function ListAddrs(segs: seq<Seg>, size: nat): (r: seq<int>)
    requires SegsIn(segs, size)
    ensures InMem(r, size)
  {
    PartsInMem(SegParts(segs, size), size);
    Flatten(SegParts(segs, size))
  }

  /** Segment `s` takes up bytes `from` to `to` of `all`. */
  ghost predicate LaidAt(s: Seg, size: nat, all: seq<int>, from: nat, to: nat)
    requires SegOk(s) && RegionIn(s.mr.region, size)
  {
    from + s.len == to <= |all| && all[from..to] == SegAddrs(s, size)
  }

  /** `all` is the segments end to end, with segment `i` at `starts[i]`. */
  ghost predicate Layout(segs: seq<Seg>, size: nat, all: seq<int>, starts: seq<nat>) {
    && SegsIn(segs, size) && |starts| == |segs| + 1 && starts[|segs|] == |all|
    && forall i :: 0 <= i < |segs| ==> LaidAt(segs[i], size, all, starts[i], starts[i + 1])
  }

  ghost function PartStarts(parts: seq<seq<int>>): (starts: seq<nat>)
    ensures |starts| == |parts| + 1 && starts[0] == 0 && starts[|parts|] == |Flatten(parts)|
    ensures forall i :: 0 <= i <= |parts| ==> starts[i] == PartStart(parts, i)
  {
    assert parts[..0] == [] && parts[..|parts|] == parts;
    seq(|parts| + 1, i requires 0 <= i <= |parts| => PartStart(parts, i))
  }

  lemma LayoutOf(segs: seq<Seg>, size: nat) returns (starts: seq<nat>)
    requires SegsIn(segs, size)
    ensures Layout(segs, size, ListAddrs(segs, size), starts) && starts[0] == 0
  {
    var parts := SegParts(segs, size);
    starts := PartStarts(parts);
    forall i | 0 <= i < |segs| ensures LaidAt(segs[i], size, ListAddrs(segs, size), starts[i], starts[i + 1]) {
      PartWhole(parts, i);
    }
  }

  /** Byte `o` of segment `i` is byte `pos` of the segments end to end. */
  ghost predicate StandsAt(segs: seq<Seg>, starts: seq<nat>, i: nat, o: nat, pos: nat)
    requires |starts| == |segs| + 1
  {
    i <= |segs| && (if i < |segs| then o <= segs[i].len && pos == starts[i] + o else pos == starts[i])
  }

  /** The first loop of `uet_seg_copy`: find the segment that holds `offset`. */
  method FindSeg(segs: seq<Seg>, offset: nat, ghost size: nat, ghost all: seq<int>, ghost starts: seq<nat>)
    returns (i: nat, within: nat)
    requires Layout(segs, size, all, starts) && starts[0] == 0
    ensures StandsAt(segs, starts, i, within, Min(offset, |all|))
  {
    i, within := 0, offset;
    while i < |segs|
      invariant 0 <= i <= |segs| && starts[i] + within == offset
    {
      assert LaidAt(segs[i], size, all, starts[i], starts[i + 1]);
      if within < segs[i].len {
        return;
      }
      within := within - segs[i].len;
      i := i + 1;
    }
    within := 0;
  }

  lemma SliceSlice(a: seq<int>, off: nat, len: nat, o: nat, n: nat)
    requires off + len <= |a| && o + n <= len
    ensures a[off..off + len][o..o + n] == a[off + o..off + o + n]
  {
    var x, y := a[off..off + len][o..o + n], a[off + o..off + o + n];
    forall k | 0 <= k < n ensures x[k] == y[k] {
      assert x[k] == a[off..off + len][o + k];
    }
  }

  /** Part of a segment is a slice of its region. */
  lemma SegSlice(s: Seg, size: nat, o: nat, n: nat)
    requires SegOk(s) && RegionIn(s.mr.region, size) && o + n <= s.len
    ensures var mo := s.addr + o - s.mr.baseVa;
      && |Addrs(s.mr.region)| == s.mr.region.len && 0 <= mo && mo + n <= s.mr.region.len
      && SegAddrs(s, size)[o..o + n] == Addrs(s.mr.region)[mo..mo + n]
  {
    RegionInMem(s.mr.region, size);
    SliceSlice(Addrs(s.mr.region), s.addr - s.mr.baseVa, s.len, o, n);
  }

  /** The next `run` bytes of the walk are the bytes of segment `s` from `within` on. */
  ghost predicate SegPart(s: Seg, size: nat, within: nat, run: nat, all: seq<int>, pos: nat) {
    && SegOk(s) && RegionIn(s.mr.region, size) && within + run <= s.len && pos + run <= |all|
    && all[pos..pos + run] == SegAddrs(s, size)[within..within + run]
  }

  /** Where the walk stands after `run` bytes of segment `i`. */
  function WalkOn(segs: seq<Seg>, i: nat, within: nat, run: nat): (nat, nat)
    requires i < |segs|
  {
    if within + run == segs[i].len then (i + 1, 0) else (i, within + run)
  }

  lemma WalkRun(segs: seq<Seg>, size: nat, all: seq<int>, starts: seq<nat>, i: nat, within: nat, run: nat, pos: nat)
    requires Layout(segs, size, all, starts) && StandsAt(segs, starts, i, within, pos)
    requires i < |segs| && within + run <= segs[i].len
    ensures SegPart(segs[i], size, within, run, all, pos)
    ensures var (i', within') := WalkOn(segs, i, within, run); StandsAt(segs, starts, i', within', pos + run)
  {
    var s, from, to := segs[i], starts[i], starts[i + 1];
    assert LaidAt(s, size, all, from, to);
    SliceSlice(all, from, s.len, within, run);
  }

  /** A chunk that lies inside the region is stored whole. */
  method ScatterChunk(mem: array<Byte>, r: Region, off: nat, chunk: seq<Byte>)
    requires RegionIn(r, mem.Length) && off + |chunk| <= r.len
    modifies mem
    ensures |Addrs(r)| == r.len && InMem(Addrs(r)[off..off + |chunk|], mem.Length)
    ensures mem[..] == Store(old(mem[..]), Addrs(r)[off..off + |chunk|], chunk)
  {
    RegionInMem(r, mem.Length);
    var moved := MrScatter(mem, r, off, chunk);
    assert chunk[..|chunk|] == chunk;
  }

  /** One iteration of `uet_seg_copy` towards the segments. */
  method ScatterSegEntry(mem: array<Byte>, s: Seg, within: nat, payload: seq<Byte>, done: nat, run: nat,
                         ghost before: seq<Byte>, ghost all: seq<int>, ghost lo: nat)
    requires SegPart(s, mem.Length, within, run, all, lo + done)
    requires Stored(before, mem[..], all, lo, payload, done) && done + run <= |payload|
    modifies mem
    ensures Stored(before, mem[..], all, lo, payload, done + run)
  {
    var off := AddrToOffset(s.mr, s.addr + within, run);
    assert off.Some?;
    SegSlice(s, mem.Length, within, run);
    ghost var mid := mem[..];
    ScatterChunk(mem, s.mr.region, off.value, payload[done..done + run]);
    StoredMore(before, mid, mem[..], all, lo, payload, done, run, Addrs(s.mr.region)[off.value..off.value + run]);
  }

  /** What has been copied when the walk stands at segment `i`. */
  ghost predicate Copied(before: seq<Byte>, after: seq<Byte>, segs: seq<Seg>, all: seq<int>, starts: seq<nat>, payload: seq<Byte>, lo: nat,
                         i: nat, within: nat, done: nat) {
    && Layout(segs, |before|, all, starts) && done <= |payload| && StandsAt(segs, starts, i, within, lo + done)
    && Stored(before, after, all, lo, payload, done)
  }

  /** The iteration at segment `i`: either the payload ends here or the segment does. */
  method ScatterSegStep(mem: array<Byte>, segs: seq<Seg>, i: nat, within: nat, payload: seq<Byte>, done: nat,
                        ghost before: seq<Byte>, ghost all: seq<int>, ghost starts: seq<nat>, ghost lo: nat)
    returns (i': nat, within': nat, run: nat)
    requires |before| == mem.Length && Copied(before, mem[..], segs, all, starts, payload, lo, i, within, done)
    requires i < |segs| && done < |payload|
    modifies mem
    ensures Copied(before, mem[..], segs, all, starts, payload, lo, i', within', done + run)
    ensures i' == i + 1 || (i' == i && done + run == |payload|)
  {
    run := Min(segs[i].len - within, |payload| - done);
    var at := WalkOn(segs, i, within, run);
    assert SegPart(segs[i], |before|, within, run, all, lo + done)
      && StandsAt(segs, starts, at.0, at.1, lo + done + run) by {
      WalkRun(segs, |before|, all, starts, i, within, run, lo + done);
    }
    ScatterSegEntry(mem, segs[i], within, payload, done, run, before, all, lo);
    i', within' := at.0, at.1;
  }

  lemma CopiedAll(before: seq<Byte>, after: seq<Byte>, segs: seq<Seg>, all: seq<int>, starts: seq<nat>, payload: seq<Byte>, lo: nat,
                  i: nat, within: nat, done: nat)
    requires Copied(before, after, segs, all, starts, payload, lo, i, within, done) && (i >= |segs| || done >= |payload|)
    ensures done == Min(|payload|, |all| - lo)
  {
  }

  /** The second loop of `uet_seg_copy`. */
  method ScatterSegs(mem: array<Byte>, segs: seq<Seg>, first: nat, offset: nat, payload: seq<Byte>,
                     ghost all: seq<int>, ghost starts: seq<nat>, ghost lo: nat) returns (done: nat)
    requires Copied(mem[..], mem[..], segs, all, starts, payload, lo, first, offset, 0)
    modifies mem
    ensures Stored(old(mem[..]), mem[..], all, lo, payload, done)
    ensures done == Min(|payload|, |all| - lo)
  {
    ghost var before := mem[..];
    var i: nat, within: nat, run: nat := first, offset, 0;
    done := 0;
    while i < |segs| && done < |payload|
      invariant Copied(before, mem[..], segs, all, starts, payload, lo, i, within, done)
      decreases |payload| - done, |segs| - i
    {
      i, within, run := ScatterSegStep(mem, segs, i, within, payload, done, before, all, starts, lo);
      done := done + run;
    }
    CopiedAll(before, mem[..], segs, all, starts, payload, lo, i, within, done);
  }

  /** `scatter_flat_to_seg`, over a list that passes validation. */
  method ScatterSeg(mem: array<Byte>, segs: seq<Seg>, payload: seq<Byte>, offset: nat) returns (done: nat)
    requires SegsIn(segs, mem.Length)
    modifies mem
    ensures var all := ListAddrs(segs, mem.Length); var lo := Min(offset, |all|);
      done == Min(|payload|, |all| - lo) && Stored(old(mem[..]), mem[..], all, lo, payload, done)
  {
    ghost var all := ListAddrs(segs, mem.Length);
    ghost var lo := Min(offset, |all|);
    ghost var starts := LayoutOf(segs, mem.Length);
    var i: nat, within: nat := FindSeg(segs, offset, mem.Length, all, starts);
    StoredNone(mem[..], all, lo, payload);
    done := ScatterSegs(mem, segs, i, within, payload, all, starts, lo);
  }

  /** One iteration of `uet_seg_copy` from the segments. */
  method GatherSegEntry(mem: array<Byte>, s: Seg, within: nat, dst: seq<Byte>, run: nat, ghost all: seq<int>, ghost lo: nat)
    returns (dst': seq<Byte>)
    requires Loaded(mem[..], all, lo, dst) && SegPart(s, mem.Length, within, run, all, lo + |dst|)
    ensures |dst'| == |dst| + run && Loaded(mem[..], all, lo, dst')
  {
    var off := AddrToOffset(s.mr, s.addr + within, run);
    assert off.Some?;
    SegSlice(s, mem.Length, within, run);
    var chunk := MrGather(mem, s.mr.region, off.value, run);
    LoadedMore(mem[..], all, lo, dst, Addrs(s.mr.region)[off.value..off.value + run], chunk);
    dst' := dst + chunk;
  }

  method GatherSegStep(mem: array<Byte>, segs: seq<Seg>, i: nat, within: nat, dst: seq<Byte>, len: nat,
                       ghost all: seq<int>, ghost starts: seq<nat>, ghost lo: nat)
    returns (i': nat, within': nat, dst': seq<Byte>)
    requires Layout(segs, mem.Length, all, starts)
    requires i < |segs| && |dst| < len && StandsAt(segs, starts, i, within, lo + |dst|)
    requires Loaded(mem[..], all, lo, dst)
    ensures |dst'| <= len && StandsAt(segs, starts, i', within', lo + |dst'|)
    ensures |dst| <= |dst'| && (i' == i + 1 || (i' == i && |dst'| == len))
    ensures Loaded(mem[..], all, lo, dst')
  {
    var run := Min(segs[i].len - within, len - |dst|);
    var at := WalkOn(segs, i, within, run);
    assert SegPart(segs[i], mem.Length, within, run, all, lo + |dst|)
      && StandsAt(segs, starts, at.0, at.1, lo + |dst| + run) by {
      WalkRun(segs, mem.Length, all, starts, i, within, run, lo + |dst|);
    }
    dst' := GatherSegEntry(mem, segs[i], within, dst, run, all, lo);
    i', within' := at.0, at.1;
  }

  /** `gather_seg_to_flat`, over a list that passes validation. */
  method GatherSeg(mem: array<Byte>, segs: seq<Seg>, len: nat, offset: nat) returns (dst: seq<Byte>)
    requires SegsIn(segs, mem.Length)
    ensures var all := ListAddrs(segs, mem.Length); var lo := Min(offset, |all|);
      |dst| == Min(len, |all| - lo) && Loaded(mem[..], all, lo, dst)
  {
    ghost var all := ListAddrs(segs, mem.Length);
    ghost var lo := Min(offset, |all|);
    ghost var starts := LayoutOf(segs, mem.Length);
    var i: nat, within: nat := FindSeg(segs, offset, mem.Length, all, starts);
    dst := [];
    while i < |segs| && |dst| < len
      invariant |dst| <= len && StandsAt(segs, starts, i, within, lo + |dst|)
      invariant Loaded(mem[..], all, lo, dst)
      decreases len - |dst|, |segs| - i
    {
      i, within, dst := GatherSegStep(mem, segs, i, within, dst, len, all, starts, lo);
    }
  }

  // ---------------------------------------------------------------- atomic operands

  /** The entry a walk from entry `i` with `rem` bytes to go ends in, and the bytes left then. */
  function EntryAt(iov: seq<Iov>, i: nat, rem: nat): (nat, nat)
    decreases |iov| - i
  {
    if i < |iov| && rem >= iov[i].len then EntryAt(iov, i + 1, rem - iov[i].len) else (i, rem)
  }

  lemma {:induction false} EntryAtSpec(iov: seq<Iov>, i: nat, rem: nat)
    requires i <= |iov|
    ensures var (j, o) := EntryAt(iov, i, rem); var parts := IovParts(iov);
      && i <= j <= |iov| && PartStart(parts, i) + rem == PartStart(parts, j) + o
      && (j < |iov| ==> o < iov[j].len)
    decreases |iov| - i
  {
    if i < |iov| && rem >= iov[i].len {
      PartSlice(IovParts(iov), i, 0, 0);
      EntryAtSpec(iov, i + 1, rem - iov[i].len);
    }
  }

  /** The bytes that follow `offset` in the same entry, page or buffer. */
  function RunLeft(r: Region, offset: nat): nat
    requires offset <= r.len && (r.Paged? ==> r.pbl.pageSize > 0)
  {
    match r
    case Contig(_, len) => len - offset
    case Vector(iov, _) => var (j, o) := EntryAt(iov, 0, offset); if j < |iov| && o < iov[j].len then iov[j].len - o else 0
    case Paged(pbl, len) => if pbl.pages.Level0? then len - offset else PageLeft(pbl, pbl.pageOffset + offset)
  }

  /** Where `uet_mr_atomic_addr` finds `offset`. */
  ghost predicate Located(r: Region, offset: nat, len: nat, p: int, run: nat)
    requires offset + len <= |Addrs(r)| && len > 0
  {
    Addrs(r)[offset] == p && (run >= len ==> Addrs(r)[offset..offset + len] == Range(p, len))
  }

  method LocateIov(iov: seq<Iov>, offset: nat) returns (i: nat, rem: nat)
    ensures (i, rem) == EntryAt(iov, 0, offset)
  {
    i, rem := 0, offset;
    while i < |iov| && rem >= iov[i].len
      invariant EntryAt(iov, i, rem) == EntryAt(iov, 0, offset)
      decreases |iov| - i
    {
      rem := rem - iov[i].len;
      i := i + 1;
    }
  }

  lemma LocatedContig(r: Region, offset: nat, len: nat)
    requires r.Contig? && offset + len <= r.len && len > 0
    ensures Located(r, offset, len, r.base + offset, RunLeft(r, offset))
  {
  }

  lemma EntryHolds(iov: seq<Iov>, offset: nat, i: nat, rem: nat)
    requires offset < |IovAddrs(iov)| && (i, rem) == EntryAt(iov, 0, offset)
    ensures i < |iov| && rem < iov[i].len && PartStart(IovParts(iov), i) + rem == offset
  {
    var parts := IovParts(iov);
    assert parts[..0] == [];
    EntryAtSpec(iov, 0, offset);
    assert parts[..|iov|] == parts;
  }

  lemma EntrySlice(iov: seq<Iov>, offset: nat, i: nat, rem: nat, n: nat)
    requires i < |iov| && rem + n <= iov[i].len && PartStart(IovParts(iov), i) + rem == offset
    ensures offset + n <= |IovAddrs(iov)| && IovAddrs(iov)[offset..offset + n] == Range(iov[i].base + rem, n)
  {
    PartSlice(IovParts(iov), i, rem, n);
    RangeSlice(iov[i].base, iov[i].len, rem, n);
  }

  lemma LocatedIov(iov: seq<Iov>, size: nat, offset: nat, len: nat, i: nat, rem: nat)
    requires RegionIn(Vector(iov, |IovAddrs(iov)|), size) && offset + len <= |IovAddrs(iov)| && len > 0
    requires (i, rem) == EntryAt(iov, 0, offset)
    ensures i < |iov| && rem < iov[i].len
    ensures Located(Vector(iov, |IovAddrs(iov)|), offset, len, iov[i].base + rem, iov[i].len - rem)
  {
    EntryHolds(iov, offset, i, rem);
    EntrySlice(iov, offset, i, rem, 1);
    assert IovAddrs(iov)[offset] == IovAddrs(iov)[offset..offset + 1][0];
    if iov[i].len - rem >= len { EntrySlice(iov, offset, i, rem, len); }
  }

  lemma LocatedPbl(pbl: Pbl, size: nat, offset: nat, len: nat, total: nat, addr: int, run: nat)
    requires PblIn(pbl, total, size) && offset + len <= total && len > 0
    requires addr == PblAddr(pbl, pbl.pageOffset + offset) && IsRun(pbl, pbl.pageOffset + offset, run, addr)
    ensures Located(Paged(pbl, total), offset, len, addr, run)
  {
    PblAt(pbl, total, offset);
    if run >= len { RunIsRange(pbl, total, offset, len, addr); }
  }

  /** The address of `offset`, and the bytes that follow it in the same entry, page or buffer. */
  method Locate(r: Region, offset: nat, len: nat, ghost size: nat) returns (addr: int, run: nat)
    requires RegionIn(r, size) && len > 0 && offset + len <= r.len
    ensures (r.Paged? ==> r.pbl.pageSize > 0) && run == RunLeft(r, offset) && Located(r, offset, len, addr, run)
  {
    match r {
      case Contig(base, _) =>
        LocatedContig(r, offset, len);
        addr, run := base + offset, r.len - offset;
      case Vector(iov, _) =>
        var i, rem := LocateIov(iov, offset);
        LocatedIov(iov, size, offset, len, i, rem);
        addr, run := iov[i].base + rem, iov[i].len - rem;
      case Paged(pbl, total) =>
        addr, run := Resolve(pbl, total, offset, size);
        LocatedPbl(pbl, size, offset, len, total, addr, run);
    }
  }

  /**
    `uet_mr_atomic_addr`: an address exactly when the operand is in range, in one run and naturally
    aligned; the address is then that of the same bytes a gather would read.
   */
  method AtomicAddr(r: Region, offset: nat, len: nat, ghost size: nat) returns (p: Option<int>)
    requires RegionIn(r, size) && len > 0
    ensures p.Some? <==>
      offset + len <= r.len && (r.Paged? ==> r.pbl.pageSize > 0) && len <= RunLeft(r, offset) && Addrs(r)[offset] % len == 0
    ensures p.Some? ==> Addrs(r)[offset..offset + len] == Range(p.value, len)
  {
    if offset > r.len || len > r.len - offset {
      return None;
    }
    var addr, run := Locate(r, offset, len, size);
    if run < len || addr % len != 0 {
      return None;
    }
    p := Some(addr);
  }

  lemma MultipleBelow(m: int, n: int, len: nat)
    requires len > 0 && m * len < n * len
    ensures (m + 1) * len <= n * len
  {
    if m + 1 <= n {
      MulLe(m + 1, n, len);
    } else {
      MulLe(n, m, len);
      assert false;
    }
  }

  lemma MulLe(a: int, b: int, c: nat)
    requires a <= b
    ensures a * c <= b * c
  {
  }

  lemma AlignedInPage(abs: nat, len: nat, perPage: nat, q: nat, o: nat)
    requires len > 0 && abs == q * (perPage * len) + o && o < perPage * len && abs % len == 0
    ensures o % len == 0 && o + len <= perPage * len
  {
    var c := abs / len;
    var m := c - q * perPage;
    assert q * (perPage * len) == (q * perPage) * len;
    assert o == c * len - (q * perPage) * len == m * len;
    MultipleBelow(m, perPage, len);
    Multiple(m, len);
  }

  lemma Multiple(m: int, len: nat)
    requires len > 0
    ensures (m * len) % len == 0
  {
    DivMod(m * len, len, m, 0);
  }

  lemma SumAligned(a: int, b: int, len: nat)
    requires len > 0 && a % len == 0 && b % len == 0
    ensures (a + b) % len == 0
  {
    assert a + b == (a / len + b / len) * len;
    Multiple(a / len + b / len, len);
  }

  /** A naturally aligned operand never straddles a page: over aligned pages an aligned offset always resolves. */
  lemma AlignedFitsPage(p: Pbl, abs: nat, len: nat, perPage: nat)
    requires p.pageSize == perPage * len && len > 0 && p.pageSize > 0 && abs % len == 0
    ensures len <= PageLeft(p, abs)
    ensures HasPage(p, PageIdx(p, abs)) && !p.pages.Level0? && PageBase(p, PageIdx(p, abs)) % len == 0 ==>
              PblAddr(p, abs) % len == 0
  {
    var q, o := PageIdx(p, abs), PageOff(p, abs);
    QuotRem(abs, p.pageSize);
    AlignedInPage(abs, len, perPage, q, o);
    if HasPage(p, q) && !p.pages.Level0? && PageBase(p, q) % len == 0 {
      SumAligned(PageBase(p, q), o, len);
    }
  }
}
