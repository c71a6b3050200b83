/**
  The copy loops over iovecs, page lists and segment lists, each proved to be a store or a load
  along the flattened address space.  Memory is one array; buffers are addresses in it.
 */
module MrCopy {
  import opened FlatMem

  function Min(a: int, b: int): int {
    if a < b then a else b
  }

  /** memcpy into memory. */
  method CopyIn(mem: array<Byte>, at: nat, src: seq<Byte>)
    requires at + |src| <= mem.Length
    modifies mem
    ensures mem[..] == Store(old(mem[..]), Range(at, |src|), src)
  {
    var i := 0;
    while i < |src|
      invariant 0 <= i <= |src|
      invariant mem[..] == old(mem[..at]) + src[..i] + old(mem[at + i..])
    {
      mem[at + i] := src[i];
      i := i + 1;
    }
    StoreRange(old(mem[..]), at, src);
  }

  ghost predicate IovIn(iov: seq<Iov>, size: nat) {
    forall i :: 0 <= i < |iov| ==> 0 <= iov[i].base && iov[i].base + iov[i].len <= size
  }

  lemma IovInMem(iov: seq<Iov>, size: nat)
    requires IovIn(iov, size)
    ensures InMem(IovAddrs(iov), size)
  {
    PartsInMem(IovParts(iov), size);
  }

  ghost predicate StandsIn(iov: seq<Iov>, i: nat, o: nat, pos: nat) {
    i <= |iov| && (i < |iov| ==> o <= iov[i].len) && (i == |iov| ==> pos == |IovAddrs(iov)|) && Stands(IovParts(iov), i, o, pos)
  }

  /** The bytes moved in one step are the next ones of the flattened space. */
  lemma EntryRun(iov: seq<Iov>, i: nat, o: nat, pos: nat, n: nat)
    requires StandsIn(iov, i, o, pos) && i < |iov| && o + n <= iov[i].len
    ensures pos + n <= |IovAddrs(iov)|
    ensures IovAddrs(iov)[pos..pos + n] == Range(iov[i].base + o, n)
    ensures o + n == iov[i].len ==> StandsIn(iov, i + 1, 0, pos + n)
    ensures StandsIn(iov, i, o + n, pos + n)
  {
    NextRun(IovParts(iov), i, o, pos, n);
    RangeSlice(iov[i].base, iov[i].len, o, n);
  }

  /** The first loop of the iovec copies: find the entry that holds `offset`. */
  method FindEntry(iov: seq<Iov>, offset: nat) returns (i: nat, o: nat)
    ensures StandsIn(iov, i, o, Min(offset, |IovAddrs(iov)|))
  {
    ghost var parts := IovParts(iov);
    var rest := offset;
    i, o := 0, 0;
    assert parts[..0] == [];
    while rest > 0 && i < |iov|
      invariant 0 <= i <= |iov| && rest >= 0 && PartStart(parts, i) + rest == offset && PartStart(parts, i) <= |Flatten(parts)|
      invariant o == 0
    {
      PartSlice(parts, i, 0, 0);
      if iov[i].len <= rest {
        rest := rest - iov[i].len;
        i := i + 1;
      } else {
        o := rest;
        return;
      }
    }
    assert i == |iov| ==> parts[..i] == parts;
  }

  lemma Cut<T>(s: seq<T>, i: nat, j: nat, k: nat)
    requires i <= j <= k <= |s|
    ensures s[i..k] == s[i..j] + s[j..k]
  {
  }

  lemma CutFront<T>(s: seq<T>, j: nat, k: nat)
    requires j <= k <= |s|
    ensures s[..k] == s[..j] + s[j..k]
  {
  }

  lemma StoreTwo(mem: seq<Byte>, ab: seq<int>, de: seq<Byte>, a: seq<int>, d: seq<Byte>, b: seq<int>, e: seq<Byte>)
    requires ab == a + b && de == d + e && |a| == |d| && |b| == |e| && InMem(a, |mem|) && InMem(b, |mem|)
    ensures InMem(ab, |mem|) && Store(mem, ab, de) == Store(Store(mem, a, d), b, e)
  {
    StoreAppend(mem, a, d, b, e);
  }

  /** The first `n` bytes of `data` have been stored along `all` from `lo` on, and nothing else. */
  ghost predicate Stored(before: seq<Byte>, after: seq<Byte>, all: seq<int>, lo: nat, data: seq<Byte>, n: nat) {
    n <= |data| && lo + n <= |all| && InMem(all, |before|) && after == Store(before, all[lo..lo + n], data[..n])
  }

  lemma StoredNone(mem: seq<Byte>, all: seq<int>, lo: nat, data: seq<Byte>)
    requires lo <= |all| && InMem(all, |mem|)
    ensures Stored(mem, mem, all, lo, data, 0)
  {
  }

  /** Storing the next run extends what has been stored. */
  lemma StoredMore(before: seq<Byte>, mid: seq<Byte>, after: seq<Byte>, all: seq<int>, lo: nat, data: seq<Byte>,
                   done: nat, n: nat, run: seq<int>)
    requires Stored(before, mid, all, lo, data, done) && lo + done + n <= |all| && done + n <= |data|
    requires run == all[lo + done..lo + done + n] && InMem(run, |mid|) && after == Store(mid, run, data[done..done + n])
    ensures Stored(before, after, all, lo, data, done + n)
  {
    Cut(all, lo, lo + done, lo + done + n);
    CutFront(data, done, done + n);
    StoreTwo(before, all[lo..lo + done + n], data[..done + n],
      all[lo..lo + done], data[..done], run, data[done..done + n]);
  }

  /** `dst` holds the bytes along `all` from `lo` on. */
  ghost predicate Loaded(mem: seq<Byte>, all: seq<int>, lo: nat, dst: seq<Byte>) {
    lo + |dst| <= |all| && InMem(all, |mem|) && dst == Load(mem, all[lo..lo + |dst|])
  }

  lemma LoadedMore(mem: seq<Byte>, all: seq<int>, lo: nat, dst: seq<Byte>, run: seq<int>, more: seq<Byte>)
    requires Loaded(mem, all, lo, dst) && lo + |dst| + |more| <= |all|
    requires run == all[lo + |dst|..lo + |dst| + |more|] && InMem(run, |mem|) && more == Load(mem, run)
    ensures Loaded(mem, all, lo, dst + more)
  {
  }

  lemma LoadRange(mem: seq<Byte>, a: nat, n: nat)
    requires a + n <= |mem|
    ensures Load(mem, Range(a, n)) == mem[a..a + n]
  {
  }

  /** Copy the next `n` bytes of `data` to one run of addresses. */
  method CopyRun(mem: array<Byte>, at: nat, data: seq<Byte>, done: nat, n: nat,
                 ghost before: seq<Byte>, ghost all: seq<int>, ghost lo: nat)
    requires Stored(before, mem[..], all, lo, data, done) && done + n <= |data| && lo + done + n <= |all|
    requires at + n <= mem.Length && all[lo + done..lo + done + n] == Range(at, n)
    modifies mem
    ensures Stored(before, mem[..], all, lo, data, done + n)
  {
    CopyIn(mem, at, data[done..done + n]);
    StoredMore(before, old(mem[..]), mem[..], all, lo, data, done, n, Range(at, n));
  }

  /** One iteration of `scatter_flat_to_iov`. */
  method ScatterEntry(mem: array<Byte>, iov: seq<Iov>, payload: seq<Byte>, i: nat, o: nat, placed: nat,
                      ghost before: seq<Byte>, ghost lo: nat) returns (i': nat, o': nat, n: nat)
    requires IovIn(iov, mem.Length) && i < |iov| && placed < |payload|
    requires StandsIn(iov, i, o, lo + placed) && Stored(before, mem[..], IovAddrs(iov), lo, payload, placed)
    modifies mem
    ensures n <= |payload| - placed && StandsIn(iov, i', o', lo + placed + n)
    ensures i' == i + 1 || (i' == i && placed + n == |payload|)
    ensures Stored(before, mem[..], IovAddrs(iov), lo, payload, placed + n)
  {
    var avail := iov[i].len - o;
    var remaining := |payload| - placed;
    n := if avail < remaining then avail else remaining;
    EntryRun(iov, i, o, lo + placed, n);
    CopyRun(mem, iov[i].base + o, payload, placed, n, before, IovAddrs(iov), lo);
    if avail < remaining {
      i', o' := i + 1, 0;
    } else {
      i', o' := i, o + n;
    }
  }

  /** `scatter_flat_to_iov`: short exactly when the list ends before the payload does. */
  method ScatterIov(mem: array<Byte>, iov: seq<Iov>, payload: seq<Byte>, offset: nat) returns (placed: nat)
    requires IovIn(iov, mem.Length)
    modifies mem
    ensures var all := IovAddrs(iov); var lo := Min(offset, |all|);
      placed == Min(|payload|, |all| - lo) && Stored(old(mem[..]), mem[..], all, lo, payload, placed)
  {
    ghost var lo := Min(offset, |IovAddrs(iov)|);
    IovInMem(iov, mem.Length);
    var i: nat, o: nat := FindEntry(iov, offset);
    placed := 0;
    StoredNone(mem[..], IovAddrs(iov), lo, payload);
    while placed < |payload| && i < |iov|
      invariant placed <= |payload| && StandsIn(iov, i, o, lo + placed)
      invariant Stored(old(mem[..]), mem[..], IovAddrs(iov), lo, payload, placed)
      decreases |payload| - placed, |iov| - i
    {
      var n;
      i, o, n := ScatterEntry(mem, iov, payload, i, o, placed, old(mem[..]), lo);
      placed := placed + n;
    }
  }

  /** Append `n` bytes from one run of addresses. */
  method ReadRun(mem: array<Byte>, at: nat, dst: seq<Byte>, n: nat, ghost all: seq<int>, ghost lo: nat)
    returns (dst': seq<Byte>)
    requires Loaded(mem[..], all, lo, dst) && lo + |dst| + n <= |all|
    requires at + n <= mem.Length && all[lo + |dst|..lo + |dst| + n] == Range(at, n)
    ensures |dst'| == |dst| + n && Loaded(mem[..], all, lo, dst')
  {
    LoadRange(mem[..], at, n);
    LoadedMore(mem[..], all, lo, dst, Range(at, n), mem[at..at + n]);
    dst' := dst + mem[at..at + n];
  }

  /** `gather_iov_to_flat`: the bytes gathered, as many as the list holds from `offset` on. */
  method GatherIov(mem: array<Byte>, iov: seq<Iov>, len: nat, offset: nat) returns (dst: seq<Byte>)
    requires IovIn(iov, mem.Length)
    ensures var all := IovAddrs(iov); var lo := Min(offset, |all|);
      |dst| == Min(len, |all| - lo) && Loaded(mem[..], all, lo, dst)
  {
    ghost var lo := Min(offset, |IovAddrs(iov)|);
    IovInMem(iov, mem.Length);
    var i: nat, o: nat := FindEntry(iov, offset);
    dst := [];
    while |dst| < len && i < |iov|
      invariant i <= |iov| && |dst| <= len
      invariant |dst| < len ==> StandsIn(iov, i, o, lo + |dst|)
      invariant Loaded(mem[..], IovAddrs(iov), lo, dst)
      decreases |iov| - i
    {
      var n := Min(iov[i].len - o, len - |dst|);
      EntryRun(iov, i, o, lo + |dst|, n);
      dst := ReadRun(mem, iov[i].base + o, dst, n, IovAddrs(iov), lo);
      i, o := i + 1, 0;
    }
  }

  // ---------------------------------------------------------------- what every copy satisfies

  lemma SliceDistinct(all: seq<int>, lo: nat, hi: nat)
    requires Distinct(all) && lo <= hi <= |all|
    ensures Distinct(all[lo..hi])
  {
  }

  /**
    Over disjoint backing, a scatter into any kind of buffer is a copy on one flat byte sequence,
    and no byte outside the range changes.
   */
  lemma ScatterIsSplice(before: seq<Byte>, after: seq<Byte>, all: seq<int>, lo: nat, data: seq<Byte>)
    requires Stored(before, after, all, lo, data, |data|) && Distinct(all)
    ensures Load(after, all) == Splice(Load(before, all), lo, data)
    ensures forall x :: 0 <= x < |before| && (forall i :: lo <= i < lo + |data| ==> all[i] != x) ==> after[x] == before[x]
  {
    assert data[..|data|] == data;
    FlatWrite(before, all, lo, data);
  }

  /** A gather after a scatter at the same place returns what was scattered. */
  lemma GatherUndoesScatter(before: seq<Byte>, after: seq<Byte>, all: seq<int>, lo: nat, data: seq<Byte>, dst: seq<Byte>)
    requires Stored(before, after, all, lo, data, |data|) && Distinct(all)
    requires Loaded(after, all, lo, dst) && |dst| == |data|
    ensures dst == data
  {
    assert data[..|data|] == data;
    SliceDistinct(all, lo, lo + |data|);
    ScatterThenGather(before, all[lo..lo + |data|], data);
  }

  /** Scattering back what was gathered there leaves memory as it was, disjoint backing or not. */
  lemma ScatterUndoesGather(before: seq<Byte>, after: seq<Byte>, all: seq<int>, lo: nat, dst: seq<Byte>)
    requires Loaded(before, all, lo, dst) && Stored(before, after, all, lo, dst, |dst|)
    ensures after == before
  {
    assert dst[..|dst|] == dst;
    GatherThenScatter(before, all[lo..lo + |dst|]);
  }
}
