/** Memory regions: contiguous, iovec or page list, and lists of segments of them. */
module MrRegion {
  import opened PdcTypes
  import opened FlatMem
  import opened MrCopy

  const DMA_ADDR_BYTES := 8

  /** The three shapes of a page list; directory entries are page addresses. */
  datatype Pages =
    | Level0(root: int)
    | Level1(dir: seq<int>)
    | Level2(dirs: seq<seq<int>>)

  datatype Pbl = Pbl(pages: Pages, pageSize: nat, pageOffset: nat)

  /** Division and remainder by counting down; `QuotRem` says that they are the usual ones. */
  function Quot(a: nat, m: nat): nat
    requires m > 0
  {
    if a < m then 0 else 1 + Quot(a - m, m)
  }

  function Rem(a: nat, m: nat): (r: nat)
    requires m > 0
    ensures r < m
  {
    if a < m then a else Rem(a - m, m)
  }

  /** The page that byte `abs` of the list is on, and its place there. */
  function PageIdx(p: Pbl, abs: nat): nat
    requires p.pageSize > 0
  {
    Quot(abs, p.pageSize)
  }

  function PageOff(p: Pbl, abs: nat): (o: nat)
    requires p.pageSize > 0
    ensures o < p.pageSize
  {
    Rem(abs, p.pageSize)
  }

  function PerDir(p: Pbl): (n: nat)
    requires p.pageSize >= DMA_ADDR_BYTES
    ensures n > 0
  {
    p.pageSize / DMA_ADDR_BYTES
  }

  predicate HasPage(p: Pbl, idx: nat) {
    match p.pages
    case Level0(_) => true
    case Level1(dir) => idx < |dir|
    case Level2(dirs) =>
      p.pageSize >= DMA_ADDR_BYTES && Quot(idx, PerDir(p)) < |dirs| && Rem(idx, PerDir(p)) < |dirs[Quot(idx, PerDir(p))]|
  }

  function PageBase(p: Pbl, idx: nat): int
    requires HasPage(p, idx) && !p.pages.Level0?
  {
    if p.pages.Level1? then p.pages.dir[idx] else p.pages.dirs[Quot(idx, PerDir(p))][Rem(idx, PerDir(p))]
  }

  /** The page that holds byte `abs` of the page list is there, and inside memory. */
  ghost predicate Backed(p: Pbl, abs: nat, size: nat) {
    && p.pageSize > 0
    && if p.pages.Level0? then 0 <= p.pages.root + abs < size
       else
         var idx := PageIdx(p, abs);
         HasPage(p, idx) && 0 <= PageBase(p, idx) && PageBase(p, idx) + p.pageSize <= size
  }

  ghost predicate PblIn(p: Pbl, len: nat, size: nat) {
    p.pageSize > 0 && forall abs :: p.pageOffset <= abs < p.pageOffset + len ==> Backed(p, abs, size)
  }

  /** The address of byte `abs` of the page list. */
  function PblAddr(p: Pbl, abs: nat): int {
    if p.pages.Level0? then p.pages.root + abs
    else if p.pageSize > 0 && HasPage(p, PageIdx(p, abs)) then PageBase(p, PageIdx(p, abs)) + PageOff(p, abs)
    else 0
  }

  lemma BackedAddr(p: Pbl, abs: nat, size: nat)
    requires Backed(p, abs, size)
    ensures 0 <= PblAddr(p, abs) < size
  {
  }

  /** The flattened address space of a page list of `len` bytes. */
  ghost function PblAddrs(p: Pbl, len: nat): (r: seq<int>)
    ensures |r| == len
  {
    if len == 0 then [] else PblAddrs(p, len - 1) + [PblAddr(p, p.pageOffset + len - 1)]
  }

  lemma {:induction false} PblAt(p: Pbl, len: nat, k: nat)
    requires k < len
    ensures PblAddrs(p, len)[k] == PblAddr(p, p.pageOffset + k)
  {
    if k < len - 1 { PblAt(p, len - 1, k); }
  }

  lemma PblInMem(p: Pbl, len: nat, size: nat)
    requires PblIn(p, len, size)
    ensures InMem(PblAddrs(p, len), size)
  {
    forall k | 0 <= k < len ensures 0 <= PblAddrs(p, len)[k] < size {
      PblAt(p, len, k);
      BackedAddr(p, p.pageOffset + k, size);
    }
  }

  lemma InFlat(dirs: seq<seq<int>>, per: nat, d: nat, e: nat)
    requires d < |dirs| && e < per && forall i :: 0 <= i < |dirs| ==> |dirs[i]| == per
    ensures 0 <= d * per + e < |Flatten(dirs)| && Flatten(dirs)[d * per + e] == dirs[d][e]
  {
    EqualParts(dirs, per, d);
    PartSlice(dirs, d, e, 1);
    var s := PartStart(dirs, d);
    assert Flatten(dirs)[s + e..s + e + 1][0] == dirs[d][e..e + 1][0];
  }

  /** Two directory levels are one: level 2 resolves like level 1 over the concatenated directories. */
  lemma Level2IsLevel1(p: Pbl, abs: nat)
    requires p.pages.Level2? && p.pageSize >= DMA_ADDR_BYTES && HasPage(p, PageIdx(p, abs))
    requires forall i :: 0 <= i < |p.pages.dirs| ==> |p.pages.dirs[i]| == PerDir(p)
    ensures var q := p.(pages := Level1(Flatten(p.pages.dirs)));
      HasPage(q, PageIdx(q, abs)) && PblAddr(q, abs) == PblAddr(p, abs)
  {
    SamePage(p, PageIdx(p, abs));
  }

  lemma SamePage(p: Pbl, idx: nat)
    requires p.pages.Level2? && p.pageSize >= DMA_ADDR_BYTES && HasPage(p, idx)
    requires forall i :: 0 <= i < |p.pages.dirs| ==> |p.pages.dirs[i]| == PerDir(p)
    ensures idx < |Flatten(p.pages.dirs)| && Flatten(p.pages.dirs)[idx] == PageBase(p, idx)
  {
    var per := PerDir(p);
    InFlat(p.pages.dirs, per, Quot(idx, per), Rem(idx, per));
    QuotRem(idx, per);
  }

  lemma {:induction false} EqualParts(parts: seq<seq<int>>, per: nat, i: nat)
    requires i <= |parts| && forall j :: 0 <= j < |parts| ==> |parts[j]| == per
    ensures PartStart(parts, i) == i * per
  {
    if i > 0 {
      EqualParts(parts, per, i - 1);
      assert parts[..i][..i - 1] == parts[..i - 1];
    }
  }

  lemma DivMod(x: int, m: nat, q: int, r: int)
    requires 0 <= r < m && x == q * m + r
    ensures x / m == q && x % m == r
  {
    var d := q - x / m;
    assert d * m == x % m - r;
    assert d >= 1 ==> d * m >= m;
    assert d <= -1 ==> d * m <= 0 - m;
  }

  lemma {:induction false} QuotRem(a: nat, m: nat)
    requires m > 0
    ensures Quot(a, m) * m + Rem(a, m) == a && Quot(a, m) == a / m && Rem(a, m) == a % m
  {
    if a >= m { QuotRem(a - m, m); }
    DivMod(a, m, Quot(a, m), Rem(a, m));
  }

  lemma {:induction false} SameQuot(a: nat, m: nat, j: nat)
    requires m > 0 && Rem(a, m) + j < m
    ensures Quot(a + j, m) == Quot(a, m) && Rem(a + j, m) == Rem(a, m) + j
  {
    if a >= m { SameQuot(a - m, m, j); }
  }

  /** Bytes [abs, abs + n) of the page list are at consecutive addresses from `addr`. */
  ghost predicate IsRun(p: Pbl, abs: nat, n: nat, addr: int) {
    forall a :: abs <= a < abs + n ==> PblAddr(p, a) == addr + (a - abs)
  }

  lemma SamePageAddr(p: Pbl, abs: nat, a: nat)
    requires p.pageSize > 0 && HasPage(p, PageIdx(p, abs)) && abs <= a < abs + (p.pageSize - PageOff(p, abs))
    ensures PblAddr(p, a) == PblAddr(p, abs) + (a - abs)
  {
    SameQuot(abs, p.pageSize, a - abs);
  }

  /** Within a page, consecutive offsets have consecutive addresses. */
  lemma PageRun(p: Pbl, abs: nat)
    requires p.pageSize > 0 && HasPage(p, PageIdx(p, abs))
    ensures IsRun(p, abs, p.pageSize - PageOff(p, abs), PblAddr(p, abs))
  {
    forall a | abs <= a < abs + (p.pageSize - PageOff(p, abs)) ensures PblAddr(p, a) == PblAddr(p, abs) + (a - abs) {
      SamePageAddr(p, abs, a);
    }
  }

  /** The bytes from `abs` to the end of its page. */
  function PageLeft(p: Pbl, abs: nat): nat
    requires p.pageSize > 0
  {
    p.pageSize - PageOff(p, abs)
  }

  lemma PagedRun(p: Pbl, abs: nat, size: nat)
    requires Backed(p, abs, size) && !p.pages.Level0?
    ensures var addr, run := PblAddr(p, abs), PageLeft(p, abs);
      run > 0 && 0 <= addr && addr + run <= size && IsRun(p, abs, run, addr)
  {
    PageRun(p, abs);
  }

  lemma FlatRun(p: Pbl, len: nat, offset: nat, size: nat)
    requires PblIn(p, len, size) && offset < len && p.pages.Level0?
    ensures var abs, addr := p.pageOffset + offset, p.pages.root + p.pageOffset + offset;
      0 <= addr && addr + (len - offset) <= size && addr == PblAddr(p, abs) && IsRun(p, abs, len - offset, addr)
  {
    assert Backed(p, p.pageOffset + offset, size);
    assert Backed(p, p.pageOffset + len - 1, size);
  }

  /** `uet_mr_pbl_resolve` through a page directory. */
  method ResolvePage(p: Pbl, abs: nat, ghost size: nat) returns (addr: int, run: nat)
    requires Backed(p, abs, size) && !p.pages.Level0?
    ensures run > 0 && 0 <= addr && addr + run <= size
    ensures addr == PblAddr(p, abs) && run == PageLeft(p, abs) && IsRun(p, abs, run, addr)
  {
    PagedRun(p, abs, size);
    addr := PageBase(p, PageIdx(p, abs)) + PageOff(p, abs);
    run := PageLeft(p, abs);
  }

  /** `uet_mr_pbl_resolve`: the address of `offset`, and how many bytes follow it without a break. */
  method Resolve(p: Pbl, len: nat, offset: nat, ghost size: nat) returns (addr: int, run: nat)
    requires PblIn(p, len, size) && offset < len
    ensures run > 0 && 0 <= addr && addr + Min(run, len - offset) <= size
    ensures addr == PblAddr(p, p.pageOffset + offset) && IsRun(p, p.pageOffset + offset, run, addr)
    ensures run == if p.pages.Level0? then len - offset else PageLeft(p, p.pageOffset + offset)
  {
    var abs := p.pageOffset + offset;
    if p.pages.Level0? {
      FlatRun(p, len, offset, size);
      run := len - offset;
      addr := p.pages.root + abs;
    } else {
      addr, run := ResolvePage(p, abs, size);
    }
  }

  lemma RunIsRange(p: Pbl, len: nat, offset: nat, n: nat, addr: int)
    requires offset + n <= len && IsRun(p, p.pageOffset + offset, n, addr)
    ensures PblAddrs(p, len)[offset..offset + n] == Range(addr, n)
  {
    var part := PblAddrs(p, len)[offset..offset + n];
    forall j | 0 <= j < n ensures part[j] == addr + j {
      PblAt(p, len, offset + j);
    }
  }

  /** One page of `uet_mr_pbl_copy` into the region. */
  method ScatterPage(mem: array<Byte>, p: Pbl, len: nat, offset: nat, src: seq<Byte>, done: nat, ghost before: seq<Byte>)
    returns (run: nat)
    requires PblIn(p, len, mem.Length) && offset + |src| <= len && done < |src|
    requires Stored(before, mem[..], PblAddrs(p, len), offset, src, done)
    modifies mem
    ensures 0 < run <= |src| - done && Stored(before, mem[..], PblAddrs(p, len), offset, src, done + run)
  {
    var addr, left := Resolve(p, len, offset + done, mem.Length);
    run := Min(left, |src| - done);
    RunIsRange(p, len, offset + done, run, addr);
    CopyRun(mem, addr, src, done, run, before, PblAddrs(p, len), offset);
  }

  /** `uet_mr_pbl_copy` into the region. */
  method ScatterPbl(mem: array<Byte>, p: Pbl, len: nat, offset: nat, src: seq<Byte>) returns (done: nat)
    requires PblIn(p, len, mem.Length) && offset + |src| <= len
    modifies mem
    ensures done == |src| && Stored(old(mem[..]), mem[..], PblAddrs(p, len), offset, src, |src|)
  {
    PblInMem(p, len, mem.Length);
    done := 0;
    StoredNone(mem[..], PblAddrs(p, len), offset, src);
    while done < |src|
      invariant done <= |src|
      invariant Stored(old(mem[..]), mem[..], PblAddrs(p, len), offset, src, done)
    {
      var run := ScatterPage(mem, p, len, offset, src, done, old(mem[..]));
      done := done + run;
    }
  }

  /** `uet_mr_pbl_copy` out of the region. */
  method GatherPbl(mem: array<Byte>, p: Pbl, len: nat, offset: nat, n: nat) returns (dst: seq<Byte>)
    requires PblIn(p, len, mem.Length) && offset + n <= len
    ensures |dst| == n && Loaded(mem[..], PblAddrs(p, len), offset, dst)
  {
    PblInMem(p, len, mem.Length);
    dst := [];
    while |dst| < n
      invariant |dst| <= n && Loaded(mem[..], PblAddrs(p, len), offset, dst)
      decreases n - |dst|
    {
      var addr, run := Resolve(p, len, offset + |dst|, mem.Length);
      run := Min(run, n - |dst|);
      RunIsRange(p, len, offset + |dst|, run, addr);
      dst := ReadRun(mem, addr, dst, run, PblAddrs(p, len), offset);
    }
  }
}
