/**
  Byte memory and the flattened address spaces laid over it.  A buffer, however it is described,
  is a sequence of addresses; copying into or out of it is storing or loading along that sequence.
 */
module FlatMem {

  type Byte = x: int | 0 <= x < 256

  ghost predicate InMem(addrs: seq<int>, size: nat) {
    forall i :: 0 <= i < |addrs| ==> 0 <= addrs[i] < size
  }

  ghost predicate Distinct(addrs: seq<int>) {
    forall i, j :: 0 <= i < j < |addrs| ==> addrs[i] != addrs[j]
  }

  /** Memory after writing `data` along `addrs`, in order. */
  ghost function Store(mem: seq<Byte>, addrs: seq<int>, data: seq<Byte>): (r: seq<Byte>)
    requires |addrs| == |data| && InMem(addrs, |mem|)
    ensures |r| == |mem|
  {
    if addrs == [] then mem
    else
      var n := |addrs| - 1;
      Store(mem, addrs[..n], data[..n])[addrs[n] := data[n]]
  }

  /** The bytes found along `addrs`. */
  ghost function Load(mem: seq<Byte>, addrs: seq<int>): (r: seq<Byte>)
    requires InMem(addrs, |mem|)
    ensures |r| == |addrs| && forall i :: 0 <= i < |addrs| ==> r[i] == mem[addrs[i]]
  {
    seq(|addrs|, i requires 0 <= i < |addrs| => mem[addrs[i]])
  }

  ghost function Range(a: int, n: nat): (r: seq<int>)
    ensures |r| == n && forall i :: 0 <= i < n ==> r[i] == a + i
  {
    seq(n, i requires 0 <= i < n => a + i)
  }

  /** `flat` with `data` in place of what stood at `off`. */
  ghost function Splice(flat: seq<Byte>, off: nat, data: seq<Byte>): seq<Byte>
    requires off + |data| <= |flat|
  {
    flat[..off] + data + flat[off + |data|..]
  }

  lemma {:induction false} StoreAppend(mem: seq<Byte>, a: seq<int>, d: seq<Byte>, b: seq<int>, e: seq<Byte>)
    requires |a| == |d| && |b| == |e| && InMem(a, |mem|) && InMem(b, |mem|)
    ensures InMem(a + b, |mem|) && Store(mem, a + b, d + e) == Store(Store(mem, a, d), b, e)
  {
    if b == [] {
      assert a + b == a && d + e == d;
    } else {
      var n := |b| - 1;
      StoreAppend(mem, a, d, b[..n], e[..n]);
      assert (a + b)[..|a| + n] == a + b[..n] && (d + e)[..|a| + n] == d + e[..n];
    }
  }

  /** Storing along consecutive addresses is one block copy. */
  lemma {:induction false} StoreRange(mem: seq<Byte>, a: nat, d: seq<Byte>)
    requires a + |d| <= |mem|
    ensures Store(mem, Range(a, |d|), d) == mem[..a] + d + mem[a + |d|..]
  {
    if d != [] {
      var n := |d| - 1;
      StoreRange(mem, a, d[..n]);
      assert Range(a, |d|)[..n] == Range(a, n);
    }
  }

  lemma {:induction false} StoreFrame(mem: seq<Byte>, a: seq<int>, d: seq<Byte>, x: nat)
    requires |a| == |d| && InMem(a, |mem|) && x < |mem|
    requires forall i :: 0 <= i < |a| ==> a[i] != x
    ensures Store(mem, a, d)[x] == mem[x]
  {
    if a != [] { StoreFrame(mem, a[..|a| - 1], d[..|a| - 1], x); }
  }

  lemma {:induction false} StoreAt(mem: seq<Byte>, a: seq<int>, d: seq<Byte>, i: nat)
    requires |a| == |d| && InMem(a, |mem|) && Distinct(a) && i < |a|
    ensures Store(mem, a, d)[a[i]] == d[i]
  {
    var n := |a| - 1;
    if i < n { StoreAt(mem, a[..n], d[..n], i); }
  }

  /** What a gather reads after a scatter at the same place is what was scattered. */
  lemma ScatterThenGather(mem: seq<Byte>, a: seq<int>, d: seq<Byte>)
    requires |a| == |d| && InMem(a, |mem|) && Distinct(a)
    ensures Load(Store(mem, a, d), a) == d
  {
    forall i | 0 <= i < |a| ensures Load(Store(mem, a, d), a)[i] == d[i] {
      StoreAt(mem, a, d, i);
    }
  }

  /** Scattering back what was gathered changes nothing. */
  lemma {:induction false} GatherThenScatter(mem: seq<Byte>, a: seq<int>)
    requires InMem(a, |mem|)
    ensures Store(mem, a, Load(mem, a)) == mem
  {
    if a != [] {
      var n := |a| - 1;
      GatherThenScatter(mem, a[..n]);
      assert Load(mem, a)[..n] == Load(mem, a[..n]);
    }
  }

  /** Over disjoint backing, a scatter at `off` is a splice of the flattened space, and touches nothing else. */
  lemma FlatWrite(mem: seq<Byte>, all: seq<int>, off: nat, d: seq<Byte>)
    requires InMem(all, |mem|) && Distinct(all) && off + |d| <= |all|
    ensures var mem' := Store(mem, all[off..off + |d|], d);
      && Load(mem', all) == Splice(Load(mem, all), off, d)
      && (forall x :: 0 <= x < |mem| && (forall i :: off <= i < off + |d| ==> all[i] != x) ==> mem'[x] == mem[x])
  {
    var mem' := Store(mem, all[off..off + |d|], d);
    forall k | 0 <= k < |all| ensures Load(mem', all)[k] == Splice(Load(mem, all), off, d)[k] {
      WrittenAt(mem, all, off, d, k);
    }
    forall x | 0 <= x < |mem| && (forall i :: off <= i < off + |d| ==> all[i] != x) ensures mem'[x] == mem[x] {
      UntouchedAt(mem, all, off, d, x);
    }
  }

  lemma UntouchedAt(mem: seq<Byte>, all: seq<int>, off: nat, d: seq<Byte>, x: int)
    requires InMem(all, |mem|) && off + |d| <= |all|
    requires 0 <= x < |mem| && forall i :: off <= i < off + |d| ==> all[i] != x
    ensures Store(mem, all[off..off + |d|], d)[x] == mem[x]
  {
    var a := all[off..off + |d|];
    forall i | 0 <= i < |a| ensures a[i] != x { assert a[i] == all[off + i]; }
    StoreFrame(mem, a, d, x);
  }

  lemma WrittenAt(mem: seq<Byte>, all: seq<int>, off: nat, d: seq<Byte>, k: nat)
    requires InMem(all, |mem|) && Distinct(all) && off + |d| <= |all| && k < |all|
    ensures Store(mem, all[off..off + |d|], d)[all[k]] == if off <= k < off + |d| then d[k - off] else mem[all[k]]
  {
    var a := all[off..off + |d|];
    if off <= k < off + |d| {
      assert a[k - off] == all[k];
      StoreAt(mem, a, d, k - off);
    } else {
      UntouchedAt(mem, all, off, d, all[k]);
    }
  }

  // ---------------------------------------------------------------- lists of parts

  /** The flattened address space of a list of parts: the parts end to end. */
  ghost function Flatten(parts: seq<seq<int>>): seq<int> {
    if parts == [] then [] else Flatten(parts[..|parts| - 1]) + parts[|parts| - 1]
  }

  /** The flattened offset at which part `i` starts. */
  ghost function PartStart(parts: seq<seq<int>>, i: nat): nat
    requires i <= |parts|
  {
    |Flatten(parts[..i])|
  }

  lemma {:induction false} PartPrefix(parts: seq<seq<int>>, i: nat)
    requires i <= |parts|
    ensures PartStart(parts, i) <= |Flatten(parts)|
    ensures Flatten(parts)[..PartStart(parts, i)] == Flatten(parts[..i])
  {
    if i == |parts| {
      assert parts[..i] == parts;
    } else {
      var front := parts[..|parts| - 1];
      PartPrefix(front, i);
      assert front[..i] == parts[..i];
    }
  }

  lemma SliceOf(all: seq<int>, p: seq<int>, r: seq<int>, o: nat, n: nat)
    requires |p| + |r| <= |all| && all[..|p| + |r|] == p + r && o + n <= |r|
    ensures all[|p| + o..|p| + o + n] == r[o..o + n]
  {
    var a, b := all[|p| + o..|p| + o + n], r[o..o + n];
    forall k | 0 <= k < n ensures a[k] == b[k] {
      assert all[..|p| + |r|][|p| + o + k] == (p + r)[|p| + o + k];
    }
  }

  lemma PartEnds(parts: seq<seq<int>>, i: nat)
    requires i < |parts|
    ensures var p := Flatten(parts[..i]);
      && PartStart(parts, i + 1) == |p| + |parts[i]| <= |Flatten(parts)|
      && Flatten(parts)[..|p| + |parts[i]|] == p + parts[i]
  {
    PartPrefix(parts, i + 1);
    assert parts[..i + 1][..i] == parts[..i];
  }

  /** A slice of the flattened space that stays in one part is a slice of that part. */
  lemma PartSlice(parts: seq<seq<int>>, i: nat, o: nat, n: nat)
    requires i < |parts| && o + n <= |parts[i]|
    ensures var s := PartStart(parts, i);
      && PartStart(parts, i + 1) == s + |parts[i]| <= |Flatten(parts)|
      && Flatten(parts)[s + o..s + o + n] == parts[i][o..o + n]
  {
    PartEnds(parts, i);
    SliceOf(Flatten(parts), Flatten(parts[..i]), parts[i], o, n);
  }

  lemma TailOf(all: seq<int>, p: seq<int>, r: seq<int>)
    requires |p| + |r| <= |all| && all[..|p| + |r|] == p + r
    ensures all[|p|..|p| + |r|] == r
  {
    forall k | 0 <= k < |r| ensures all[|p|..|p| + |r|][k] == r[k] {
      assert all[..|p| + |r|][|p| + k] == (p + r)[|p| + k];
    }
  }

  lemma PartWhole(parts: seq<seq<int>>, i: nat)
    requires i < |parts|
    ensures PartStart(parts, i) + |parts[i]| == PartStart(parts, i + 1) <= |Flatten(parts)|
    ensures Flatten(parts)[PartStart(parts, i)..PartStart(parts, i + 1)] == parts[i]
  {
    PartEnds(parts, i);
    TailOf(Flatten(parts), Flatten(parts[..i]), parts[i]);
  }

  lemma {:induction false} PartsInMem(parts: seq<seq<int>>, size: nat)
    requires forall i :: 0 <= i < |parts| ==> InMem(parts[i], size)
    ensures InMem(Flatten(parts), size)
  {
    if parts != [] { PartsInMem(parts[..|parts| - 1], size); }
  }

  /** Where a walk of the list stands: `o` bytes into part `i` is flattened offset `pos`. */
  ghost predicate Stands(parts: seq<seq<int>>, i: nat, o: nat, pos: nat) {
    && i <= |parts|
    && if i < |parts| then o <= |parts[i]| && PartStart(parts, i) + o == pos else o == 0 && pos == |Flatten(parts)|
  }

  /** One step of a walk: the next `n` bytes are in part `i`. */
  lemma NextRun(parts: seq<seq<int>>, i: nat, o: nat, pos: nat, n: nat)
    requires Stands(parts, i, o, pos) && i < |parts| && o + n <= |parts[i]|
    ensures pos + n <= |Flatten(parts)|
    ensures Flatten(parts)[pos..pos + n] == parts[i][o..o + n]
    ensures o + n == |parts[i]| ==> Stands(parts, i + 1, 0, pos + n)
    ensures Stands(parts, i, o + n, pos + n)
  {
    PartSlice(parts, i, o, n);
    if i + 1 == |parts| { assert parts[..i + 1] == parts; }
  }

  // ---------------------------------------------------------------- iovecs

  datatype Iov = Iov(base: int, len: nat)

  ghost function IovParts(iov: seq<Iov>): (r: seq<seq<int>>)
    ensures |r| == |iov| && forall i :: 0 <= i < |iov| ==> r[i] == Range(iov[i].base, iov[i].len)
  {
    seq(|iov|, i requires 0 <= i < |iov| => Range(iov[i].base, iov[i].len))
  }

  ghost function IovAddrs(iov: seq<Iov>): seq<int> {
    Flatten(IovParts(iov))
  }

  lemma RangeSlice(a: int, len: nat, o: nat, n: nat)
    requires o + n <= len
    ensures Range(a, len)[o..o + n] == Range(a + o, n)
  {
  }
}
