/**
 The workspace byte budget: the early-stopping directory walk and the check that admits a series of
 atomic writes before the first byte of any of them is stored.
 */
module Workspace {

  /** A directory tree as the walk sees it: file sizes, and directories of further entries. */
  datatype Tree = File(size: nat) | Directory(entries: seq<Tree>)

  function Bytes(t: Tree): nat {
    match t
    case File(size) => size
    case Directory(entries) => BytesOfAll(entries)
  }

  function BytesOfAll(ts: seq<Tree>): nat {
    if ts == [] then 0 else BytesOfAll(ts[..|ts| - 1]) + Bytes(ts[|ts| - 1])
  }

  function Nodes(t: Tree): (n: nat)
    ensures n > 0
  {
    match t
    case File(_) => 1
    case Directory(entries) => 1 + NodesOfAll(entries)
  }

  function NodesOfAll(ts: seq<Tree>): nat {
    if ts == [] then 0 else NodesOfAll(ts[..|ts| - 1]) + Nodes(ts[|ts| - 1])
  }

  lemma CountsApart(t: Tree)
    ensures BytesOfAll([]) == 0 && NodesOfAll([]) == 0
    ensures t.File? ==> Bytes(t) == t.size && Nodes(t) == 1
    ensures t.Directory? ==> Bytes(t) == BytesOfAll(t.entries) && Nodes(t) == 1 + NodesOfAll(t.entries)
  {
  }

  lemma LastApart(ts: seq<Tree>, t: Tree)
    ensures BytesOfAll(ts + [t]) == BytesOfAll(ts) + Bytes(t)
    ensures NodesOfAll(ts + [t]) == NodesOfAll(ts) + Nodes(t)
  {
  }

  lemma {:induction false} PrefixBytes(ts: seq<Tree>, k: nat)
    requires k <= |ts|
    ensures BytesOfAll(ts[..k]) <= BytesOfAll(ts)
    decreases |ts| - k
  {
    if k < |ts| {
      LastApart(ts[..k], ts[k]);
      assert ts[..k + 1] == ts[..k] + [ts[k]];
      PrefixBytes(ts, k + 1);
    } else {
      assert ts[..k] == ts;
    }
  }

  /**
   `_workspace_bytes`: the walk keeps a stack of directories and returns early once it has counted
   more than `stopAfter`. It is exact up to that bound and beyond it only when the tree is.
   */
  method WalkBytes(root: seq<Tree>, stopAfter: nat) returns (total: nat)
    ensures BytesOfAll(root) <= stopAfter ==> total == BytesOfAll(root)
    ensures BytesOfAll(root) > stopAfter ==> stopAfter < total <= BytesOfAll(root)
  {
    hide Bytes, Nodes, BytesOfAll, NodesOfAll;
    total := 0;
    var pending := [Directory(root)];
    CountsApart(Directory(root));
    LastApart([], Directory(root));
    assert [] + [Directory(root)] == pending;
    while pending != []
      invariant forall t :: t in pending ==> t.Directory?
      invariant total + BytesOfAll(pending) == BytesOfAll(root) && total <= stopAfter
      decreases NodesOfAll(pending)
    {
      var directory := pending[|pending| - 1];
      LastApart(pending[..|pending| - 1], directory);
      assert pending == pending[..|pending| - 1] + [directory];
      ghost var before := NodesOfAll(pending);
      pending := pending[..|pending| - 1];
      var entries := directory.entries;
      CountsApart(directory);
      assert entries[..0] == [];
      var k := 0;
      while k < |entries|
        invariant 0 <= k <= |entries|
        invariant forall t :: t in pending ==> t.Directory?
        invariant total + BytesOfAll(pending) + BytesOfAll(entries) == BytesOfAll(root) + BytesOfAll(entries[..k])
        invariant NodesOfAll(pending) + NodesOfAll(entries) < before + NodesOfAll(entries[..k])
        invariant total <= stopAfter
      {
        var entry := entries[k];
        CountsApart(entry);
        assert entries[..k + 1] == entries[..k] + [entry];
        LastApart(entries[..k], entry);
        PrefixBytes(entries, k + 1);
        if entry.Directory? {
          LastApart(pending, entry);
          pending := pending + [entry];
        } else {
          total := total + entry.size;
          if total > stopAfter {
            return;
          }
        }
        k := k + 1;
      }
      assert entries[..k] == entries;
    }
  }

  // ----- sums over a workspace of named files

  ghost function SumOver<P>(sizes: map<P, nat>, keys: set<P>): nat
    requires keys <= sizes.Keys
  {
    if keys == {} then 0
    else
      var k :| k in keys;
      sizes[k] + SumOver(sizes, keys - {k})
  }

  /** The physical bytes of a workspace. */
  ghost function Sum<P>(sizes: map<P, nat>): nat {
    SumOver(sizes, sizes.Keys)
  }

  function SizeOf<P>(sizes: map<P, nat>, path: P): nat {
    if path in sizes then sizes[path] else 0
  }

  lemma {:induction false} SumWithout<P>(sizes: map<P, nat>, keys: set<P>, k: P)
    requires keys <= sizes.Keys && k in keys
    ensures SumOver(sizes, keys) == sizes[k] + SumOver(sizes, keys - {k})
    decreases keys
  {
    var j :| j in keys && SumOver(sizes, keys) == sizes[j] + SumOver(sizes, keys - {j});
    if j != k {
      SumWithout(sizes, keys - {j}, k);
      assert keys - {j} - {k} == keys - {k} - {j};
      SumWithout(sizes, keys - {k}, j);
    }
  }

  lemma {:induction false} SumDependsOnKeys<P>(a: map<P, nat>, b: map<P, nat>, keys: set<P>)
    requires keys <= a.Keys && keys <= b.Keys && forall k :: k in keys ==> a[k] == b[k]
    ensures SumOver(a, keys) == SumOver(b, keys)
    decreases keys
  {
    if keys != {} {
      var k :| k in keys;
      SumWithout(a, keys, k);
      SumWithout(b, keys, k);
      SumDependsOnKeys(a, b, keys - {k});
    }
  }

  /** Storing a file changes the total by the difference to what its path held before. */
  lemma SumUpdated<P>(sizes: map<P, nat>, path: P, n: nat)
    ensures Sum(sizes[path := n]) == Sum(sizes) - SizeOf(sizes, path) + n
  {
    var after := sizes[path := n];
    SumWithout(after, after.Keys, path);
    assert after.Keys - {path} == sizes.Keys - {path};
    SumDependsOnKeys(after, sizes, sizes.Keys - {path});
    if path in sizes {
      SumWithout(sizes, sizes.Keys, path);
    } else {
      assert sizes.Keys - {path} == sizes.Keys;
    }
  }

  // ----- the admission check

  function Max(a: int, b: int): int {
    if a < b then b else a
  }

  function Plan<P>(sizes: map<P, nat>, writes: seq<(P, nat)>, steady: int, peak: int): (int, int) {
    if writes == [] then (steady, peak)
    else
      var (path, n) := writes[0];
      Plan(sizes, writes[1..], steady - SizeOf(sizes, path) + n, Max(peak, steady + n))
  }

  predicate Accepts<P>(measured: nat, maximum: nat, sizes: map<P, nat>, writes: seq<(P, nat)>) {
    var (steady, peak) := Plan(sizes, writes, measured, measured);
    peak <= maximum && steady <= maximum
  }

  /** `_enforce_workspace_writes`, given the measured total and the sizes present before any write. */
  method EnforceWrites<P(==)>(measured: nat, maximum: nat, sizes: map<P, nat>, writes: seq<(P, nat)>) returns (ok: bool)
    ensures ok == Accepts(measured, maximum, sizes, writes)
  {
    var steady: int, peak: int := measured, measured;
    var k := 0;
    while k < |writes|
      invariant 0 <= k <= |writes|
      invariant Plan(sizes, writes[k..], steady, peak) == Plan(sizes, writes, measured, measured)
    {
      var (path, n) := writes[k];
      assert writes[k..][1..] == writes[k + 1..];
      peak := Max(peak, steady + n);
      steady := steady - SizeOf(sizes, path) + n;
      k := k + 1;
    }
    ok := peak <= maximum && steady <= maximum;
  }

  ghost predicate DistinctPaths<P>(writes: seq<(P, nat)>) {
    forall i, j :: 0 <= i < j < |writes| ==> writes[i].0 != writes[j].0
  }

  function AfterWrites<P>(sizes: map<P, nat>, writes: seq<(P, nat)>): map<P, nat>
    decreases |writes|
  {
    if writes == [] then sizes else AfterWrites(sizes[writes[0].0 := writes[0].1], writes[1..])
  }

  lemma TwoWrites<P>(sizes: map<P, nat>, a: (P, nat), b: (P, nat))
    ensures AfterWrites(sizes, [a, b]) == sizes[a.0 := a.1][b.0 := b.1]
  {
    assert [a, b][1..] == [b] && [b][1..] == [];
    assert AfterWrites(sizes[a.0 := a.1], [b]) == AfterWrites(sizes[a.0 := a.1][b.0 := b.1], []);
  }

  /** Every physical total stays within the maximum: before, beside each temporary file, and after. */
  ghost predicate StaysWithin<P>(sizes: map<P, nat>, maximum: nat, writes: seq<(P, nat)>)
    decreases |writes|
  {
    && Sum(sizes) <= maximum
    && (writes != [] ==>
          && Sum(sizes) + writes[0].1 <= maximum
          && StaysWithin(sizes[writes[0].0 := writes[0].1], maximum, writes[1..]))
  }

  lemma {:induction false} PlanTracksTotals<P>(start: map<P, nat>, now: map<P, nat>, maximum: nat, writes: seq<(P, nat)>, peak: int)
    requires DistinctPaths(writes) && Sum(now) <= peak
    requires forall i :: 0 <= i < |writes| ==> SizeOf(now, writes[i].0) == SizeOf(start, writes[i].0)
    ensures var (steady, top) := Plan(start, writes, Sum(now), peak);
      && steady == Sum(AfterWrites(now, writes)) && steady <= top
      && (top <= maximum <==> peak <= maximum && StaysWithin(now, maximum, writes))
    decreases |writes|
  {
    if writes != [] {
      var (path, n) := writes[0];
      var next := now[path := n];
      SumUpdated(now, path, n);
      forall i | 0 <= i < |writes[1..]|
        ensures SizeOf(next, writes[1..][i].0) == SizeOf(start, writes[1..][i].0)
      {
        assert writes[1..][i] == writes[i + 1];
      }
      PlanTracksTotals(start, next, maximum, writes[1..], Max(peak, Sum(now) + n));
    }
  }

  /** Writes to distinct paths are admitted exactly when no intermediate total passes the maximum. */
  lemma AdmittedExactlyWhenWithin<P>(sizes: map<P, nat>, maximum: nat, writes: seq<(P, nat)>)
    requires DistinctPaths(writes)
    ensures Accepts(Sum(sizes), maximum, sizes, writes) <==> StaysWithin(sizes, maximum, writes)
  {
    PlanTracksTotals(sizes, sizes, maximum, writes, Sum(sizes));
  }

  /** The paths must be distinct: a path written twice is credited twice for what it first held. */
  lemma RepeatedPathCanOverrun()
    ensures var sizes: map<nat, nat> := map[0 := 8]; var writes := [(0, 1), (0, 9), (1, 8)];
      Accepts(Sum(sizes), 10, sizes, writes) && !StaysWithin(sizes, 10, writes)
  {
  }

  /** The check's decision does not depend on where an early-stopping walk gave up. */
  lemma EarlyStopDecidesTheSame<P>(full: nat, measured: nat, maximum: nat, sizes: map<P, nat>, writes: seq<(P, nat)>)
    requires full <= maximum ==> measured == full
    requires full > maximum ==> measured > maximum
    ensures Accepts(measured, maximum, sizes, writes) <==> Accepts(full, maximum, sizes, writes)
  {
    PeakNeverFalls(sizes, writes, measured, measured);
    PeakNeverFalls(sizes, writes, full, full);
  }

  lemma {:induction false} PeakNeverFalls<P>(sizes: map<P, nat>, writes: seq<(P, nat)>, steady: int, peak: int)
    ensures Plan(sizes, writes, steady, peak).1 >= peak
  {
    if writes != [] {
      var (path, n) := writes[0];
      PeakNeverFalls(sizes, writes[1..], steady - SizeOf(sizes, path) + n, Max(peak, steady + n));
    }
  }

  /** Once a series is admitted, checking its last write again after storing the others cannot fail. */
  lemma {:induction false} LaterCheckCannotFail<P>(sizes: map<P, nat>, maximum: nat, first: seq<(P, nat)>, last: (P, nat))
    requires DistinctPaths(first + [last])
    requires Accepts(Sum(sizes), maximum, sizes, first + [last])
    ensures var now := AfterWrites(sizes, first); Accepts(Sum(now), maximum, now, [last])
  {
    AdmittedExactlyWhenWithin(sizes, maximum, first + [last]);
    WithinAfterStoring(sizes, maximum, first, [last]);
    AdmittedExactlyWhenWithin(AfterWrites(sizes, first), maximum, [last]);
  }

  lemma {:induction false} WithinAfterStoring<P>(sizes: map<P, nat>, maximum: nat, first: seq<(P, nat)>, rest: seq<(P, nat)>)
    requires StaysWithin(sizes, maximum, first + rest)
    ensures StaysWithin(AfterWrites(sizes, first), maximum, rest)
    decreases |first|
  {
    if first == [] {
      assert first + rest == rest;
    } else {
      assert (first + rest)[1..] == first[1..] + rest;
      WithinAfterStoring(sizes[first[0].0 := first[0].1], maximum, first[1..], rest);
    }
  }
}
