/** How producers share the shards: every member computes its own slice from the same sorted membership. */
module Partitioning {
  import opened Sequences
  import opened Wrappers

  type Member = nat

  datatype PartitionError = NoMembers | NotAMember

  // ---------------------------------------------------------------- sorting the membership

  ghost predicate IsSorted(s: seq<Member>) {
    forall i, j :: 0 <= i < j < |s| ==> s[i] <= s[j]
  }

  function Insert(s: seq<Member>, m: Member): seq<Member> {
    if s == [] || m <= s[0] then [m] + s else [s[0]] + Insert(s[1..], m)
  }

  function Sort(s: seq<Member>): seq<Member> {
    if s == [] then [] else Insert(Sort(s[1..]), s[0])
  }

  lemma {:induction false} InsertMembers(s: seq<Member>, m: Member)
    ensures multiset(Insert(s, m)) == multiset(s) + multiset{m}
  {
    if s == [] || m <= s[0] {
    } else {
      InsertMembers(s[1..], m);
      assert s == [s[0]] + s[1..];
    }
  }

  lemma {:induction false} InsertedMember(s: seq<Member>, m: Member, x: Member)
    requires x in Insert(s, m)
    ensures x == m || x in s
  {
    InsertMembers(s, m);
    assert x in multiset(Insert(s, m));
  }

  lemma {:induction false} SortedBehind(first: Member, rest: seq<Member>)
    requires IsSorted(rest) && forall x :: x in rest ==> first <= x
    ensures IsSorted([first] + rest)
  {
    assert forall i :: 0 <= i < |rest| ==> rest[i] in rest;
  }

  lemma {:induction false} InsertKeepsSorted(s: seq<Member>, m: Member)
    requires IsSorted(s)
    ensures IsSorted(Insert(s, m))
  {
    if s == [] || m <= s[0] {
      forall x | x in s ensures m <= x {
        var i :| 0 <= i < |s| && s[i] == x;
      }
      SortedBehind(m, s);
    } else {
      InsertKeepsSorted(s[1..], m);
      forall x | x in Insert(s[1..], m) ensures s[0] <= x {
        InsertedMember(s[1..], m, x);
      }
      SortedBehind(s[0], Insert(s[1..], m));
    }
  }

  lemma {:induction false} SortKeepsMembers(s: seq<Member>)
    ensures multiset(Sort(s)) == multiset(s)
  {
    if s == [] {
    } else {
      SortKeepsMembers(s[1..]);
      InsertMembers(Sort(s[1..]), s[0]);
      assert s == [s[0]] + s[1..];
    }
  }

  lemma {:induction false} SortIsSorted(s: seq<Member>)
    ensures IsSorted(Sort(s))
  {
    if s == [] {
    } else {
      SortIsSorted(s[1..]);
      InsertKeepsSorted(Sort(s[1..]), s[0]);
    }
  }

  lemma {:induction false} SortSorts(s: seq<Member>)
    ensures IsSorted(Sort(s)) && multiset(Sort(s)) == multiset(s)
  {
    SortKeepsMembers(s);
    SortIsSorted(s);
  }

  lemma {:induction false} HeadIsLeast(s: seq<Member>, x: Member)
    requires IsSorted(s) && x in multiset(s)
    ensures s != [] && s[0] <= x
  {
    assert x in s;
  }

  lemma {:induction false} TailMembers(s: seq<Member>)
    requires s != []
    ensures multiset(s[1..]) == multiset(s) - multiset{s[0]}
  {
    assert s == [s[0]] + s[1..];
  }

  lemma {:induction false} SmallestFirst(a: seq<Member>, b: seq<Member>)
    requires IsSorted(a) && IsSorted(b) && multiset(a) == multiset(b) && a != [] && b != []
    ensures a[0] == b[0] && multiset(a[1..]) == multiset(b[1..])
  {
    assert a[0] in multiset(a) && b[0] in multiset(b);
    HeadIsLeast(a, b[0]);
    HeadIsLeast(b, a[0]);
    TailMembers(a);
    TailMembers(b);
  }

  lemma {:induction false} SortedIsUnique(a: seq<Member>, b: seq<Member>)
    requires IsSorted(a) && IsSorted(b) && multiset(a) == multiset(b)
    ensures a == b
    decreases |a|
  {
    assert |a| == |multiset(a)| && |b| == |multiset(b)|;
    if a == [] {
    } else {
      SmallestFirst(a, b);
      SortedIsUnique(a[1..], b[1..]);
      assert a == [a[0]] + a[1..] && b == [b[0]] + b[1..];
    }
  }

  /** Members that see the same membership, in whatever order, sort it the same way. */
  lemma {:induction false} SameMembershipSameOrder(a: seq<Member>, b: seq<Member>)
    requires multiset(a) == multiset(b)
    ensures Sort(a) == Sort(b)
  {
    SortSorts(a);
    SortSorts(b);
    SortedIsUnique(Sort(a), Sort(b));
  }

  // ---------------------------------------------------------------- slices

  function CeilDiv(a: nat, b: nat): nat
    requires b > 0
  {
    (a + b - 1) / b
  }

  /** The slice of the i-th of n members; slices past the end are cut short. */
  function SliceOf<T>(partitions: seq<T>, n: nat, i: nat): seq<T>
    requires n > 0
  {
    var size := CeilDiv(|partitions|, n);
    partitions[Min(i * size, |partitions|)..Min(i * size + size, |partitions|)]
  }

  function Partition<T>(members: seq<Member>, me: Member, partitions: seq<T>): Result<seq<T>, PartitionError> {
    if |members| == 0 then Err(NoMembers)
    else match IndexOf(members, me)
      case None => Err(NotAMember)
      case Some(i) => Ok(SliceOf(partitions, |members|, i))
  }

  lemma {:induction false} CeilDivBounds(a: nat, b: nat)
    requires b > 0
    ensures CeilDiv(a, b) * b >= a
    ensures a > 0 ==> (CeilDiv(a, b) - 1) * b < a
  {
  }

  function Concat<T>(parts: seq<seq<T>>): seq<T> {
    if parts == [] then [] else Concat(parts[..|parts| - 1]) + parts[|parts| - 1]
  }

  /** Where the i-th slice starts. */
  function Edge(count: nat, n: nat, i: nat): (e: nat)
    requires n > 0
    ensures e <= count
  {
    Min(i * CeilDiv(count, n), count)
  }

  lemma {:induction false} LastEdge(count: nat, n: nat)
    requires n > 0
    ensures Edge(count, n, n) == count
  {
    CeilDivBounds(count, n);
    assert n * CeilDiv(count, n) == CeilDiv(count, n) * n;
  }

  lemma {:induction false} SliceBetweenEdges<T>(partitions: seq<T>, n: nat, i: nat)
    requires n > 0
    ensures Edge(|partitions|, n, i) <= Edge(|partitions|, n, i + 1)
    ensures SliceOf(partitions, n, i) == partitions[Edge(|partitions|, n, i)..Edge(|partitions|, n, i + 1)]
  {
    var size := CeilDiv(|partitions|, n);
    assert (i + 1) * size == i * size + size;
  }

  lemma {:induction false} PrefixGrows<T>(s: seq<T>, lo: nat, hi: nat)
    requires lo <= hi <= |s|
    ensures s[..lo] + s[lo..hi] == s[..hi]
  {
  }

  lemma {:induction false} FirstSlicesArePrefix<T>(partitions: seq<T>, n: nat, parts: seq<seq<T>>)
    requires n > 0
    requires forall i :: 0 <= i < |parts| ==> parts[i] == SliceOf(partitions, n, i)
    ensures Concat(parts) == partitions[..Edge(|partitions|, n, |parts|)]
  {
    if parts == [] {
    } else {
      var k := |parts| - 1;
      FirstSlicesArePrefix(partitions, n, parts[..k]);
      SliceBetweenEdges(partitions, n, k);
      PrefixGrows(partitions, Edge(|partitions|, n, k), Edge(|partitions|, n, k + 1));
    }
  }

  /** In member order the slices make up exactly the partition list. */
  lemma {:induction false} SlicesCoverAll<T>(partitions: seq<T>, n: nat, parts: seq<seq<T>>)
    requires n > 0 && |parts| == n
    requires forall i :: 0 <= i < n ==> parts[i] == SliceOf(partitions, n, i)
    ensures Concat(parts) == partitions
  {
    FirstSlicesArePrefix(partitions, n, parts);
    LastEdge(|partitions|, n);
    assert partitions[..|partitions|] == partitions;
  }

  /** No slice is longer than the rounded-up share, and a member is idle exactly when the shares of those
      before it already cover everything. */
  lemma {:induction false} SliceSizes<T>(partitions: seq<T>, n: nat, i: nat)
    requires i < n
    ensures |SliceOf(partitions, n, i)| <= CeilDiv(|partitions|, n)
    ensures SliceOf(partitions, n, i) == [] <==> i * CeilDiv(|partitions|, n) >= |partitions|
  {
    var size := CeilDiv(|partitions|, n);
    assert 0 <= i * size;
    CeilDivBounds(|partitions|, n);
    if size == 0 {
      assert |partitions| == 0;
    }
  }

  /** The slice a member computes from the group as reported to it. */
  function UpdatePartitions<T>(group: seq<Member>, me: Member, partitions: seq<T>): Result<seq<T>, PartitionError> {
    Partition(Sort(group), me, partitions)
  }

  lemma {:induction false} OnlyMembersHaveSlices<T>(group: seq<Member>, me: Member, partitions: seq<T>)
    ensures UpdatePartitions(group, me, partitions).Ok? <==> me in group
  {
    SortSorts(group);
    assert me in group <==> me in multiset(Sort(group));
  }

  // ---------------------------------------------------------------- all producers together

  ghost predicate Distinct(s: seq<Member>) {
    forall i, j :: 0 <= i < j < |s| ==> s[i] != s[j]
  }

  lemma {:induction false} DistinctCountsOnce(s: seq<Member>, m: Member)
    requires Distinct(s)
    ensures multiset(s)[m] <= 1
  {
    if s == [] {
    } else {
      DistinctCountsOnce(s[1..], m);
      assert s == [s[0]] + s[1..];
      assert s[0] !in s[1..];
    }
  }

  lemma {:induction false} CountedOnceIsDistinct(s: seq<Member>)
    requires forall m :: multiset(s)[m] <= 1
    ensures Distinct(s)
  {
    forall i, j | 0 <= i < j < |s| ensures s[i] != s[j] {
      assert s == s[..j] + s[j..];
      assert s[i] in s[..j] && s[j] in s[j..];
      assert multiset(s) == multiset(s[..j]) + multiset(s[j..]);
      assert s[j] in multiset(s[j..]) && s[i] in multiset(s[..j]);
      assert multiset(s)[s[j]] == multiset(s[..j])[s[j]] + multiset(s[j..])[s[j]];
    }
  }

  lemma {:induction false} SortKeepsDistinct(s: seq<Member>)
    requires Distinct(s)
    ensures Distinct(Sort(s)) && |Sort(s)| == |s|
  {
    SortSorts(s);
    assert |Sort(s)| == |multiset(Sort(s))| == |multiset(s)| == |s|;
    forall m ensures multiset(Sort(s))[m] <= 1 {
      DistinctCountsOnce(s, m);
    }
    CountedOnceIsDistinct(Sort(s));
  }

  lemma {:induction false} PositionOf(members: seq<Member>, i: nat)
    requires i < |members| && Distinct(members)
    ensures IndexOf(members, members[i]) == Some(i)
  {
    if i == 0 {
    } else {
      assert members[0] != members[i];
      PositionOf(members[1..], i - 1);
    }
  }

  lemma {:induction false} PartitionAt<T>(members: seq<Member>, i: nat, partitions: seq<T>)
    requires Distinct(members) && i < |members|
    ensures Partition(members, members[i], partitions) == Ok(SliceOf(partitions, |members|, i))
  {
    PositionOf(members, i);
  }

  /** What the members of a group take, in sorted order, each computing from the group as reported to it. */
  ghost predicate TakenTogether<T>(group: seq<Member>, views: map<Member, seq<Member>>, partitions: seq<T>,
                                   slices: seq<seq<T>>)
  {
    && |slices| == |Sort(group)|
    && forall i :: 0 <= i < |slices| ==>
         && Sort(group)[i] in views
         && UpdatePartitions(views[Sort(group)[i]], Sort(group)[i], partitions) == Ok(slices[i])
  }

  ghost predicate SeeSameGroup(group: seq<Member>, views: map<Member, seq<Member>>) {
    && group != []
    && Distinct(group)
    && forall m :: m in group ==> m in views && multiset(views[m]) == multiset(group)
  }

  lemma {:induction false} EachTakesItsSlice<T>(group: seq<Member>, views: map<Member, seq<Member>>, partitions: seq<T>,
                             slices: seq<seq<T>>)
    requires SeeSameGroup(group, views) && TakenTogether(group, views, partitions, slices)
    ensures |slices| == |group|
    ensures forall i :: 0 <= i < |slices| ==> slices[i] == SliceOf(partitions, |slices|, i)
  {
    var sorted := Sort(group);
    SortSorts(group);
    SortKeepsDistinct(group);
    forall i | 0 <= i < |slices| ensures slices[i] == SliceOf(partitions, |slices|, i) {
      assert sorted[i] in multiset(sorted);
      SameMembershipSameOrder(views[sorted[i]], group);
      PartitionAt(sorted, i, partitions);
    }
  }

  /** The slices lie one behind the other between these edges and cover the list. */
  ghost predicate SlicedAt<T>(partitions: seq<T>, edges: seq<int>, slices: seq<seq<T>>) {
    && |edges| == |slices| + 1
    && edges[0] == 0 && edges[|slices|] == |partitions|
    && forall i, j :: 0 <= i < |slices| && j == i + 1 ==>
         0 <= edges[i] <= edges[j] <= |partitions| && slices[i] == partitions[edges[i]..edges[j]]
  }

  lemma {:induction false} SliceEdges<T>(partitions: seq<T>, slices: seq<seq<T>>) returns (edges: seq<int>)
    requires slices != []
    requires forall i :: 0 <= i < |slices| ==> slices[i] == SliceOf(partitions, |slices|, i)
    ensures SlicedAt(partitions, edges, slices)
  {
    var n := |slices|;
    edges := seq(n + 1, i requires 0 <= i <= n => Edge(|partitions|, n, i));
    LastEdge(|partitions|, n);
    forall i, j | 0 <= i < n && j == i + 1
      ensures 0 <= edges[i] <= edges[j] <= |partitions| && slices[i] == partitions[edges[i]..edges[j]]
    {
      SliceBetweenEdges(partitions, n, i);
    }
  }

  /** Producers that see the same group, each in its own order, together hold every partition exactly once:
      put together in sorted order their slices are the partition list. */
  lemma {:induction false} ProducersShareEverything<T>(group: seq<Member>, views: map<Member, seq<Member>>,
                                                       partitions: seq<T>, slices: seq<seq<T>>)
    requires SeeSameGroup(group, views) && TakenTogether(group, views, partitions, slices)
    ensures Concat(slices) == partitions
  {
    EachTakesItsSlice(group, views, partitions, slices);
    SlicesCoverAll(partitions, |slices|, slices);
  }

  // ---------------------------------------------------------------- the partitioner

  /** Callbacks are numbered in the order of registration; `told` is what each was last called with. */
  class Partitioner {
    const hasCoordinator: bool
    const me: Member
    const partitions: seq<int>
    var started: bool
    var mine: Option<seq<int>>
    var told: seq<Option<seq<int>>>
    /** Callbacks before this one have not been called since the slice was last set. */
    ghost var stale: nat

    ghost predicate Valid()
      reads this
    {
      && stale <= |told|
      && (started ==> mine.Some?)
      && (started ==> forall i :: stale <= i < |told| ==> told[i] == mine)
      && (!started ==> stale == |told|)
    }

    constructor (hasCoordinator: bool, me: Member, partitions: seq<int>)
      ensures Valid() && !started && mine == None && told == []
      ensures this.hasCoordinator == hasCoordinator && this.me == me && this.partitions == partitions
    {
      this.hasCoordinator, this.me, this.partitions := hasCoordinator, me, partitions;
      started, mine, told, stale := false, None, [], 0;
    }

    method RunCallbacks()
      modifies this`told
      ensures |told| == |old(told)| && forall i :: 0 <= i < |told| ==> told[i] == mine
    {
      var i := 0;
      while i < |told|
        invariant i <= |told| == |old(told)|
        invariant forall j :: 0 <= j < i ==> told[j] == mine
      {
        told := told[i := mine];
        i := i + 1;
      }
    }

    /** Takes the first slice. With a coordinator the callbacks registered so far are not called. */
    method Start(group: seq<Member>) returns (ok: bool)
      requires Valid() && !started
      modifies this
      ensures Valid()
      ensures ok == (!hasCoordinator || me in group)
      ensures !ok ==> !started && mine == old(mine) && told == old(told)
      ensures ok ==> started && |told| == |old(told)|
      ensures ok && hasCoordinator ==>
                told == old(told) && mine.Some? && UpdatePartitions(group, me, partitions) == Ok(mine.value)
      ensures ok && !hasCoordinator ==> mine == Some(partitions) && forall i :: 0 <= i < |told| ==> told[i] == mine
      ensures ok ==> stale == if hasCoordinator then |old(told)| else 0
    {
      OnlyMembersHaveSlices(group, me, partitions);
      if hasCoordinator {
        var slice := UpdatePartitions(group, me, partitions);
        if slice.Err? {
          return false;
        }
        mine := Some(slice.value);
      } else {
        mine := Some(partitions);
        RunCallbacks();
        stale := 0;
      }
      started := true;
      return true;
    }

    /** Every callback hears of the new slice. */
    method OnGroupChange(group: seq<Member>) returns (ok: bool)
      requires Valid() && started && hasCoordinator
      modifies this
      ensures Valid() && started
      ensures ok == (me in group)
      ensures ok ==> |told| == |old(told)| && mine.Some? && UpdatePartitions(group, me, partitions) == Ok(mine.value)
      ensures ok ==> stale == 0 && forall i :: 0 <= i < |told| ==> told[i] == mine
      ensures !ok ==> mine == old(mine) && told == old(told) && stale == old(stale)
    {
      OnlyMembersHaveSlices(group, me, partitions);
      var slice := UpdatePartitions(group, me, partitions);
      if slice.Err? {
        return false;
      }
      mine := Some(slice.value);
      RunCallbacks();
      stale := 0;
      return true;
    }

    method WatchPartitionChange()
      requires Valid()
      modifies this
      ensures Valid() && started == old(started) && mine == old(mine)
      ensures told == old(told) + [if started then mine else None]
      ensures stale == if started then old(stale) else |told|
    {
      if started {
        told := told + [mine];
      } else {
        told := told + [None];
        stale := |told|;
      }
    }
  }
}
