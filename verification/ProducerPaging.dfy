/** The producers' walk over the zones: every task asks for the zones of its shards page by page. */
module ProducerPaging {
  import opened Wrappers
  import opened Partitioning

  const SHARD_COUNT: nat := 4096

  datatype Row = Row(id: nat, created: nat, shard: int)

  datatype PagingError = NoPartitionsYet | EmptySlice | MarkerNotFound

  // ---------------------------------------------------------------- the range filter

  /** The numbers from zero on. */
  ghost predicate CountsUp(s: seq<int>) {
    forall i :: 0 <= i < |s| ==> s[i] == i
  }

  function Shards(): (s: seq<int>)
    ensures |s| == SHARD_COUNT && CountsUp(s)
  {
    seq(SHARD_COUNT, i => i)
  }

  /** First and last element of the slice. A task of a producer without a slice, or with an empty one, fails here. */
  function MyRange(mine: Option<seq<int>>): Result<(int, int), PagingError> {
    match mine
    case None => Err(NoPartitionsYet)
    case Some(slice) => if slice == [] then Err(EmptySlice) else Ok((slice[0], slice[|slice| - 1]))
  }

  predicate Between(shard: int, range: (int, int)) {
    range.0 <= shard <= range.1
  }

  /** The range filter picks exactly the shards of the slice. */
  lemma {:induction false} BetweenIsSlice(n: nat, i: nat, shard: int)
    requires n > 0
    ensures var slice := SliceOf(Shards(), n, i);
            match MyRange(Some(slice))
            case Ok(range) => Between(shard, range) <==> shard in slice
            case Err(e) => e == EmptySlice && slice == []
  {
    SliceBetweenEdges(Shards(), n, i);
    var lo, hi := Edge(SHARD_COUNT, n, i), Edge(SHARD_COUNT, n, i + 1);
    if lo <= shard < hi {
      assert Shards()[lo..hi][shard - lo] == shard;
    }
  }

  // ---------------------------------------------------------------- one page

  /** The order of the pages: by creation time, rows created together by id. */
  predicate Before(a: Row, b: Row) {
    a.created < b.created || (a.created == b.created && a.id < b.id)
  }

  /** Any two rows with different ids come in one order, and the older one comes first. */
  lemma {:induction false} PageOrderIsStrict(a: Row, b: Row, c: Row)
    ensures a.id != b.id ==> (Before(a, b) <==> !Before(b, a))
    ensures Before(a, b) && Before(b, c) ==> Before(a, c)
    ensures a.created < b.created ==> Before(a, b)
    ensures !Before(a, a)
  {
  }

  ghost predicate Ordered(rows: seq<Row>) {
    forall i, j :: 0 <= i < j < |rows| ==> Before(rows[i], rows[j])
  }

  /** Storage holds its rows in page order and no id twice. */
  ghost predicate ValidStore(rows: seq<Row>) {
    Ordered(rows) && forall i, j :: 0 <= i < j < |rows| ==> rows[i].id != rows[j].id
  }

  function Select(rows: seq<Row>, range: (int, int)): seq<Row> {
    if rows == [] then []
    else (if Between(rows[0].shard, range) then [rows[0]] else []) + Select(rows[1..], range)
  }

  function After(rows: seq<Row>, marker: Row): seq<Row> {
    if rows == [] then []
    else (if Before(marker, rows[0]) then [rows[0]] else []) + After(rows[1..], marker)
  }

  function Lookup(rows: seq<Row>, id: nat): Option<Row> {
    if rows == [] then None else if rows[0].id == id then Some(rows[0]) else Lookup(rows[1..], id)
  }

  function Take(rows: seq<Row>, limit: nat): seq<Row> {
    if |rows| <= limit then rows else rows[..limit]
  }

  /** One call: the rows of the range that come after the marker row, at most `limit` of them. */
  function FindZones(rows: seq<Row>, range: (int, int), marker: Option<nat>, limit: nat)
    : Result<seq<Row>, PagingError>
  {
    match marker
    case None => Ok(Take(Select(rows, range), limit))
    case Some(id) =>
      match Lookup(rows, id)
      case None => Err(MarkerNotFound)
      case Some(row) => Ok(Take(After(Select(rows, range), row), limit))
  }

  lemma {:induction false} SelectOrigin(rows: seq<Row>, range: (int, int), i: nat) returns (j: nat)
    requires i < |Select(rows, range)|
    ensures i <= j < |rows| && rows[j] == Select(rows, range)[i]
  {
    if Between(rows[0].shard, range) {
      if i == 0 {
        j := 0;
      } else {
        j := SelectOrigin(rows[1..], range, i - 1);
        j := j + 1;
      }
    } else {
      j := SelectOrigin(rows[1..], range, i);
      j := j + 1;
    }
  }

  lemma {:induction false} SelectKeepsOrder(rows: seq<Row>, range: (int, int))
    requires Ordered(rows)
    ensures Ordered(Select(rows, range))
  {
    if rows == [] {
    } else {
      var rest := Select(rows[1..], range);
      SelectKeepsOrder(rows[1..], range);
      forall i | 0 <= i < |rest| ensures Before(rows[0], rest[i]) {
        var j := SelectOrigin(rows[1..], range, i);
        assert rows[1..][j] == rows[j + 1];
      }
    }
  }

  lemma {:induction false} AfterAll(rows: seq<Row>, marker: Row)
    requires forall i :: 0 <= i < |rows| ==> Before(marker, rows[i])
    ensures After(rows, marker) == rows
  {
    if rows == [] {
    } else {
      AfterAll(rows[1..], marker);
    }
  }

  /** The rows after the k-th are those behind it. */
  lemma {:induction false} AfterIsRest(rows: seq<Row>, k: nat)
    requires Ordered(rows) && k < |rows|
    ensures After(rows, rows[k]) == rows[k + 1..]
  {
    if k == 0 {
      AfterAll(rows[1..], rows[0]);
    } else {
      assert Before(rows[0], rows[k]);
      AfterIsRest(rows[1..], k - 1);
      assert rows[1..][k..] == rows[k + 1..];
    }
  }

  lemma {:induction false} LookupFinds(rows: seq<Row>, j: nat)
    requires j < |rows| && forall i :: 0 <= i < j ==> rows[i].id != rows[j].id
    ensures Lookup(rows, rows[j].id) == Some(rows[j])
  {
    if j == 0 {
    } else {
      assert rows[0].id != rows[j].id;
      LookupFinds(rows[1..], j - 1);
    }
  }

  /** Asking with the id of the k-th selected row as marker gives the rows behind it. */
  lemma {:induction false} PageAfter(rows: seq<Row>, range: (int, int), k: nat, limit: nat)
    requires ValidStore(rows) && k < |Select(rows, range)|
    ensures var rest := Select(rows, range)[k + 1..];
      FindZones(rows, range, Some(Select(rows, range)[k].id), limit) ==
      Ok(rest[..if |rest| <= limit then |rest| else limit])
  {
    var j := SelectOrigin(rows, range, k);
    LookupFinds(rows, j);
    SelectKeepsOrder(rows, range);
    AfterIsRest(Select(rows, range), k);
    var rest := Select(rows, range)[k + 1..];
    assert rest[..|rest|] == rest;
  }

  // ---------------------------------------------------------------- all pages

  /** So far a beginning of the selected rows has been visited; the marker is the last of them. */
  ghost predicate Progress(wanted: seq<Row>, visited: seq<Row>, marker: Option<nat>) {
    && visited <= wanted
    && marker == if visited == [] then None else Some(visited[|visited| - 1].id)
  }

  lemma {:induction false} PageContinues(wanted: seq<Row>, visited: seq<Row>, page: seq<Row>, limit: nat)
    requires visited <= wanted && page == Take(wanted[|visited|..], limit)
    ensures visited + page <= wanted
    ensures page == [] ==> limit == 0 || visited == wanted
    ensures limit == 0 ==> page == []
  {
    assert wanted == visited + wanted[|visited|..];
  }

  lemma {:induction false} NextPage(rows: seq<Row>, range: (int, int), wanted: seq<Row>, visited: seq<Row>,
                                    marker: Option<nat>, limit: nat)
    requires ValidStore(rows) && wanted == Select(rows, range) && Progress(wanted, visited, marker)
    ensures FindZones(rows, range, marker, limit) == Ok(Take(wanted[|visited|..], limit))
  {
    if visited == [] {
      assert wanted[0..] == wanted;
    } else {
      PageAfter(rows, range, |visited| - 1, limit);
      var rest := wanted[|visited|..];
      assert rest[..|rest|] == rest;
    }
  }

  /** Every row of the range is visited once, in page order; with a page size of zero nothing is. */
  method Iter(rows: seq<Row>, range: (int, int), limit: nat) returns (r: Result<seq<Row>, PagingError>)
    requires ValidStore(rows)
    ensures r == Ok(if limit == 0 then [] else Select(rows, range))
  {
    var marker: Option<nat> := None;
    var visited: seq<Row> := [];
    ghost var wanted := Select(rows, range);
    while true
      invariant Progress(wanted, visited, marker)
      invariant limit == 0 ==> visited == []
      decreases |wanted| - |visited|
    {
      NextPage(rows, range, wanted, visited, marker, limit);
      var items := FindZones(rows, range, marker, limit);
      if items.Err? {
        return items;
      }
      PageContinues(wanted, visited, items.value, limit);
      if |items.value| == 0 {
        return Ok(visited);
      }
      marker := Some(items.value[|items.value| - 1].id);
      visited := visited + items.value;
    }
  }

  // ---------------------------------------------------------------- all producers

  /** What a producer with this slice visits. */
  function Visits(rows: seq<Row>, slice: seq<int>): seq<Row> {
    match MyRange(Some(slice))
    case Ok(range) => Select(rows, range)
    case Err(_) => []
  }

  lemma {:induction false} SelectCounts(rows: seq<Row>, range: (int, int), r: Row)
    ensures multiset(Select(rows, range))[r] == if Between(r.shard, range) then multiset(rows)[r] else 0
  {
    if rows == [] {
    } else {
      SelectCounts(rows[1..], range, r);
      assert rows == [rows[0]] + rows[1..];
    }
  }

  /** How often these visits come to a row. */
  function Times(visits: seq<seq<Row>>, r: Row): nat {
    if visits == [] then 0 else Times(visits[..|visits| - 1], r) + multiset(visits[|visits| - 1])[r]
  }

  lemma {:induction false} VisitTimes(rows: seq<Row>, shards: seq<int>, lo: int, hi: int, r: Row)
    requires CountsUp(shards) && 0 <= lo <= hi <= |shards|
    ensures multiset(Visits(rows, shards[lo..hi]))[r] == if lo <= r.shard < hi then multiset(rows)[r] else 0
  {
    if lo < hi {
      assert MyRange(Some(shards[lo..hi])) == Ok((lo, hi - 1));
      SelectCounts(rows, (lo, hi - 1), r);
    }
  }

  /** The visit comes to a row as often as it is stored if the shard lies between its two edges, and not at all
      otherwise. */
  ghost predicate BetweenEdges(edges: seq<int>, visits: seq<seq<Row>>, i: nat, r: Row, stored: nat)
    requires |edges| == |visits| + 1 && i < |visits|
  {
    edges[i] <= edges[i + 1] && multiset(visits[i])[r] == if edges[i] <= r.shard < edges[i + 1] then stored else 0
  }

  ghost predicate Bounded(edges: seq<int>, visits: seq<seq<Row>>, r: Row, stored: nat) {
    && |edges| == |visits| + 1 && edges[0] == 0
    && forall i :: 0 <= i < |visits| ==> BetweenEdges(edges, visits, i, r, stored)
  }

  lemma {:induction false} BoundedBefore(edges: seq<int>, visits: seq<seq<Row>>, r: Row, stored: nat)
    requires Bounded(edges, visits, r, stored) && visits != []
    ensures Bounded(edges[..|visits|], visits[..|visits| - 1], r, stored)
  {
    var fewer, earlier := edges[..|visits|], visits[..|visits| - 1];
    forall i | 0 <= i < |earlier| ensures BetweenEdges(fewer, earlier, i, r, stored) {
      assert BetweenEdges(edges, visits, i, r, stored);
    }
  }

  lemma {:induction false} TimesBeforeEdge(edges: seq<int>, visits: seq<seq<Row>>, r: Row, stored: nat)
    requires Bounded(edges, visits, r, stored) && r.shard >= 0
    ensures Times(visits, r) == if r.shard < edges[|visits|] then stored else 0
    decreases |visits|
  {
    if visits == [] {
    } else {
      var k := |visits| - 1;
      BoundedBefore(edges, visits, r, stored);
      TimesBeforeEdge(edges[..k + 1], visits[..k], r, stored);
      assert BetweenEdges(edges, visits, k, r, stored);
    }
  }

  lemma {:induction false} VisitOfSlice(rows: seq<Row>, shards: seq<int>, lo: int, hi: int, slice: seq<int>, r: Row)
    requires CountsUp(shards) && 0 <= lo <= hi <= |shards| && slice == shards[lo..hi]
    ensures multiset(Visits(rows, slice))[r] == if lo <= r.shard < hi then multiset(rows)[r] else 0
  {
    VisitTimes(rows, shards, lo, hi, r);
  }

  lemma {:induction false} EdgesOfSlice(shards: seq<int>, edges: seq<int>, slices: seq<seq<int>>, i: nat)
    requires SlicedAt(shards, edges, slices) && i < |slices|
    ensures |edges| == |slices| + 1 && edges[0] == 0
    ensures 0 <= edges[i] <= edges[i + 1] <= |shards| && slices[i] == shards[edges[i]..edges[i + 1]]
  {
    var j := i + 1;
    assert edges[i] <= edges[j];
  }

  lemma {:induction false} VisitsAreBounded(rows: seq<Row>, shards: seq<int>, edges: seq<int>, slices: seq<seq<int>>,
                                            visits: seq<seq<Row>>, r: Row)
    requires CountsUp(shards) && SlicedAt(shards, edges, slices) && |visits| == |slices|
    requires forall i :: 0 <= i < |visits| ==> visits[i] == Visits(rows, slices[i])
    ensures Bounded(edges, visits, r, multiset(rows)[r])
  {
    forall i | 0 <= i < |visits| ensures BetweenEdges(edges, visits, i, r, multiset(rows)[r]) {
      EdgesOfSlice(shards, edges, slices, i);
      VisitOfSlice(rows, shards, edges[i], edges[i + 1], slices[i], r);
    }
  }

  lemma {:induction false} StoredOnce(rows: seq<Row>, r: Row)
    requires ValidStore(rows) && r in rows
    ensures multiset(rows)[r] == 1
  {
    var i :| 0 <= i < |rows| && rows[i] == r;
    assert rows == rows[..i] + [r] + rows[i + 1..];
    assert r !in multiset(rows[..i]) && r !in multiset(rows[i + 1..]);
  }

  /** Producers that see the same group come, all together, to every zone exactly once. */
  lemma {:induction false} EveryZoneVisitedOnce(rows: seq<Row>, group: seq<Member>, views: map<Member, seq<Member>>,
                                                slices: seq<seq<int>>, visits: seq<seq<Row>>, r: Row)
    requires 0 <= r.shard < 4096
    requires SeeSameGroup(group, views) && TakenTogether(group, views, Shards(), slices)
    requires |visits| == |slices| && forall i :: 0 <= i < |visits| ==> visits[i] == Visits(rows, slices[i])
    ensures Times(visits, r) == multiset(rows)[r]
    ensures ValidStore(rows) && r in rows ==> Times(visits, r) == 1
  {
    EachTakesItsSlice(group, views, Shards(), slices);
    var edges := SliceEdges(Shards(), slices);
    VisitsAreBounded(rows, Shards(), edges, slices, visits, r);
    TimesBeforeEdge(edges, visits, r, multiset(rows)[r]);
    if ValidStore(rows) && r in rows {
      StoredOnce(rows, r);
    }
  }
}
