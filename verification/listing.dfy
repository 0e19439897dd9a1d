/** Pages of a listing ordered by update time and id, newest first, fetched by separate requests. */
module Listing {

  const INT64_SPAN: int := 0x1_0000_0000_0000_0000
  const INT64_LIMIT: int := 0x8000_0000_0000_0000

  /** 64-bit multiplication wraps around. */
  function Wrap(x: int): (w: int)
    ensures -INT64_LIMIT <= w < INT64_LIMIT
    ensures -INT64_LIMIT <= x < INT64_LIMIT ==> w == x
  {
    (x + INT64_LIMIT) % INT64_SPAN - INT64_LIMIT
  }

  function NormalizePage(page: int, pageSize: int): (r: (int, int))
    ensures 1 <= r.0 && 1 <= r.1 <= 100
    ensures r.0 == page || (page < 1 && r.0 == 1)
    ensures r.1 == pageSize || (pageSize < 1 && r.1 == 20) || (100 < pageSize && r.1 == 100)
  {
    var p := if page < 1 then 1 else page;
    var s := if pageSize < 1 then 20 else pageSize;
    (p, if s > 100 then 100 else s)
  }

  // ---------- the order ----------

  /** `times` holds the update time of every row; equal times are told apart by id. */
  predicate Precedes(times: map<nat, int>, a: nat, b: nat)
    requires a in times && b in times
  {
    times[b] < times[a] || (times[b] == times[a] && b < a)
  }

  /** The matching ids, each once, in descending order of update time and id. */
  ghost predicate IsListing(times: map<nat, int>, matching: set<nat>, ids: seq<nat>) {
    && matching <= times.Keys
    && (forall i :: 0 <= i < |ids| ==> ids[i] in matching)
    && (forall id :: id in matching ==> id in ids)
    && (forall i, j :: 0 <= i < j < |ids| ==> Precedes(times, ids[i], ids[j]))
  }

  lemma TailIsListing(times: map<nat, int>, matching: set<nat>, ids: seq<nat>)
    requires IsListing(times, matching, ids) && ids != []
    ensures ids[0] in matching && IsListing(times, matching - {ids[0]}, ids[1..])
  {
    assert ids == [ids[0]] + ids[1..];
    forall i | 0 <= i < |ids| - 1
      ensures ids[1..][i] in matching - {ids[0]}
    {
      assert Precedes(times, ids[0], ids[i + 1]);
    }
  }

  /** Two requests over the same rows cannot see two orders. */
  lemma {:induction false} ListingIsUnique(times: map<nat, int>, matching: set<nat>, a: seq<nat>, b: seq<nat>)
    requires IsListing(times, matching, a) && IsListing(times, matching, b)
    ensures a == b
    decreases |a|
  {
    if a != [] || b != [] {
      ListedIdsMatch(times, matching, if a != [] then a else b);
      SameFirst(times, matching, a, b);
      TailIsListing(times, matching, a);
      TailIsListing(times, matching, b);
      ListingIsUnique(times, matching - {a[0]}, a[1..], b[1..]);
      assert a == [a[0]] + a[1..] && b == [b[0]] + b[1..];
    }
  }

  lemma NewestFirst(times: map<nat, int>, matching: set<nat>, ids: seq<nat>)
    requires IsListing(times, matching, ids)
    ensures forall i, j :: 0 <= i < j < |ids| ==>
              && ids[i] in times && ids[j] in times
              && (times[ids[j]] < times[ids[i]] || (times[ids[j]] == times[ids[i]] && ids[j] < ids[i]))
  {
  }

  lemma ListedIdsMatch(times: map<nat, int>, matching: set<nat>, ids: seq<nat>)
    requires IsListing(times, matching, ids) && ids != []
    ensures matching != {}
  {
    assert ids[0] in matching;
  }

  lemma SameFirst(times: map<nat, int>, matching: set<nat>, a: seq<nat>, b: seq<nat>)
    requires IsListing(times, matching, a) && IsListing(times, matching, b) && matching != {}
    ensures a != [] && b != [] && a[0] == b[0]
  {
    var one :| one in matching;
    assert one in a && one in b;
    var i :| 0 <= i < |b| && b[i] == a[0];
    var j :| 0 <= j < |a| && a[j] == b[0];
  }

  lemma NewestOf(times: map<nat, int>, matching: set<nat>) returns (first: nat)
    requires matching != {} && matching <= times.Keys
    ensures first in matching && forall id :: id in matching && id != first ==> Precedes(times, first, id)
    decreases |matching|
  {
    var one :| one in matching;
    if matching == {one} {
      first := one;
    } else {
      assert matching - {one} != {};
      first := NewestOf(times, matching - {one});
      assert forall id :: id in matching && id != one ==> id in matching - {one};
      if !Precedes(times, first, one) {
        first := one;
      }
    }
  }

  lemma ListingExists(times: map<nat, int>, matching: set<nat>) returns (ids: seq<nat>)
    requires matching <= times.Keys
    ensures IsListing(times, matching, ids)
    decreases |matching|
  {
    if matching == {} {
      ids := [];
    } else {
      var first := NewestOf(times, matching);
      var rest := ListingExists(times, matching - {first});
      ids := [first] + rest;
      assert ids[0] == first && forall i :: 0 < i < |ids| ==> ids[i] == rest[i - 1];
      assert forall id :: id in rest ==> id in ids;
      forall i, j | 0 <= i < j < |ids|
        ensures Precedes(times, ids[i], ids[j])
      {
        assert ids[j] == rest[j - 1] && rest[j - 1] in rest;
      }
    }
  }

  // ---------- pages ----------

  function Least(a: int, b: int): int {
    if a < b then a else b
  }

  /** The page a request gets from the listing; a non-positive offset is no offset. */
  function PageOf(ids: seq<nat>, page: int, pageSize: int): seq<nat> {
    var (p, s) := NormalizePage(page, pageSize);
    var wrapped := Wrap((p - 1) * s);
    var offset := if wrapped > 0 then wrapped else 0;
    ids[Least(offset, |ids|)..Least(offset + s, |ids|)]
  }

  /** A page holds `size` rows from the offset on, fewer at the end of the listing, and none past it. */
  ghost predicate HoldsRows(rows: seq<nat>, ids: seq<nat>, offset: int, size: nat) {
    var from := if 0 < offset then offset else 0;
    if |ids| <= from then rows == []
    else if |ids| <= from + size then rows == ids[from..]
    else rows == ids[from..from + size]
  }

  /**
   Every page, for every page number and size a request may carry: a page below one is the first, a size below one is
   20 and one above 100 is 100. Past 2^63 the offset wraps around, and a page may start anywhere again.
   */
  lemma EveryPage(ids: seq<nat>, page: int, pageSize: int)
    ensures var p := if page < 1 then 1 else page;
            var s := if pageSize < 1 then 20 else if 100 < pageSize then 100 else pageSize;
            && ((p - 1) * s < 0x8000_0000_0000_0000 ==> HoldsRows(PageOf(ids, page, pageSize), ids, (p - 1) * s, s))
            && exists offset: int ::
                 -0x8000_0000_0000_0000 <= offset < 0x8000_0000_0000_0000
                 && ((p - 1) * s - offset) % 0x1_0000_0000_0000_0000 == 0
                 && HoldsRows(PageOf(ids, page, pageSize), ids, offset, s)
  {
    var (p, s) := NormalizePage(page, pageSize);
    var offset := Wrap((p - 1) * s);
    assert HoldsRows(PageOf(ids, page, pageSize), ids, offset, s);
    WrapIsCongruent((p - 1) * s);
    OffsetIsNotNegative(p, s);
  }

  lemma WrapIsCongruent(x: int)
    ensures (x - Wrap(x)) % 0x1_0000_0000_0000_0000 == 0
  {
    var turns := (x + INT64_LIMIT) / INT64_SPAN;
    assert x - Wrap(x) == turns * INT64_SPAN;
  }

  lemma OffsetIsNotNegative(p: int, s: int)
    requires 1 <= p && 1 <= s
    ensures 0 <= (p - 1) * s
  {
  }

  function PageCount(total: nat, pageSize: int): nat
    requires 1 <= pageSize
  {
    (total + pageSize - 1) / pageSize
  }

  function Flatten(pages: seq<seq<nat>>): seq<nat> {
    if pages == [] then [] else Flatten(pages[..|pages| - 1]) + pages[|pages| - 1]
  }

  lemma PageBounds(total: nat, size: int, k: nat)
    requires 1 <= size && 1 <= k <= PageCount(total, size)
    ensures 0 <= (k - 1) * size < total
  {
    var n := PageCount(total, size);
    assert n * size <= total + size - 1;
    assert (k - 1) * size <= (n - 1) * size;
  }

  lemma LastPageReachesTheEnd(total: nat, size: int)
    requires 1 <= size
    ensures total <= PageCount(total, size) * size
  {
  }

  lemma PageIsASlice(ids: seq<nat>, size: int, k: nat)
    requires 1 <= size <= 100 && |ids| < INT64_LIMIT && 1 <= k <= PageCount(|ids|, size)
    ensures 0 <= (k - 1) * size < |ids|
    ensures PageOf(ids, k, size) == ids[(k - 1) * size..Least((k - 1) * size + size, |ids|)]
  {
    PageBounds(|ids|, size, k);
  }

  lemma NextPage(k: nat, size: int)
    ensures (k + 1) * size == k * size + size
  {
  }

  /** The first pages, one after the other, are a prefix of the listing. */
  lemma {:induction false} FirstPages(ids: seq<nat>, size: int, pages: seq<seq<nat>>)
    requires 1 <= size <= 100 && |ids| < INT64_LIMIT && |pages| <= PageCount(|ids|, size)
    requires forall p :: 0 <= p < |pages| ==> pages[p] == PageOf(ids, p + 1, size)
    ensures 0 <= |pages| * size && Flatten(pages) == ids[..Least(|pages| * size, |ids|)]
  {
    hide PageOf, PageCount;
    if pages != [] {
      var last := |pages| - 1;
      FirstPages(ids, size, pages[..last]);
      PageIsASlice(ids, size, last + 1);
      NextPage(last, size);
    }
  }

  /**
   Separate requests for the pages 1 to ceil(total / size), each of which sorts the rows for itself, together
   give the whole listing: every matching row exactly once, newest first.
   */
  lemma PagesPartitionTheListing(times: map<nat, int>, matching: set<nat>, ids: seq<nat>, size: int,
                                 sorted: seq<seq<nat>>, pages: seq<seq<nat>>)
    requires IsListing(times, matching, ids) && |ids| < INT64_LIMIT && 1 <= size <= 100
    requires |sorted| == |pages| == PageCount(|ids|, size)
    requires forall p :: 0 <= p < |pages| ==>
               IsListing(times, matching, sorted[p]) && pages[p] == PageOf(sorted[p], p + 1, size)
    ensures Flatten(pages) == ids
    ensures forall i, j :: 0 <= i < j < |ids| ==>
              && ids[i] in times && ids[j] in times
              && (times[ids[j]] < times[ids[i]] || (times[ids[j]] == times[ids[i]] && ids[j] < ids[i]))
  {
    NewestFirst(times, matching, ids);
    hide IsListing, PageOf, Flatten;
    forall p | 0 <= p < |pages|
      ensures pages[p] == PageOf(ids, p + 1, size)
    {
      ListingIsUnique(times, matching, sorted[p], ids);
    }
    FirstPages(ids, size, pages);
    LastPageReachesTheEnd(|ids|, size);
  }
}
