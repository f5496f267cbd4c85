/** LIMIT/OFFSET listings and the two loops that read a whole listing page by page.  The listing is
    fixed while a loop runs: the store has no other writer and one total order. */
module Paging {
  datatype Page<+T> = Page(data: seq<T>, total: nat, limit: int, offset: nat, hasMore: bool)

  function NormalizeLimit(limit: int, fallback: int, max: int): int {
    var l := if limit <= 0 then fallback else limit;
    if l > max then max else l
  }

  function NormalizeOffset(offset: int): nat {
    if offset < 0 then 0 else offset
  }

  function Min(a: int, b: int): int {
    if a <= b then a else b
  }

  const LIST_DEFAULT := 50
  const LIST_MAX := 500
  const PAGE_SIZE := 500
  const SEARCH_DEFAULT := 20
  const SEARCH_MAX := 100

  datatype SearchLimits = SearchLimits(fallback: int, max: int)

  /** The configured limits of a search; those out of range are replaced. */
  function NormalizeSearchLimits(configured: SearchLimits): SearchLimits {
    var fallback := if configured.fallback <= 0 then SEARCH_DEFAULT else configured.fallback;
    var max := if configured.max <= 0 then SEARCH_MAX else configured.max;
    SearchLimits(if fallback > max then max else fallback, max)
  }

  /** The limit a search runs with. */
  function SearchLimit(configured: SearchLimits, limit: int): (n: int)
    ensures var max := if configured.max <= 0 then SEARCH_MAX else configured.max;
            && 0 < n <= max && (0 < limit <= max ==> n == limit) && (limit > max ==> n == max)
            && (limit <= 0 && 0 < configured.fallback <= max ==> n == configured.fallback)
            && (limit <= 0 && configured.fallback > max ==> n == max)
            && (limit <= 0 && configured.fallback <= 0 ==> n == if max < 20 then max else 20)
  {
    var l := NormalizeSearchLimits(configured);
    NormalizeLimit(limit, l.fallback, l.max)
  }

  /** One listing call: LIMIT and OFFSET applied to the filtered, ordered rows. */
  function ListPage<T>(all: seq<T>, limit: int, offset: int): (p: Page<T>)
    ensures 0 < p.limit <= LIST_MAX
  {
    var l := NormalizeLimit(limit, LIST_DEFAULT, LIST_MAX);
    var o := NormalizeOffset(offset);
    var data := all[Min(o, |all|)..Min(o + l, |all|)];
    Page(data, |all|, l, o, o + |data| < |all|)
  }

  /** The rows collected by stepping the offset by pageSize until a page comes back short. */
  function Stepped<T>(all: seq<T>, pageSize: int, offset: nat): seq<T>
    requires 0 < pageSize
    decreases |all| - offset
  {
    var page := ListPage(all, pageSize, offset);
    if |page.data| < pageSize then page.data else page.data + Stepped(all, pageSize, offset + pageSize)
  }

  /** Within the clamp the loop resumes exactly where the page ended. */
  lemma {:induction false} SteppedSuffix<T>(all: seq<T>, pageSize: int, offset: nat)
    requires 0 < pageSize <= LIST_MAX
    ensures Stepped(all, pageSize, offset) == all[Min(offset, |all|)..]
    decreases |all| - offset
  {
    var page := ListPage(all, pageSize, offset);
    if |page.data| == pageSize {
      SteppedSuffix(all, pageSize, offset + pageSize);
    }
  }

  /** The loop reads the whole listing exactly when the page size respects the clamp of
      NormalizeLimit or one clamped page already holds every row. */
  lemma SteppedCompleteIff<T>(all: seq<T>, pageSize: int)
    requires 0 < pageSize
    ensures Stepped(all, pageSize, 0) == all <==> pageSize <= LIST_MAX || |all| <= LIST_MAX
  {
    if pageSize <= LIST_MAX {
      SteppedSuffix(all, pageSize, 0);
    } else {
      assert ListPage(all, pageSize, 0).data == all[..Min(LIST_MAX, |all|)];
    }
  }

  /** The loop of listAllOutgoingRelationshipsForEntity and listAllMemoriesForEntity. */
  method ListAllByStep<T>(all: seq<T>, pageSize: int) returns (rows: seq<T>)
    requires 0 < pageSize
    ensures rows == Stepped(all, pageSize, 0)
    ensures pageSize <= LIST_MAX ==> rows == all
  {
    rows := [];
    var offset: nat := 0;
    SteppedCompleteIff(all, pageSize);
    ghost var whole := Stepped(all, pageSize, 0);
    while true
      invariant rows + Stepped(all, pageSize, offset) == whole
      decreases |all| - offset
    {
      SteppedOnce(rows, all, pageSize, offset);
      var data := ListPage(all, pageSize, offset).data;
      rows := rows + data;
      if |data| < pageSize {
        break;
      }
      offset := offset + pageSize;
    }
  }

  lemma SteppedOnce<T>(rows: seq<T>, all: seq<T>, pageSize: int, offset: nat)
    requires 0 < pageSize
    ensures var data := ListPage(all, pageSize, offset).data;
            rows + Stepped(all, pageSize, offset)
            == if |data| < pageSize then rows + data else rows + data + Stepped(all, pageSize, offset + pageSize)
    ensures var data := ListPage(all, pageSize, offset).data;
            |data| <= pageSize && (|data| == pageSize ==> offset < |all|)
  {
  }

  /** The loop of listAllEntities, listAllMemories and listAllRelationships: step by what each page
      held until HasMore is false. */
  method ListAllWhileMore<T>(all: seq<T>, limit: int) returns (rows: seq<T>)
    ensures rows == all
  {
    rows := [];
    var offset: nat := 0;
    while true
      invariant offset <= |all| && rows == all[..offset]
      decreases |all| - offset
    {
      var page := ListPage(all, limit, offset);
      rows := rows + page.data;
      if !page.hasMore {
        return;
      }
      offset := offset + |page.data|;
    }
  }

  /** A page of a listing: up to 500 rows, 50 when nothing is asked, from the offset on; more are to come exactly
      when some row lies past the page. */
  lemma PageMeans<T>(all: seq<T>, limit: int, offset: int)
    ensures var p := ListPage(all, limit, offset);
            && (limit <= 0 ==> p.limit == 50) && (0 < limit <= 500 ==> p.limit == limit)
            && (limit > 500 ==> p.limit == 500)
            && (offset < 0 ==> p.offset == 0) && (offset >= 0 ==> p.offset == offset)
            && p.total == |all| && |p.data| <= p.limit
            && (|p.data| < p.limit ==> p.offset + |p.data| >= |all|)
            && (forall i :: 0 <= i < |p.data| ==> p.offset + i < |all| && p.data[i] == all[p.offset + i])
            && (p.hasMore <==> p.offset + p.limit < |all|)
  {
  }
}
