/** Paging through a fixed, totally ordered result, such as the transaction list. */
module Paging {
  import opened Common

  const DEFAULT_PAGE := 1
  const DEFAULT_LIMIT := 25
  const REPOSITORY_LIMIT := 20
  const MAX_LIMIT := 100

  function Max(a: int, b: int): int { if a < b then b else a }

  function Min(a: int, b: int): int { if a < b then a else b }

  /** A number or, if there is none or it is 0, the default. */
  function Or(n: Option<int>, default: int): int { if n.Some? && n.value != 0 then n.value else default }

  /** `parseListQuery`; `None` is a parameter that is not a number. */
  function ParsedPage(raw: Option<int>): int { Max(1, Or(raw, DEFAULT_PAGE)) }

  function ParsedLimit(raw: Option<int>): int { Min(MAX_LIMIT, Max(1, Or(raw, DEFAULT_LIMIT))) }

  /** The repository's own clamping; `None` is an absent option. */
  function RepositoryPage(page: Option<int>): int { Max(1, if page.Some? then page.value else DEFAULT_PAGE) }

  function RepositoryLimit(limit: Option<int>): int {
    Min(MAX_LIMIT, Max(1, if limit.Some? then limit.value else REPOSITORY_LIMIT))
  }

  /** Clamping twice is clamping once. */
  lemma RepositoryKeepsParsed(rawPage: Option<int>, rawLimit: Option<int>)
    ensures RepositoryPage(Some(ParsedPage(rawPage))) == ParsedPage(rawPage) >= 1
    ensures RepositoryLimit(Some(ParsedLimit(rawLimit))) == ParsedLimit(rawLimit)
    ensures 1 <= ParsedLimit(rawLimit) <= MAX_LIMIT
  {
  }

  /** Parsing keeps a page from 1 on and a limit from 1 to 100, moves others to the nearer end, and
      puts page 1 and 25 items where there is no number or 0. */
  lemma ParsedExactly(raw: Option<int>)
    ensures raw.None? || raw.value == 0 ==> ParsedPage(raw) == 1 && ParsedLimit(raw) == 25
    ensures raw.Some? && raw.value >= 1 ==> ParsedPage(raw) == raw.value
    ensures raw.Some? && raw.value < 0 ==> ParsedPage(raw) == 1 && ParsedLimit(raw) == 1
    ensures raw.Some? && 1 <= raw.value <= 100 ==> ParsedLimit(raw) == raw.value
    ensures raw.Some? && raw.value > 100 ==> ParsedLimit(raw) == 100
  {
  }

  /** The repository does the same, with 20 items where no limit is given, and takes 0 for a number. */
  lemma RepositoryExactly(given: Option<int>)
    ensures given.None? ==> RepositoryPage(given) == 1 && RepositoryLimit(given) == 20
    ensures given.Some? && given.value >= 1 ==> RepositoryPage(given) == given.value
    ensures given.Some? && given.value < 1 ==> RepositoryPage(given) == 1 && RepositoryLimit(given) == 1
    ensures given.Some? && 1 <= given.value <= 100 ==> RepositoryLimit(given) == given.value
    ensures given.Some? && given.value > 100 ==> RepositoryLimit(given) == 100
  {
  }

  datatype PageRef = PageRef(page: int, limit: int)

  datatype ListResult<T> = ListResult(count: int, total: int, next: Option<PageRef>, prev: Option<PageRef>,
                                      data: seq<T>)

  /** `skip` and `take` applied by the database. */
  function Slice<T>(items: seq<T>, skip: int, take: int): seq<T>
    requires skip >= 0 && take >= 0
  {
    items[Min(skip, |items|)..Min(skip + take, |items|)]
  }

  function ItemsBefore(page: int, limit: int): int { (page - 1) * limit }

  /** `data` are the items of the page. */
  predicate IsPage<T(==)>(items: seq<T>, data: seq<T>, page: int, limit: int)
    requires page >= 1 && limit >= 1
  {
    PositiveStart(page - 1, limit);
    data == Slice(items, ItemsBefore(page, limit), limit)
  }

  function Result<T>(data: seq<T>, total: int, page: int, limit: int): ListResult<T> {
    ListResult(|data|, total,
               if page * limit < total then Some(PageRef(page + 1, limit)) else None,
               if (page - 1) * limit > 0 then Some(PageRef(page - 1, limit)) else None, data)
  }

  /** For the data of a page of a list, `next` is the following page if items remain after these,
      and `prev` the preceding page if there is one. */
  method BuildListResult<T>(data: seq<T>, total: int, page: int, limit: int) returns (r: ListResult<T>)
    ensures r == Result(data, total, page, limit)
    ensures r.count == |data| && r.total == total && r.data == data
    ensures forall items: seq<T> | page >= 1 && limit >= 1 && total == |items| && IsPage(items, data, page, limit) ::
              && (r.next.Some? <==> ItemsBefore(page, limit) + |data| < |items|)
              && (r.prev.Some? <==> page > 1)
              && (r.next.Some? ==> r.next.value == PageRef(page + 1, limit) && |data| == limit)
              && (r.prev.Some? ==> r.prev.value == PageRef(page - 1, limit))
  {
    if page >= 1 && limit >= 1 {
      NextStart(page, limit);
      PositiveStart(page - 1, limit);
    }
    var startIndex, endIndex := (page - 1) * limit, page * limit;
    var next: Option<PageRef>, prev: Option<PageRef> := None, None;
    if endIndex < total {
      next := Some(PageRef(page + 1, limit));
    }
    if startIndex > 0 {
      prev := Some(PageRef(page - 1, limit));
    }
    r := ListResult(|data|, total, next, prev, data);
  }

  /** One request: the parsed page and limit, clamped again by the repository, and the result. */
  function ListPage<T>(items: seq<T>, rawPage: Option<int>, rawLimit: Option<int>): ListResult<T> {
    var page, limit := ParsedPage(rawPage), ParsedLimit(rawLimit);
    var skip := (RepositoryPage(Some(page)) - 1) * RepositoryLimit(Some(limit));
    assert skip >= 0;
    Result(Slice(items, skip, RepositoryLimit(Some(limit))), |items|, page, limit)
  }

  lemma NextStart(page: int, limit: int)
    ensures (page + 1 - 1) * limit == page * limit && page * limit == (page - 1) * limit + limit
  {
  }

  /** All the data seen by following `next`, starting at a page. */
  function Follow<T>(items: seq<T>, page: int, limit: int): seq<T>
    requires page >= 1 && 1 <= limit <= MAX_LIMIT
    decreases Max(0, |items| - page * limit)
  {
    var r := ListPage(items, Some(page), Some(limit));
    NextStart(page + 1, limit);
    if r.next.None? then r.data else r.data + Follow(items, r.next.value.page, r.next.value.limit)
  }

  lemma PageData<T>(items: seq<T>, page: int, limit: int)
    requires page >= 1 && 1 <= limit <= MAX_LIMIT
    ensures (page - 1) * limit >= 0
    ensures ListPage(items, Some(page), Some(limit)).data == Slice(items, (page - 1) * limit, limit)
  {
    hide Slice;
    assert ParsedPage(Some(page)) == page && ParsedLimit(Some(limit)) == limit;
    PositiveStart(page - 1, limit);
  }

  lemma {:induction false} FollowIsTheRest<T>(items: seq<T>, page: int, limit: int)
    requires page >= 1 && 1 <= limit <= MAX_LIMIT && 0 <= (page - 1) * limit <= |items|
    ensures Follow(items, page, limit) == items[(page - 1) * limit..]
    decreases Max(0, |items| - page * limit)
  {
    hide ListPage;
    var start, end := (page - 1) * limit, page * limit;
    Links(items, page, limit);
    PageData(items, page, limit);
    NextStart(page, limit);
    NextStart(page + 1, limit);
    if end < |items| {
      FollowIsTheRest(items, page + 1, limit);
      assert items[start..end] + items[end..] == items[start..];
    } else {
      assert items[start..|items|] == items[start..];
    }
  }

  /** Following `next` from page 1 ends, and visits every item exactly once and in order. */
  lemma FollowingVisitsEverything<T>(items: seq<T>, limit: int)
    requires 1 <= limit <= MAX_LIMIT
    ensures Follow(items, 1, limit) == items
  {
    FollowIsTheRest(items, 1, limit);
    assert items[0..] == items;
  }

  lemma Links<T>(items: seq<T>, page: int, limit: int)
    requires page >= 1 && 1 <= limit <= MAX_LIMIT
    ensures var r := ListPage(items, Some(page), Some(limit));
            && r.next == (if page * limit < |items| then Some(PageRef(page + 1, limit)) else None)
            && r.prev == (if page > 1 then Some(PageRef(page - 1, limit)) else None)
  {
    hide Slice;
    assert ParsedPage(Some(page)) == page && ParsedLimit(Some(limit)) == limit;
    PositiveStart(page - 1, limit);
  }

  lemma PositiveStart(before: int, limit: int)
    requires before >= 0 && limit >= 1
    ensures before * limit >= 0
    ensures before * limit > 0 <==> before > 0
  {
  }

  /** `prev` of the next page is this page; `next` of the previous page is this page exactly when
      this page starts within the result. */
  lemma PrevInvertsNext<T>(items: seq<T>, page: int, limit: int)
    requires page >= 1 && 1 <= limit <= MAX_LIMIT
    ensures var r := ListPage(items, Some(page), Some(limit));
            && (r.next.Some? ==>
                  ListPage(items, Some(r.next.value.page), Some(r.next.value.limit)).prev == Some(PageRef(page, limit)))
            && (r.prev.Some? <==> page > 1)
            && (r.prev.Some? ==>
                  (ListPage(items, Some(r.prev.value.page), Some(r.prev.value.limit)).next == Some(PageRef(page, limit))
                   <==> (page - 1) * limit < |items|))
  {
    hide ListPage;
    Links(items, page, limit);
    Links(items, page + 1, limit);
    if page > 1 {
      Links(items, page - 1, limit);
    }
  }
}
