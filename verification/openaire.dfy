/** The OpenAIRE project fetcher: page through the search API 100 records at a
    time until a page comes back empty, the reported total is exceeded by five
    pages, or 1000 pages have been read. Each page's response is injected;
    records are kept as opaque text. */
module OpenAire {
  import opened Wrappers

  const PageSize: int := 100
  const MaxPages: int := 1000

  /** The `total` of the response header as the code reads it: absent (read
      as the string "0"), or present with the outcome of `int()` on it. */
  datatype TotalField = TotalAbsent | TotalText(parsed: Option<int>)

  /** `response.results.result`: a list, a single truthy record, or a falsy value. */
  datatype ResultField = Many(items: seq<string>) | One(item: string) | Nothing

  /** One page request: it raised (network, status or JSON error), it had no
      `response` key, or it had one. */
  datatype PageResponse =
    | RequestError
    | NoResponseKey
    | Page(total: TotalField, results: ResultField)

  /** `False`, or the records written out, the `pages_processed` count, and
      the seconds slept after each page whose records were kept. */
  datatype OpenAireResult = OpenAireFailed | OpenAireSaved(records: seq<string>, pagesProcessed: nat, waits: seq<nat>)

  /** Page `n` (numbered from 1); past the injected pages the API returns nothing. */
  function PageAt(pages: seq<PageResponse>, n: nat): PageResponse {
    if 1 <= n <= |pages| then pages[n - 1] else Page(TotalText(None), Nothing)
  }

  /** The records a page contributes, a single record counting as a list of one. */
  function Items(p: PageResponse): (r: seq<string>)
    ensures p.Page? && p.results.Many? ==> r == p.results.items
    ensures p.Page? && p.results.One? ==> r == [p.results.item]
    ensures !p.Page? || p.results.Nothing? ==> r == []
  {
    match p
    case Page(_, Many(items)) => items
    case Page(_, One(item)) => [item]
    case _ => []
  }

  /** `ceil(total / 100)` as `(total + 99) // 100`; Python's floor division and
      Dafny's Euclidean division agree for a positive divisor. */
  function PageCount(total: int): (r: int)
    ensures total >= 0 ==> (r - 1) * PageSize < total <= r * PageSize || (total == 0 && r == 0)
  {
    (total + PageSize - 1) / PageSize
  }

  /** The page count a header yields, or `None` when `int()` failed. */
  function TotalPagesOf(t: TotalField): (r: Option<int>)
    ensures t.TotalAbsent? ==> r == Some(0)
    ensures t.TotalText? ==> (r.None? <==> t.parsed.None?)
    ensures t.TotalText? && t.parsed.Some? ==> r == Some(PageCount(t.parsed.value))
  {
    match t
    case TotalAbsent => Some(0)
    case TotalText(None) => None
    case TotalText(Some(n)) => Some(PageCount(n))
  }

  /** The page count known after reading pages 1..k: fixed by the first page
      with a `response` whose total parsed. */
  function KnownTotal(pages: seq<PageResponse>, k: nat): Option<int> {
    if k == 0 then None
    else
      var before := KnownTotal(pages, k - 1);
      if before.Some? then before
      else match PageAt(pages, k)
        case Page(t, _) => TotalPagesOf(t)
        case _ => None
  }

  /** Once known, the page count never changes. */
  lemma {:induction false} KnownTotalStable(pages: seq<PageResponse>, i: nat, k: nat)
    requires i <= k
    requires KnownTotal(pages, i).Some?
    ensures KnownTotal(pages, k) == KnownTotal(pages, i)
    decreases k - i
  {
    if i < k {
      KnownTotalStable(pages, i, k - 1);
    }
  }

  /** The records of pages 1..k in page order. */
  function Collected(pages: seq<PageResponse>, k: nat): seq<string> {
    if k == 0 then [] else Collected(pages, k - 1) + Items(PageAt(pages, k))
  }

  /** A page that ends the loop by itself: a failed request, no `response`, or no records. */
  predicate PageHalts(pages: seq<PageResponse>, n: nat) {
    !PageAt(pages, n).Page? || |Items(PageAt(pages, n))| == 0
  }

  /** The safety cap after `k` pages: a known, non-zero page count exceeded by
      more than five. A count of zero is falsy and never caps. */
  predicate CapAt(pages: seq<PageResponse>, k: nat) {
    var t := KnownTotal(pages, k);
    t.Some? && t.value != 0 && k + 1 > t.value + 5
  }

  /** Whether the loop stops with `k` pages processed. */
  predicate Stops(pages: seq<PageResponse>, k: nat) {
    (k >= 1 && (CapAt(pages, k) || k >= MaxPages)) || PageHalts(pages, k + 1)
  }

  lemma CollectedNonEmpty(pages: seq<PageResponse>, k: nat)
    requires k >= 1
    requires forall j :: 0 <= j < k ==> !Stops(pages, j)
    ensures |Collected(pages, k)| > 0
  {
    assert !Stops(pages, k - 1);
  }

  /** The pauses after `n` processed pages: `time.sleep(1)` after each. */
  function Pauses(n: nat): (r: seq<nat>)
    ensures |r| == n
    ensures forall j :: 0 <= j < n ==> r[j] == 1
  {
    seq(n, j => 1)
  }

  lemma PausesNext(n: nat)
    ensures Pauses(n) + [1] == Pauses(n + 1)
  {
    assert forall j :: 0 <= j < n + 1 ==> (Pauses(n) + [1])[j] == 1;
  }

  /** What `_fetch_openaire_api` returns: `False` exactly when the first
      request fails; otherwise the records of pages 1..k for the least `k` at
      which the loop stops, with `k` reported as the pages processed and a
      pause after each of them. */
  predicate Promised(pages: seq<PageResponse>, r: OpenAireResult) {
    && (r.OpenAireFailed? <==> PageAt(pages, 1).RequestError?)
    && (r.OpenAireSaved? ==>
          && r.pagesProcessed <= MaxPages
          && Stops(pages, r.pagesProcessed)
          && (forall j :: 0 <= j < r.pagesProcessed ==> !Stops(pages, j))
          && r.records == Collected(pages, r.pagesProcessed)
          && r.waits == Pauses(r.pagesProcessed))
  }

  /** The loop's variables before page `page` is requested. */
  datatype LoopState = LoopState(page: nat, all: seq<string>, total: Option<int>, waits: seq<nat>)

  /** `page - 1` pages were processed, none of them stopping the loop, and the
      variables hold what those pages yield. */
  predicate Progress(pages: seq<PageResponse>, s: LoopState) {
    && s.page >= 1
    && s.all == Collected(pages, s.page - 1)
    && s.waits == Pauses(s.page - 1)
    && s.total == KnownTotal(pages, s.page - 1)
    && (forall j :: 0 <= j < s.page - 1 ==> !Stops(pages, j))
    && (s.page > 1 ==> PageAt(pages, 1).Page?)
  }

  /** The loop invariant: progress so far, and neither cap applied after the
      last page. */
  predicate Reached(pages: seq<PageResponse>, s: LoopState) {
    && Progress(pages, s)
    && s.page <= MaxPages
    && (s.page > 1 ==> !CapAt(pages, s.page - 1))
  }

  /** One pass of the loop body: stop with the function's result, or go on
      with the next page. */
  datatype Pass = Done(result: OpenAireResult) | Next(state: LoopState)

  /** The loop body: request the page, fix the page count from the first
      `response` seen, stop on a failed or empty page, otherwise keep its
      records, pause, and stop if a cap now applies. */
  function PageStep(pages: seq<PageResponse>, s: LoopState): (r: Pass)
    requires Reached(pages, s)
    ensures r.Done? ==> Promised(pages, r.result)
    ensures r.Next? ==> Reached(pages, r.state) && r.state.page == s.page + 1
  {
    var resp := PageAt(pages, s.page);
    if !resp.Page? then
      // the request raised: keep what earlier pages collected, if anything
      if resp.RequestError? && |s.all| == 0 then
        FailedFirst(pages, s);
        Done(OpenAireFailed)
      else
        Halted(pages, s);
        Done(OpenAireSaved(s.all, s.page - 1, s.waits))
    else
      var total := if s.total.None? then TotalPagesOf(resp.total) else s.total;
      var items := Items(resp);
      if |items| == 0 then
        Halted(pages, s);
        Done(OpenAireSaved(s.all, s.page - 1, s.waits))
      else
        var next := LoopState(s.page + 1, s.all + items, total, s.waits + [1]);
        Advance(pages, s, next);
        if (total.Some? && total.value != 0 && next.page > total.value + 5) || next.page > MaxPages then
          Capped(pages, next);
          Done(OpenAireSaved(next.all, next.page - 1, next.waits))
        else
          Next(next)
  }

  /** A failed request with nothing collected can only be the first one. */
  lemma FailedFirst(pages: seq<PageResponse>, s: LoopState)
    requires Reached(pages, s)
    requires PageAt(pages, s.page).RequestError? && |s.all| == 0
    ensures Promised(pages, OpenAireFailed)
  {
    if s.page > 1 {
      CollectedNonEmpty(pages, s.page - 1);
    }
  }

  /** A page that halts the loop by itself saves what the pages before it
      collected, unless it is a failed first request. */
  lemma Halted(pages: seq<PageResponse>, s: LoopState)
    requires Reached(pages, s)
    requires PageHalts(pages, s.page)
    requires !(PageAt(pages, s.page).RequestError? && |s.all| == 0)
    ensures Promised(pages, OpenAireSaved(s.all, s.page - 1, s.waits))
  {
    assert Stops(pages, s.page - 1);
  }

  /** Keeping the records of a page with records makes progress by one page. */
  lemma Advance(pages: seq<PageResponse>, s: LoopState, next: LoopState)
    requires Reached(pages, s)
    requires PageAt(pages, s.page).Page? && |Items(PageAt(pages, s.page))| > 0
    requires next == LoopState(s.page + 1, s.all + Items(PageAt(pages, s.page)),
                               if s.total.None? then TotalPagesOf(PageAt(pages, s.page).total) else s.total,
                               s.waits + [1])
    ensures Progress(pages, next)
  {
    var k := s.page - 1;
    assert Collected(pages, k + 1) == Collected(pages, k) + Items(PageAt(pages, k + 1));
    PausesNext(k);
    assert !Stops(pages, k);
    assert forall j :: 0 <= j < k + 1 ==> !Stops(pages, j);
  }

  /** A cap that applies after the last page saves what all pages collected. */
  lemma Capped(pages: seq<PageResponse>, next: LoopState)
    requires Progress(pages, next) && 2 <= next.page <= MaxPages + 1
    requires CapAt(pages, next.page - 1) || next.page > MaxPages
    ensures Promised(pages, OpenAireSaved(next.all, next.page - 1, next.waits))
  {
    assert Stops(pages, next.page - 1);
  }

  /** `_fetch_openaire_api` up to the write. */
  method FetchOpenAire(pages: seq<PageResponse>) returns (r: OpenAireResult)
    ensures r.OpenAireFailed? <==> PageAt(pages, 1).RequestError?
    ensures r.OpenAireSaved? ==> r.pagesProcessed <= MaxPages
    ensures r.OpenAireSaved? ==> Stops(pages, r.pagesProcessed)
    ensures r.OpenAireSaved? ==> forall j :: 0 <= j < r.pagesProcessed ==> !Stops(pages, j)
    ensures r.OpenAireSaved? ==> r.records == Collected(pages, r.pagesProcessed)
    ensures r.OpenAireSaved? ==> r.waits == Pauses(r.pagesProcessed)
  {
    var s := LoopState(1, [], None, []);
    while true
      invariant Reached(pages, s)
      decreases MaxPages - s.page
    {
      var pass := PageStep(pages, s);
      if pass.Done? {
        return pass.result;
      }
      s := pass.state;
    }
  }

  /** With a non-zero page count reported on page 1, at most five pages beyond
      it are read. */
  lemma CapBoundsPages(pages: seq<PageResponse>, k: nat, t: int)
    requires KnownTotal(pages, 1) == Some(t) && t != 0 && t + 5 >= 1
    requires forall j :: 0 <= j < k ==> !Stops(pages, j)
    ensures k <= t + 5
  {
    KnownTotalStable(pages, 1, t + 5);
    assert Stops(pages, t + 5);
  }

  /** A first page without a total fixes the page count at zero, which
      disables the cap for the rest of the loop. */
  lemma AbsentTotalNeverCaps(pages: seq<PageResponse>, k: nat)
    requires PageAt(pages, 1).Page? && PageAt(pages, 1).total.TotalAbsent?
    requires k >= 1
    ensures !CapAt(pages, k)
  {
    assert KnownTotal(pages, 1) == Some(0);
    KnownTotalStable(pages, 1, k);
  }
}
