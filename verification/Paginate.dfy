/** Following a paginated list (`paginate` in src/surface/dispatch.rs): from the first page,
    read the next cursor, fetch, and concatenate. */
module Paginate {
  import opened Json

  /** What a page's payload yields: its items, its next cursor if it names a usable one
      (absent, null and empty do not count), and whether the `more` gate, where one is
      configured, is open. */
  datatype Page = Page(items: seq<Value>, cursor: Option<Value>, more: bool)

  /** The upstream's answer to the k-th follow-up request, with its cursor; nothing when the
      request failed or the upstream reported an error. */
  type Fetch = (nat, Value) -> Option<Page>

  /** Nothing follows this page. */
  predicate Last(page: Page) { !page.more || page.cursor.None? }

  // ----- the listing itself -----

  /** The k-th page of the listing: what following every cursor in turn leads to. */
  ghost function PageAt(first: Page, fetch: Fetch, k: nat): Option<Page> {
    if k == 0 then Some(first)
    else match PageAt(first, fetch, k - 1)
      case None => None
      case Some(page) => if Last(page) then None else fetch(k, page.cursor.value)
  }

  /** The listing has exactly `n` pages: each can be had, and the last one is the last. */
  ghost predicate IsListing(first: Page, fetch: Fetch, n: nat) {
    n >= 1 && PageAt(first, fetch, n - 1).Some? && Last(PageAt(first, fetch, n - 1).value)
  }

  /** The items of the first `n` pages. */
  ghost function ItemsOf(first: Page, fetch: Fetch, n: nat): seq<Value> {
    if n == 0 || PageAt(first, fetch, n - 1).None? then []
    else ItemsOf(first, fetch, n - 1) + PageAt(first, fetch, n - 1).value.items
  }

  /** `items` is the whole listing. */
  ghost predicate IsWhole(first: Page, fetch: Fetch, items: seq<Value>) {
    exists n :: IsListing(first, fetch, n) && items == ItemsOf(first, fetch, n)
  }

  /** A page the program does not take in: it lies beyond the page limit, or it has no items,
      or its cursor is the one its predecessor was already fetched with. */
  ghost predicate CutAt(first: Page, fetch: Fetch, maxPages: nat, k: nat) {
    k >= 1 && (k >= maxPages || IsEmptyPage(first, fetch, k) || RepeatsCursor(first, fetch, k))
  }

  ghost predicate IsEmptyPage(first: Page, fetch: Fetch, k: nat) {
    PageAt(first, fetch, k).Some? && PageAt(first, fetch, k).value.items == []
  }

  ghost predicate RepeatsCursor(first: Page, fetch: Fetch, k: nat) {
    k >= 2 && PageAt(first, fetch, k - 1).Some? && PageAt(first, fetch, k - 2).Some?
    && PageAt(first, fetch, k - 1).value.cursor == PageAt(first, fetch, k - 2).value.cursor
  }

  // ----- what the program gathers -----

  /** Which pages it takes in: those before the first it cannot or will not. */
  ghost predicate Taken(first: Page, fetch: Fetch, maxPages: nat, k: nat) {
    PageAt(first, fetch, k).Some? && forall c :: 0 <= c <= k ==> !CutAt(first, fetch, maxPages, c)
  }

  /** It read `n` pages and then stopped. */
  ghost predicate StoppedAfter(first: Page, fetch: Fetch, maxPages: nat, n: nat) {
    n >= 1 && Taken(first, fetch, maxPages, n - 1) && !Taken(first, fetch, maxPages, n)
  }

  /** It stopped because a request it did make failed. */
  ghost predicate FailedAt(first: Page, fetch: Fetch, maxPages: nat, n: nat) {
    && n >= 1 && PageAt(first, fetch, n - 1).Some? && !Last(PageAt(first, fetch, n - 1).value)
    && n < maxPages && !RepeatsCursor(first, fetch, n) && PageAt(first, fetch, n).None?
  }

  /** The loop; `partial` is all it reports of why it stopped. */
  method Paginate(first: Page, fetch: Fetch, maxPages: nat) returns (items: seq<Value>, pages: nat, partial: bool)
    ensures StoppedAfter(first, fetch, maxPages, pages)
    ensures items == ItemsOf(first, fetch, pages)
    ensures partial == FailedAt(first, fetch, maxPages, pages)
  {
    var payload := first;
    var prev: Option<Value> := None;
    items := first.items;
    pages := 1;
    partial := false;
    assert ItemsOf(first, fetch, 1) == ItemsOf(first, fetch, 0) + first.items;
    while pages < maxPages
      invariant pages >= 1 && !partial && Taken(first, fetch, maxPages, pages - 1)
      invariant PageAt(first, fetch, pages - 1) == Some(payload)
      invariant if pages == 1 then prev == None else PageAt(first, fetch, pages - 2).Some? && PageAt(first, fetch, pages - 2).value.cursor == prev
      invariant items == ItemsOf(first, fetch, pages)
      decreases maxPages - pages
    {
      if !payload.more { break; }
      if payload.cursor.None? { break; }
      var cursor := payload.cursor.value;
      if prev == Some(cursor) {
        assert RepeatsCursor(first, fetch, pages) && CutAt(first, fetch, maxPages, pages);
        break;
      }
      prev := Some(cursor);
      var fetched := fetch(pages, cursor);
      assert PageAt(first, fetch, pages) == fetched;
      if fetched.None? {
        partial := true;
        break;
      }
      if fetched.value.items == [] {
        assert IsEmptyPage(first, fetch, pages) && CutAt(first, fetch, maxPages, pages);
        break;
      }
      assert !CutAt(first, fetch, maxPages, pages);
      items := items + fetched.value.items;
      payload := fetched.value;
      pages := pages + 1;
    }
    assert pages >= maxPages ==> CutAt(first, fetch, maxPages, pages);
  }

  /** The merged items are those of the first pages, each once and in order: never more pages
      than allowed, every one of them there, and none after the first without items. Where
      reading stops is determined by the pages. */
  lemma MergedIsPrefix(first: Page, fetch: Fetch, maxPages: nat, read: nat, k: nat)
    requires StoppedAfter(first, fetch, maxPages, read) && k < read
    ensures read <= if maxPages >= 1 then maxPages else 1
    ensures PageAt(first, fetch, k).Some? && (k > 0 ==> !IsEmptyPage(first, fetch, k))
    ensures ItemsOf(first, fetch, k + 1) == ItemsOf(first, fetch, k) + PageAt(first, fetch, k).value.items
    ensures !StoppedAfter(first, fetch, maxPages, k)
  {
    PagesExist(first, fetch, read, k);
    assert !CutAt(first, fetch, maxPages, read - 1) && !CutAt(first, fetch, maxPages, k);
  }

  // ----- when the result is the whole listing -----

  /** Every item lies before the page limit, the first page without items and the first
      repeated cursor. */
  ghost predicate NothingBeyondCut(first: Page, fetch: Fetch, maxPages: nat, n: nat) {
    forall k, c :: 0 <= c <= k < n && CutAt(first, fetch, maxPages, c) ==> IsEmptyPage(first, fetch, k)
  }

  lemma {:induction false} PagesExist(first: Page, fetch: Fetch, n: nat, k: nat)
    requires k < n && PageAt(first, fetch, n - 1).Some?
    ensures PageAt(first, fetch, k).Some? && (k < n - 1 ==> !Last(PageAt(first, fetch, k).value))
    decreases n
  {
    if k < n - 1 { PagesExist(first, fetch, n - 1, k); }
  }

  lemma {:induction false} NoPageAfterLast(first: Page, fetch: Fetch, n: nat, k: nat)
    requires IsListing(first, fetch, n) && n <= k
    ensures PageAt(first, fetch, k).None?
    decreases k
  {
    if k > n { NoPageAfterLast(first, fetch, n, k - 1); }
  }

  /** A listing has one length. */
  lemma ListingIsUnique(first: Page, fetch: Fetch, n: nat, m: nat)
    requires IsListing(first, fetch, n) && IsListing(first, fetch, m)
    ensures n == m
  {
    if n < m { NoPageAfterLast(first, fetch, n, m - 1); }
    if m < n { NoPageAfterLast(first, fetch, m, n - 1); }
  }

  /** Later pages add nothing exactly when each of them is without items. */
  lemma {:induction false} SameItemsIff(first: Page, fetch: Fetch, m: nat, n: nat)
    requires m <= n && (n > 0 ==> PageAt(first, fetch, n - 1).Some?)
    ensures |ItemsOf(first, fetch, m)| <= |ItemsOf(first, fetch, n)|
    ensures ItemsOf(first, fetch, m) == ItemsOf(first, fetch, n) <==>
      forall k :: m <= k < n ==> IsEmptyPage(first, fetch, k)
    decreases n
  {
    if m < n {
      if n > 1 { PagesExist(first, fetch, n, n - 2); }
      SameItemsIff(first, fetch, m, n - 1);
      var page := PageAt(first, fetch, n - 1).value;
      assert |ItemsOf(first, fetch, n)| == |ItemsOf(first, fetch, n - 1)| + |page.items|;
      if page.items == [] {
        assert ItemsOf(first, fetch, n) == ItemsOf(first, fetch, n - 1);
      } else {
        assert !IsEmptyPage(first, fetch, n - 1);
      }
    }
  }

  /** What is read is no longer than the listing, and where it is shorter the next page is the
      first cut. */
  lemma ReadsUpToTheCut(first: Page, fetch: Fetch, maxPages: nat, read: nat, n: nat)
    requires StoppedAfter(first, fetch, maxPages, read) && IsListing(first, fetch, n)
    ensures read <= n && forall c :: 0 <= c < read ==> !CutAt(first, fetch, maxPages, c)
    ensures read < n ==> CutAt(first, fetch, maxPages, read)
  {
    if read > n { NoPageAfterLast(first, fetch, n, read - 1); }
    if read < n { PagesExist(first, fetch, n, read); }
    hide CutAt;
  }

  /** For every first page, upstream and page limit: the merged items are the whole listing
      exactly when there is one and all its items lie before the first cut. */
  lemma WholeIff(first: Page, fetch: Fetch, maxPages: nat, read: nat)
    requires StoppedAfter(first, fetch, maxPages, read)
    ensures IsWhole(first, fetch, ItemsOf(first, fetch, read)) <==>
      exists n :: IsListing(first, fetch, n) && NothingBeyondCut(first, fetch, maxPages, n)
  {
    forall n | IsListing(first, fetch, n)
      ensures ItemsOf(first, fetch, read) == ItemsOf(first, fetch, n) <==> NothingBeyondCut(first, fetch, maxPages, n)
    {
      ReadsUpToTheCut(first, fetch, maxPages, read, n);
      SameItemsIff(first, fetch, read, n);
      hide CutAt, IsEmptyPage;
      if NothingBeyondCut(first, fetch, maxPages, n) {
        forall k | read <= k < n ensures IsEmptyPage(first, fetch, k) { assert CutAt(first, fetch, maxPages, read); }
      }
    }
  }

  /** A failed request is reported, and then there is no whole listing to be had; so what is
      missing from a result, while a whole listing exists, is never reported. */
  lemma ReportedMeansNoListing(first: Page, fetch: Fetch, maxPages: nat, read: nat, n: nat)
    requires FailedAt(first, fetch, maxPages, read)
    ensures !IsListing(first, fetch, n)
  {
    if IsListing(first, fetch, n) {
      if n > read {
        PagesExist(first, fetch, n, read);
      } else if n < read {
        NoPageAfterLast(first, fetch, n, read - 1);
      }
    }
  }

  // ----- cuts nobody is told of -----

  /** An upstream that serves these pages in turn. */
  function Serving(pages: seq<Page>): Fetch {
    (k: nat, cursor: Value) => if k < |pages| then Some(pages[k]) else None
  }

  /** The pages are linked, and the last one is the last. */
  ghost predicate Linked(pages: seq<Page>) {
    pages != [] && Last(pages[|pages| - 1]) && forall k :: 0 <= k < |pages| - 1 ==> !Last(pages[k])
  }

  lemma {:induction false} ServedPageAt(pages: seq<Page>, k: nat)
    requires Linked(pages) && k < |pages|
    ensures PageAt(pages[0], Serving(pages), k) == Some(pages[k])
    ensures IsListing(pages[0], Serving(pages), |pages|)
    decreases k
  {
    if k > 0 { ServedPageAt(pages, k - 1); }
    if k < |pages| - 1 { LastServed(pages); }
  }

  lemma {:induction false} LastServed(pages: seq<Page>)
    requires Linked(pages)
    ensures IsListing(pages[0], Serving(pages), |pages|)
  {
    var k := 0;
    while k < |pages| - 1
      invariant 0 <= k < |pages| && PageAt(pages[0], Serving(pages), k) == Some(pages[k])
    {
      k := k + 1;
    }
  }

  /** Of these pages, `read` are read, no failure is reported, and some item is missing. */
  ghost predicate Loses(pages: seq<Page>, maxPages: nat, read: nat) {
    pages != [] &&
    var first, fetch := pages[0], Serving(pages);
    && IsListing(first, fetch, |pages|) && StoppedAfter(first, fetch, maxPages, read)
    && !FailedAt(first, fetch, maxPages, read) && !IsWhole(first, fetch, ItemsOf(first, fetch, read))
  }

  lemma LosesWhenCut(pages: seq<Page>, maxPages: nat, read: nat)
    requires Linked(pages) && 0 < read < |pages| && pages[|pages| - 1].items != []
    requires StoppedAfter(pages[0], Serving(pages), maxPages, read) && CutAt(pages[0], Serving(pages), maxPages, read)
    ensures Loses(pages, maxPages, read)
  {
    var first, fetch, n := pages[0], Serving(pages), |pages|;
    ServedPageAt(pages, n - 1);
    ServedPageAt(pages, read);
    WholeIff(first, fetch, maxPages, read);
    assert !IsEmptyPage(first, fetch, n - 1);
    if IsWhole(first, fetch, ItemsOf(first, fetch, read)) {
      var m :| IsListing(first, fetch, m) && NothingBeyondCut(first, fetch, maxPages, m);
      ListingIsUnique(first, fetch, n, m);
      assert false;
    }
  }

  const NOTE := Null
  const NEXT := Some(String("next"))

  /** The page limit cuts a listing whose second page exists. */
  lemma UnreportedTruncation()
    ensures Loses([Page([NOTE], NEXT, true), Page([NOTE], None, true)], 1, 1)
  {
    var pages := [Page([NOTE], NEXT, true), Page([NOTE], None, true)];
    ServedPageAt(pages, 1);
    assert CutAt(pages[0], Serving(pages), 1, 1);
    LosesWhenCut(pages, 1, 1);
  }

  /** A page without items, with another page after it, ends the reading. */
  lemma EmptyPageTruncation()
    ensures Loses([Page([NOTE], NEXT, true), Page([], Some(String("more")), true), Page([NOTE], None, true)], 10, 1)
  {
    var pages := [Page([NOTE], NEXT, true), Page([], Some(String("more")), true), Page([NOTE], None, true)];
    ServedPageAt(pages, 1);
    assert CutAt(pages[0], Serving(pages), 10, 1);
    LosesWhenCut(pages, 10, 1);
  }

  /** So does a cursor that stays the same from page to page. */
  lemma RepeatedCursorTruncation()
    ensures Loses([Page([NOTE], NEXT, true), Page([NOTE], NEXT, true), Page([NOTE], None, true)], 10, 2)
  {
    var pages := [Page([NOTE], NEXT, true), Page([NOTE], NEXT, true), Page([NOTE], None, true)];
    ServedPageAt(pages, 1);
    ServedPageAt(pages, 2);
    assert CutAt(pages[0], Serving(pages), 10, 2);
    LosesWhenCut(pages, 10, 2);
  }

  /** But an empty last page loses nothing. */
  lemma EmptyLastPageIsHarmless()
    ensures var pages := [Page([NOTE], NEXT, true), Page([], None, true)];
      StoppedAfter(pages[0], Serving(pages), 10, 1) && IsWhole(pages[0], Serving(pages), ItemsOf(pages[0], Serving(pages), 1))
  {
    var pages := [Page([NOTE], NEXT, true), Page([], None, true)];
    ServedPageAt(pages, 1);
    assert CutAt(pages[0], Serving(pages), 10, 1);
    WholeIff(pages[0], Serving(pages), 10, 1);
    assert NothingBeyondCut(pages[0], Serving(pages), 10, 2);
  }
}
