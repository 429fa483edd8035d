/** The decoded answers of the wiki's query API, and how `GetPageID`,
    `GetLatestRevision` and `GetPageText` pick one value out of them. */
module Response {
  import opened Errors

  /** One slot of a revision: its content model, format and raw text. */
  datatype RevisionSlot = RevisionSlot(model: string, format: string, text: string)

  datatype QueryResponseRevision = QueryResponseRevision(
    revID: int, parentID: int, user: string, timestamp: string, comment: string,
    slots: map<string, RevisionSlot>)

  datatype QueryResponsePage = QueryResponsePage(
    pageID: int, ns: int, title: string, revisions: seq<QueryResponseRevision>)

  datatype PageEntry = PageEntry(key: int, page: QueryResponsePage)

  /** `QueryResponsePages`, a Go map from page id to page. Its entries are
      listed in the order in which one `range` over the map happens to visit
      them. Go leaves that order unspecified and may pick a different one on
      every loop, so every property below holds for all orders: it speaks of
      "some entry", and SameMap relates two orders of the same map. A list
      decoded from JSON has each key once (DistinctKeys); the selections
      below do not depend on it, and the reorderings the lemmas build keep
      it. */
  datatype QueryResponsePages = QueryResponsePages(entries: seq<PageEntry>)

  /** The entries list a Go map: no key occurs twice. */
  ghost predicate DistinctKeys(pages: QueryResponsePages) {
    forall a, b :: 0 <= a < b < |pages.entries| ==> pages.entries[a].key != pages.entries[b].key
  }

  datatype QueryResponseQuery = QueryResponseQuery(pages: QueryResponsePages)

  datatype QueryResponse = QueryResponse(batchcomplete: string, query: QueryResponseQuery)

  /** `a` and `b` are the same map visited in two orders. */
  ghost predicate SameMap(a: QueryResponsePages, b: QueryResponsePages) {
    multiset(a.entries) == multiset(b.entries)
  }

  /** The shape all three selections share: a `range` over the pages whose
      body returns on its first iteration, with `f` deciding from that one
      page, and "page not found" after the loop. */
  function OnFirstPage<T>(pages: QueryResponsePages, f: QueryResponsePage -> Result<T>): (r: Result<T>)
    ensures pages.entries == [] ==> r == Failure(PageNotFound)
    ensures pages.entries != [] ==> exists e :: e in pages.entries && r == f(e.page)
  {
    if pages.entries == [] then Failure(PageNotFound) else f(pages.entries[0].page)
  }

  /** The choice is truly open: for every page of the map there is an order
      of visiting the same map under which that page decides the result. */
  lemma AnyPageMayBeFirst<T>(pages: QueryResponsePages, f: QueryResponsePage -> Result<T>, e: PageEntry)
    requires e in pages.entries
    ensures exists other :: && SameMap(other, pages)
                            && (DistinctKeys(pages) ==> DistinctKeys(other))
                            && OnFirstPage(other, f) == f(e.page)
  {
    var s := pages.entries;
    var i :| 0 <= i < |s| && s[i] == e;
    var other := QueryResponsePages(s[i..] + s[..i]);
    assert s == s[..i] + s[i..];
    assert other.entries[0] == e;
    assert SameMap(other, pages);
    if DistinctKeys(pages) {
      RotationKeepsKeysDistinct(pages, i);
    }
  }

  /** Visiting a map from its `i`-th entry on and then wrapping around
      lists each key at most once, as the original order does. */
  lemma RotationKeepsKeysDistinct(pages: QueryResponsePages, i: nat)
    requires i < |pages.entries| && DistinctKeys(pages)
    ensures DistinctKeys(QueryResponsePages(pages.entries[i..] + pages.entries[..i]))
  {
    var s := pages.entries;
    var t := s[i..] + s[..i];
    forall a, b | 0 <= a < b < |t| ensures t[a].key != t[b].key {
      var x := if a < |s| - i then a + i else a - (|s| - i);
      var y := if b < |s| - i then b + i else b - (|s| - i);
      assert t[a] == s[x] && t[b] == s[y];
      if x < y {
      } else {
        assert y < x;
      }
    }
  }

  /** When every page would give the same answer, as with a map of a single
      page, the iteration order cannot change the result. */
  lemma {:induction false} AgreeingPagesOrderFree<T>(a: QueryResponsePages, b: QueryResponsePages, f: QueryResponsePage -> Result<T>)
    requires SameMap(a, b)
    requires forall e1, e2 :: e1 in a.entries && e2 in a.entries ==> f(e1.page) == f(e2.page)
    ensures OnFirstPage(a, f) == OnFirstPage(b, f)
  {
    if a.entries == [] {
      assert |b.entries| == |multiset(b.entries)| == 0;
    } else {
      assert |b.entries| == |multiset(a.entries)| > 0;
      assert b.entries[0] in multiset(a.entries);
    }
  }

  /** The body of the loop in `GetPageID`: the page's own id. */
  function PageIDOfPage(page: QueryResponsePage): Result<int> {
    Success(page.pageID)
  }

  /** The selection of `GetPageID`: the id of some page of the map, and
      "page not found" exactly when the map is empty. */
  function PageIDOf(pages: QueryResponsePages): (r: Result<int>)
    ensures r.Failure? <==> pages.entries == []
    ensures r.Failure? ==> r.error == PageNotFound
    ensures r.Success? ==> exists e :: e in pages.entries && e.page.pageID == r.value
  {
    OnFirstPage(pages, PageIDOfPage)
  }

  /** The body of the outer loop in `GetLatestRevision`: the id of the page's
      first revision, or "no revisions found". */
  function RevisionOfPage(page: QueryResponsePage): Result<int> {
    if page.revisions == [] then Failure(NoRevisionsFound)
    else Success(page.revisions[0].revID)
  }

  /** The selection of `GetLatestRevision`: one page of the map decides;
      "no revisions found" when that page has no revision, whatever the
      other pages hold, and "page not found" for an empty map. */
  function LatestRevisionOf(pages: QueryResponsePages): (r: Result<int>)
    ensures pages.entries == [] ==> r == Failure(PageNotFound)
    ensures pages.entries != [] ==> exists e :: e in pages.entries && r == RevisionOfPage(e.page)
    ensures r.Failure? ==> r.error in {PageNotFound, NoRevisionsFound}
    ensures r.Success? ==> exists e :: e in pages.entries && e.page.revisions != [] && e.page.revisions[0].revID == r.value
  {
    OnFirstPage(pages, RevisionOfPage)
  }

  /** One page without revisions can make the whole lookup fail, even when
      other pages of the same map have revisions. */
  lemma SomeOrderFindsNoRevisions(pages: QueryResponsePages, e: PageEntry)
    requires e in pages.entries && e.page.revisions == []
    ensures exists other :: && SameMap(other, pages)
                            && (DistinctKeys(pages) ==> DistinctKeys(other))
                            && LatestRevisionOf(other) == Failure(NoRevisionsFound)
  {
    AnyPageMayBeFirst(pages, RevisionOfPage, e);
  }

  /** The body of the outer loop in `GetPageText`: the text of the `"main"`
      slot of the page's first revision. */
  function MainTextOfPage(page: QueryResponsePage): Result<string> {
    if page.revisions == [] then Failure(RevisionNotFound)
    else if "main" in page.revisions[0].slots then Success(page.revisions[0].slots["main"].text)
    else Failure(ContentNotFound)
  }

  /** The selection of `GetPageText`: one page of the map decides; only its
      first revision is looked at, and only that revision's `"main"` slot. */
  function MainTextOf(pages: QueryResponsePages): (r: Result<string>)
    ensures pages.entries == [] ==> r == Failure(PageNotFound)
    ensures pages.entries != [] ==> exists e :: e in pages.entries && r == MainTextOfPage(e.page)
    ensures r.Failure? ==> r.error in {PageNotFound, RevisionNotFound, ContentNotFound}
    ensures r.Success? ==> exists e :: e in pages.entries && e.page.revisions != []
                              && "main" in e.page.revisions[0].slots
                              && e.page.revisions[0].slots["main"].text == r.value
  {
    OnFirstPage(pages, MainTextOfPage)
  }

  /** A first revision without a `"main"` slot makes the lookup fail with
      "content not found" under some order, even if other slots of that
      revision, later revisions or other pages do hold a `"main"` slot. */
  lemma SomeOrderFindsNoContent(pages: QueryResponsePages, e: PageEntry)
    requires e in pages.entries && e.page.revisions != [] && "main" !in e.page.revisions[0].slots
    ensures exists other :: && SameMap(other, pages)
                            && (DistinctKeys(pages) ==> DistinctKeys(other))
                            && MainTextOf(other) == Failure(ContentNotFound)
  {
    AnyPageMayBeFirst(pages, MainTextOfPage, e);
  }
}
