/** The requests `GetText` makes, in order, and how each failure cuts the
    chain short: page title -> page id -> latest revision id -> `"main"` slot
    text -> document tree -> section. The wiki server and the markup parser
    are given as functions, so what the model observes of the network is the
    list of requests sent. */
module Pipeline {
  import opened Errors
  import opened Response
  import opened Dom
  import opened Section

  /** The three queries sent to `api.php`, by what varies between them: the
      page title (URL-escaped in the real query), the page id, the revision
      id. The wiki's base URL is fixed by the server function. */
  datatype Request = TitleQuery(title: string) | RevisionsQuery(pageID: int) | ContentQuery(revID: int)

  /** The body of a reply as the JSON decoder sees it. */
  datatype Body = Malformed | Decoded(response: QueryResponse)

  /** What `http.Get` yields: no reply at all, or a status code and a body. */
  datatype Reply = Unreachable | Reply(status: int, body: Body)

  /** What the markup parser returns: an error, a value that is not an
      `*html.Node`, or a document tree. */
  datatype ParseOutcome = ParseFailed | NotHtml | Tree(root: Node)

  /** A result together with the requests sent to obtain it, in order. */
  datatype Run<T> = Run(result: Result<T>, sent: seq<Request>)

  /** One query round trip: the transport error, a status other than 200, or
      a body the decoder rejects each end it; otherwise the decoded response. */
  function Fetch(reply: Reply): (r: Result<QueryResponse>)
    ensures r.Success? <==> reply.Reply? && reply.status == 200 && reply.body.Decoded?
    ensures r.Success? ==> r.value == reply.body.response
    ensures r.Failure? ==> r.error == TransportError || r.error == DecodeError || r.error.StatusError?
    ensures reply.Unreachable? ==> r == Failure(TransportError)
    ensures reply.Reply? && reply.status != 200 ==> r == Failure(StatusError(reply.status))
    ensures reply.Reply? && reply.status == 200 && reply.body.Malformed? ==> r == Failure(DecodeError)
  {
    match reply
    case Unreachable => Failure(TransportError)
    case Reply(status, body) =>
      if status != 200 then Failure(StatusError(status))
      else match body
        case Malformed => Failure(DecodeError)
        case Decoded(qr) => Success(qr)
  }

  /** Sends `q` and applies `select` to the pages of a good reply; a failed
      round trip is passed on unchanged. */
  function Query<T>(wiki: Request -> Reply, q: Request, select: QueryResponsePages -> Result<T>): (r: Run<T>)
    ensures r.sent == [q]
    ensures Fetch(wiki(q)).Failure? ==> r.result == Failure(Fetch(wiki(q)).error)
    ensures Fetch(wiki(q)).Success? ==> r.result == select(Fetch(wiki(q)).value.query.pages)
  {
    match Fetch(wiki(q))
    case Failure(e) => Run(Failure(e), [q])
    case Success(qr) => Run(select(qr.query.pages), [q])
  }

  /** `GetPageID`: one title query; the id of some page of its reply. */
  function GetPageID(wiki: Request -> Reply, pageName: string): (r: Run<int>)
    ensures r.sent == [TitleQuery(pageName)]
    ensures r.result.Success? ==>
              var reply := Fetch(wiki(TitleQuery(pageName)));
              && reply.Success?
              && exists e :: e in reply.value.query.pages.entries && e.page.pageID == r.result.value
    ensures var reply := Fetch(wiki(TitleQuery(pageName)));
            reply.Failure? ==> r.result == Failure(reply.error)
    ensures var reply := Fetch(wiki(TitleQuery(pageName)));
            reply.Success? ==> r.result == PageIDOf(reply.value.query.pages)
    ensures r.result == Failure(PageNotFound) <==>
              var reply := Fetch(wiki(TitleQuery(pageName)));
              reply.Success? && reply.value.query.pages.entries == []
  {
    Query(wiki, TitleQuery(pageName), PageIDOf)
  }

  /** `GetLatestRevision`: one revisions query for `pageID`; the first
      revision id of some page of its reply. */
  function GetLatestRevision(wiki: Request -> Reply, pageID: int): (r: Run<int>)
    ensures r.sent == [RevisionsQuery(pageID)]
    ensures r.result.Success? ==>
              var reply := Fetch(wiki(RevisionsQuery(pageID)));
              && reply.Success?
              && exists e :: e in reply.value.query.pages.entries && e.page.revisions != []
                             && e.page.revisions[0].revID == r.result.value
    ensures var reply := Fetch(wiki(RevisionsQuery(pageID)));
            reply.Failure? ==> r.result == Failure(reply.error)
    ensures var reply := Fetch(wiki(RevisionsQuery(pageID)));
            reply.Success? ==> r.result == LatestRevisionOf(reply.value.query.pages)
    ensures r.result == Failure(PageNotFound) <==>
              var reply := Fetch(wiki(RevisionsQuery(pageID)));
              reply.Success? && reply.value.query.pages.entries == []
  {
    Query(wiki, RevisionsQuery(pageID), LatestRevisionOf)
  }

  /** `GetPageText`: the page id, then the latest revision of that page, then
      the `"main"` text of that revision; the first failure is returned as it
      is and no later request is sent. */
  function GetPageText(wiki: Request -> Reply, pageName: string): (r: Run<string>)
    ensures 1 <= |r.sent| <= 3 && r.sent[0] == TitleQuery(pageName)
  {
    var id := GetPageID(wiki, pageName);
    match id.result
    case Failure(e) => Run(Failure(e), id.sent)
    case Success(pageID) =>
      var rev := GetLatestRevision(wiki, pageID);
      match rev.result
      case Failure(e) => Run(Failure(e), id.sent + rev.sent)
      case Success(revID) =>
        var content := Query(wiki, ContentQuery(revID), MainTextOf);
        Run(content.result, id.sent + rev.sent + content.sent)
  }

  /** The error cascade of `GetPageText`: a failed page lookup is returned
      unchanged after the one title query; a failed revision lookup is
      returned unchanged before any content query; a success has asked the
      three queries in order, each for what the previous one found, and its
      text is the `"main"` slot text of the first revision of some page of
      the content reply. */
  lemma PageTextCascade(wiki: Request -> Reply, pageName: string)
    ensures var id := GetPageID(wiki, pageName);
            id.result.Failure? ==>
              GetPageText(wiki, pageName) == Run(Failure(id.result.error), [TitleQuery(pageName)])
    ensures var id := GetPageID(wiki, pageName);
            id.result.Success? && GetLatestRevision(wiki, id.result.value).result.Failure? ==>
              GetPageText(wiki, pageName) ==
                Run(Failure(GetLatestRevision(wiki, id.result.value).result.error),
                    [TitleQuery(pageName), RevisionsQuery(id.result.value)])
    ensures var t := GetPageText(wiki, pageName);
            t.result.Success? ==>
              var id := GetPageID(wiki, pageName).result;
              && id.Success?
              && var rev := GetLatestRevision(wiki, id.value).result;
              && rev.Success?
              && t.sent == [TitleQuery(pageName), RevisionsQuery(id.value), ContentQuery(rev.value)]
              && var reply := Fetch(wiki(ContentQuery(rev.value)));
              && reply.Success?
              && exists e :: e in reply.value.query.pages.entries && e.page.revisions != []
                             && "main" in e.page.revisions[0].slots
                             && e.page.revisions[0].slots["main"].text == t.result.value
    ensures var id := GetPageID(wiki, pageName).result;
            id.Success? && GetLatestRevision(wiki, id.value).result.Success? ==>
              var rev := GetLatestRevision(wiki, id.value).result.value;
              GetPageText(wiki, pageName) ==
                Run(Query(wiki, ContentQuery(rev), MainTextOf).result,
                    [TitleQuery(pageName), RevisionsQuery(id.value), ContentQuery(rev)])
  {
  }

  /** What `GetText` returns: the page text, parsed with a trailing newline
      added, then the section walk over the tree's `h2` headings. */
  function SectionOfPage(wiki: Request -> Reply, parse: string -> ParseOutcome,
                         pageName: string, sectionTitle: string): (r: Run<string>)
    ensures r.sent == GetPageText(wiki, pageName).sent
    ensures var page := GetPageText(wiki, pageName);
            page.result.Failure? ==> r.result == Failure(page.result.error)
    ensures var page := GetPageText(wiki, pageName);
            page.result.Success? && parse(page.result.value + "\n").ParseFailed? ==> r.result == Failure(ParseError)
    ensures var page := GetPageText(wiki, pageName);
            page.result.Success? && parse(page.result.value + "\n").NotHtml? ==> r.result == Failure(BodyNotParsed)
    ensures var page := GetPageText(wiki, pageName);
            page.result.Success? && parse(page.result.value + "\n").Tree? ==>
              r.result == SectionText(QueryAllH2(parse(page.result.value + "\n").root), sectionTitle)
  {
    var page := GetPageText(wiki, pageName);
    match page.result
    case Failure(e) => Run(Failure(e), page.sent)
    case Success(text) =>
      match parse(text + "\n")
      case ParseFailed => Run(Failure(ParseError), page.sent)
      case NotHtml => Run(Failure(BodyNotParsed), page.sent)
      case Tree(root) => Run(SectionText(QueryAllH2(root), sectionTitle), page.sent)
  }

  /** A failure to fetch the page text is returned unchanged and the parser
      is never consulted: any parser gives the same outcome. */
  lemma FetchFailureSkipsParser(wiki: Request -> Reply, parse1: string -> ParseOutcome,
                                parse2: string -> ParseOutcome, pageName: string, sectionTitle: string)
    requires GetPageText(wiki, pageName).result.Failure?
    ensures SectionOfPage(wiki, parse1, pageName, sectionTitle) == SectionOfPage(wiki, parse2, pageName, sectionTitle)
    ensures SectionOfPage(wiki, parse1, pageName, sectionTitle).result == GetPageText(wiki, pageName).result
  {
  }

  /** A successful `GetText` is a bullet list taken from an `h2` heading of the
      parsed page: the first one whose text contains the section title, with
      the lines of its siblings up to the next `h2`. */
  lemma SectionOfPageIsBulletList(wiki: Request -> Reply, parse: string -> ParseOutcome,
                                  pageName: string, sectionTitle: string)
    requires SectionOfPage(wiki, parse, pageName, sectionTitle).result.Success?
    ensures var page := GetPageText(wiki, pageName);
            && page.result.Success?
            && parse(page.result.value + "\n").Tree?
            && var headings := QueryAllH2(parse(page.result.value + "\n").root);
            && var h := headings[FirstMatch(headings, sectionTitle)];
            && IsH2(h.node)
            && var stop := StopIndex("h2", h.following);
            && stop < |h.following|
            && SectionOfPage(wiki, parse, pageName, sectionTitle).result.value == Render(Lines(h.following[..stop]))
  {
    var page := GetPageText(wiki, pageName);
    var headings := QueryAllH2(parse(page.result.value + "\n").root);
    SectionTextIsBulletList(headings, sectionTitle);
  }

  /** Once the page is fetched and parsed into a tree with a heading that
      matches, `GetText` returns that heading's bullet list exactly when a
      later `h2` sibling follows it, and crashes on the nil sibling otherwise. */
  lemma MatchedSectionOfPage(wiki: Request -> Reply, parse: string -> ParseOutcome,
                             pageName: string, sectionTitle: string)
    requires GetPageText(wiki, pageName).result.Success?
    requires parse(GetPageText(wiki, pageName).result.value + "\n").Tree?
    requires var headings := QueryAllH2(parse(GetPageText(wiki, pageName).result.value + "\n").root);
             FirstMatch(headings, sectionTitle) < |headings|
    ensures var headings := QueryAllH2(parse(GetPageText(wiki, pageName).result.value + "\n").root);
            var h := headings[FirstMatch(headings, sectionTitle)];
            var stop := StopIndex("h2", h.following);
            SectionOfPage(wiki, parse, pageName, sectionTitle).result ==
              if stop < |h.following| then Success(Render(Lines(h.following[..stop])))
              else Failure(NilSiblingPanic)
  {
    var headings := QueryAllH2(parse(GetPageText(wiki, pageName).result.value + "\n").root);
    SectionTextIsBulletList(headings, sectionTitle);
  }

  /** `GetText` as the program runs it: the requests of `GetPageText`, then
      the parser, then the imperative section walk `ExtractSection`. It takes
      the same steps as `SectionOfPage` on purpose: that function is its
      specification, which the lemmas above reason about, and this method is
      proved to agree with it. */
  method GetText(wiki: Request -> Reply, parse: string -> ParseOutcome, pageName: string, sectionTitle: string)
    returns (r: Result<string>, sent: seq<Request>)
    ensures Run(r, sent) == SectionOfPage(wiki, parse, pageName, sectionTitle)
  {
    var page := GetPageText(wiki, pageName);
    sent := page.sent;
    if page.result.Failure? {
      return Failure(page.result.error), sent;
    }
    match parse(page.result.value + "\n") {
      case ParseFailed => r := Failure(ParseError);
      case NotHtml => r := Failure(BodyNotParsed);
      case Tree(root) =>
        var nodes := QueryAllH2(root);
        r := ExtractSection(nodes, sectionTitle);
    }
  }
}
