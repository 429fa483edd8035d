# wikibridge page-section extraction, modelled in Dafny

This project models `lib/extract.go` of wikibridge. That file fetches a page
from a MediaWiki wiki and returns one section of it as a bullet list. The
model has two parts.

- **The section walk of `GetText`** (`section.dfy`, `dom.dfy`, `strings.dfy`).
  It finds the first `h2` heading whose rendered text contains the section
  title. It then walks that heading's following siblings up to the next
  element with the heading's tag. Each non-blank sibling becomes one line
  `"* " + trimmed text + "\n"`. The two Go loops are methods
  (`Section.ExtractSection` and `Section.CollectSection`). Each is proved
  equal to a specification function: `Section.SectionBody` is the recursive
  walk, and `Section.SectionText` applies it to the heading that the
  recursive `Section.FirstMatch` picks. The properties of the walk are proved about those
  functions.
- **The response selection and the request chain** (`response.dfy`,
  `pipeline.dfy`, `errors.dfy`). The decoded query answers are datatypes.
  `GetPageID`, `GetLatestRevision` and `GetPageText` each pick one value from
  the first page the Go `range` visits, or fail with the file's own error.
  The wiki server is a function from request to reply. Every run records the
  requests it sent, so the short-circuiting between the three lookups is
  visible in the model.

The pages of a reply are a Go map, and Go leaves the order of a `range` over
it unspecified. The model lists the entries in the order one loop visits
them. Every property says "some page of the reply", never a particular one.
`Response.SameMap` relates two visiting orders of the same map.

**The end of the sibling chain.** One might expect the end of a section's
siblings to be a normal stop. The code does not treat it as one: it follows
`NextSibling` without a nil check (`lib/extract.go:85-86`). A matched section
that has no later `h2` under the same parent therefore dereferences nil and
crashes. The model follows the code and returns the distinct failure
`NilSiblingPanic` for that case. It never returns the partial text.

## Model

| member | source | states |
|---|---|---|
| Strings.LeadingSpaceSpec | lib/extract.go:90-91 | the leading-space count of `strings.TrimSpace` covers only white space and stops at the first non-space character |
| Strings.TrailingSpaceSpec | lib/extract.go:90-91 | the trailing-space count covers only white space and stops at the last non-space character |
| Strings.TrimSpaceSpec | lib/extract.go:90-91 | a trimmed line is the slice of the text with only white space around it; it is empty exactly when the text is all white space; otherwise it starts and ends with a non-space character |
| Strings.ContainsIsOccurrence | lib/extract.go:81 | `strings.Contains` holds exactly when the title occurs as a contiguous run at some position of the heading text |
| Dom.H2From | lib/extract.go:76 | the `//h2` collection from child `i` on holds only `h2` elements, and holds every `h2` child from `i` on together with the siblings that follow it |
| Dom.QueryAllH2 | lib/extract.go:76 | `QueryAll(root, "//h2")` yields only `h2` elements, and every `h2` child of the root appears with its following siblings |
| Dom.H2FromIsDescendants | lib/extract.go:76 | an entry is in the collection from child `i` on exactly when it is an `h2` node in or under one of those children, at any depth, paired with the siblings that really follow it |
| Dom.QueryAllH2IsDescendants | lib/extract.go:76 | `//h2` yields exactly the `h2` nodes anywhere below the root, each with its real following siblings, and nothing else |
| Dom.NestedH2Found | lib/extract.go:76 | an `h2` nested two elements deep is found, paired with no following siblings |
| Response.RotationKeepsKeysDistinct | lib/extract.go:26 | visiting a map from one entry on and wrapping around lists each page id at most once, as a Go map does |
| Section.SectionBody | lib/extract.go:82-94 | the walk from a matched heading can fail only by stepping onto a nil sibling |
| Section.StopIndex | lib/extract.go:84-88 | the walk stops at the first sibling that is an element with the heading's tag; no earlier sibling is one |
| Section.LinesAreTrimmed | lib/extract.go:89-92 | every emitted line is non-blank and starts and ends with a non-space character, so each bullet ends with exactly one newline |
| Section.SectionBodyIsRenderedLines | lib/extract.go:84-94 | the walk succeeds exactly when a sibling with the heading's tag follows; its text is then one bullet per non-blank sibling before the first such sibling, in order; that sibling and everything after it add nothing |
| Section.FirstMatch | lib/extract.go:80-81 | picks the first heading, in query order, whose inner text contains the title; no earlier heading contains it |
| Section.SectionText | lib/extract.go:80-97 | "failed to find section" exactly when no heading contains the title; the only other failure is the nil-sibling crash |
| Section.LaterHeadingsIgnored | lib/extract.go:80-95 | once a heading matches, headings after it, matching or not, never change the result |
| Section.SectionTextIsBulletList | lib/extract.go:80-94 | when some heading matches, the extraction succeeds exactly when a sibling with the first matching heading's tag follows it, and is then the rendered bullet list of the siblings before it; otherwise it is the nil-sibling crash |
| Section.EmptySectionBeforeNextHeading | lib/extract.go:84-88 | a matched heading followed at once by a same-tag sibling gives the empty text and no error |
| Section.CollectSection | lib/extract.go:82-94 | the inner loop over `NextSibling` with its `outText` accumulator computes exactly the walk `SectionBody`, including the nil-sibling crash |
| Section.ExtractSection | lib/extract.go:80-97 | the outer loop over the `h2` nodes returns the walk of the first matching heading, or "failed to find section" |
| Section.ExamplePageSections | lib/extract.go:80-97 | on a three-section page: a middle section renders as `"* milk\n* eggs\n"`, skipping a blank sibling; the last section crashes on the nil sibling; an absent title gives "failed to find section" |
| Response.OnFirstPage | lib/extract.go:149-152 | a `range` loop that returns on its first iteration: an empty map gives "page not found", otherwise some page of the map decides the result |
| Response.AnyPageMayBeFirst | lib/extract.go:149-151 | for every page of the map there is an order of visiting the same map in which that page decides; that order lists each page id once if the original does |
| Response.AgreeingPagesOrderFree | lib/extract.go:149-151 | when all pages would give the same answer, the visiting order does not change the result |
| Response.PageIDOf | lib/extract.go:149-152 | the id of some page of the reply; "page not found" exactly when the map is empty |
| Response.LatestRevisionOf | lib/extract.go:121-127 | the first revision id of some page; "no revisions found" when that one page has none; "page not found" for an empty map; no other failure |
| Response.SomeOrderFindsNoRevisions | lib/extract.go:121-126 | one page without revisions can make the lookup fail, whatever the other pages hold |
| Response.MainTextOf | lib/extract.go:183-193 | the `"main"` slot text of the first revision of some page; otherwise "page not found", "revision not found" or "content not found", and no other failure |
| Response.SomeOrderFindsNoContent | lib/extract.go:183-190 | a first revision without a `"main"` slot can make the lookup fail with "content not found", even when other slots, revisions or pages hold one |
| Pipeline.Fetch | lib/extract.go:106-119 | a round trip succeeds exactly on a reply with status 200 and a body the decoder accepts; it then yields that body; otherwise no reply gives the transport error, a status other than 200 gives a status error carrying that code, and a body the decoder rejects gives the decode error |
| Pipeline.Query | lib/extract.go:131-152 | sends exactly the one query; a failed round trip is passed on unchanged; a good reply gives the selection's result on its pages |
| Pipeline.GetPageID | lib/extract.go:131-153 | sends only the title query; a failed round trip is returned unchanged; a good reply gives `PageIDOf` of its pages, so the id belongs to some page; "page not found" exactly when the reply decoded to an empty map |
| Pipeline.GetLatestRevision | lib/extract.go:104-128 | sends only the revisions query for the page id; a failed round trip is returned unchanged; a good reply gives `LatestRevisionOf` of its pages, so the id is the first revision of some page; "page not found" exactly when the reply decoded to an empty map |
| Pipeline.GetPageText | lib/extract.go:156-194 | sends between one and three requests, and always the title query first |
| Pipeline.PageTextCascade | lib/extract.go:156-193 | a failed page-id lookup is returned unchanged after one request; a failed revision lookup is returned unchanged and no content request follows; a success sent the title, revisions and content queries in that order, each for what the previous one found, and returns the `"main"` text of some page of the content reply; when both lookups succeed the content query is sent and its outcome, a round-trip failure or `MainTextOf` of its pages, is the result |
| Pipeline.SectionOfPage | lib/extract.go:55-101 | `GetText` sends exactly the requests of `GetPageText`; a failed fetch is returned unchanged; after a good fetch an error from the parser is returned (`ParseError`), a value that is not a node tree gives "failed to parse body", and a tree gives the section walk over its `h2` headings |
| Pipeline.FetchFailureSkipsParser | lib/extract.go:56-59 | a failed page-text fetch is returned unchanged and the parser is never consulted |
| Pipeline.SectionOfPageIsBulletList | lib/extract.go:74-95 | a successful `GetText` parsed the fetched text into a tree and returns the bullet list of the first matching `h2` heading of that tree, up to the next `h2` sibling |
| Pipeline.MatchedSectionOfPage | lib/extract.go:74-94 | once the page is fetched and parsed and some `h2` matches, `GetText` returns that heading's bullet list exactly when a later `h2` sibling follows it, and otherwise crashes on the nil sibling |
| Pipeline.GetText | lib/extract.go:55-101 | the imperative `GetText` returns the result and sends the requests described by `SectionOfPage` |

The helpers `Section.IsTerminator` (`lib/extract.go:86`), `Section.Bullet`
(`lib/extract.go:89-92`), `Response.RevisionOfPage` (`lib/extract.go:122-125`)
and `Response.MainTextOfPage` (`lib/extract.go:184-191`) are the bodies of the
Go loops. They carry no contract of their own: the rows of the members that
use them state what they do.

## Left out

- Strings.TrimSpace: its own contract only bounds the length; what it computes is stated in `Strings.TrimSpaceSpec`.
- Strings.Contains: its own contract only rules out a title longer than the text; what it computes is stated in `Strings.ContainsIsOccurrence`.
- `http.Get`, URL building, `url.QueryEscape` and `Body.Close` are network I/O. The wiki is a function from request to reply. A request records only what varies: the title, the page id or the revision id.
- JSON decoding with `encoding/json` is a foreign library. A reply's body is either already decoded or rejected (`Malformed`). Go's zero values for missing JSON fields are not modelled.
- `wikitext.Parse`, its options and `log.SetOutput` are an external parser and global logging state. The parser is a function of the text with `"\n"` appended. It either fails, returns something other than an `*html.Node` ("failed to parse body"), or returns a tree.
- `htmlquery.InnerText` is a foreign renderer. Each node stores its rendered text in the field `innerText`.
- Dom.QueryAllH2: the document order of the headings it collects, which decides which match is first, is fixed by its definition and not stated as a separate property.
- The XPath engine of `htmlquery.QueryAll` is modelled only for the one expression used, `//h2`, as a preorder collection. Its error path is left out, because that constant expression always compiles.
- The error values carry the file's messages as constructor names, not as formatted strings. A status error keeps its code.
- Strings are sequences of code points. Go works on UTF-8 bytes, and the two agree on valid UTF-8.
- `main.go` is not part of this model; it is a fixed caller with no logic of its own.
- Go's randomised map order is not fixed to any order. It is an arbitrary order of the entries, and the lemmas about `SameMap` quantify over orders.
