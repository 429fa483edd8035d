/** The section walk of `GetText`: find the first queried heading whose
    rendered text contains the section title, then collect one bullet line per
    non-blank sibling that follows it, up to the next element with the
    heading's own tag. */
module Section {
  import opened Errors
  import opened Strings
  import opened Dom

  /** A sibling that ends the walk: an element with the heading's tag. Text
      nodes and elements with other tags (an `h3`, say) never end it. */
  predicate IsTerminator(n: Node, tag: string) {
    n.kind == ElementNode && n.data == tag
  }

  /** What one visited sibling adds to the output: `"* " + text + "\n"` for
      its trimmed inner text, or nothing when that text is blank. */
  function Bullet(n: Node): string {
    var line := TrimSpace(n.innerText);
    if |line| > 0 then "* " + line + "\n" else ""
  }

  function Prepend(prefix: string, r: Result<string>): Result<string> {
    match r
    case Success(text) => Success(prefix + text)
    case Failure(_) => r
  }

  /** The walk from a matched heading along its following siblings
      `siblings`: the bullets of the siblings visited before the first one
      with the heading's tag. Reaching the end of the chain first means the
      walk steps onto a nil sibling, which crashes. */
  function SectionBody(tag: string, siblings: seq<Node>): (r: Result<string>)
    ensures r.Failure? ==> r.error == NilSiblingPanic
    decreases |siblings|
  {
    if siblings == [] then Failure(NilSiblingPanic)
    else if IsTerminator(siblings[0], tag) then Success("")
    else Prepend(Bullet(siblings[0]), SectionBody(tag, siblings[1..]))
  }

  /** The index of the sibling that ends the walk, or `|siblings|` when no
      sibling does. */
  function StopIndex(tag: string, siblings: seq<Node>): (k: nat)
    ensures k <= |siblings|
    ensures forall j :: 0 <= j < k ==> !IsTerminator(siblings[j], tag)
    ensures k < |siblings| ==> IsTerminator(siblings[k], tag)
    decreases |siblings|
  {
    if siblings == [] || IsTerminator(siblings[0], tag) then 0
    else 1 + StopIndex(tag, siblings[1..])
  }

  /** The lines of an extracted section: the trimmed inner texts of `nodes`
      that are not blank, in document order. Each is non-empty and starts
      and ends with a non-space character. */
  function Lines(nodes: seq<Node>): (lines: seq<string>)
    ensures |lines| <= |nodes|
  {
    if nodes == [] then []
    else
      var line := TrimSpace(nodes[0].innerText);
      if |line| > 0 then [line] + Lines(nodes[1..]) else Lines(nodes[1..])
  }

  /** Every line of a section is non-blank: it starts and ends with a
      non-space character, so the bullet `"* " + line + "\n"` ends with
      exactly one newline. */
  lemma {:induction false} LinesAreTrimmed(nodes: seq<Node>)
    ensures forall i :: 0 <= i < |Lines(nodes)| ==> NonBlankTrimmed(Lines(nodes)[i])
  {
    if nodes != [] {
      LinesAreTrimmed(nodes[1..]);
      TrimSpaceSpec(nodes[0].innerText);
      var line := TrimSpace(nodes[0].innerText);
      if |line| > 0 {
        var lines := [line] + Lines(nodes[1..]);
        assert Lines(nodes) == lines;
        forall i | 0 <= i < |lines| ensures NonBlankTrimmed(lines[i]) {
          if i > 0 { assert lines[i] == Lines(nodes[1..])[i - 1]; }
        }
      }
    }
  }

  predicate NonBlankTrimmed(line: string) {
    line != [] && !IsSpace(line[0]) && !IsSpace(line[|line| - 1])
  }

  /** A section's lines as the walk prints them: one bullet per line. */
  function Render(lines: seq<string>): string {
    if lines == [] then "" else "* " + lines[0] + "\n" + Render(lines[1..])
  }

  /** The walk, described without its accumulator: it succeeds exactly when
      some following sibling carries the heading's tag, and then yields the
      rendered lines of the siblings strictly before the first such one;
      that sibling and everything after it contribute nothing. */
  lemma {:induction false} SectionBodyIsRenderedLines(tag: string, siblings: seq<Node>)
    ensures SectionBody(tag, siblings) ==
              if StopIndex(tag, siblings) < |siblings|
              then Success(Render(Lines(siblings[..StopIndex(tag, siblings)])))
              else Failure(NilSiblingPanic)
    decreases |siblings|
  {
    if siblings == [] {
    } else if IsTerminator(siblings[0], tag) {
      assert siblings[..0] == [];
    } else {
      var rest := siblings[1..];
      var k := StopIndex(tag, rest);
      assert StopIndex(tag, siblings) == k + 1;
      assert SectionBody(tag, siblings) == Prepend(Bullet(siblings[0]), SectionBody(tag, rest));
      SectionBodyIsRenderedLines(tag, rest);
      if k < |rest| {
        var prefix := siblings[..k + 1];
        assert prefix[0] == siblings[0] && prefix[1..] == rest[..k];
        BulletThenRest(prefix);
        assert SectionBody(tag, rest) == Success(Render(Lines(rest[..k])));
      } else {
        assert SectionBody(tag, rest) == Failure(NilSiblingPanic);
      }
    }
  }

  /** The bullet of the first node followed by the rendered lines of the
      others is the rendered lines of them all. */
  lemma BulletThenRest(nodes: seq<Node>)
    requires nodes != []
    ensures Render(Lines(nodes)) == Bullet(nodes[0]) + Render(Lines(nodes[1..]))
  {
    var line := TrimSpace(nodes[0].innerText);
    var rest := Lines(nodes[1..]);
    if |line| > 0 {
      assert Lines(nodes) == [line] + rest;
      RenderCons(line, rest);
      assert Bullet(nodes[0]) == "* " + line + "\n";
    } else {
      assert Lines(nodes) == rest;
      assert Bullet(nodes[0]) == "";
    }
  }

  lemma RenderCons(line: string, rest: seq<string>)
    ensures Render([line] + rest) == "* " + line + "\n" + Render(rest)
  {
    assert ([line] + rest)[1..] == rest;
  }

  /** The index of the first heading whose rendered text contains `title`,
      or `|headings|` when none does. */
  function FirstMatch(headings: seq<Located>, title: string): (k: nat)
    ensures k <= |headings|
    ensures forall j :: 0 <= j < k ==> !Contains(headings[j].node.innerText, title)
    ensures k < |headings| ==> Contains(headings[k].node.innerText, title)
    decreases |headings|
  {
    if headings == [] || Contains(headings[0].node.innerText, title) then 0
    else 1 + FirstMatch(headings[1..], title)
  }

  /** What the section walk of `GetText` returns for the queried headings
      `headings`: the walk from the first heading that matches `title`, or
      "failed to find section" when none matches. */
  function SectionText(headings: seq<Located>, title: string): (r: Result<string>)
    ensures r == Failure(SectionNotFound) <==>
              forall k :: 0 <= k < |headings| ==> !Contains(headings[k].node.innerText, title)
    ensures r.Failure? ==> r.error in {SectionNotFound, NilSiblingPanic}
  {
    var k := FirstMatch(headings, title);
    if k < |headings| then SectionBody(headings[k].node.data, headings[k].following)
    else Failure(SectionNotFound)
  }

  /** Only the first matching heading matters: headings after it, matching
      or not, never change the result. */
  lemma {:induction false} LaterHeadingsIgnored(headings: seq<Located>, more: seq<Located>, title: string)
    requires exists k :: 0 <= k < |headings| && Contains(headings[k].node.innerText, title)
    ensures SectionText(headings + more, title) == SectionText(headings, title)
  {
    var k := FirstMatch(headings, title);
    var all := headings + more;
    forall j | 0 <= j < k ensures !Contains(all[j].node.innerText, title) {
      assert all[j] == headings[j];
    }
    assert all[k] == headings[k];
    assert FirstMatch(all, title) == k;
  }

  /** When some heading matches, the extraction succeeds exactly when a
      sibling with the first matching heading's tag follows it, and is then
      the bullet list of the lines before that sibling; otherwise the walk
      crashes on the nil sibling. */
  lemma SectionTextIsBulletList(headings: seq<Located>, title: string)
    requires FirstMatch(headings, title) < |headings|
    ensures var h := headings[FirstMatch(headings, title)];
            var stop := StopIndex(h.node.data, h.following);
            SectionText(headings, title) ==
              if stop < |h.following| then Success(Render(Lines(h.following[..stop])))
              else Failure(NilSiblingPanic)
  {
    var h := headings[FirstMatch(headings, title)];
    SectionBodyIsRenderedLines(h.node.data, h.following);
  }

  /** A matched heading followed at once by a sibling with its own tag has
      an empty section: the text is empty and there is no error. */
  lemma EmptySectionBeforeNextHeading(headings: seq<Located>, title: string)
    requires FirstMatch(headings, title) < |headings|
    requires var h := headings[FirstMatch(headings, title)];
             h.following != [] && IsTerminator(h.following[0], h.node.data)
    ensures SectionText(headings, title) == Success("")
  {
  }

  /** The inner loop of `GetText`: step along the siblings after the matched
      heading, appending each non-blank one's bullet, until a sibling with
      the heading's tag. */
  method CollectSection(tag: string, siblings: seq<Node>) returns (r: Result<string>)
    ensures r == SectionBody(tag, siblings)
  {
    var outText := "";
    var j := 0;
    CollectStart(tag, siblings);
    while true
      invariant 0 <= j <= |siblings|
      invariant SectionBody(tag, siblings) == Prepend(outText, SectionBody(tag, siblings[j..]))
      decreases |siblings| - j
    {
      if j == |siblings| {
        CollectEnd(tag, siblings, outText);
        return Failure(NilSiblingPanic);
      }
      var n := siblings[j];
      if n.kind == ElementNode && n.data == tag {
        CollectStop(tag, siblings, j, outText);
        break;
      }
      CollectStep(tag, siblings, j, outText);
      var line := TrimSpace(n.innerText);
      if |line| > 0 {
        outText := outText + "* " + line + "\n";
      }
      j := j + 1;
    }
    return Success(outText);
  }

  lemma CollectStart(tag: string, siblings: seq<Node>)
    ensures SectionBody(tag, siblings) == Prepend("", SectionBody(tag, siblings[0..]))
  {
    assert siblings[0..] == siblings;
    PrependNothing(SectionBody(tag, siblings));
  }

  lemma CollectEnd(tag: string, siblings: seq<Node>, outText: string)
    requires SectionBody(tag, siblings) == Prepend(outText, SectionBody(tag, siblings[|siblings|..]))
    ensures SectionBody(tag, siblings) == Failure(NilSiblingPanic)
  {
    assert siblings[|siblings|..] == [];
  }

  lemma CollectStop(tag: string, siblings: seq<Node>, j: nat, outText: string)
    requires j < |siblings| && IsTerminator(siblings[j], tag)
    requires SectionBody(tag, siblings) == Prepend(outText, SectionBody(tag, siblings[j..]))
    ensures SectionBody(tag, siblings) == Success(outText)
  {
    WalkStep(tag, siblings, j);
    assert outText + "" == outText;
  }

  lemma CollectStep(tag: string, siblings: seq<Node>, j: nat, outText: string)
    requires j < |siblings| && !IsTerminator(siblings[j], tag)
    requires SectionBody(tag, siblings) == Prepend(outText, SectionBody(tag, siblings[j..]))
    ensures var line := TrimSpace(siblings[j].innerText);
            var next := if |line| > 0 then outText + "* " + line + "\n" else outText;
            SectionBody(tag, siblings) == Prepend(next, SectionBody(tag, siblings[j + 1..]))
  {
    WalkStep(tag, siblings, j);
    var line := TrimSpace(siblings[j].innerText);
    PrependTwice(outText, Bullet(siblings[j]), SectionBody(tag, siblings[j + 1..]));
    if |line| > 0 {
      assert outText + "* " + line + "\n" == outText + Bullet(siblings[j]);
    } else {
      assert outText + Bullet(siblings[j]) == outText;
    }
  }

  lemma PrependNothing(r: Result<string>)
    ensures Prepend("", r) == r
  {
    if r.Success? { assert "" + r.value == r.value; }
  }

  lemma PrependTwice(a: string, b: string, r: Result<string>)
    ensures Prepend(a, Prepend(b, r)) == Prepend(a + b, r)
  {
    if r.Success? { assert a + (b + r.value) == (a + b) + r.value; }
  }

  /** One step of the walk, seen from position `j` of the sibling chain. */
  lemma WalkStep(tag: string, siblings: seq<Node>, j: nat)
    requires j < |siblings|
    ensures SectionBody(tag, siblings[j..]) ==
              if IsTerminator(siblings[j], tag) then Success("")
              else Prepend(Bullet(siblings[j]), SectionBody(tag, siblings[j + 1..]))
  {
    assert siblings[j..][0] == siblings[j];
    assert siblings[j..][1..] == siblings[j + 1..];
  }

  /** The outer loop of `GetText`: the first heading whose rendered text
      contains `title` is walked and its result returned at once. */
  method ExtractSection(headings: seq<Located>, title: string) returns (r: Result<string>)
    ensures r == SectionText(headings, title)
  {
    for i := 0 to |headings|
      invariant forall k :: 0 <= k < i ==> !Contains(headings[k].node.innerText, title)
    {
      var n := headings[i];
      if Contains(n.node.innerText, title) {
        r := CollectSection(n.node.data, n.following);
        return;
      }
    }
    return Failure(SectionNotFound);
  }

  /** A page with three `h2` sections, as the parser lays it out: headings
      and their content are siblings under one parent. */
  function ExamplePage(): Node {
    Node(DocumentNode, "", [
      Heading("Intro"), Para("text"),
      Heading("Groceries"), Para("  milk\n"), Node(TextNode, "\n", [], "\n"), Para("eggs"),
      Heading("Other things"), Para("more")], "")
  }

  function Heading(title: string): Node { Node(ElementNode, "h2", [], title) }

  function Para(text: string): Node { Node(ElementNode, "p", [], text) }

  function ExampleHeadings(): seq<Located> {
    var c := ExamplePage().children;
    [Located(c[0], c[1..]), Located(c[2], c[3..]), Located(c[6], c[7..])]
  }

  lemma ExampleQuery()
    ensures QueryAllH2(ExamplePage()) == ExampleHeadings()
  {
    var root := ExamplePage();
    var c := root.children;
    ExampleQueryTail();
    assert H2From(root, 2) == [Located(c[2], c[3..])] + H2From(root, 3);
    assert H2From(root, 1) == H2From(root, 2);
  }

  lemma ExampleQueryTail()
    ensures var c := ExamplePage().children;
            H2From(ExamplePage(), 3) == [Located(c[6], c[7..])]
  {
    var root := ExamplePage();
    ExampleQueryLast();
    assert H2From(root, 5) == H2From(root, 6);
    assert H2From(root, 4) == H2From(root, 6);
  }

  lemma ExampleQueryLast()
    ensures var c := ExamplePage().children;
            H2From(ExamplePage(), 6) == [Located(c[6], c[7..])]
  {
    var root := ExamplePage();
    assert H2From(root, 8) == [];
    assert H2From(root, 7) == [];
  }

  lemma ExampleBullets()
    ensures Bullet(Para("  milk\n")) == "* milk\n"
    ensures Bullet(Node(TextNode, "\n", [], "\n")) == ""
    ensures Bullet(Para("eggs")) == "* eggs\n"
  {
    MilkBullet();
    EggsBullet();
    TrimSpaceSpec("\n");
    assert AllSpace("\n");
  }

  lemma MilkBullet()
    ensures Bullet(Para("  milk\n")) == "* milk\n"
  {
    var line := TrimSpace("  milk\n");
    TrimMilk();
    assert "* " + line + "\n" == "* milk\n";
  }

  lemma EggsBullet()
    ensures Bullet(Para("eggs")) == "* eggs\n"
  {
    var line := TrimSpace("eggs");
    TrimEggs();
    assert "* " + line + "\n" == "* eggs\n";
  }

  lemma TrimMilk()
    ensures TrimSpace("  milk\n") == "milk"
  {
    var milk := "  milk\n";
    assert !IsSpace(milk[2]) && IsSpace(milk[1]) && IsSpace(milk[0]);
    assert LeadingSpace(milk[2..]) == 0;
    assert LeadingSpace(milk[1..]) == 1;
    assert LeadingSpace(milk) == 2;
    var rest := milk[2..];
    assert rest == "milk\n";
    assert !IsSpace(rest[3]) && IsSpace(rest[4]);
    assert TrailingSpace(rest[..4]) == 0;
    assert TrailingSpace(rest) == 1;
    assert rest[..|rest| - 1] == "milk";
  }

  lemma TrimEggs()
    ensures TrimSpace("eggs") == "eggs"
  {
    var eggs := "eggs";
    assert !IsSpace(eggs[0]) && !IsSpace(eggs[3]);
    assert LeadingSpace(eggs) == 0;
    assert TrailingSpace(eggs) == 0;
    assert eggs[0..|eggs|] == eggs;
  }

  /** The middle section ends at the next `h2`, and blank siblings add no
      bullet; the last section has no `h2` after it, so the walk steps past
      the last sibling onto nil and crashes instead of returning its text. */
  lemma ExamplePageSections()
    ensures SectionText(QueryAllH2(ExamplePage()), "Groceries") == Success("* milk\n* eggs\n")
    ensures SectionText(QueryAllH2(ExamplePage()), "Other things") == Failure(NilSiblingPanic)
    ensures SectionText(QueryAllH2(ExamplePage()), "No such section") == Failure(SectionNotFound)
  {
    ExampleQuery();
    ExampleMatches();
    ExampleBodies();
  }

  lemma ExampleMatches()
    ensures FirstMatch(ExampleHeadings(), "Groceries") == 1
    ensures FirstMatch(ExampleHeadings(), "Other things") == 2
    ensures FirstMatch(ExampleHeadings(), "No such section") == 3
  {
    var hs := ExampleHeadings();
    assert hs[0].node.innerText == "Intro";
    assert hs[1].node.innerText == "Groceries";
    assert hs[2].node.innerText == "Other things";
    assert Contains("Groceries", "Groceries");
    assert Contains("Other things", "Other things");
  }

  lemma ExampleBodies()
    ensures SectionBody("h2", ExampleHeadings()[1].following) == Success("* milk\n* eggs\n")
    ensures SectionBody("h2", ExampleHeadings()[2].following) == Failure(NilSiblingPanic)
  {
    var c := ExamplePage().children;
    var g := [Para("  milk\n"), Node(TextNode, "\n", [], "\n"), Para("eggs"), Heading("Other things"), Para("more")];
    assert c[3..] == g;
    GroceriesBody(g);
    assert c[7..] == [Para("more")];
    var last := [Para("more")];
    assert last[1..] == [];
  }

  lemma GroceriesBody(g: seq<Node>)
    requires g == [Para("  milk\n"), Node(TextNode, "\n", [], "\n"), Para("eggs"), Heading("Other things"), Para("more")]
    ensures SectionBody("h2", g) == Success("* milk\n* eggs\n")
  {
    ExampleBullets();
    assert SectionBody("h2", g[3..]) == Success("");
    PrependTwice("* eggs\n", "", Success(""));
    assert g[3..] == g[2..][1..];
    assert SectionBody("h2", g[2..]) == Prepend("* eggs\n", Success(""));
    assert g[2..] == g[1..][1..];
    assert SectionBody("h2", g[1..]) == Prepend("", Prepend("* eggs\n", Success("")));
    assert SectionBody("h2", g) == Prepend("* milk\n", Prepend("", Prepend("* eggs\n", Success(""))));
    PrependTwice("", "* eggs\n", Success(""));
    PrependTwice("* milk\n", "* eggs\n", Success(""));
    ExampleJoins();
  }

  lemma ExampleJoins()
    ensures "" + "* eggs\n" == "* eggs\n"
    ensures "* milk\n" + "* eggs\n" + "" == "* milk\n* eggs\n"
  {
    assert "* milk\n" + "* eggs\n" == "* milk\n* eggs\n";
  }
}
