/** Whole renders of small event sequences. */
module MarkdownScenarios {
  import opened Outcomes
  import opened MarkdownTree
  import opened MarkdownClose
  import opened MarkdownRender

  function Para(t: string): Node {
    Node("p", map[], [], [TextLeaf(t)])
  }

  lemma RunOne(ev: Event)
    ensures Run([ev]) == Step(Initial, ev)
  {
    assert [ev][..0] == [];
  }

  lemma AddToLoneElement(n: Node, elems: seq<Node>, c: Child)
    ensures AddToInnermost(State([n], elems), c) == Ok(State([n.(children := n.children + [c])], elems))
  {
    var st := State([n], elems);
    assert st.spine[..0] == [];
    assert AddToInnermost(st, c) == Ok(st.(spine := [] + [AppendChild(n, c)]));
    assert [] + [AppendChild(n, c)] == [AppendChild(n, c)];
  }

  lemma CloseLoneElement(n: Node, elems: seq<Node>, tag: Tag)
    requires CloseNode(tag, n).Ok?
    ensures Step(State([n], elems), End(tag)) == Ok(State([], elems + [CloseNode(tag, n).value]))
  {
    assert [n][..0] == [];
  }

  /** Two sibling paragraphs come back wrapped in a `div`, in order. */
  lemma TwoParagraphsAreWrapped()
    ensures Render([Start(Paragraph), Text("a"), End(Paragraph), Start(Paragraph), Text("b"), End(Paragraph)])
         == Ok(Node("div", map[], [], [Element(Para("a")), Element(Para("b"))]))
  {
    var e1 := [Start(Paragraph)];
    RunOne(Start(Paragraph));
    var e2 := e1 + [Text("a")];
    RunSnoc(e1, Text("a"));
    AddToLoneElement(Bare("p"), [], TextLeaf("a"));
    assert [] + [TextLeaf("a")] == [TextLeaf("a")];
    assert Run(e2) == Ok(State([Para("a")], []));
    var e3 := e2 + [End(Paragraph)];
    RunSnoc(e2, End(Paragraph));
    assert Run(e3) == Ok(State([], [Para("a")]));
    var e4 := e3 + [Start(Paragraph)];
    RunSnoc(e3, Start(Paragraph));
    var e5 := e4 + [Text("b")];
    RunSnoc(e4, Text("b"));
    AddToLoneElement(Bare("p"), [Para("a")], TextLeaf("b"));
    assert [] + [TextLeaf("b")] == [TextLeaf("b")];
    assert Run(e5) == Ok(State([Para("b")], [Para("a")]));
    var e6 := e5 + [End(Paragraph)];
    RunSnoc(e5, End(Paragraph));
    CloseLoneElement(Para("b"), [Para("a")], Paragraph);
    assert [Para("a")] + [Para("b")] == [Para("a"), Para("b")];
    assert Run(e6) == Ok(State([], [Para("a"), Para("b")]));
    assert e6 == [Start(Paragraph), Text("a"), End(Paragraph), Start(Paragraph), Text("b"), End(Paragraph)];
    assert Elements([Para("a"), Para("b")]) == [Element(Para("a")), Element(Para("b"))];
  }

  /** A lone paragraph is the document itself. */
  lemma SingleParagraphIsRoot()
    ensures Render([Start(Paragraph), Text("a"), End(Paragraph)]) == Ok(Para("a"))
  {
    var e1 := [Start(Paragraph)];
    RunOne(Start(Paragraph));
    var e2 := e1 + [Text("a")];
    RunSnoc(e1, Text("a"));
    AddToLoneElement(Bare("p"), [], TextLeaf("a"));
    assert [] + [TextLeaf("a")] == [TextLeaf("a")];
    assert Run(e2) == Ok(State([Para("a")], []));
    var e3 := e2 + [End(Paragraph)];
    RunSnoc(e2, End(Paragraph));
    assert e3 == [Start(Paragraph), Text("a"), End(Paragraph)];
  }

  /** A fenced Rust block becomes `pre` around `code class="rust-language"`. */
  lemma RustCodeBlock()
    ensures
      var tag := CodeBlock(Fenced("rust"));
      Render([Start(tag), Text("fn main(){}"), End(tag)])
        == Ok(Node("pre", map[], [], [Element(Node("code", map[], ["rust-language"], [TextLeaf("fn main(){}")]))]))
  {
    var tag := CodeBlock(Fenced("rust"));
    assert "rust" in KnownLanguages;
    assert "rust" + "-language" == "rust-language";
    var code := Node("code", map[], ["rust-language"], []);
    assert MakeTag(tag) == Ok(code);
    var e1 := [Start(tag)];
    RunOne(Start(tag));
    var e2 := e1 + [Text("fn main(){}")];
    RunSnoc(e1, Text("fn main(){}"));
    AddToLoneElement(code, [], TextLeaf("fn main(){}"));
    assert [] + [TextLeaf("fn main(){}")] == [TextLeaf("fn main(){}")];
    assert Run(e2) == Ok(State([code.(children := [TextLeaf("fn main(){}")])], []));
    var e3 := e2 + [End(tag)];
    RunSnoc(e2, End(tag));
    assert e3 == [Start(tag), Text("fn main(){}"), End(tag)];
  }

  /** An `End` with nothing open aborts. */
  lemma StrayEndFails()
    ensures Render([End(Paragraph)]) == Err(UnbalancedEnd)
  {
    RunOne(End(Paragraph));
  }

  /** A paragraph that is never closed is dropped: the document is an empty `div`. */
  lemma UnclosedParagraphDropped()
    ensures Render([Start(Paragraph), Text("a")]) == Ok(Node("div", map[], [], []))
  {
    var e1 := [Start(Paragraph)];
    RunOne(Start(Paragraph));
    RunSnoc(e1, Text("a"));
    assert e1 + [Text("a")] == [Start(Paragraph), Text("a")];
  }

  /** Text outside every element aborts. */
  lemma TextOutsideElementFails()
    ensures Render([Text("a")]) == Err(NoOpenElement)
  {
    RunOne(Text("a"));
  }

  function Cell(classes: seq<string>, scoped: bool, t: string): Child {
    Element(Node("td", if scoped then map["scope" := "col"] else map[], classes, [TextLeaf(t)]))
  }

  lemma AlignTwoCells(a: Child, b: Child, aligns: seq<Alignment>)
    requires |aligns| == 2 && a.Element? && b.Element?
    ensures AlignCells([a, b], aligns) == Ok([AlignCell(a, aligns[0]), AlignCell(b, aligns[1])])
  {
    var x, y := AlignCell(a, aligns[0]), AlignCell(b, aligns[1]);
    var one := [a];
    assert one[..0] == [];
    assert AlignCells(one[..0], aligns) == Ok([]);
    assert [] + [x] == [x];
    assert AlignCells(one, aligns) == Ok([x]);
    var two := [a, b];
    assert two[..|two| - 1] == one;
    assert two[|two| - 1] == b && !b.TextLeaf?;
    assert [x] + [y] == [x, y];
  }

  lemma AlignTwoRows(r: Node, q: Node, aligns: seq<Alignment>)
    requires AlignRow(r, aligns).Ok? && AlignRow(q, aligns).Ok?
    ensures AlignRows([Element(r), Element(q)], aligns)
         == Ok([Element(AlignRow(r, aligns).value), Element(AlignRow(q, aligns).value)])
  {
    var x, y := Element(AlignRow(r, aligns).value), Element(AlignRow(q, aligns).value);
    var one := [Element(r)];
    assert one[..0] == [];
    assert AlignRows(one[..0], aligns) == Ok([]);
    assert [] + [x] == [x];
    assert AlignRows(one, aligns) == Ok([x]);
    var two := [Element(r), Element(q)];
    assert two[..|two| - 1] == one;
    assert [x] + [y] == [x, y];
  }

  /** Closing a table head sets `scope="col"` on its cells. */
  lemma ScopedHead()
    ensures
      var head := Node("th", map[], [], [Cell([], false, "x"), Cell([], false, "y")]);
      CloseNode(TableHead, head) == Ok(head.(children := [Cell([], true, "x"), Cell([], true, "y")]))
  {
    var head := Node("th", map[], [], [Cell([], false, "x"), Cell([], false, "y")]);
    assert map[]["scope" := "col"] == map["scope" := "col"];
    assert ScopeCell(Cell([], false, "x")) == Cell([], true, "x");
    assert ScopeCell(Cell([], false, "y")) == Cell([], true, "y");
    var one := [Cell([], false, "x")];
    assert one[..0] == [];
    assert ScopeCells(one) == [] + [Cell([], true, "x")] == [Cell([], true, "x")];
    assert head.children[..|head.children| - 1] == one;
    assert ScopeCells(head.children) == [Cell([], true, "x")] + [Cell([], true, "y")];
    assert [Cell([], true, "x")] + [Cell([], true, "y")] == [Cell([], true, "x"), Cell([], true, "y")];
  }

  /**
   * A two-column table aligned left and right: head cells carry `scope="col"` and
   * the column class, body cells the column class.
   */
  lemma AlignedTable()
    ensures
      var aligns := [AlignLeft, AlignRight];
      var head := Node("th", map[], [], [Cell([], true, "x"), Cell([], true, "y")]);
      var row := Node("tr", map[], [], [Cell([], false, "1"), Cell([], false, "2")]);
      var table := Node("table", map[], ["table"], [Element(head), Element(row)]);
      CloseNode(Table(aligns), table)
        == Ok(table.(children := [
             Element(head.(children := [Cell(["text-left"], true, "x"), Cell(["text-right"], true, "y")])),
             Element(row.(children := [Cell(["text-left"], false, "1"), Cell(["text-right"], false, "2")]))]))
  {
    var aligns := [AlignLeft, AlignRight];
    var head := Node("th", map[], [], [Cell([], true, "x"), Cell([], true, "y")]);
    var row := Node("tr", map[], [], [Cell([], false, "1"), Cell([], false, "2")]);
    AlignTwoCells(Cell([], true, "x"), Cell([], true, "y"), aligns);
    AlignTwoCells(Cell([], false, "1"), Cell([], false, "2"), aligns);
    assert AlignCell(Cell([], true, "x"), AlignLeft) == Cell(["text-left"], true, "x");
    assert AlignCell(Cell([], true, "y"), AlignRight) == Cell(["text-right"], true, "y");
    assert AlignCell(Cell([], false, "1"), AlignLeft) == Cell(["text-left"], false, "1");
    assert AlignCell(Cell([], false, "2"), AlignRight) == Cell(["text-right"], false, "2");
    AlignTwoRows(head, row, aligns);
  }
}
