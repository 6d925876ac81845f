/** What the renderer promises, stated over its specification. */
module MarkdownProperties {
  import opened Outcomes
  import opened Decimal
  import opened MarkdownTree
  import opened MarkdownClose
  import opened MarkdownRender

  // Shaping of start tags.

  /** `Heading(n)` opens `h{n}` for a level from 1 to 6 and fails for any other level. */
  lemma HeadingShape(n: nat)
    ensures MakeTag(Heading(n)).Ok? <==> 1 <= n <= 6
    ensures MakeTag(Heading(n)).Ok? ==>
      var name := MakeTag(Heading(n)).value.name;
      |name| == 2 && name[0] == 'h' && IsDigit(name[1]) && ParseDecimal(name[1..]) == n
    ensures MakeTag(Heading(n)).Err? ==> MakeTag(Heading(n)).error == InvalidHeadingLevel(n)
  {
    if 1 <= n <= 6 {
      ParseDecimalString(n);
      assert MakeTag(Heading(n)).value.name[1..] == DecimalString(n);
    }
  }

  /**
   * `List(None)` opens `ul`; `List(Some(1))` opens `ol` without attributes; any
   * other start opens `ol` whose only attribute `start` reads back as the start.
   */
  lemma ListShape(start: Option<nat>)
    ensures MakeTag(List(start)).Ok?
    ensures start.None? ==> MakeTag(List(start)).value == Bare("ul")
    ensures start == Some(1) ==> MakeTag(List(start)).value == Bare("ol")
    ensures start.Some? && start.value != 1 ==>
      var el := MakeTag(List(start)).value;
      el.name == "ol" && el.attrs.Keys == {"start"} && el.classes == [] &&
      (forall i :: 0 <= i < |el.attrs["start"]| ==> IsDigit(el.attrs["start"][i])) &&
      ParseDecimal(el.attrs["start"]) == start.value
  {
    if start.Some? && start.value != 1 {
      ParseDecimalString(start.value);
    }
  }

  /** A fenced block in a known language gets exactly the class `{lang}-language`; any other block none. */
  lemma CodeBlockShape(kind: CodeBlockKind)
    ensures MakeTag(CodeBlock(kind)).Ok?
    ensures MakeTag(CodeBlock(kind)).value.name == "code"
    ensures MakeTag(CodeBlock(kind)).value.attrs == map[]
    ensures MakeTag(CodeBlock(kind)).value.classes ==
      if kind.Fenced? && kind.lang in {"html", "rust", "java", "c"} then [kind.lang + "-language"] else []
  {
  }

  /** A link always gets `href`; it gets `title` exactly when the title is not empty. */
  lemma LinkShape(href: string, title: string)
    ensures MakeTag(Link(href, title)).Ok?
    ensures
      var el := MakeTag(Link(href, title)).value;
      el.name == "a" && el.classes == [] &&
      "href" in el.attrs && el.attrs["href"] == href &&
      ("title" in el.attrs <==> title != "") &&
      (title != "" ==> el.attrs["title"] == title) &&
      el.attrs.Keys <= {"href", "title"}
  {
  }

  /** An image always gets `src`; it gets `title` exactly when the title is not empty. */
  lemma ImageShape(src: string, title: string)
    ensures MakeTag(Image(src, title)).Ok?
    ensures
      var el := MakeTag(Image(src, title)).value;
      el.name == "img" && el.classes == [] &&
      "src" in el.attrs && el.attrs["src"] == src &&
      ("title" in el.attrs <==> title != "") &&
      (title != "" ==> el.attrs["title"] == title) &&
      el.attrs.Keys <= {"src", "title"}
  {
  }

  /** The tags that open a plain element, whatever their parameters. */
  lemma PlainShapes(id: string)
    ensures MakeTag(Paragraph) == Ok(Bare("p"))
    ensures MakeTag(Item) == Ok(Bare("li"))
    ensures MakeTag(TableHead) == Ok(Bare("th"))
    ensures MakeTag(TableRow) == Ok(Bare("tr"))
    ensures MakeTag(TableCell) == Ok(Bare("td"))
    ensures MakeTag(Strikethrough) == Ok(Bare("strike"))
    ensures MakeTag(FootnoteDefinition(id)) == Ok(Bare("span"))
  {
  }

  /** The tags that open an element with one fixed class. */
  lemma ClassedShapes(aligns: seq<Alignment>)
    ensures MakeTag(BlockQuote) == Ok(Bare("blockquote").(classes := ["blockquote"]))
    ensures MakeTag(Table(aligns)) == Ok(Bare("table").(classes := ["table"]))
    ensures MakeTag(Emphasis) == Ok(Bare("span").(classes := ["is-italic"]))
    ensures MakeTag(Strong) == Ok(Bare("span").(classes := ["has-text-weight-bold"]))
  {
  }

  // One step.

  /** `Start` pushes the shaped element and changes nothing else; a bad heading level fails. */
  lemma StartPushes(st: State, tag: Tag)
    ensures Step(st, Start(tag)).Ok? <==> MakeTag(tag).Ok?
    ensures Step(st, Start(tag)).Ok? ==>
      Step(st, Start(tag)).value == State(st.spine + [MakeTag(tag).value], st.elems)
    ensures Step(st, Start(tag)).Err? ==> Step(st, Start(tag)).error == MakeTag(tag).error
  {
  }

  predicate IsLeaf(ev: Event) {
    ev.Text? || ev.SoftBreak? || ev.HardBreak? || ev.Html?
  }

  /**
   * A leaf event appends exactly one child, at the end of the innermost open
   * element, and touches nothing else; with no element open it fails.
   */
  lemma LeafAppendsToInnermost(st: State, ev: Event)
    requires IsLeaf(ev)
    ensures Step(st, ev).Err? <==> st.spine == []
    ensures Step(st, ev).Err? ==> Step(st, ev).error == NoOpenElement
    ensures Step(st, ev).Ok? ==>
      var st', n := Step(st, ev).value, |st.spine|;
      st'.elems == st.elems && |st'.spine| == n &&
      st'.spine[..n - 1] == st.spine[..n - 1] &&
      st'.spine[n - 1].name == st.spine[n - 1].name &&
      st'.spine[n - 1].attrs == st.spine[n - 1].attrs &&
      st'.spine[n - 1].classes == st.spine[n - 1].classes &&
      |st'.spine[n - 1].children| == |st.spine[n - 1].children| + 1 &&
      st'.spine[n - 1].children[..|st.spine[n - 1].children|] == st.spine[n - 1].children &&
      var leaf := st'.spine[n - 1].children[|st.spine[n - 1].children|];
      (ev.Text? ==> leaf == TextLeaf(ev.text)) &&
      (ev.SoftBreak? ==> leaf == TextLeaf("\n")) &&
      (ev.HardBreak? ==> leaf == Element(Node("br", map[], [], []))) &&
      (ev.Html? ==> leaf == TextLeaf(ev.html))
  {
    if st.spine != [] {
      var n := |st.spine|;
      assert Step(st, ev).value.spine[..n - 1] == st.spine[..n - 1];
    }
  }

  /** Every other kind of event aborts the render. */
  lemma OtherEventsFail(st: State, ev: Event)
    requires !ev.Start? && !ev.End? && !IsLeaf(ev)
    ensures Step(st, ev) == Err(UnknownEvent(ev))
  {
  }

  /**
   * `End` pops the innermost open element, which fails with none open. The closed
   * (and rewritten) element goes to the end of the top-level list when it was the
   * only open one, and otherwise becomes the last child of the new innermost one.
   */
  lemma EndPopsInnermost(st: State, tag: Tag)
    ensures st.spine == [] ==> Step(st, End(tag)) == Err(UnbalancedEnd)
    ensures st.spine != [] ==>
      var n, top := |st.spine|, st.spine[|st.spine| - 1];
      (Step(st, End(tag)).Ok? <==> CloseNode(tag, top).Ok?) &&
      (CloseNode(tag, top).Err? ==> Step(st, End(tag)) == Err(CloseNode(tag, top).error)) &&
      (CloseNode(tag, top).Ok? ==>
        var st', closed := Step(st, End(tag)).value, CloseNode(tag, top).value;
        |st'.spine| == n - 1 &&
        (n == 1 ==> st'.elems == st.elems + [closed]) &&
        (n > 1 ==>
          st'.elems == st.elems &&
          st'.spine[..n - 2] == st.spine[..n - 2] &&
          st'.spine[n - 2] == AppendChild(st.spine[n - 2], Element(closed))))
  {
    if |st.spine| > 1 && CloseNode(tag, st.spine[|st.spine| - 1]).Ok? {
      var n := |st.spine|;
      assert st.spine[..n - 1][..n - 2] == st.spine[..n - 2];
    }
  }

  /**
   * The rewrite at `End`: a code block becomes the sole child of a new `pre`; a
   * table head gets `scope="col"` on each element child; a table gets its column
   * classes (see `AlignTableSpec`); every other tag is attached unchanged.
   */
  lemma CloseRewrites(tag: Tag, top: Node)
    ensures tag.CodeBlock? ==> CloseNode(tag, top) == Ok(Node("pre", map[], [], [Element(top)]))
    ensures tag.TableHead? ==>
      CloseNode(tag, top).Ok? &&
      var h := CloseNode(tag, top).value;
      h.name == top.name && h.attrs == top.attrs && h.classes == top.classes &&
      |h.children| == |top.children| &&
      forall i :: 0 <= i < |top.children| ==>
        (top.children[i].TextLeaf? ==> h.children[i] == top.children[i]) &&
        (top.children[i].Element? ==>
          h.children[i] == Element(top.children[i].node.(attrs := top.children[i].node.attrs["scope" := "col"])))
    ensures tag.Table? ==> CloseNode(tag, top) == AlignTable(top, tag.aligns)
    ensures !tag.CodeBlock? && !tag.TableHead? && !tag.Table? ==> CloseNode(tag, top) == Ok(top)
  {
    if tag.TableHead? {
      ScopeCellsSpec(top.children);
    }
  }

  // Counting events.

  function Opens(events: seq<Event>): nat {
    if events == [] then 0 else Opens(events[..|events| - 1]) + (if events[|events| - 1].Start? then 1 else 0)
  }

  function Closes(events: seq<Event>): nat {
    if events == [] then 0 else Closes(events[..|events| - 1]) + (if events[|events| - 1].End? then 1 else 0)
  }

  /** The elements an event creates: the opened one, a `br`, or a `pre` wrapper. */
  function Creates(ev: Event): nat {
    if ev.Start? || ev.HardBreak? || (ev.End? && ev.tag.CodeBlock?) then 1 else 0
  }

  function Created(events: seq<Event>): nat {
    if events == [] then 0 else Created(events[..|events| - 1]) + Creates(events[|events| - 1])
  }

  // Depth accounting.

  /** A successful prefix leaves open exactly as many elements as it opened and did not close. */
  lemma {:induction false} RunDepth(events: seq<Event>)
    requires Run(events).Ok?
    ensures |Run(events).value.spine| == Opens(events) - Closes(events)
  {
    if events != [] {
      RunDepth(events[..|events| - 1]);
    }
  }

  /** A successful run is a prefix of itself at every length. */
  lemma {:induction false} RunPrefixOk(events: seq<Event>, k: nat)
    requires k <= |events| && Run(events).Ok?
    ensures Run(events[..k]).Ok?
  {
    if Run(events[..k]).Err? {
      RunErrPersists(events, k);
    }
  }

  /** In a successful render no prefix closes more elements than it opened. */
  lemma BalancedPrefixes(events: seq<Event>)
    requires Run(events).Ok?
    ensures forall k :: 0 <= k <= |events| ==> Closes(events[..k]) <= Opens(events[..k])
  {
    forall k | 0 <= k <= |events|
      ensures Closes(events[..k]) <= Opens(events[..k])
    {
      RunPrefixOk(events, k);
      RunDepth(events[..k]);
    }
  }

  /** An `End` that arrives when every opened element is closed aborts the whole render. */
  lemma UnbalancedEndFails(events: seq<Event>, k: nat)
    requires k < |events| && events[k].End?
    requires Run(events[..k]).Ok? && Opens(events[..k]) == Closes(events[..k])
    ensures Render(events) == Err(UnbalancedEnd)
  {
    RunDepth(events[..k]);
    assert events[..k + 1][..k] == events[..k];
    RunErrPersists(events, k + 1);
  }

  /**
   * The nesting failures come only from a step with nothing open: `UnbalancedEnd`
   * from an `End`, `NoOpenElement` from a leaf event.
   */
  lemma StepNestingErrors(st: State, ev: Event)
    ensures Step(st, ev) == Err(UnbalancedEnd) ==> ev.End? && st.spine == []
    ensures Step(st, ev) == Err(NoOpenElement) ==> IsLeaf(ev) && st.spine == []
  {
    if ev.End? && st.spine != [] && ev.tag.Table? {
      AlignRowsErrKind(st.spine[|st.spine| - 1].children, ev.tag.aligns);
    }
  }

  /** A render in which no prefix closes more elements than it opened never aborts with `UnbalancedEnd`. */
  lemma {:induction false} BalancedNeverUnbalanced(events: seq<Event>)
    requires forall k :: 0 <= k <= |events| ==> Closes(events[..k]) <= Opens(events[..k])
    ensures Run(events) != Err(UnbalancedEnd)
  {
    if events != [] {
      var init, ev := events[..|events| - 1], events[|events| - 1];
      forall k | 0 <= k <= |init|
        ensures Closes(init[..k]) <= Opens(init[..k])
      {
        assert init[..k] == events[..k];
      }
      BalancedNeverUnbalanced(init);
      assert events == init + [ev];
      RunSnoc(init, ev);
      if Run(init).Ok? {
        RunDepth(init);
        StepNestingErrors(Run(init).value, ev);
        assert events[..|events|] == events;
      }
    }
  }

  /**
   * A render in which every leaf event comes after a prefix that opened more
   * elements than it closed never aborts with `NoOpenElement`.
   */
  lemma {:induction false} EnclosedLeavesNeverOrphaned(events: seq<Event>)
    requires forall k :: 0 <= k < |events| && IsLeaf(events[k]) ==> Closes(events[..k]) < Opens(events[..k])
    ensures Run(events) != Err(NoOpenElement)
  {
    if events != [] {
      var init, ev := events[..|events| - 1], events[|events| - 1];
      forall k | 0 <= k < |init| && IsLeaf(init[k])
        ensures Closes(init[..k]) < Opens(init[..k])
      {
        assert init[k] == events[k] && init[..k] == events[..k];
      }
      EnclosedLeavesNeverOrphaned(init);
      assert events == init + [ev];
      RunSnoc(init, ev);
      if Run(init).Ok? {
        RunDepth(init);
        StepNestingErrors(Run(init).value, ev);
      }
    }
  }

  // Counting elements.

  lemma AppendChildSize(n: Node, c: Child)
    ensures Size(AppendChild(n, c)) == Size(n) + ChildSize(c)
  {
    assert (n.children + [c])[..|n.children|] == n.children;
  }

  lemma ForestSnoc(ns: seq<Node>, x: Node)
    ensures ForestSize(ns + [x]) == ForestSize(ns) + Size(x)
  {
    assert (ns + [x])[..|ns|] == ns;
  }

  lemma AttachSize(rest: seq<Node>, elems: seq<Node>, closed: Node)
    ensures ForestSize(Attach(rest, elems, closed).spine) + ForestSize(Attach(rest, elems, closed).elems)
         == ForestSize(rest) + ForestSize(elems) + Size(closed)
  {
    if rest == [] {
      ForestSnoc(elems, closed);
    } else {
      var m := |rest|;
      assert rest == rest[..m - 1] + [rest[m - 1]];
      ForestSnoc(rest[..m - 1], rest[m - 1]);
      ForestSnoc(rest[..m - 1], AppendChild(rest[m - 1], Element(closed)));
      AppendChildSize(rest[m - 1], Element(closed));
    }
  }

  lemma EndSize(st: State, tag: Tag)
    requires Step(st, End(tag)).Ok?
    ensures ForestSize(Step(st, End(tag)).value.spine) + ForestSize(Step(st, End(tag)).value.elems)
         == ForestSize(st.spine) + ForestSize(st.elems) + Creates(End(tag))
  {
    var n := |st.spine|;
    var top := st.spine[n - 1];
    CloseNodeSize(tag, top);
    assert st.spine == st.spine[..n - 1] + [top];
    ForestSnoc(st.spine[..n - 1], top);
    AttachSize(st.spine[..n - 1], st.elems, CloseNode(tag, top).value);
  }

  lemma AddToInnermostSize(st: State, c: Child)
    requires AddToInnermost(st, c).Ok?
    ensures ForestSize(AddToInnermost(st, c).value.spine) + ForestSize(AddToInnermost(st, c).value.elems)
         == ForestSize(st.spine) + ForestSize(st.elems) + ChildSize(c)
  {
    var n := |st.spine|;
    assert st.spine == st.spine[..n - 1] + [st.spine[n - 1]];
    ForestSnoc(st.spine[..n - 1], st.spine[n - 1]);
    ForestSnoc(st.spine[..n - 1], AppendChild(st.spine[n - 1], c));
    AppendChildSize(st.spine[n - 1], c);
  }

  /** Each step adds to the state the elements its event creates. */
  lemma StepSize(st: State, ev: Event)
    requires Step(st, ev).Ok?
    ensures ForestSize(Step(st, ev).value.spine) + ForestSize(Step(st, ev).value.elems)
         == ForestSize(st.spine) + ForestSize(st.elems) + Creates(ev)
  {
    match ev {
      case Start(tag) =>
        ForestSnoc(st.spine, MakeTag(tag).value);
      case End(tag) =>
        EndSize(st, tag);
      case Text(t) =>
        AddToInnermostSize(st, TextLeaf(t));
      case SoftBreak =>
        AddToInnermostSize(st, TextLeaf("\n"));
      case HardBreak =>
        AddToInnermostSize(st, Element(Bare("br")));
      case Html(h) =>
        AddToInnermostSize(st, TextLeaf(h));
    }
  }

  /**
   * Node count: the open and finished elements together are exactly those the
   * events created, one per `Start`, one per `HardBreak`, one per closed code block.
   */
  lemma {:induction false} RunSize(events: seq<Event>)
    requires Run(events).Ok?
    ensures ForestSize(Run(events).value.spine) + ForestSize(Run(events).value.elems) == Created(events)
  {
    if events != [] {
      var init := events[..|events| - 1];
      RunPrefixOk(events, |init|);
      assert events[..|init|] == init;
      RunSize(init);
      StepSize(Run(init).value, events[|events| - 1]);
    }
  }

  lemma {:induction false} ElementsSize(ns: seq<Node>)
    ensures ChildrenSize(Elements(ns)) == ForestSize(ns)
  {
    if ns != [] {
      ElementsSize(ns[..|ns| - 1]);
      assert Elements(ns)[..|ns| - 1] == Elements(ns[..|ns| - 1]);
    }
  }

  /**
   * When every opened element is closed, the document holds exactly the elements
   * the events created, plus the `div` wrapper when there is not exactly one top-level element.
   */
  lemma RenderSize(events: seq<Event>)
    requires Run(events).Ok? && Run(events).value.spine == []
    ensures Render(events).Ok?
    ensures Size(Render(events).value)
         == Created(events) + (if |Run(events).value.elems| == 1 then 0 else 1)
  {
    var elems := Run(events).value.elems;
    RunSize(events);
    if |elems| == 1 {
      assert elems == [] + [elems[0]];
      ForestSnoc([], elems[0]);
    } else {
      ElementsSize(elems);
    }
  }

  // Output order.

  lemma StepKeepsElems(st: State, ev: Event)
    requires Step(st, ev).Ok?
    ensures st.elems <= Step(st, ev).value.elems
    ensures !ev.End? ==> Step(st, ev).value.elems == st.elems
  {
  }

  /**
   * Finished top-level elements are never revised or reordered: the list after
   * any prefix is a prefix of the final list.
   */
  lemma {:induction false} ElemsOnlyGrow(events: seq<Event>, k: nat)
    requires k <= |events| && Run(events).Ok?
    ensures Run(events[..k]).Ok?
    ensures Run(events[..k]).value.elems <= Run(events).value.elems
  {
    RunPrefixOk(events, k);
    if k < |events| {
      var init := events[..|events| - 1];
      RunPrefixOk(events, |init|);
      assert events[..|init|] == init;
      assert init[..k] == events[..k];
      ElemsOnlyGrow(init, k);
      StepKeepsElems(Run(init).value, events[|events| - 1]);
    } else {
      assert events[..k] == events;
    }
  }

  /**
   * Elements still open when the events run out appear nowhere: events that close
   * nothing leave the document as it was.
   */
  lemma {:induction false} UnclosedTailIgnored(events: seq<Event>, tail: seq<Event>)
    requires Run(events + tail).Ok?
    requires forall i :: 0 <= i < |tail| ==> !tail[i].End?
    ensures Run(events).Ok?
    ensures Render(events + tail) == Render(events)
  {
    if tail == [] {
      assert events + tail == events;
    } else {
      var init, last := tail[..|tail| - 1], tail[|tail| - 1];
      assert events + tail == (events + init) + [last];
      RunSnoc(events + init, last);
      UnclosedTailIgnored(events, init);
      StepKeepsElems(Run(events + init).value, last);
    }
  }
}
