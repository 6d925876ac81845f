/**
 * The renderer's stack machine: one step per event over the stack of open
 * elements (the spine, innermost last) and the list of finished top-level
 * elements, then assembly of the root.
 */
module MarkdownRender {
  import opened Outcomes
  import opened MarkdownTree
  import opened MarkdownClose

  /** The open elements, outermost first, and the finished top-level elements in completion order. */
  datatype State = State(spine: seq<Node>, elems: seq<Node>)

  const Initial: State := State([], [])

  function AppendChild(n: Node, c: Child): (r: Node)
    ensures r.name == n.name && r.attrs == n.attrs && r.classes == n.classes
    ensures r.children == n.children + [c]
  {
    n.(children := n.children + [c])
  }

  /** Appends a leaf to the innermost open element; with none open the source's assertion fails. */
  function AddToInnermost(st: State, c: Child): Result<State, RenderError>
  {
    if |st.spine| == 0 then Err(NoOpenElement)
    else Ok(st.(spine := st.spine[..|st.spine| - 1] + [AppendChild(st.spine[|st.spine| - 1], c)]))
  }

  /** Hands a closed element to the innermost of the `rest` still open, or to the top-level list. */
  function Attach(rest: seq<Node>, elems: seq<Node>, closed: Node): State
  {
    if rest == [] then State([], elems + [closed])
    else State(rest[..|rest| - 1] + [AppendChild(rest[|rest| - 1], Element(closed))], elems)
  }

  /** Closes the innermost open element, rewrites it, and attaches it. */
  function CloseInnermost(st: State, tag: Tag): Result<State, RenderError>
  {
    if |st.spine| == 0 then Err(UnbalancedEnd)
    else
      var top :- CloseNode(tag, st.spine[|st.spine| - 1]);
      Ok(Attach(st.spine[..|st.spine| - 1], st.elems, top))
  }

  /** One event. */
  function Step(st: State, ev: Event): Result<State, RenderError>
  {
    match ev
    case Start(tag) =>
      var shell :- MakeTag(tag);
      Ok(st.(spine := st.spine + [shell]))
    case End(tag) => CloseInnermost(st, tag)
    case Text(t) => AddToInnermost(st, TextLeaf(t))
    case SoftBreak => AddToInnermost(st, TextLeaf("\n"))
    case HardBreak => AddToInnermost(st, Element(Bare("br")))
    case Html(h) => AddToInnermost(st, TextLeaf(h))
    case _ => Err(UnknownEvent(ev))
  }

  /** The state after the events, or the first failure. */
  function Run(events: seq<Event>): Result<State, RenderError>
  {
    if events == [] then Ok(Initial)
    else
      var st :- Run(events[..|events| - 1]);
      Step(st, events[|events| - 1])
  }

  function Elements(ns: seq<Node>): (cs: seq<Child>)
    ensures |cs| == |ns| && forall i :: 0 <= i < |ns| ==> cs[i] == Element(ns[i])
  {
    seq(|ns|, i requires 0 <= i < |ns| => Element(ns[i]))
  }

  /** A lone top-level element is the document; any other number is wrapped in a `div`. */
  function Assemble(elems: seq<Node>): (root: Node)
    ensures |elems| == 1 ==> root == elems[0]
    ensures |elems| != 1 ==>
      root.name == "div" && root.attrs == map[] && root.classes == [] && root.children == Elements(elems)
  {
    if |elems| == 1 then elems[0] else Node("div", map[], [], Elements(elems))
  }

  /** The document for an event sequence. Elements still open at the end are dropped. */
  function Render(events: seq<Event>): Result<Node, RenderError>
  {
    var st :- Run(events);
    Ok(Assemble(st.elems))
  }

  /** Running one more event is one more step, unless the run has already failed. */
  lemma RunSnoc(events: seq<Event>, ev: Event)
    ensures Run(events + [ev]) == if Run(events).Err? then Run(events) else Step(Run(events).value, ev)
  {
    assert (events + [ev])[..|events|] == events;
  }

  /** Once a prefix of the events fails, the whole sequence fails with that error. */
  lemma {:induction false} RunErrPersists(events: seq<Event>, k: nat)
    requires k <= |events| && Run(events[..k]).Err?
    ensures Run(events) == Run(events[..k])
  {
    if k < |events| {
      assert events[..|events| - 1][..k] == events[..k];
      RunErrPersists(events[..|events| - 1], k);
    } else {
      assert events[..k] == events;
    }
  }

  /** The source's `add_child!`: appends to the innermost open element, failing when none is open. */
  method AddChild(spine: seq<Node>, elems: seq<Node>, c: Child) returns (r: Result<State, RenderError>)
    ensures r == AddToInnermost(State(spine, elems), c)
  {
    var l := |spine|;
    if l == 0 {
      return Err(NoOpenElement);
    }
    var updated := spine[l - 1 := AppendChild(spine[l - 1], c)];
    assert updated == spine[..l - 1] + [AppendChild(spine[l - 1], c)];
    return Ok(State(updated, elems));
  }

  /**
   * The source's handling of `End`: pops the innermost element, rewrites it in
   * place by the kind of the tag, and attaches it to the new innermost element or
   * to the top-level list.
   */
  method CloseElement(spine: seq<Node>, elems: seq<Node>, tag: Tag) returns (r: Result<State, RenderError>)
    ensures r == CloseInnermost(State(spine, elems), tag)
  {
    var l := |spine|;
    if l == 0 {
      return Err(UnbalancedEnd);
    }
    var top := spine[l - 1];
    var rest := spine[..l - 1];
    if tag.CodeBlock? {
      top := Node("pre", map[], [], [Element(top)]);
    } else if tag.Table? {
      var aligned := AlignTableCells(top, tag.aligns);
      if aligned.Err? {
        return Err(aligned.error);
      }
      top := aligned.value;
    } else if tag.TableHead? {
      top := ScopeHeadCells(top);
    }
    assert CloseNode(tag, spine[l - 1]) == Ok(top);
    if l == 1 {
      return Ok(State(rest, elems + [top]));
    }
    var updated := rest[l - 2 := AppendChild(rest[l - 2], Element(top))];
    assert updated == rest[..l - 2] + [AppendChild(rest[l - 2], Element(top))];
    return Ok(State(updated, elems));
  }

  /** One pass of the source's loop body: the event's effect on the spine and the top-level list. */
  method StepEvent(spine: seq<Node>, elems: seq<Node>, ev: Event) returns (outcome: Result<State, RenderError>)
    ensures outcome == Step(State(spine, elems), ev)
  {
    match ev {
      case Start(tag) =>
        var shell := MakeTag(tag);
        if shell.Err? {
          outcome := Err(shell.error);
        } else {
          outcome := Ok(State(spine + [shell.value], elems));
        }
      case End(tag) =>
        outcome := CloseElement(spine, elems, tag);
      case Text(text) =>
        outcome := AddChild(spine, elems, TextLeaf(text));
      case SoftBreak =>
        outcome := AddChild(spine, elems, TextLeaf("\n"));
      case HardBreak =>
        outcome := AddChild(spine, elems, Element(Bare("br")));
      case Html(html) =>
        outcome := AddChild(spine, elems, TextLeaf(html));
      case _ =>
        outcome := Err(UnknownEvent(ev));
    }
  }

  /**
   * The renderer as the source runs it: a loop over the events that pushes and pops
   * the spine, appends to the top-level list, and rewrites a closed element in place
   * before attaching it.
   */
  method RenderMarkdown(events: seq<Event>) returns (r: Result<Node, RenderError>)
    ensures r == Render(events)
  {
    var spine: seq<Node> := [];
    var elems: seq<Node> := [];
    var i := 0;
    while i < |events|
      invariant 0 <= i <= |events|
      invariant Run(events[..i]) == Ok(State(spine, elems))
    {
      var ev := events[i];
      var outcome := StepEvent(spine, elems, ev);
      assert events[..i + 1] == events[..i] + [ev];
      RunSnoc(events[..i], ev);
      if outcome.Err? {
        RunErrPersists(events, i + 1);
        return Err(outcome.error);
      }
      spine, elems := outcome.value.spine, outcome.value.elems;
      i := i + 1;
    }
    assert events[..i] == events;
    if |elems| == 1 {
      r := Ok(elems[0]);
    } else {
      r := Ok(Node("div", map[], [], Elements(elems)));
    }
  }
}
