/**
 * The vocabulary of the markdown renderer: the parse events it consumes, the
 * element tree it builds, and the shaping of a fresh element from a start tag.
 */
module MarkdownTree {
  import opened Outcomes
  import Decimal

  /** Column alignment of a table, as the tokenizer reports it. */
  datatype Alignment = AlignNone | AlignLeft | AlignCenter | AlignRight

  datatype CodeBlockKind = Indented | Fenced(lang: string)

  /** The tag a `Start` or `End` event carries (the link type of links and images is dropped). */
  datatype Tag =
    | Paragraph
    | Heading(level: nat)
    | BlockQuote
    | CodeBlock(kind: CodeBlockKind)
    | List(start: Option<nat>)
    | Item
    | FootnoteDefinition(id: string)
    | Table(aligns: seq<Alignment>)
    | TableHead
    | TableRow
    | TableCell
    | Emphasis
    | Strong
    | Strikethrough
    | Link(href: string, title: string)
    | Image(src: string, title: string)

  /** Every event the tokenizer can emit; the renderer handles only some of them. */
  datatype Event =
    | Start(tag: Tag)
    | End(tag: Tag)
    | Text(text: string)
    | Code(code: string)
    | Html(html: string)
    | FootnoteReference(id: string)
    | SoftBreak
    | HardBreak
    | Rule
    | TaskListMarker(checked: bool)

  /** An element: tag name, attributes other than `class`, the class list, children in order. */
  datatype Node = Node(name: string, attrs: map<string, string>, classes: seq<string>, children: seq<Child>)

  datatype Child = Element(node: Node) | TextLeaf(text: string)

  /** The ways a render aborts (each is an assertion failure or a panic in the source). */
  datatype RenderError =
    | NoOpenElement
    | UnbalancedEnd
    | UnknownEvent(event: Event)
    | InvalidHeadingLevel(level: nat)
    | AlignmentIndexOutOfRange(column: nat)

  /** A childless element without attributes or classes. */
  function Bare(name: string): Node {
    Node(name, map[], [], [])
  }

  /**
   * Adds one class, keeping the ones already there; a class is never listed twice
   * (the class list behaves as an insertion-ordered set).
   */
  function AddClass(n: Node, cls: string): (r: Node)
    ensures r.name == n.name && r.attrs == n.attrs && r.children == n.children
    ensures cls in r.classes
    ensures forall c :: c in r.classes <==> c in n.classes || c == cls
    ensures |n.classes| <= |r.classes| && r.classes[..|n.classes|] == n.classes
  {
    if cls in n.classes then n else n.(classes := n.classes + [cls])
  }

  /** Fenced code languages that get a highlighting class. */
  const KnownLanguages: set<string> := {"html", "rust", "java", "c"}

  /** The element a start tag opens, or the failure of an out-of-range heading level. */
  function MakeTag(t: Tag): (r: Result<Node, RenderError>)
    ensures r.Err? <==> t.Heading? && !(1 <= t.level <= 6)
    ensures r.Err? ==> r.error == InvalidHeadingLevel(t.level)
    ensures r.Ok? ==> r.value.children == [] && |r.value.classes| <= 1
  {
    match t
    case Paragraph => Ok(Bare("p"))
    case Heading(n) =>
      if 0 < n < 7 then Ok(Bare("h" + Decimal.DecimalString(n))) else Err(InvalidHeadingLevel(n))
    case BlockQuote => Ok(AddClass(Bare("blockquote"), "blockquote"))
    case CodeBlock(kind) =>
      if kind.Fenced? && kind.lang in KnownLanguages
      then Ok(AddClass(Bare("code"), kind.lang + "-language"))
      else Ok(Bare("code"))
    case List(None) => Ok(Bare("ul"))
    case List(Some(start)) =>
      if start == 1 then Ok(Bare("ol"))
      else Ok(Bare("ol").(attrs := map["start" := Decimal.DecimalString(start)]))
    case Item => Ok(Bare("li"))
    case Table(_) => Ok(AddClass(Bare("table"), "table"))
    case TableHead => Ok(Bare("th"))
    case TableRow => Ok(Bare("tr"))
    case TableCell => Ok(Bare("td"))
    case Emphasis => Ok(AddClass(Bare("span"), "is-italic"))
    case Strong => Ok(AddClass(Bare("span"), "has-text-weight-bold"))
    case Link(href, title) =>
      var el := Bare("a").(attrs := map["href" := href]);
      Ok(if title != "" then el.(attrs := el.attrs["title" := title]) else el)
    case Image(src, title) =>
      var el := Bare("img").(attrs := map["src" := src]);
      Ok(if title != "" then el.(attrs := el.attrs["title" := title]) else el)
    case Strikethrough => Ok(Bare("strike"))
    case FootnoteDefinition(_) => Ok(Bare("span"))
  }

  // Counting elements of a tree: the measure behind the node-count invariant.

  /** The number of elements in the subtree rooted at `n` (text leaves are not counted). */
  function Size(n: Node): (k: nat)
    ensures k >= 1
  {
    1 + ChildrenSize(n.children)
  }

  function ChildrenSize(cs: seq<Child>): nat
  {
    if cs == [] then 0 else ChildrenSize(cs[..|cs| - 1]) + ChildSize(cs[|cs| - 1])
  }

  function ChildSize(c: Child): nat
  {
    match c
    case Element(n) => Size(n)
    case TextLeaf(_) => 0
  }

  /** The number of elements in a list of trees. */
  function ForestSize(ns: seq<Node>): nat
  {
    if ns == [] then 0 else ForestSize(ns[..|ns| - 1]) + Size(ns[|ns| - 1])
  }
}
