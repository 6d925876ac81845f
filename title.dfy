/** The title/subtitle heading: its size rule, its tag name and its class string. */
module Title {
  import opened Outcomes
  import opened Decimal
  import opened MarkdownTree

  /** A signed 8-bit integer, the type of the requested size. */
  newtype i8 = x: int | -128 <= x < 128

  /** What the heading is asked for: an optional size, whether it is a subtitle, and its content. */
  datatype TitleProps = TitleProps(size: Option<i8>, subtitle: bool, children: seq<Child>)

  /** The size used when none, or none in range, is asked for. */
  function DefaultSize(subtitle: bool): (s: i8)
    ensures 1 <= s <= 6
  {
    if subtitle then 5 else 3
  }

  /** The size actually used: the requested one when it is 1 to 6, the default otherwise. */
  function EffectiveSize(p: TitleProps): (s: i8)
    ensures 1 <= s <= 6
    ensures p.size.Some? && 1 <= p.size.value <= 6 ==> s == p.size.value
    ensures !(p.size.Some? && 1 <= p.size.value <= 6) ==> s == (if p.subtitle then 5 else 3)
  {
    match p.size
    case Some(size) => if 1 <= size <= 6 then size else DefaultSize(p.subtitle)
    case None => DefaultSize(p.subtitle)
  }

  /** The class naming the kind of heading. */
  function PrimaryClass(subtitle: bool): (c: string)
    ensures c == "subtitle" <==> subtitle
    ensures c == "title" <==> !subtitle
  {
    if subtitle then "subtitle" else "title"
  }

  /** The heading's tag name, `h` followed by the effective size. */
  function HeadingName(p: TitleProps): string
  {
    "h" + DecimalString(EffectiveSize(p) as nat)
  }

  /** The heading's class attribute: the primary class, a space, then `is-` and the effective size. */
  function CssClass(p: TitleProps): string
  {
    PrimaryClass(p.subtitle) + " is-" + DecimalString(EffectiveSize(p) as nat)
  }

  /** The size class, `is-` followed by the effective size. */
  function SizeClass(p: TitleProps): string
  {
    "is-" + DecimalString(EffectiveSize(p) as nat)
  }

  /**
   * The rendered heading element. Its class attribute is the primary class and the
   * size class; written out with a space between them it is exactly `CssClass`.
   */
  function View(p: TitleProps): (n: Node)
    ensures n.name == HeadingName(p) && n.attrs == map[] && n.children == p.children
    ensures n.classes == [PrimaryClass(p.subtitle), SizeClass(p)]
    ensures n.classes[0] + " " + n.classes[1] == CssClass(p)
  {
    Node(HeadingName(p), map[], [PrimaryClass(p.subtitle), SizeClass(p)], p.children)
  }

  /**
   * The tag name is always one of `h1` to `h6`, and the class is the primary class
   * followed by ` is-` and the same digit; both read back to the effective size.
   */
  lemma HeadingStrings(p: TitleProps)
    ensures HeadingName(p) == ['h', DigitChar(EffectiveSize(p) as nat)]
    ensures CssClass(p) == PrimaryClass(p.subtitle) + " is-" + [DigitChar(EffectiveSize(p) as nat)]
    ensures ParseDecimal(HeadingName(p)[1..]) == EffectiveSize(p) as int
  {
    var s := EffectiveSize(p) as nat;
    assert DecimalString(s) == [DigitChar(s)];
    assert HeadingName(p)[1..] == DecimalString(s);
    ParseDecimalString(s);
  }

  /** The title's heading element has the same name a markdown heading of that level gets. */
  lemma AgreesWithMarkdownHeading(p: TitleProps)
    ensures MakeTag(Heading(EffectiveSize(p) as nat)).Ok?
    ensures MakeTag(Heading(EffectiveSize(p) as nat)).value.name == View(p).name
  {
  }

  /** A subtitle and a title with the same requested size differ only in the class. */
  lemma SubtitleOnlyChangesClass(size: Option<i8>, children: seq<Child>)
    ensures size.Some? && 1 <= size.value <= 6 ==>
      HeadingName(TitleProps(size, true, children)) == HeadingName(TitleProps(size, false, children))
    ensures CssClass(TitleProps(size, true, children)) != CssClass(TitleProps(size, false, children))
  {
    var t := CssClass(TitleProps(size, true, children));
    var u := CssClass(TitleProps(size, false, children));
    assert t[0] == 's' && u[0] == 't';
  }
}
