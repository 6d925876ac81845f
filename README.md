# yew-bulma core, modelled in Dafny

This project models the parts of the yew-bulma widget library that have logic of
their own:

- **Markdown rendering** (`src/markdown.rs`). `render_markdown` turns a flat list of
  tokenizer events into one element tree. It works as a stack machine: `Start`
  pushes the element `make_tag` shapes for the tag, and leaf events (`Text`,
  `SoftBreak`, `HardBreak`, `Html`) append to the innermost open element. `End`
  pops the innermost element, rewrites it, and hands it to its parent or to the
  top-level list. The rewrites are: a `pre` around code blocks, column classes on
  table cells, and `scope="col"` on head cells. A lone top-level element is the
  document; any other number is wrapped in a `div`.
  - `MarkdownRender.Render` is the specification, a fold of `Step` over the
    events.
  - `MarkdownRender.RenderMarkdown` is the source's loop. It keeps a `spine` of
    open elements and a list of finished ones, rewrites table cells and head
    cells in place with loops (`MarkdownClose.AlignTableCells`,
    `MarkdownClose.AlignRowCells`, `MarkdownClose.ScopeHeadCells`), and is proved
    equal to `Render`.
- **Validation** (`src/validations.rs`, `src/validations/*.rs`).
  - Presence: non-empty strings, non-zero integers, `Some` of a present value.
  - `And`/`Or` combinators that short-circuit.
  - `ModelValidator`: a builder that collects field validators and, when run,
    reports one field error per failing validator.
  - `ErrorSet::translate`: files translated errors under each field they name.
- **Form storage** (`src/forms/storage.rs`). A value with `dirty` and
  `invalid_value` flags behind a shared cell. It is the class
  `Storage.FormStorage`, and a clone is the same object, so an update through one
  clone is seen by every validator holding another.
- **Title** (`src/title.rs`). The heading size rule (1 to 6, else 5 for a subtitle
  and 3 otherwise) and the `h{size}` tag name and `"{title|subtitle} is-{size}"`
  class it renders.

The model follows the code, including where the code is stricter or different
from what one might expect:

- Elements still open when the events run out are dropped silently; they are not
  an error.
- A table cell at a column with no alignment entry aborts the render. The source
  indexes the alignment list without a bounds check, so it panics there. The model
  does not treat this as a harmless no-op.
- Table alignment REPLACES a cell's class list with the single alignment class.
  `add_class` instead keeps the old classes and adds the new one.
- `FormStorage::update` sets `dirty` when the new value EQUALS the old one. This
  is kept exactly as written.
- Every `assert!` or `panic!` of the renderer is a `RenderError` result:
  - a leaf or `End` event with nothing open;
  - a heading level outside 1 to 6;
  - an unhandled event kind;
  - a missing alignment entry.
- `primary_field` returns `None` on an empty field set, where the source panics.

Modules:

- `Outcomes`: `Option`, `Result`.
- `Decimal`: decimal formatting of naturals, with its parse-back.
- `MarkdownTree`, `MarkdownClose`, `MarkdownRender`: the renderer.
- `MarkdownProperties`, `MarkdownScenarios`: lemmas about the renderer.
- `ValidationErrors`, `Storage`, `Presence`, `Validators`, `Validations`: validation and form storage.
- `Title`: the title heading.

## Model

| member | source | states |
|---|---|---|
| MarkdownTree.AddClass | src/markdown.rs:84-93 | keeps name, attributes and children; the class set becomes the old set plus the new class, with the old classes kept in order in front |
| MarkdownTree.MakeTag | src/markdown.rs:95-170 | fails exactly for a heading level outside 1 to 6, with that level in the error; every element it opens is childless and has at most one class |
| Decimal.DecimalString | src/markdown.rs:102 | the decimal text of a number is non-empty, all digits, with no leading zero, and one character long exactly for numbers below 10 |
| Decimal.ParseDecimalString | src/markdown.rs:102 | the decimal text of a number reads back as that number |
| Decimal.DecimalStringInjective | src/markdown.rs:130 | different numbers get different decimal texts |
| MarkdownProperties.HeadingShape | src/markdown.rs:99-103 | `Heading(n)` opens a two-character `h` plus digit name that reads back as n when 1 ≤ n ≤ 6, and fails with `InvalidHeadingLevel(n)` otherwise |
| MarkdownProperties.ListShape | src/markdown.rs:126-132 | `List(None)` opens a bare `ul`; `List(Some(1))` a bare `ol`; any other start an `ol` whose only attribute `start` is all digits and reads back as the start |
| MarkdownProperties.CodeBlockShape | src/markdown.rs:109-125 | a code block opens `code`, with the single class `{lang}-language` exactly for a fenced block in html, rust, java or c, and no class otherwise |
| MarkdownProperties.LinkShape | src/markdown.rs:152-159 | a link opens `a` with `href` always set to the target and `title` set exactly when the title is non-empty |
| MarkdownProperties.ImageShape | src/markdown.rs:160-167 | an image opens `img` with `src` always set and `title` set exactly when the title is non-empty |
| MarkdownProperties.PlainShapes | src/markdown.rs:97-169 | paragraph, item, table head, row, cell, strikethrough and footnote definition open bare `p`, `li`, `th`, `tr`, `td`, `strike` and `span` elements |
| MarkdownProperties.ClassedShapes | src/markdown.rs:104-151 | block quote, table, emphasis and strong open `blockquote`, `table`, `span`, `span` with the one class `blockquote`, `table`, `is-italic`, `has-text-weight-bold` |
| MarkdownClose.AlignmentClass | src/markdown.rs:39-44 | no class exactly for `Alignment::None` |
| MarkdownClose.AlignCell | src/markdown.rs:38-49 | text cells and unaligned cells are unchanged; an aligned element cell keeps name, attributes and children and gets exactly the one alignment class |
| MarkdownClose.AlignCellsSpec | src/markdown.rs:37-51 | aligning a row's cells succeeds exactly when every element cell has an alignment entry; it then keeps the length and aligns cell i by entry i |
| MarkdownClose.AlignRowsSpec | src/markdown.rs:35-53 | aligning a table's rows succeeds exactly when every element row fits; text rows stay, element rows keep name, attributes and classes and get their cells aligned |
| MarkdownClose.AlignTableSpec | src/markdown.rs:34-53 | closing a table changes only the element cells of element rows, each according to its column's alignment, and fails when some element cell has no alignment entry |
| MarkdownClose.AlignCellsErrPersists | src/markdown.rs:39 | once a cell fails, the row fails with the same error whatever follows |
| MarkdownClose.AlignRowsErrPersists | src/markdown.rs:39 | once a row fails, the table fails with the same error whatever follows |
| MarkdownClose.AlignCellsErrKind | src/markdown.rs:37-39 | aligning a row can fail only with `AlignmentIndexOutOfRange` |
| MarkdownClose.AlignRowsErrKind | src/markdown.rs:35-39 | aligning a table can fail only with `AlignmentIndexOutOfRange` |
| MarkdownClose.AlignRowCells | src/markdown.rs:37-51 | the source's inner in-place loop over one row's cells computes that row's alignment, including the failure at the first element cell without an alignment entry |
| MarkdownClose.AlignTableCells | src/markdown.rs:34-53 | the source's outer in-place loop over the table's rows computes the table alignment specification, including its failure |
| MarkdownClose.ScopeCellsSpec | src/markdown.rs:54-60 | head scoping keeps every text child and adds `scope="col"` to every element child, keeping its other attributes, classes and children |
| MarkdownClose.ScopeHeadCells | src/markdown.rs:54-60 | the source's in-place loop over the head's children computes the head-scoping specification |
| MarkdownClose.CloseNode | src/markdown.rs:30-60 | only the table rewrite can fail |
| MarkdownClose.CloseNodeSize | src/markdown.rs:30-33 | closing adds exactly one element (the `pre` wrapper) for a code block and none for any other tag |
| MarkdownRender.AppendChild | src/markdown.rs:17 | adding a child keeps name, attributes and classes and appends the child at the end |
| MarkdownRender.Elements | src/markdown.rs:79 | the top-level elements become the wrapper's children one for one, in order |
| MarkdownRender.Assemble | src/markdown.rs:75-81 | exactly one finished element is the document itself; any other number, zero included, is wrapped in a bare `div` with them as children in completion order |
| MarkdownRender.RunSnoc | src/markdown.rs:21-73 | one more event is one more step, unless the render has already failed |
| MarkdownRender.RunErrPersists | src/markdown.rs:21-73 | once a prefix of the events fails, the render fails with that error |
| MarkdownRender.AddChild | src/markdown.rs:13-19 | the `add_child!` step appends the child to the innermost open element, and fails with nothing open |
| MarkdownRender.CloseElement | src/markdown.rs:26-66 | the `End` branch pops, rewrites in place and attaches exactly as one specified step does, failures included |
| MarkdownRender.StepEvent | src/markdown.rs:22-72 | the loop body's match over the event has exactly the effect of one specified step |
| MarkdownRender.RenderMarkdown | src/markdown.rs:9-82 | the source's loop over the events, with its spine and element list, computes the render specification, failures included |
| MarkdownProperties.StartPushes | src/markdown.rs:23-25 | `Start` pushes the shaped element on the spine and changes nothing else; it fails only with the heading error |
| MarkdownProperties.LeafAppendsToInnermost | src/markdown.rs:13-19 | a leaf event fails with nothing open; otherwise it appends one child at the end of the innermost open element and changes nothing else: the text itself, `"\n"`, a bare `br` or the raw HTML text (lines 67-70) |
| MarkdownProperties.OtherEventsFail | src/markdown.rs:71 | every event kind other than the six handled ones aborts with `UnknownEvent` |
| MarkdownProperties.EndPopsInnermost | src/markdown.rs:26-66 | `End` fails with nothing open; otherwise it pops the innermost element, and the rewritten element ends the top-level list when it was the only one open, or becomes the last child of the new innermost element |
| MarkdownProperties.CloseRewrites | src/markdown.rs:30-60 | code blocks are wrapped as the sole child of a bare `pre`; a table head gets `scope="col"` on its element children only; tables are aligned; other tags attach unchanged |
| MarkdownProperties.RunDepth | src/markdown.rs:23-29 | after a successful prefix the number of open elements is the number of `Start`s minus the number of `End`s |
| MarkdownProperties.RunPrefixOk | src/markdown.rs:21-73 | every prefix of a successful render succeeds |
| MarkdownProperties.BalancedPrefixes | src/markdown.rs:27-28 | in a successful render no prefix has more `End`s than `Start`s |
| MarkdownProperties.UnbalancedEndFails | src/markdown.rs:27-28 | an `End` that arrives when everything opened has been closed aborts the whole render with `UnbalancedEnd` |
| MarkdownProperties.StepNestingErrors | src/markdown.rs:13-29 | a step fails with `UnbalancedEnd` only for an `End` with nothing open, and with `NoOpenElement` only for a leaf event with nothing open |
| MarkdownProperties.BalancedNeverUnbalanced | src/markdown.rs:26-29 | conversely to `BalancedPrefixes`: when no prefix has more `End`s than `Start`s, the render never aborts with `UnbalancedEnd` |
| MarkdownProperties.EnclosedLeavesNeverOrphaned | src/markdown.rs:13-19 | when every text, break or HTML event follows a prefix with more `Start`s than `End`s, the render never aborts with `NoOpenElement` |
| MarkdownProperties.StepSize | src/markdown.rs:23-70 | each step adds exactly the elements its event creates: the opened element, a `br`, or a `pre` wrapper |
| MarkdownProperties.RunSize | src/markdown.rs:21-73 | no element is lost or duplicated: the open and finished elements together hold exactly the elements the events created |
| MarkdownProperties.RenderSize | src/markdown.rs:75-81 | a balanced render's document holds exactly the created elements, plus one for the `div` wrapper when there is not exactly one top-level element |
| MarkdownProperties.StepKeepsElems | src/markdown.rs:61-65 | only `End` changes the finished list, and only by appending |
| MarkdownProperties.ElemsOnlyGrow | src/markdown.rs:61-62 | finished top-level elements are never revised or reordered: each intermediate list is a prefix of the final one |
| MarkdownProperties.UnclosedTailIgnored | src/markdown.rs:75-81 | events after which nothing is closed leave the document as it was, so elements still open at the end appear nowhere |
| MarkdownScenarios.TwoParagraphsAreWrapped | src/markdown.rs:75-81 | two sibling paragraphs come back as a `div` holding both, in order |
| MarkdownScenarios.SingleParagraphIsRoot | src/markdown.rs:75-76 | a lone paragraph is the document itself |
| MarkdownScenarios.RustCodeBlock | src/markdown.rs:30-33 | a fenced Rust block becomes `pre` around `code` with class `rust-language` holding the text |
| MarkdownScenarios.StrayEndFails | src/markdown.rs:28 | an `End` with nothing open aborts |
| MarkdownScenarios.UnclosedParagraphDropped | src/markdown.rs:75-81 | a paragraph never closed is dropped, leaving an empty `div` |
| MarkdownScenarios.TextOutsideElementFails | src/markdown.rs:16 | text with nothing open aborts |
| MarkdownScenarios.ScopedHead | src/markdown.rs:54-60 | closing a head of two cells gives both `scope="col"` |
| MarkdownScenarios.AlignedTable | src/markdown.rs:34-53 | a table aligned left and right, with a scoped head row and a body row: head cells keep `scope="col"` and get `text-left` and `text-right`; body cells get `text-left` and `text-right` |
| Storage.FormStorage.constructor | src/forms/storage.rs:26-34 | a new storage holds the value, clean and valid |
| Storage.FormStorage.Clone | src/forms/storage.rs:4-10 | a clone shares the backing cell: it is the same storage |
| Storage.FormStorage.Update | src/forms/storage.rs:36-40 | stores the new value; `dirty` becomes old `dirty` or old value equal to the new one; the invalid flag is kept |
| Storage.FormStorage.UpdateWithInvalidHint | src/forms/storage.rs:42-45 | the effect of `Update`, and then the invalid flag set to the hint |
| Storage.FormStorage.UpdateInvalidHint | src/forms/storage.rs:47-49 | sets the invalid flag and leaves value and `dirty` unchanged |
| Storage.FormStorage.Validate | src/forms/storage.rs:64-71 | fails exactly when the storage is flagged invalid, with `InvalidValue` |
| Storage.FormStorage.UncheckedValue | src/forms/storage.rs:55-57 | the stored value, flagged or not |
| Storage.FormStorage.Value | src/forms/storage.rs:51-53 | the stored value exactly when the storage validates, its validation error (`InvalidValue`) otherwise |
| Storage.UpdateThroughClone | src/forms/storage.rs:9 | an update through a clone is what the original then holds and returns |
| Presence.ScalarPresent | src/validations/present.rs:12-100 | a string is present when non-empty, an integer of any width when non-zero, a float by the corrected rule; the empty string, zero and 0.0 of either width are never present, and neither is NaN or an infinity |
| Presence.Present | src/validations/present.rs:102-112 | an option is present when it holds a present value, so a value is present exactly when unwrapping every `Some` reaches a present non-option value |
| Presence.Absent | src/validations/present.rs:7-9 | absent is not present: an empty option at some depth, or a non-present value under the wrappers |
| Presence.FloatPresenceInverted | src/validations/present.rs:90-100 | as written, 0.0 counts as filled in and 1.0 as blank, the reverse of the integer rule |
| Presence.FloatAgreesWithInteger | src/validations/present.rs:18-100 | with the corrected float rule, an integral float is present exactly when the integer is |
| Presence.NonFiniteAbsent | src/validations/present.rs:90-100 | NaN and the infinities are never present, as written or corrected |
| Presence.WrappedPresence | src/validations/present.rs:102-112 | a value wrapped in any number of `Some` is present exactly when the value is |
| Presence.WrappedNoneAbsent | src/validations/present.rs:102-112 | `None` is absent however deeply it is wrapped |
| Validators.Validate | src/validations/combinators.rs:18-43 | a validator passes exactly when its boolean reading `Holds` is true: a presence (absence) check when its storage is not flagged invalid and its value is present (absent), as the checks at src/validations/present.rs:126-154 do; a validity check when the storage is not flagged; conjunction for `And`, disjunction for `Or` |
| Validators.ErrorsComeFromLeaves | src/validations/combinators.rs:18-43 | the combinators never invent an error: a failure is never custom, and `NotPresent`, `NotAbsent` and `InvalidValue` each come from a leaf that can produce it |
| Validators.PresentSpec | src/validations/present.rs:126-133 | a presence check fails with `InvalidValue` on a storage flagged invalid; otherwise it passes when the value is present and fails with `NotPresent` when it is not |
| Validators.AbsentSpec | src/validations/present.rs:147-154 | an absence check fails with `InvalidValue` on a storage flagged invalid; otherwise it passes when the value is absent and fails with `NotAbsent` when it is not |
| Validators.AndSpec | src/validations/combinators.rs:18-23 | `And` passes exactly when both sides do; a failing left side's error is the result; after a passing left side the result is the right side's |
| Validators.OrSpec | src/validations/combinators.rs:41-43 | `Or` passes exactly when one side does; a passing left side gives `Ok`; after a failing left side the result is the right side's, error included |
| Validators.ShortCircuit | src/validations/combinators.rs:19-22 | when the left side settles the outcome (failure for `And`, success for `Or`) the right side makes no difference |
| Validators.PresentAbsentExclusive | src/validations/present.rs:7-9 | one storage is never both present and absent, and a valid storage is always one of the two |
| Validators.TruthTable | src/validations/combinators.rs:55-101 | the truth tables of `and` and `or` over a present `1` and an absent `0` |
| Validators.IsPresentOf | src/validations.rs:54-61 | a presence check on a plain value checks a fresh storage holding it |
| Validators.IsAbsentOf | src/validations.rs:54-61 | an absence check on a plain value checks a fresh storage holding it |
| Validators.IsPresentOfStorage | src/validations.rs:63-70 | a presence check on a storage shares it, so it sees a later update of the storage |
| Validations.PrimaryField | src/validations.rs:121-123 | no field exactly when the error lists none; otherwise a field the error lists |
| Validations.ListingSpec | src/validations.rs:156-164 | the errors filed under a field are exactly the errors that list it |
| Validations.TranslatedSpec | src/validations.rs:155-165 | a field is a key of the translation exactly when some error lists it; its entry holds one translation per such error, in error order |
| Validations.Translate | src/validations.rs:150-166 | the source's loop over errors and fields, with entry-by-entry map updates, computes the translation specification |
| Validations.Reported | src/validations.rs:249-252 | a failing entry reports its custom message when it has one, and the validator's own error otherwise |
| Validations.FieldErrorsSpec | src/validations.rs:245-255 | one field error per failing entry, in entry order, carrying that entry's fields and reported error; passing entries add nothing |
| Validations.NoErrorsIffAllPass | src/validations.rs:257-261 | no field error at all exactly when every entry passes |
| Validations.FlaggedFields | src/validations.rs:150-166 | after validating and translating, exactly the fields named by failing entries carry messages |
| Validations.ModelValidator.constructor | src/validations.rs:194-202 | a new model validator has no entries |
| Validations.ModelValidator.WithField | src/validations.rs:209-216 | appends one entry for the single field, without a message, and keeps the earlier entries |
| Validations.ModelValidator.WithCustom | src/validations.rs:217-229 | appends one entry for the single field with the message, and keeps the earlier entries |
| Validations.ModelValidator.WithFields | src/validations.rs:230-242 | appends one entry for the set of the given fields with the message, and keeps the earlier entries |
| Validations.ModelValidator.Validate | src/validations.rs:243-262 | `None` exactly when every entry passes; otherwise the non-empty list of field errors of the failing entries, in order |
| Title.DefaultSize | src/title.rs:65-72 | the default size is within 1 to 6 |
| Title.EffectiveSize | src/title.rs:55-63 | the size is always within 1 to 6; a requested size within 1 to 6 is kept; otherwise it is 5 for a subtitle and 3 for a title |
| Title.PrimaryClass | src/title.rs:47-53 | `subtitle` exactly for a subtitle, `title` otherwise |
| Title.View | src/title.rs:35-43 | the heading element carries the heading name, no other attributes, the classes `title`/`subtitle` and `is-<size>` which joined by a space are exactly the class string, and the children |
| Title.HeadingStrings | src/title.rs:36-39 | the tag name is `h` and the size digit, reading back as the size; the class is the primary class, ` is-` and the same digit |
| Title.AgreesWithMarkdownHeading | src/title.rs:39 | the title's tag name is the one the markdown renderer opens for a heading of that level |
| Title.SubtitleOnlyChangesClass | src/title.rs:36-39 | with a requested size in range, a title and a subtitle share the tag name and differ in class |

## Left out

- The markdown tokenizer (pulldown_cmark's `Parser`) is not part of this model. The renderer takes the event list as input, and the link type of links and images is dropped.
- yew's virtual DOM is not part of this model. Elements are the `Node` datatype: the `class` attribute is the `classes` list, other attributes are a map, and children are elements or text; a fragment of children (such as the collected children of a title) is flattened into its parent's children. The translation result of `ErrorSet::translate` is any value the translator returns, not yew `Html`.
- MarkdownRender.RenderMarkdown: the source's single loop body is split into helper methods (`StepEvent`, `AddChild`, `CloseElement`, and `AlignRowCells` for the inner table loop). Each pass over a table's or head's children works on a copy and puts the result back. This models the in-place `iter_mut` updates by value, not by aliasing.
- The `Display` impls of `FieldError` and `ErrorSet` and the `Debug` derives only format text. They are not part of this model.
- Set iteration order is not part of this model. `Validations.PrimaryField` promises only that its field is one of the error's fields, and `Validations.Translate` visits a field set in an unspecified order, which does not change its result.
- Integers have no width. Presence compares against zero, which is the same for every width, and `Title.i8` is the one place the source's width is kept.
- Floats are taken as exact reals. The default approximate comparison against zero is modelled as being within the width's machine epsilon; rounding is not modelled.
- Presence.ScalarPresent: its float case is the corrected rule (finite and not within the width's epsilon of 0.0), the reverse of src/validations/present.rs:92 and :98, where a finite float within epsilon of 0.0 is the present one. So its ensures that 0.0 of either width is never present holds for the corrected rule only; the source counts 0.0 as present.
- Presence.Present: a float is present when it is finite and not approximately zero. That is the corrected rule of the finding below, not the rule the source writes (finite and approximately zero). So `Presence.ScalarPresent`, `Presence.Present`, `Presence.Absent`, `Validators.Validate`, `Validators.Holds`, `Validators.PresentSpec` and `Validators.AbsentSpec` give the intended verdict on floats, which is the opposite of the code's on every finite float. The as-written rule is kept as `Presence.FloatPresentAsWritten`.
- Storage.FormStorage.Update: the dirty flag compares values with Dafny's structural equality. For floats the source uses `PartialEq`, under which NaN is unequal to itself, so storing NaN over NaN leaves the source's flag unchanged but sets the model's. The model's floats separate the two infinities and NaN, so this is the only difference.
- `FormStorage` exists for any value type. The validators use storages of `Presence.Value`, which combines the source's separate generic instances into one type.
- `ModelValidator::validate` takes the validator by value. `Validations.ModelValidator.Validate` reads the entries and leaves them in place.
- Flash messages (timers and clocks), localization (embedded files, UTF-8 decoding, locks), and the UI components (alert, modal, button, label, field, radio, text input, static page) are framework wrappers. They are not part of this model.

## Findings

| source | as written | input that shows it | evidently intended | confidence | as-written member | corrected member |
|---|---|---|---|---|---|---|
| src/validations/present.rs:90-100 | a float is present when it is finite and approximately EQUAL to 0.0 | `0.0f32.is_present()` passes and `1.0f32.is_present()` fails | present when finite and NOT approximately 0.0, as integers are present when non-zero | high; not executed | Presence.FloatPresenceInverted | Presence.FloatAgreesWithInteger |
