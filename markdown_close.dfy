/**
 * The rewrites the renderer applies to an element right after it is closed:
 * column-alignment classes on table cells, `scope="col"` on head cells, and
 * wrapping of code blocks in `pre`.
 */
module MarkdownClose {
  import opened Outcomes
  import opened MarkdownTree

  // Table alignment: the specification.

  function AlignmentClass(a: Alignment): (r: Option<string>)
    ensures r.None? <==> a == AlignNone
  {
    match a
    case AlignNone => None
    case AlignLeft => Some("text-left")
    case AlignCenter => Some("text-center")
    case AlignRight => Some("text-right")
  }

  /**
   * The cell under alignment `a`: an element cell's class list is replaced by the
   * alignment class (the attribute is overwritten, not merged); text is left alone.
   */
  function AlignCell(cell: Child, a: Alignment): (r: Child)
    ensures r.TextLeaf? <==> cell.TextLeaf?
    ensures cell.TextLeaf? || a == AlignNone ==> r == cell
    ensures cell.Element? && a != AlignNone ==>
      r.node == cell.node.(classes := [AlignmentClass(a).value])
  {
    match cell
    case TextLeaf(_) => cell
    case Element(n) =>
      match AlignmentClass(a)
      case None => cell
      case Some(cls) => Element(n.(classes := [cls]))
  }

  /** Aligns the cells of one row; an element cell at a column without alignment entry fails. */
  function AlignCells(cells: seq<Child>, aligns: seq<Alignment>): Result<seq<Child>, RenderError>
  {
    if cells == [] then Ok([])
    else
      var done :- AlignCells(cells[..|cells| - 1], aligns);
      var i := |cells| - 1;
      if cells[i].TextLeaf? then Ok(done + [cells[i]])
      else if i < |aligns| then Ok(done + [AlignCell(cells[i], aligns[i])])
      else Err(AlignmentIndexOutOfRange(i))
  }

  function AlignRow(row: Node, aligns: seq<Alignment>): Result<Node, RenderError>
  {
    var cells :- AlignCells(row.children, aligns);
    Ok(row.(children := cells))
  }

  /** Aligns every element row among a table's children; text children stay as they are. */
  function AlignRows(rows: seq<Child>, aligns: seq<Alignment>): Result<seq<Child>, RenderError>
  {
    if rows == [] then Ok([])
    else
      var done :- AlignRows(rows[..|rows| - 1], aligns);
      match rows[|rows| - 1]
      case TextLeaf(_) => Ok(done + [rows[|rows| - 1]])
      case Element(row) =>
        var aligned :- AlignRow(row, aligns);
        Ok(done + [Element(aligned)])
  }

  function AlignTable(table: Node, aligns: seq<Alignment>): Result<Node, RenderError>
  {
    var rows :- AlignRows(table.children, aligns);
    Ok(table.(children := rows))
  }

  /** Every element cell of the row sits at a column that has an alignment entry. */
  ghost predicate CellsFit(cells: seq<Child>, width: nat) {
    forall i :: 0 <= i < |cells| && cells[i].Element? ==> i < width
  }

  ghost predicate RowsFit(rows: seq<Child>, width: nat) {
    forall j :: 0 <= j < |rows| && rows[j].Element? ==> CellsFit(rows[j].node.children, width)
  }

  /** What aligning a row's cells does, cell by cell, and when it fails. */
  lemma {:induction false} AlignCellsSpec(cells: seq<Child>, aligns: seq<Alignment>)
    ensures AlignCells(cells, aligns).Ok? <==> CellsFit(cells, |aligns|)
    ensures AlignCells(cells, aligns).Ok? ==>
      var r := AlignCells(cells, aligns).value;
      |r| == |cells| &&
      forall i :: 0 <= i < |cells| ==>
        r[i] == if cells[i].Element? then AlignCell(cells[i], aligns[i]) else cells[i]
  {
    if cells != [] {
      var init := cells[..|cells| - 1];
      AlignCellsSpec(init, aligns);
      assert forall i :: 0 <= i < |init| ==> init[i] == cells[i];
    }
  }

  /** What aligning a table does, row by row, and when it fails. */
  lemma {:induction false} AlignRowsSpec(rows: seq<Child>, aligns: seq<Alignment>)
    ensures AlignRows(rows, aligns).Ok? <==> RowsFit(rows, |aligns|)
    ensures AlignRows(rows, aligns).Ok? ==>
      var r := AlignRows(rows, aligns).value;
      |r| == |rows| &&
      forall j :: 0 <= j < |rows| ==>
        (rows[j].TextLeaf? ==> r[j] == rows[j]) &&
        (rows[j].Element? ==>
          AlignRow(rows[j].node, aligns).Ok? && r[j] == Element(AlignRow(rows[j].node, aligns).value))
  {
    if rows != [] {
      var init := rows[..|rows| - 1];
      AlignRowsSpec(init, aligns);
      assert forall j :: 0 <= j < |init| ==> init[j] == rows[j];
      var last := rows[|rows| - 1];
      if last.Element? {
        AlignCellsSpec(last.node.children, aligns);
      }
    }
  }

  /**
   * Closing a table touches only the element cells of element rows: the cell in
   * column i gets the class of `aligns[i]` (none for `AlignNone`); the table, its
   * rows and all text stay as they were. It fails exactly when some element cell
   * lies at a column at or beyond the number of alignments.
   */
  lemma AlignTableSpec(table: Node, aligns: seq<Alignment>)
    ensures AlignTable(table, aligns).Ok? <==> RowsFit(table.children, |aligns|)
    ensures AlignTable(table, aligns).Ok? ==>
      var t := AlignTable(table, aligns).value;
      t.name == table.name && t.attrs == table.attrs && t.classes == table.classes &&
      |t.children| == |table.children| &&
      forall j :: 0 <= j < |t.children| ==>
        (table.children[j].TextLeaf? ==> t.children[j] == table.children[j]) &&
        (table.children[j].Element? ==>
          var row, row' := table.children[j].node, t.children[j];
          row'.Element? &&
          row'.node.name == row.name && row'.node.attrs == row.attrs && row'.node.classes == row.classes &&
          |row'.node.children| == |row.children| &&
          forall i :: 0 <= i < |row.children| ==>
            row'.node.children[i] == if row.children[i].Element? then AlignCell(row.children[i], aligns[i]) else row.children[i])
  {
    AlignRowsSpec(table.children, aligns);
    if AlignTable(table, aligns).Ok? {
      forall j | 0 <= j < |table.children| && table.children[j].Element? {
        AlignCellsSpec(table.children[j].node.children, aligns);
      }
    }
  }

  /** Once a prefix of the cells fails, the whole row fails with the same error. */
  lemma {:induction false} AlignCellsErrPersists(cells: seq<Child>, aligns: seq<Alignment>, k: nat)
    requires k <= |cells| && AlignCells(cells[..k], aligns).Err?
    ensures AlignCells(cells, aligns) == AlignCells(cells[..k], aligns)
  {
    if k < |cells| {
      assert cells[..|cells| - 1][..k] == cells[..k];
      AlignCellsErrPersists(cells[..|cells| - 1], aligns, k);
    } else {
      assert cells[..k] == cells;
    }
  }

  lemma {:induction false} AlignRowsErrPersists(rows: seq<Child>, aligns: seq<Alignment>, k: nat)
    requires k <= |rows| && AlignRows(rows[..k], aligns).Err?
    ensures AlignRows(rows, aligns) == AlignRows(rows[..k], aligns)
  {
    if k < |rows| {
      assert rows[..|rows| - 1][..k] == rows[..k];
      AlignRowsErrPersists(rows[..|rows| - 1], aligns, k);
    } else {
      assert rows[..k] == rows;
    }
  }

  /** Aligning a row can fail only for a missing alignment entry. */
  lemma {:induction false} AlignCellsErrKind(cells: seq<Child>, aligns: seq<Alignment>)
    ensures AlignCells(cells, aligns).Err? ==> AlignCells(cells, aligns).error.AlignmentIndexOutOfRange?
  {
    if cells != [] {
      AlignCellsErrKind(cells[..|cells| - 1], aligns);
    }
  }

  /** Aligning a table can fail only for a missing alignment entry. */
  lemma {:induction false} AlignRowsErrKind(rows: seq<Child>, aligns: seq<Alignment>)
    ensures AlignRows(rows, aligns).Err? ==> AlignRows(rows, aligns).error.AlignmentIndexOutOfRange?
  {
    if rows != [] {
      AlignRowsErrKind(rows[..|rows| - 1], aligns);
      if rows[|rows| - 1].Element? {
        AlignCellsErrKind(rows[|rows| - 1].node.children, aligns);
      }
    }
  }

  /**
   * The inner pass of table alignment as the source runs it: over one row's
   * children with their positions, rewriting element cells in place and stopping
   * at the first element cell without an alignment entry.
   */
  method AlignRowCells(row: Node, aligns: seq<Alignment>) returns (r: Result<Node, RenderError>)
    ensures r == AlignRow(row, aligns)
  {
    var cells := row.children;
    var i := 0;
    while i < |cells|
      invariant 0 <= i <= |cells| == |row.children|
      invariant AlignCells(row.children[..i], aligns) == Ok(cells[..i])
      invariant forall k :: i <= k < |cells| ==> cells[k] == row.children[k]
    {
      assert row.children[..i + 1][..i] == row.children[..i];
      if cells[i].Element? {
        if i >= |aligns| {
          AlignCellsErrPersists(row.children, aligns, i + 1);
          return Err(AlignmentIndexOutOfRange(i));
        }
        var cls := AlignmentClass(aligns[i]);
        if cls.Some? {
          cells := cells[i := Element(cells[i].node.(classes := [cls.value]))];
        }
      }
      assert cells[..i + 1] == cells[..i] + [cells[i]];
      i := i + 1;
    }
    assert row.children[..i] == row.children && cells[..i] == cells;
    return Ok(row.(children := cells));
  }

  /**
   * Table alignment as the source runs it: over the table's children, aligning
   * each element row in place and stopping at the first failure.
   */
  method AlignTableCells(table: Node, aligns: seq<Alignment>) returns (r: Result<Node, RenderError>)
    ensures r == AlignTable(table, aligns)
  {
    var rows := table.children;
    var j := 0;
    while j < |rows|
      invariant 0 <= j <= |rows| == |table.children|
      invariant AlignRows(table.children[..j], aligns) == Ok(rows[..j])
      invariant forall k :: j <= k < |rows| ==> rows[k] == table.children[k]
    {
      assert table.children[..j + 1][..j] == table.children[..j];
      if rows[j].Element? {
        var aligned := AlignRowCells(rows[j].node, aligns);
        if aligned.Err? {
          AlignRowsErrPersists(table.children, aligns, j + 1);
          return Err(aligned.error);
        }
        rows := rows[j := Element(aligned.value)];
      }
      assert rows[..j + 1] == rows[..j] + [rows[j]];
      j := j + 1;
    }
    assert table.children[..j] == table.children && rows[..j] == rows;
    return Ok(table.(children := rows));
  }

  // Head scoping.

  function ScopeCell(c: Child): Child {
    match c
    case TextLeaf(_) => c
    case Element(n) => Element(n.(attrs := n.attrs["scope" := "col"]))
  }

  function ScopeCells(cells: seq<Child>): seq<Child> {
    if cells == [] then [] else ScopeCells(cells[..|cells| - 1]) + [ScopeCell(cells[|cells| - 1])]
  }

  function ScopeHead(head: Node): Node {
    head.(children := ScopeCells(head.children))
  }

  /**
   * Closing a table head sets `scope="col"` on every element child, leaving the
   * element otherwise as it was, and leaves text children untouched.
   */
  lemma {:induction false} ScopeCellsSpec(cells: seq<Child>)
    ensures |ScopeCells(cells)| == |cells|
    ensures forall i :: 0 <= i < |cells| ==>
      var c, c' := cells[i], ScopeCells(cells)[i];
      (c.TextLeaf? ==> c' == c) &&
      (c.Element? ==> c'.Element? && c'.node == c.node.(attrs := c.node.attrs["scope" := "col"]))
  {
    if cells != [] {
      var init := cells[..|cells| - 1];
      ScopeCellsSpec(init);
      assert forall i :: 0 <= i < |init| ==> init[i] == cells[i];
    }
  }

  /** Head scoping as the source runs it: one pass over the children, rewriting elements in place. */
  method ScopeHeadCells(head: Node) returns (r: Node)
    ensures r == ScopeHead(head)
  {
    var cells := head.children;
    var i := 0;
    while i < |cells|
      invariant 0 <= i <= |cells| == |head.children|
      invariant cells[..i] == ScopeCells(head.children[..i])
      invariant cells[i..] == head.children[i..]
    {
      assert cells[i] == head.children[i];
      assert head.children[..i + 1][..i] == head.children[..i];
      if cells[i].Element? {
        var n := cells[i].node;
        cells := cells[i := Element(n.(attrs := n.attrs["scope" := "col"]))];
      }
      assert cells[..i + 1] == ScopeCells(head.children[..i + 1]);
      i := i + 1;
    }
    assert head.children[..i] == head.children && cells[..i] == cells;
    return head.(children := cells);
  }

  // The post-close rewrite, by the kind of the closing tag.

  /** The node a closed element becomes before it is attached upward. */
  function CloseNode(tag: Tag, top: Node): (r: Result<Node, RenderError>)
    ensures r.Err? ==> tag.Table?
  {
    match tag
    case CodeBlock(_) => Ok(Node("pre", map[], [], [Element(top)]))
    case Table(aligns) => AlignTable(top, aligns)
    case TableHead => Ok(ScopeHead(top))
    case _ => Ok(top)
  }

  // Post-close rewrites keep the number of elements, except the code-block wrapper.

  lemma {:induction false} AlignCellsSize(cells: seq<Child>, aligns: seq<Alignment>)
    requires AlignCells(cells, aligns).Ok?
    ensures ChildrenSize(AlignCells(cells, aligns).value) == ChildrenSize(cells)
  {
    if cells != [] {
      AlignCellsSize(cells[..|cells| - 1], aligns);
      var r := AlignCells(cells, aligns).value;
      assert r[..|r| - 1] == AlignCells(cells[..|cells| - 1], aligns).value;
      var c := cells[|cells| - 1];
      assert ChildSize(r[|r| - 1]) == ChildSize(c) by {
        if c.Element? && |cells| - 1 < |aligns| {
          assert Size(AlignCell(c, aligns[|cells| - 1]).node) == 1 + ChildrenSize(c.node.children);
        }
      }
    }
  }

  lemma {:induction false} AlignRowsSize(rows: seq<Child>, aligns: seq<Alignment>)
    requires AlignRows(rows, aligns).Ok?
    ensures ChildrenSize(AlignRows(rows, aligns).value) == ChildrenSize(rows)
  {
    if rows != [] {
      AlignRowsSize(rows[..|rows| - 1], aligns);
      var r := AlignRows(rows, aligns).value;
      assert r[..|r| - 1] == AlignRows(rows[..|rows| - 1], aligns).value;
      var row := rows[|rows| - 1];
      if row.Element? {
        AlignCellsSize(row.node.children, aligns);
        assert ChildSize(r[|r| - 1]) == ChildSize(row);
      }
    }
  }

  lemma {:induction false} ScopeCellsSize(cells: seq<Child>)
    ensures ChildrenSize(ScopeCells(cells)) == ChildrenSize(cells)
  {
    if cells != [] {
      ScopeCellsSize(cells[..|cells| - 1]);
      var r := ScopeCells(cells);
      assert r[..|r| - 1] == ScopeCells(cells[..|cells| - 1]);
      var c := cells[|cells| - 1];
      if c.Element? {
        assert Size(ScopeCell(c).node) == 1 + ChildrenSize(c.node.children);
      }
      assert ChildSize(r[|r| - 1]) == ChildSize(c) by {
        assert r[|r| - 1] == ScopeCell(c);
      }
    }
  }

  /** Closing adds one element (the `pre` wrapper) for a code block and none otherwise. */
  lemma CloseNodeSize(tag: Tag, top: Node)
    requires CloseNode(tag, top).Ok?
    ensures Size(CloseNode(tag, top).value) == Size(top) + (if tag.CodeBlock? then 1 else 0)
  {
    match tag
    case CodeBlock(_) =>
      assert [Element(top)][..0] == [];
      assert ChildrenSize([Element(top)]) == Size(top);
    case Table(aligns) =>
      AlignRowsSize(top.children, aligns);
    case TableHead =>
      ScopeCellsSize(top.children);
    case _ =>
  }
}
