/** print_columns of print.c: the column-major grid of the short format. */
module Columns {
  import opened LsTypes
  import opened Printer

  /** The longest name, 0 for none. */
  function MaxNameLen(s: seq<FileEntry>): (m: nat)
    ensures forall i :: 0 <= i < |s| ==> |s[i].name| <= m
    ensures |s| == 0 ==> m == 0
    ensures |s| > 0 ==> exists i :: 0 <= i < |s| && |s[i].name| == m
  {
    if |s| == 0 then 0
    else
      var init := s[..|s| - 1];
      var m' := MaxNameLen(init);
      var l := |s[|s| - 1].name|;
      assert forall i :: 0 <= i < |init| ==> init[i] == s[i];
      if l > m' then l else m'
  }

  /** The grid's shape: the width of a column, and how many columns and
      rows there are. */
  datatype Geometry = Geometry(colWidth: nat, cols: nat, rows: nat)

  /** Proof helper: Euclidean division, spelled out. */
  lemma DivMod(x: nat, d: nat)
    requires d > 0
    ensures x == (x / d) * d + x % d && 0 <= x % d < d
  {}

  /** Proof helper: a quotient of naturals is a natural. */
  lemma DivNonNegative(x: nat, d: nat)
    requires d > 0
    ensures x / d >= 0
  {}

  /** Proof helper: multiplication is monotonic. */
  lemma {:induction false} MulLe(a: nat, b: nat, c: nat)
    ensures a <= b ==> a * c <= b * c
    decreases b - a
  {
    if a < b {
      MulLe(a + 1, b, c);
      assert (a + 1) * c == a * c + c;
    }
  }

  /** Proof helper: one more column starts rows entries later. */
  lemma MulSucc(a: nat, b: nat)
    ensures (a + 1) * b == a * b + b
  {}

  /** Proof helper: Euclidean division of q * d + r by d, with r < d, gives back q and r. */
  lemma DivModUnique(q: nat, r: nat, d: nat)
    requires r < d
    ensures (q * d + r) / d == q && (q * d + r) % d == r
  {
    var x := q * d + r;
    DivMod(x, d);
    var q' := x / d;
    MulLe(q' + 1, q, d);
    MulLe(q + 1, q', d);
    assert (q' + 1) * d == q' * d + d;
    assert (q + 1) * d == q * d + d;
  }

  /** width / col_width columns fit, one more would not; at least one. */
  lemma ColumnsFit(width: nat, w: nat)
    requires w > 0
    ensures var c := if width / w < 1 then 1 else width / w;
      (c > 1 ==> c * w <= width) && width < (c + 1) * w
  {
    DivMod(width, w);
    var q := width / w;
    assert (q + 1) * w == q * w + w;
  }

  /** ceil(n / c) rows hold n entries, and one fewer would not. */
  lemma RowsSuffice(n: nat, c: nat)
    requires c >= 1
    ensures var r := (n + c - 1) / c;
      r * c >= n && (n > 0 ==> (r - 1) * c < n) && (n == 0 ==> r == 0)
  {
    var x := n + c - 1;
    DivMod(x, c);
    var r := x / c;
    assert (r + 1) * c == r * c + c;
    if r > 0 {
      assert (r - 1) * c == r * c - c;
    }
    if n == 0 {
      DivModUnique(0, c - 1, c);
    }
  }

  /** col_width is the longest name plus one; as many columns as fit in
      the terminal width, but at least one; ceil(count / cols) rows. */
  function GeometryOf(s: seq<FileEntry>, width: nat): (g: Geometry)
    ensures g.colWidth == MaxNameLen(s) + 1
    ensures forall i :: 0 <= i < |s| ==> |s[i].name| < g.colWidth
    ensures g.cols >= 1
  {
    var w := MaxNameLen(s) + 1;
    var c := if width / w < 1 then 1 else width / w;
    Geometry(w, c, (|s| + c - 1) / c)
  }

  /** The grid is as wide as the terminal allows and no wider (a single
      column may overflow), and has the fewest rows that hold every entry. */
  lemma GeometryFits(s: seq<FileEntry>, width: nat)
    ensures var g := GeometryOf(s, width);
      && (g.cols > 1 ==> g.cols * g.colWidth <= width)
      && width < (g.cols + 1) * g.colWidth
      && g.rows * g.cols >= |s|
      && (|s| > 0 ==> (g.rows - 1) * g.cols < |s|)
      && (|s| == 0 <==> g.rows == 0)
  {
    var g := GeometryOf(s, width);
    ColumnsFit(width, g.colWidth);
    RowsSuffice(|s|, g.cols);
  }

  /** A position of the grid: an entry, with or without padding after it,
      or the end of a row. */
  datatype Slot = Show(index: nat, padded: bool) | EndRow

  predicate InRange(slots: seq<Slot>, n: nat) {
    forall k :: 0 <= k < |slots| && slots[k].Show? ==> slots[k].index < n
  }

  /** A row from column col on, where idx is the entry of column col:
      cell (row, col) holds entry col * rows + row, so a row starts at
      idx = row and each column adds rows.  The row stops at the first
      index past the end.  Padding follows a cell unless it is in the last
      column or nothing lies to its right. */
  function RowSlots(n: nat, g: Geometry, col: nat, idx: nat): seq<Slot>
    decreases g.cols - col
  {
    if col >= g.cols || idx >= n then []
    else [Show(idx, col < g.cols - 1 && idx + g.rows < n)] + RowSlots(n, g, col + 1, idx + g.rows)
  }

  /** The rows from row on, each closed by a newline. */
  function GridSlots(n: nat, g: Geometry, row: nat): seq<Slot>
    decreases g.rows - row
  {
    if row >= g.rows then []
    else RowSlots(n, g, 0, row) + [EndRow] + GridSlots(n, g, row + 1)
  }

  /** A row shows entries only, each below n. */
  lemma {:induction false} RowSlotsInRange(n: nat, g: Geometry, col: nat, idx: nat)
    ensures InRange(RowSlots(n, g, col, idx), n)
    ensures forall k :: 0 <= k < |RowSlots(n, g, col, idx)| ==> RowSlots(n, g, col, idx)[k].Show?
    decreases g.cols - col
  {
    var r := RowSlots(n, g, col, idx);
    if r != [] {
      var rest := RowSlots(n, g, col + 1, idx + g.rows);
      RowSlotsInRange(n, g, col + 1, idx + g.rows);
      assert r == [r[0]] + rest;
      forall k | 1 <= k < |r| ensures r[k] == rest[k - 1] {}
    }
  }

  /** Every entry a grid shows lies below n. */
  lemma {:induction false} GridSlotsInRange(n: nat, g: Geometry, row: nat)
    ensures InRange(GridSlots(n, g, row), n)
    decreases g.rows - row
  {
    if row < g.rows {
      var first, rest := RowSlots(n, g, 0, row), GridSlots(n, g, row + 1);
      RowSlotsInRange(n, g, 0, row);
      GridSlotsInRange(n, g, row + 1);
      var both := first + [EndRow] + rest;
      forall k | 0 <= k < |both| && both[k].Show? ensures both[k].index < n {
        if k < |first| {
          assert both[k] == first[k];
        } else if k > |first| {
          assert both[k] == rest[k - |first| - 1];
        }
      }
    }
  }

  /** The entry indices of a layout, in output order. */
  function Shown(slots: seq<Slot>): seq<nat> {
    if slots == [] then []
    else (if slots[0].Show? then [slots[0].index] else []) + Shown(slots[1..])
  }

  function EndRows(slots: seq<Slot>): nat {
    if slots == [] then 0
    else (if slots[0].EndRow? then 1 else 0) + EndRows(slots[1..])
  }

  lemma {:induction false} ShownAppend(a: seq<Slot>, b: seq<Slot>)
    ensures Shown(a + b) == Shown(a) + Shown(b)
    ensures EndRows(a + b) == EndRows(a) + EndRows(b)
  {
    if a != [] {
      assert (a + b)[1..] == a[1..] + b;
      ShownAppend(a[1..], b);
    } else {
      assert a + b == b;
    }
  }

  lemma NoDuplicatesAppend(a: seq<nat>, b: seq<nat>)
    requires NoDuplicates(a) && NoDuplicates(b)
    requires forall x :: x in a ==> x !in b
    ensures NoDuplicates(a + b)
  {
    forall i, j | 0 <= i < j < |a + b| ensures (a + b)[i] != (a + b)[j] {
      if j < |a| {
      } else if i >= |a| {
        assert (a + b)[i] == b[i - |a|] && (a + b)[j] == b[j - |a|];
      } else {
        assert (a + b)[i] in a && (a + b)[j] in b;
      }
    }
  }

  /** The entry in column col of row row, followed by the row's entries
      in later columns, are its entries from column col on. */
  lemma CellThenLaterColumns(x: nat, n: nat, g: Geometry, row: nat, col: nat, idx: nat)
    requires row < g.rows && idx == col * g.rows + row && idx < n
    ensures (x == idx || (x < n && x % g.rows == row && col + 1 <= x / g.rows)) <==>
      (x < n && x % g.rows == row && col <= x / g.rows)
  {
    DivMod(x, g.rows);
    DivModUnique(col, row, g.rows);
  }

  /** A row whose entry in column col is past the end has no entry there
      or later. */
  lemma PastRowEnd(x: nat, n: nat, g: Geometry, row: nat, col: nat, idx: nat)
    requires row < g.rows && idx == col * g.rows + row && idx >= n
    ensures !(x < n && x % g.rows == row && col <= x / g.rows)
  {
    DivMod(x, g.rows);
    MulLe(col, x / g.rows, g.rows);
  }

  /** Row row, from column col on, shows exactly the indices below n that
      are congruent to row and lie in columns col through cols - 1, each
      once. */
  lemma {:induction false} RowShown(n: nat, g: Geometry, row: nat, col: nat, idx: nat)
    requires row < g.rows && idx == col * g.rows + row
    ensures forall x: nat :: x in Shown(RowSlots(n, g, col, idx)) <==>
      x < n && x % g.rows == row && col <= x / g.rows < g.cols
    ensures NoDuplicates(Shown(RowSlots(n, g, col, idx)))
    decreases g.cols - col
  {
    var r := RowSlots(n, g, col, idx);
    if col >= g.cols {
      assert Shown(r) == [];
    } else if idx >= n {
      assert Shown(r) == [];
      forall x: nat ensures !(x < n && x % g.rows == row && col <= x / g.rows < g.cols) {
        PastRowEnd(x, n, g, row, col, idx);
      }
    } else {
      var slot := Show(idx, col < g.cols - 1 && idx + g.rows < n);
      var rest := RowSlots(n, g, col + 1, idx + g.rows);
      assert r == [slot] + rest;
      ShownAppend([slot], rest);
      assert Shown([slot]) == [idx] by {
        assert [slot][1..] == [];
      }
      MulSucc(col, g.rows);
      RowShown(n, g, row, col + 1, idx + g.rows);
      forall x: nat ensures x in Shown(r) <==> x < n && x % g.rows == row && col <= x / g.rows < g.cols {
        CellThenLaterColumns(x, n, g, row, col, idx);
      }
      DivModUnique(col, row, g.rows);
      NoDuplicatesAppend([idx], Shown(rest));
    }
  }

  /** The rows from row on show exactly the indices below n whose
      remainder is at least row and whose column exists, each once, and
      close rows - row lines. */
  lemma {:induction false} GridShown(n: nat, g: Geometry, row: nat)
    requires g.rows > 0
    ensures forall x: nat :: x in Shown(GridSlots(n, g, row)) <==>
      x < n && row <= x % g.rows && x / g.rows < g.cols
    ensures NoDuplicates(Shown(GridSlots(n, g, row)))
    ensures EndRows(GridSlots(n, g, row)) == if row < g.rows then g.rows - row else 0
    decreases g.rows - row
  {
    if row >= g.rows {
      forall x: nat ensures x % g.rows < g.rows {
        DivMod(x, g.rows);
      }
      assert Shown(GridSlots(n, g, row)) == [];
    } else {
      var first, rest := RowSlots(n, g, 0, row), GridSlots(n, g, row + 1);
      assert GridSlots(n, g, row) == first + ([EndRow] + rest);
      ShownAppend(first, [EndRow] + rest);
      ShownAppend([EndRow], rest);
      assert Shown([EndRow]) == [] && EndRows([EndRow]) == 1 by {
        assert [EndRow][1..] == [];
      }
      EndRowsOfRow(n, g, 0, row);
      RowShown(n, g, row, 0, row);
      GridShown(n, g, row + 1);
      var sf, sr := Shown(first), Shown(rest);
      assert Shown(GridSlots(n, g, row)) == sf + sr;
      RowsJoin(n, g, row, sf, sr);
    }
  }

  /** The indices of row row followed by those of the later rows. */
  lemma RowsJoin(n: nat, g: Geometry, row: nat, sf: seq<nat>, sr: seq<nat>)
    requires g.rows > 0
    requires forall x: nat :: x in sf <==> x < n && x % g.rows == row && 0 <= x / g.rows < g.cols
    requires forall x: nat :: x in sr <==> x < n && row + 1 <= x % g.rows && x / g.rows < g.cols
    requires NoDuplicates(sf) && NoDuplicates(sr)
    ensures forall x: nat :: x in sf + sr <==> x < n && row <= x % g.rows && x / g.rows < g.cols
    ensures NoDuplicates(sf + sr)
  {
    NoDuplicatesAppend(sf, sr);
  }

  lemma {:induction false} EndRowsOfRow(n: nat, g: Geometry, col: nat, idx: nat)
    ensures EndRows(RowSlots(n, g, col, idx)) == 0
    decreases g.cols - col
  {
    var r := RowSlots(n, g, col, idx);
    if r != [] {
      assert r[1..] == RowSlots(n, g, col + 1, idx + g.rows);
      EndRowsOfRow(n, g, col + 1, idx + g.rows);
    }
  }

  /** An index below n lies in one of the columns. */
  lemma ColumnOfIndex(x: nat, n: nat, g: Geometry)
    requires g.rows > 0
    requires g.rows * g.cols >= n
    ensures x < n ==> x / g.rows < g.cols
  {
    DivMod(x, g.rows);
    MulLe(g.cols, x / g.rows, g.rows);
  }

  /** Exact coverage: when the grid has room for n entries, every index in
      [0, n) is shown exactly once, row r holds exactly the indices
      congruent to r modulo the row count (the grid is column-major), and
      rows newlines close the rows. */
  lemma GridCoversEachIndexOnce(n: nat, g: Geometry)
    requires g.rows * g.cols >= n
    ensures forall x: nat :: x in Shown(GridSlots(n, g, 0)) <==> x < n
    ensures NoDuplicates(Shown(GridSlots(n, g, 0)))
    ensures EndRows(GridSlots(n, g, 0)) == g.rows
    ensures forall row: nat, x: nat :: row < g.rows ==>
      (x in Shown(RowSlots(n, g, 0, row)) <==> x < n && x % g.rows == row)
  {
    if g.rows == 0 {
      assert GridSlots(n, g, 0) == [];
      assert Shown(GridSlots(n, g, 0)) == [];
    } else {
      GridShown(n, g, 0);
      ColumnsHoldAll(n, g);
      RowsAreResidues(n, g);
    }
  }

  lemma ColumnsHoldAll(n: nat, g: Geometry)
    requires g.rows > 0 && g.rows * g.cols >= n
    ensures forall x: nat :: x < n ==> x / g.rows < g.cols
  {
    forall x: nat ensures x < n ==> x / g.rows < g.cols {
      ColumnOfIndex(x, n, g);
    }
  }

  lemma RowsAreResidues(n: nat, g: Geometry)
    requires g.rows > 0 && g.rows * g.cols >= n
    ensures forall row: nat, x: nat :: row < g.rows ==>
      (x in Shown(RowSlots(n, g, 0, row)) <==> x < n && x % g.rows == row)
  {
    ColumnsHoldAll(n, g);
    forall row: nat | row < g.rows
      ensures forall x: nat :: x in Shown(RowSlots(n, g, 0, row)) <==> x < n && x % g.rows == row
    {
      RowShown(n, g, row, 0, row);
    }
  }

  /** Padding follows a cell exactly when another cell follows it in the
      same row. */
  lemma {:induction false} PaddedUnlessLastInRow(n: nat, g: Geometry, col: nat, idx: nat)
    ensures forall k :: 0 <= k < |RowSlots(n, g, col, idx)| ==>
      (RowSlots(n, g, col, idx)[k].Show? &&
       (RowSlots(n, g, col, idx)[k].padded <==> k + 1 < |RowSlots(n, g, col, idx)|))
    decreases g.cols - col
  {
    var r := RowSlots(n, g, col, idx);
    if r != [] {
      var rest := RowSlots(n, g, col + 1, idx + g.rows);
      assert r[1..] == rest;
      PaddedUnlessLastInRow(n, g, col + 1, idx + g.rows);
      assert r[0].padded <==> rest != [];
      forall k | 1 <= k < |r| ensures r[k] == rest[k - 1] {}
    }
  }

  /** The padding loop: width - len spaces, nothing when that is not
      positive. */
  function Spaces(k: int): (r: seq<Event>)
    ensures |r| == if k > 0 then k else 0
    ensures forall j :: 0 <= j < |r| ==> r[j] == Space
  {
    if k <= 0 then [] else seq(k, _ => Space)
  }

  /** The cell of every entry, by index. */
  function CellsOf(s: seq<FileEntry>, o: Options, whiteouts: bool): (r: seq<Cell>)
    ensures |r| == |s|
    ensures forall i :: 0 <= i < |s| ==> r[i] == CellOf(s[i], o, whiteouts)
  {
    seq(|s|, i requires 0 <= i < |s| => CellOf(s[i], o, whiteouts))
  }

  /** The strlen of every entry's name, which the padding is computed from. */
  function NameLengths(s: seq<FileEntry>): (r: seq<nat>)
    ensures |r| == |s|
    ensures forall i :: 0 <= i < |s| ==> r[i] == |s[i].name|
  {
    seq(|s|, i requires 0 <= i < |s| => |s[i].name|)
  }

  /** What one slot writes: a cell and its padding, or the newline. */
  function SlotEvents(cells: seq<Cell>, widths: seq<nat>, g: Geometry, slot: Slot): seq<Event> {
    match slot
    case EndRow => [Newline]
    case Show(i, padded) =>
      if i < |cells| && i < |widths| then
        [Item(cells[i])] + (if padded then Spaces(g.colWidth - widths[i]) else [])
      else []
  }

  /** What a layout writes, slot by slot; an index past the cells writes
      nothing, which no layout of print_columns contains. */
  function Render(cells: seq<Cell>, widths: seq<nat>, g: Geometry, slots: seq<Slot>): seq<Event> {
    if slots == [] then []
    else SlotEvents(cells, widths, g, slots[0]) + Render(cells, widths, g, slots[1..])
  }

  lemma {:induction false} RenderAppend(cells: seq<Cell>, widths: seq<nat>, g: Geometry, a: seq<Slot>, b: seq<Slot>)
    ensures Render(cells, widths, g, a + b) == Render(cells, widths, g, a) + Render(cells, widths, g, b)
  {
    if a != [] {
      assert (a + b)[1..] == a[1..] + b;
      RenderAppend(cells, widths, g, a[1..], b);
    } else {
      assert a + b == b;
    }
  }

  /** print_columns: nothing for no entries, else the grid. */
  function GridOutput(s: seq<FileEntry>, o: Options, whiteouts: bool, width: nat): seq<Event> {
    if |s| == 0 then []
    else
      var g := GeometryOf(s, width);
      Render(CellsOf(s, o, whiteouts), NameLengths(s), g, GridSlots(|s|, g, 0))
  }

  /** The newlines written. */
  function Newlines(events: seq<Event>): nat {
    if events == [] then 0
    else (if events[0] == Newline then 1 else 0) + Newlines(events[1..])
  }

  /** The cells written, in order. */
  function Items(events: seq<Event>): seq<Cell> {
    if events == [] then []
    else (if events[0].Item? then [events[0].cell] else []) + Items(events[1..])
  }

  lemma {:induction false} EventsAppend(a: seq<Event>, b: seq<Event>)
    ensures Newlines(a + b) == Newlines(a) + Newlines(b)
    ensures Items(a + b) == Items(a) + Items(b)
  {
    if a != [] {
      assert (a + b)[1..] == a[1..] + b;
      EventsAppend(a[1..], b);
    } else {
      assert a + b == b;
    }
  }

  lemma {:induction false} SpacesCarryNothing(k: int)
    ensures Newlines(Spaces(k)) == 0 && Items(Spaces(k)) == []
    decreases if k > 0 then k else 0
  {
    if k > 0 {
      assert Spaces(k) == Spaces(k - 1) + [Space];
      SpacesCarryNothing(k - 1);
      EventsAppend(Spaces(k - 1), [Space]);
    }
  }

  /** The cells at the given indices, in order. */
  function CellsAt(cells: seq<Cell>, idx: seq<nat>): (r: seq<Cell>)
    requires forall k :: 0 <= k < |idx| ==> idx[k] < |cells|
    ensures |r| == |idx|
    ensures forall k :: 0 <= k < |idx| ==> r[k] == cells[idx[k]]
  {
    if idx == [] then [] else [cells[idx[0]]] + CellsAt(cells, idx[1..])
  }

  lemma {:induction false} ShownInRange(slots: seq<Slot>, n: nat)
    requires InRange(slots, n)
    ensures forall k :: 0 <= k < |Shown(slots)| ==> Shown(slots)[k] < n
  {
    if slots != [] {
      InRangeTail(slots, n);
      ShownInRange(slots[1..], n);
    }
  }

  lemma InRangeTail(slots: seq<Slot>, n: nat)
    requires InRange(slots, n) && slots != []
    ensures InRange(slots[1..], n)
    ensures slots[0].Show? ==> slots[0].index < n
  {
    forall k | 0 <= k < |slots[1..]| ensures slots[1..][k] == slots[k + 1] {}
  }

  /** One slot writes one newline if it ends a row, and one cell if it
      shows an entry. */
  lemma SlotCounts(cells: seq<Cell>, widths: seq<nat>, g: Geometry, slot: Slot)
    requires |widths| == |cells|
    requires slot.Show? ==> slot.index < |cells|
    ensures Newlines(SlotEvents(cells, widths, g, slot)) == if slot.EndRow? then 1 else 0
    ensures Items(SlotEvents(cells, widths, g, slot)) == if slot.Show? then [cells[slot.index]] else []
  {
    var head := SlotEvents(cells, widths, g, slot);
    match slot
    case EndRow =>
      assert head[1..] == [];
    case Show(i, padded) =>
      var item := [Item(cells[i])];
      SpacesCarryNothing(g.colWidth - widths[i]);
      EventsAppend(item, if padded then Spaces(g.colWidth - widths[i]) else []);
      assert item[1..] == [];
  }

  /** Rendering writes one newline per row end. */
  lemma {:induction false} RenderNewlines(cells: seq<Cell>, widths: seq<nat>, g: Geometry, slots: seq<Slot>)
    requires |widths| == |cells| && InRange(slots, |cells|)
    ensures Newlines(Render(cells, widths, g, slots)) == EndRows(slots)
  {
    if slots != [] {
      InRangeTail(slots, |cells|);
      RenderNewlines(cells, widths, g, slots[1..]);
      EventsAppend(SlotEvents(cells, widths, g, slots[0]), Render(cells, widths, g, slots[1..]));
      SlotCounts(cells, widths, g, slots[0]);
    }
  }

  /** Rendering writes one cell per shown index, in layout order. */
  lemma {:induction false} RenderItems(cells: seq<Cell>, widths: seq<nat>, g: Geometry, slots: seq<Slot>)
    requires |widths| == |cells| && InRange(slots, |cells|)
    ensures forall k :: 0 <= k < |Shown(slots)| ==> Shown(slots)[k] < |cells|
    ensures Items(Render(cells, widths, g, slots)) == CellsAt(cells, Shown(slots))
  {
    ShownInRange(slots, |cells|);
    if slots != [] {
      var rest := slots[1..];
      InRangeTail(slots, |cells|);
      ShownInRange(rest, |cells|);
      RenderItems(cells, widths, g, rest);
      EventsAppend(SlotEvents(cells, widths, g, slots[0]), Render(cells, widths, g, rest));
      SlotCounts(cells, widths, g, slots[0]);
      if slots[0].Show? {
        var i := slots[0].index;
        assert Shown(slots) == [i] + Shown(rest);
        assert ([i] + Shown(rest))[1..] == Shown(rest);
      }
    }
  }

  /** The elements of a sequence, collected front to back. */
  function Elements(xs: seq<nat>): (r: set<nat>)
    ensures forall x :: x in r <==> x in xs
  {
    if xs == [] then {} else {xs[0]} + Elements(xs[1..])
  }

  /** The indices below n. */
  function Below(n: nat): set<nat> {
    if n == 0 then {} else Below(n - 1) + {n - 1}
  }

  lemma {:induction false} DistinctCard(xs: seq<nat>)
    requires NoDuplicates(xs)
    ensures |Elements(xs)| == |xs|
  {
    if xs != [] {
      var t := xs[1..];
      assert NoDuplicates(t) by {
        forall i, j | 0 <= i < j < |t| ensures t[i] != t[j] {
          assert t[i] == xs[i + 1] && t[j] == xs[j + 1];
        }
      }
      DistinctCard(t);
      assert xs[0] !in t by {
        forall j | 0 <= j < |t| ensures t[j] != xs[0] {
          assert t[j] == xs[j + 1];
        }
      }
      assert xs[0] !in Elements(t);
      assert Elements(xs) == {xs[0]} + Elements(t);
    }
  }

  lemma {:induction false} BelowCard(n: nat)
    ensures forall x: nat :: x in Below(n) <==> x < n
    ensures |Below(n)| == n
  {
    if n > 0 {
      BelowCard(n - 1);
      assert n - 1 !in Below(n - 1);
    }
  }

  /** A duplicate-free sequence holding exactly the indices below n has n
      elements. */
  lemma DistinctRangeLength(xs: seq<nat>, n: nat)
    requires NoDuplicates(xs)
    requires forall x: nat :: x in xs <==> x < n
    ensures |xs| == n
  {
    DistinctCard(xs);
    BelowCard(n);
    assert Elements(xs) == Below(n);
  }

  /** The grid order: the entry indices in the order print_columns writes
      them. */
  function GridOrder(s: seq<FileEntry>, width: nat): seq<nat> {
    var g := GeometryOf(s, width);
    Shown(GridSlots(|s|, g, 0))
  }

  /** print_columns writes nothing for no entries; otherwise GridOrder is
      a permutation of the entry indices, the k-th cell written is the
      cell of entry GridOrder[k], and num_rows lines are ended. */
  lemma GridOutputShowsEachEntryOnce(s: seq<FileEntry>, o: Options, whiteouts: bool, width: nat)
    ensures GridOutput(s, o, whiteouts, width) == [] <==> |s| == 0
    ensures |GridOrder(s, width)| == |s|
    ensures forall x: nat :: x in GridOrder(s, width) <==> x < |s|
    ensures NoDuplicates(GridOrder(s, width))
    ensures |s| > 0 ==> Newlines(GridOutput(s, o, whiteouts, width)) == GeometryOf(s, width).rows
    ensures var items, order := Items(GridOutput(s, o, whiteouts, width)), GridOrder(s, width);
      |s| > 0 ==> (|items| == |s| == |order| && (forall k :: 0 <= k < |s| ==> order[k] < |s|) &&
        forall k :: 0 <= k < |s| ==> items[k] == CellOf(s[order[k]], o, whiteouts))
  {
    var g := GeometryOf(s, width);
    GeometryFits(s, width);
    GridCoversEachIndexOnce(|s|, g);
    DistinctRangeLength(GridOrder(s, width), |s|);
    if |s| > 0 {
      var cells, widths := CellsOf(s, o, whiteouts), NameLengths(s);
      GridSlotsInRange(|s|, g, 0);
      RenderNewlines(cells, widths, g, GridSlots(|s|, g, 0));
      RenderItems(cells, widths, g, GridSlots(|s|, g, 0));
    }
  }

  /** Proof helper: concatenation is associative. */
  lemma AppendAssoc<T>(a: seq<T>, b: seq<T>, c: seq<T>)
    ensures (a + b) + c == a + (b + c)
  {}

  /** Proof helper: the output so far, then one more cell, then the cells
      after it. */
  lemma CellThenRest(out: seq<Event>, cell: seq<Event>, tail: seq<Event>, rest: seq<Event>, whole: seq<Event>)
    requires out + rest == whole && rest == cell + tail
    ensures (out + cell) + tail == whole
  {}

  /** Proof helper: the output so far, then a finished line, then the rows
      after it. */
  lemma LineThenRest(out: seq<Event>, line: seq<Event>, tail: seq<Event>, rest: seq<Event>, whole: seq<Event>)
    requires out + rest == whole && rest == line + ([Newline] + tail)
    ensures (out + line + [Newline]) + tail == whole
  {}

  /** Rendering a row from column col on: the cell at col, then the rest. */
  lemma CellStep(cells: seq<Cell>, widths: seq<nat>, g: Geometry, col: nat, idx: nat)
    requires col < g.cols && idx < |cells|
    ensures Render(cells, widths, g, RowSlots(|cells|, g, col, idx)) ==
      SlotEvents(cells, widths, g, Show(idx, col < g.cols - 1 && idx + g.rows < |cells|)) +
      Render(cells, widths, g, RowSlots(|cells|, g, col + 1, idx + g.rows))
  {
    var slot := Show(idx, col < g.cols - 1 && idx + g.rows < |cells|);
    var rest := RowSlots(|cells|, g, col + 1, idx + g.rows);
    assert RowSlots(|cells|, g, col, idx) == [slot] + rest;
    RenderAppend(cells, widths, g, [slot], rest);
    assert [slot][1..] == [];
  }

  /** Rendering the rows from row on: this row, its newline, the rest. */
  lemma RowStep(cells: seq<Cell>, widths: seq<nat>, g: Geometry, row: nat)
    requires row < g.rows
    ensures Render(cells, widths, g, GridSlots(|cells|, g, row)) ==
      Render(cells, widths, g, RowSlots(|cells|, g, 0, row)) + ([Newline] +
      Render(cells, widths, g, GridSlots(|cells|, g, row + 1)))
  {
    var first, rest := RowSlots(|cells|, g, 0, row), GridSlots(|cells|, g, row + 1);
    assert GridSlots(|cells|, g, row) == first + ([EndRow] + rest);
    RenderAppend(cells, widths, g, [EndRow], rest);
    RenderAppend(cells, widths, g, first, [EndRow] + rest);
    assert [EndRow][1..] == [];
  }

  /** The max_len scan of print_columns. */
  method LongestName(entries: array<FileEntry>, count: nat) returns (maxLen: nat)
    requires count <= entries.Length
    ensures maxLen == MaxNameLen(entries[..count])
  {
    maxLen := 0;
    var i := 0;
    while i < count
      invariant 0 <= i <= count
      invariant maxLen == MaxNameLen(entries[..i])
    {
      assert entries[..i + 1][..i] == entries[..i];
      var len := |entries[i].name|;
      if len > maxLen {
        maxLen := len;
      }
      i := i + 1;
    }
  }

  /** The padding countdown: one space per remaining column position. */
  method Pad(padding: int) returns (out: seq<Event>)
    ensures out == Spaces(padding)
  {
    out := [];
    var left := padding;
    while left > 0
      invariant (0 <= left <= padding && out == Spaces(padding - left)) || (left == padding && out == [])
    {
      assert Spaces(padding - left + 1) == Spaces(padding - left) + [Space];
      out := out + [Space];
      left := left - 1;
    }
  }

  /** cells and widths hold the cell and the name length of each of the
      first count entries. */
  ghost predicate CellsFor(entries: array<FileEntry>, count: nat, o: Options, whiteouts: bool,
                           cells: seq<Cell>, widths: seq<nat>)
    reads entries
  {
    && count <= entries.Length && |cells| == count && |widths| == count
    && forall k :: 0 <= k < count ==> cells[k] == CellOf(entries[k], o, whiteouts) && widths[k] == |entries[k].name|
  }

  /** The body of the column loop for entry idx: inode, size column,
      name and suffix, then the padding when padded says so. */
  method PrintCell(entries: array<FileEntry>, count: nat, o: Options, whiteouts: bool, g: Geometry,
                   idx: nat, padded: bool, ghost cells: seq<Cell>, ghost widths: seq<nat>)
    returns (cell: seq<Event>)
    requires idx < count <= entries.Length
    requires CellsFor(entries, count, o, whiteouts, cells, widths)
    ensures cell == SlotEvents(cells, widths, g, Show(idx, padded))
  {
    cell := [Item(CellOf(entries[idx], o, whiteouts))];
    if padded {
      var spaces := Pad(g.colWidth - |entries[idx].name|);
      cell := cell + spaces;
    }
  }

  /** The entry in column col of row row, counted column by column. */
  function ColumnStart(rows: nat, col: nat, row: nat): nat {
    if col == 0 then row else ColumnStart(rows, col - 1, row) + rows
  }

  lemma {:induction false} ColumnStartIsProduct(rows: nat, col: nat, row: nat)
    ensures ColumnStart(rows, col, row) == col * rows + row
  {
    if col > 0 {
      ColumnStartIsProduct(rows, col - 1, row);
      MulSucc(col - 1, rows);
    }
  }

  /** What row row writes from column col on: the cell of the entry in
      column col and its padding, then the next column. */
  function RowEvents(cells: seq<Cell>, widths: seq<nat>, g: Geometry, row: nat, col: nat): seq<Event>
    decreases g.cols - col
  {
    if col >= g.cols then []
    else
      var idx := ColumnStart(g.rows, col, row);
      if idx >= |cells| then []
      else
        SlotEvents(cells, widths, g, Show(idx, col < g.cols - 1 && idx + g.rows < |cells|)) +
        RowEvents(cells, widths, g, row, col + 1)
  }

  lemma {:induction false} RowEventsRender(cells: seq<Cell>, widths: seq<nat>, g: Geometry, row: nat, col: nat)
    ensures RowEvents(cells, widths, g, row, col) ==
      Render(cells, widths, g, RowSlots(|cells|, g, col, ColumnStart(g.rows, col, row)))
    decreases g.cols - col
  {
    if col < g.cols && ColumnStart(g.rows, col, row) < |cells| {
      RowEventsRender(cells, widths, g, row, col + 1);
      RowEventsStep(cells, widths, g, row, col);
    } else {
      RowEventsEnd(cells, widths, g, row, col);
    }
  }

  /** Past the last column, or past the last entry, a row writes nothing. */
  lemma RowEventsEnd(cells: seq<Cell>, widths: seq<nat>, g: Geometry, row: nat, col: nat)
    requires !(col < g.cols && ColumnStart(g.rows, col, row) < |cells|)
    ensures RowEvents(cells, widths, g, row, col) == []
    ensures RowSlots(|cells|, g, col, ColumnStart(g.rows, col, row)) == []
  {}

  /** One column of RowEventsRender: the cell of column col, then the
      columns after it. */
  lemma RowEventsStep(cells: seq<Cell>, widths: seq<nat>, g: Geometry, row: nat, col: nat)
    requires col < g.cols && ColumnStart(g.rows, col, row) < |cells|
    requires RowEvents(cells, widths, g, row, col + 1) ==
      Render(cells, widths, g, RowSlots(|cells|, g, col + 1, ColumnStart(g.rows, col + 1, row)))
    ensures RowEvents(cells, widths, g, row, col) ==
      Render(cells, widths, g, RowSlots(|cells|, g, col, ColumnStart(g.rows, col, row)))
  {
    var idx := ColumnStart(g.rows, col, row);
    var slot := Show(idx, col < g.cols - 1 && idx + g.rows < |cells|);
    assert ColumnStart(g.rows, col + 1, row) == idx + g.rows;
    assert RowEvents(cells, widths, g, row, col) ==
      SlotEvents(cells, widths, g, slot) + RowEvents(cells, widths, g, row, col + 1);
    CellStep(cells, widths, g, col, idx);
  }

  /** idx = col * num_rows + row. */
  method CellIndex(col: nat, rows: nat, row: nat) returns (idx: nat)
    ensures idx == ColumnStart(rows, col, row)
  {
    idx := col * rows + row;
    ColumnStartIsProduct(rows, col, row);
  }

  /** One pass of the column loop: the cells of row row, left to right,
      stopping at the first index past the end. */
  method PrintRow(entries: array<FileEntry>, count: nat, o: Options, whiteouts: bool, g: Geometry, row: nat,
                  ghost cells: seq<Cell>, ghost widths: seq<nat>)
    returns (out: seq<Event>)
    requires count <= entries.Length
    requires CellsFor(entries, count, o, whiteouts, cells, widths)
    ensures out == Render(cells, widths, g, RowSlots(count, g, 0, row))
  {
    ghost var whole := RowEvents(cells, widths, g, row, 0);
    out := [];
    var col: nat := 0;
    while col < g.cols
      invariant col <= g.cols
      invariant out + RowEvents(cells, widths, g, row, col) == whole
    {
      var idx := CellIndex(col, g.rows, row);
      if idx >= count {
        break;
      }
      var padded := col < g.cols - 1 && idx + g.rows < count;
      var cell := PrintCell(entries, count, o, whiteouts, g, idx, padded, cells, widths);
      CellThenRest(out, cell, RowEvents(cells, widths, g, row, col + 1),
        RowEvents(cells, widths, g, row, col), whole);
      out := out + cell;
      col := col + 1;
    }
    assert out + [] == out;
    RowEventsRender(cells, widths, g, row, 0);
  }

  /** The grid shape of print_columns: the widest name plus one, as many
      columns as fit (at least one), and enough rows for every entry. */
  method GridShape(entries: array<FileEntry>, count: nat, width: nat) returns (g: Geometry)
    requires count <= entries.Length
    ensures g == GeometryOf(entries[..count], width)
  {
    var maxLen := LongestName(entries, count);
    var colWidth := maxLen + 1;
    var numCols := width / colWidth;
    if numCols < 1 {
      numCols := 1;
    }
    DivNonNegative(count + numCols - 1, numCols);
    var numRows := (count + numCols - 1) / numCols;
    g := Geometry(colWidth, numCols, numRows);
  }

  /** The row loop of print_columns: each row's cells, then a newline. */
  method PrintGrid(entries: array<FileEntry>, count: nat, o: Options, whiteouts: bool, g: Geometry,
                   ghost cells: seq<Cell>, ghost widths: seq<nat>)
    returns (out: seq<Event>)
    requires CellsFor(entries, count, o, whiteouts, cells, widths)
    ensures out == Render(cells, widths, g, GridSlots(count, g, 0))
  {
    ghost var whole := Render(cells, widths, g, GridSlots(count, g, 0));
    var row := 0;
    out := [];
    while row < g.rows
      invariant 0 <= row <= g.rows
      invariant out + Render(cells, widths, g, GridSlots(count, g, row)) == whole
    {
      var line := PrintRow(entries, count, o, whiteouts, g, row, cells, widths);
      RowStep(cells, widths, g, row);
      LineThenRest(out, line, Render(cells, widths, g, GridSlots(count, g, row + 1)),
        Render(cells, widths, g, GridSlots(count, g, row)), whole);
      out := out + line + [Newline];
      row := row + 1;
    }
    assert GridSlots(count, g, row) == [];
    assert out + [] == out;
  }

  /** print_columns over entries[0..count): nothing for no entries, else
      the max_len scan, the grid shape, then one line per row. */
  method PrintColumns(entries: array<FileEntry>, count: nat, o: Options, whiteouts: bool, width: nat)
    returns (out: seq<Event>)
    requires count <= entries.Length
    ensures out == GridOutput(entries[..count], o, whiteouts, width)
  {
    ghost var s := entries[..count];
    if count == 0 {
      return [];
    }
    ghost var cells, widths := CellsOf(s, o, whiteouts), NameLengths(s);
    assert CellsFor(entries, count, o, whiteouts, cells, widths) by {
      forall k | 0 <= k < count ensures cells[k] == CellOf(entries[k], o, whiteouts) && widths[k] == |entries[k].name| {
        assert s[k] == entries[k];
      }
    }
    var g := GridShape(entries, count, width);
    out := PrintGrid(entries, count, o, whiteouts, g, cells, widths);
  }
}
