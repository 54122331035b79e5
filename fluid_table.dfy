/** The sample table FLUID shows for a new `Fl_Table` (`Fluid_Table` in
    fluid/Fl_Group_Type.cxx): a 14 by 7 grid of numbers with lettered
    columns and numbered rows. */
module FluidTable {
  import opened CText

  const MAX_ROWS: nat := 14
  const MAX_COLS: nat := 7

  /** What `Fl_Table` asks `draw_cell` to draw. */
  datatype Context = StartPage | ColHeader | RowHeader | Cell | Other

  /** `sprintf(s, "%c", 'A' + col)`: the character is the value modulo 256.
      For `col == 191` that value is 0 and C writes a NUL, so the label drawn
      would be empty where this function gives "\0"; `Fl_Table` only asks
      for columns below `cols` (7), so that column never occurs. */
  function ColumnLabel(col: int): (s: string)
    ensures |s| == 1
  {
    [(('A' as int + col) % 256) as char]
  }

  /** `d` padded on the left with '0' to at least `w` characters. */
  function ZeroPad(d: string, w: nat): (s: string)
    ensures |s| == if |d| < w then w else |d|
    ensures s == seq(|s| - |d|, _ => '0') + d
  {
    seq(if |d| < w then w - |d| else 0, _ => '0') + d
  }

  /** `sprintf(s, "%03d:", row)`: at least three characters of number
      (the sign counting as one), zero padded, then ':'. */
  function RowLabel(row: int): (s: string)
    ensures |s| >= 4 && s[|s| - 1] == ':'
  {
    (if row < 0 then "-" + ZeroPad(Decimal(-row), 2) else ZeroPad(Decimal(row), 3)) + ":"
  }

  /** `sprintf(s, "%d", v)`. */
  function Signed(v: int): (s: string)
    ensures |s| >= 1
  {
    if v < 0 then "-" + Decimal(-v) else Decimal(v)
  }

  /** The first columns are labelled "A", "B", ... and no two of the
      256 columns from 0 share a label. */
  lemma {:induction false} ColumnLabelsDistinct(a: int, b: int)
    requires 0 <= a < 256 - 'A' as int && 0 <= b < 256 - 'A' as int
    ensures ColumnLabel(a) == [('A' as int + a) as char]
    ensures ColumnLabel(a) == ColumnLabel(b) <==> a == b
  {
    if ColumnLabel(a) == ColumnLabel(b) {
      assert ColumnLabel(a)[0] == ColumnLabel(b)[0];
    }
  }

  /** The seven columns of the sample table are "A" to "G". */
  lemma {:induction false} SampleColumns()
    ensures seq(MAX_COLS, c => ColumnLabel(c)) == ["A", "B", "C", "D", "E", "F", "G"]
  {
  }

  /** A row label reads back as its row number: the digits before ':' give
      the row, after a '-' for a negative one. */
  lemma {:induction false} RowLabelRoundTrip(row: int)
    ensures var s := RowLabel(row);
            var digits := if row < 0 then s[1..|s| - 1] else s[..|s| - 1];
            (row < 0 <==> s[0] == '-') &&
            (forall k :: 0 <= k < |digits| ==> IsDigit(digits[k])) &&
            ValueOf(digits) == if row < 0 then -row else row
  {
    var n := if row < 0 then -row else row;
    var p := ZeroPad(Decimal(n), if row < 0 then 2 else 3);
    PaddedRoundTrip(n, if row < 0 then 2 else 3);
    var s := RowLabel(row);
    if row < 0 {
      assert s == "-" + p + ":";
      assert s[1..|s| - 1] == p;
    } else {
      assert s == p + ":";
      assert s[..|s| - 1] == p;
    }
  }

  /** A zero-padded number is all digits, does not start with '-', and reads back as the number. */
  lemma {:induction false} PaddedRoundTrip(n: nat, w: nat)
    ensures var p := ZeroPad(Decimal(n), w);
            |p| >= 1 && p[0] != '-' && (forall k :: 0 <= k < |p| ==> IsDigit(p[k])) && ValueOf(p) == n
  {
    var d := Decimal(n);
    var p := ZeroPad(d, w);
    DecimalRoundTrip(n);
    LeadingZerosIgnored(|p| - |d|, d);
    assert forall k :: 0 <= k < |p| ==> IsDigit(p[k]) by {
      forall k | 0 <= k < |p|
        ensures IsDigit(p[k])
      {
        if k >= |p| - |d| {
          assert p[k] == d[k - (|p| - |d|)];
        }
      }
    }
  }

  /** Rows 0 to 999 get labels of exactly four characters, so the labels
      line up. */
  lemma {:induction false} RowLabelWidth(row: int)
    requires 0 <= row < 1000
    ensures |RowLabel(row)| == 4
  {
    DecimalLength(row, 3);
  }

  /** A cell's text reads back as the cell's value. */
  lemma {:induction false} SignedRoundTrip(v: int)
    ensures var s := Signed(v);
            (v < 0 <==> s[0] == '-') &&
            ValueOf(if v < 0 then s[1..] else s) == if v < 0 then -v else v
  {
    var n := if v < 0 then -v else v;
    DecimalRoundTrip(n);
    if v < 0 {
      assert Signed(v)[1..] == Decimal(n);
    }
  }

  /** The `Fluid_Table` widget: its cell data and the table settings its
      constructor makes. */
  class Table {
    const data: array2<int>
    var rows: nat
    var cols: nat
    var rowHeader: bool
    var rowHeight: nat
    var rowResize: bool
    var colHeader: bool
    var colWidth: nat
    var colResize: bool

    /** Cell `(r, c)` holds `1000 + 1000 * r + c`. */
    predicate Valid()
      reads this, data
    {
      data.Length0 == MAX_ROWS && data.Length1 == MAX_COLS &&
      forall r, c :: 0 <= r < MAX_ROWS && 0 <= c < MAX_COLS ==> data[r, c] == 1000 + 1000 * r + c
    }

    /** `Fluid_Table(x, y, w, h, l)`: fill the data row by row, then set up
        the rows and columns. */
    constructor ()
      ensures Valid() && fresh(data)
      ensures rows == MAX_ROWS && rowHeader && rowHeight == 20 && !rowResize
      ensures cols == MAX_COLS && colHeader && colWidth == 80 && colResize
    {
      data := new int[MAX_ROWS, MAX_COLS];
      new;
      var r := 0;
      while r < MAX_ROWS
        invariant 0 <= r <= MAX_ROWS
        invariant forall i, j :: 0 <= i < r && 0 <= j < MAX_COLS ==> data[i, j] == 1000 + 1000 * i + j
      {
        var c := 0;
        while c < MAX_COLS
          invariant 0 <= c <= MAX_COLS
          invariant forall i, j :: 0 <= i < r && 0 <= j < MAX_COLS ==> data[i, j] == 1000 + 1000 * i + j
          invariant forall j :: 0 <= j < c ==> data[r, j] == 1000 + 1000 * r + j
        {
          data[r, c] := 1000 + r * 1000 + c;
          c := c + 1;
        }
        r := r + 1;
      }
      rows, rowHeader, rowHeight, rowResize := MAX_ROWS, true, 20, false;
      cols, colHeader, colWidth, colResize := MAX_COLS, true, 80, true;
    }

    /** The text `draw_cell` draws: a column letter, a row label or the
        cell's number; nothing for the other contexts. `Fl_Table` only asks
        for cells inside the table. */
    method CellText(context: Context, row: int, col: int) returns (s: Option<string>)
      requires Valid()
      requires context == Cell ==> 0 <= row < MAX_ROWS && 0 <= col < MAX_COLS
      ensures s.Some? <==> context in {ColHeader, RowHeader, Cell}
      ensures context == ColHeader ==> s == Some(ColumnLabel(col))
      ensures context == RowHeader ==> s == Some(RowLabel(row))
      ensures context == Cell ==> s == Some(Decimal(1000 + 1000 * row + col))
      ensures context == Cell ==> 4 <= |s.value| <= 5
    {
      match context
      case ColHeader =>
        s := Some(ColumnLabel(col));
      case RowHeader =>
        s := Some(RowLabel(row));
      case Cell =>
        var v := data[row, col];
        CellWidth(v);
        s := Some(Signed(v));
      case _ =>
        s := None;
    }
  }

  /** The sample values, 1000 to 13006, print with four or five digits. */
  lemma {:induction false} CellWidth(v: int)
    requires 1000 <= v < 100000
    ensures 4 <= |Signed(v)| <= 5
  {
    DecimalLength(v, 3);
    DecimalLength(v, 5);
  }
}
