/**
 Laws of the kstat reader: what cutting off a file does to the rows, and reading back a
 printed file.
 */
module KStatTheorems {
  import opened Basics
  import opened Decimal
  import opened KStat

  // ---- Reading all rows -------------------------------------------------------

  /** A row with the offset behind it. */
  datatype Placed = Placed(row: Row, end: nat)

  /** The rows up to the first call that returns none, and whether that call returned `io.EOF`. */
  datatype AllRows = AllRows(rows: seq<Placed>, clean: bool)

  function ReadAll(D: seq<Byte>, p: nat): (r: AllRows)
    requires p <= |D|
    decreases |D| - p
  {
    match NextRow(D, p)
    case Eof => AllRows([], true)
    case Broken(_) => AllRows([], false)
    case Found(row, next) =>
      var rest := ReadAll(D, next);
      AllRows([Placed(row, next)] + rest.rows, rest.clean)
  }

  // ---- Cut files --------------------------------------------------------------

  lemma {:induction false} FindCut(D: seq<Byte>, k: nat, p: nat, b: Byte)
    requires p <= k <= |D|
    ensures Find(D[..k], p, b) == if Find(D, p, b) < k then Find(D, p, b) else k
    decreases |D| - p
  {
    if p < k && D[p] != b {
      FindCut(D, k, p + 1, b);
    }
  }

  lemma {:induction false} FindOtherCut(D: seq<Byte>, k: nat, p: nat, b: Byte)
    requires p <= k <= |D|
    ensures FindOther(D[..k], p, b) == if FindOther(D, p, b) < k then FindOther(D, p, b) else k
    decreases |D| - p
  {
    if p < k && D[p] == b {
      FindOtherCut(D, k, p + 1, b);
    }
  }

  /** A cell of the whole buffer is also one of the cut buffer if it ends within it. */
  function CutCell(c: Cell, k: nat): Cell {
    if c.Cell? && c.next <= k then c else NoCell
  }

  lemma UntilCut(D: seq<Byte>, k: nat, p: nat, b: Byte)
    requires p <= k <= |D|
    ensures Until(D[..k], p, b) == CutCell(Until(D, p, b), k)
  {
    hide Find;
    FindCut(D, k, p, b);
  }

  lemma ColumnCut(D: seq<Byte>, k: nat, p: nat, b: Byte)
    requires p <= k <= |D|
    ensures Column(D[..k], p, b) == CutCell(Column(D, p, b), k)
  {
    hide Until, FindOther;
    FindOtherCut(D, k, p, SP);
    var q := FindOther(D, p, SP);
    if q < k {
      UntilCut(D, k, q, b);
    }
  }

  lemma {:induction false} FieldsCut(D: seq<Byte>, k: nat, p: nat, n: nat)
    requires p <= k <= |D|
    ensures FieldsEnd(D[..k], p, n) ==
            if FieldsEnd(D, p, n).Some? && FieldsEnd(D, p, n).value <= k then FieldsEnd(D, p, n) else None
    decreases n
  {
    hide Until;
    if n > 0 {
      UntilCut(D, k, p, SP);
      var c := Until(D, p, SP);
      if c.Cell? && c.next <= k {
        FieldsCut(D, k, c.next, n - 1);
      }
    }
  }

  lemma HeaderCut(D: seq<Byte>, k: nat)
    requires k <= |D|
    ensures HeaderLineAt(D[..k]) ==
            if HeaderLineAt(D).HeaderLine? && HeaderLineAt(D).next <= k then HeaderLineAt(D) else BadHeader
  {
    hide Until, FieldsEnd, ParseInt32;
    UntilCut(D, k, 0, SP);
    var a := Until(D, 0, SP);
    if a.Cell? && a.next <= k {
      UntilCut(D, k, a.next, SP);
      var b := Until(D, a.next, SP);
      if b.Cell? && b.next <= k {
        FieldsCut(D, k, b.next, 4);
        var c := FieldsEnd(D, b.next, 4);
        if c.Some? && c.value <= k {
          UntilCut(D, k, c.value, NL);
        }
      }
    }
  }

  lemma ColumnsCut(D: seq<Byte>, k: nat, p: nat)
    requires p <= k <= |D|
    ensures ColumnsAt(D[..k], p) ==
            if ColumnsAt(D, p).Some? && ColumnsAt(D, p).value <= k then ColumnsAt(D, p) else None
  {
    hide Column;
    ColumnCut(D, k, p, SP);
    var a := Column(D, p, SP);
    if a.Cell? && a.next <= k {
      ColumnCut(D, k, a.next, SP);
      var b := Column(D, a.next, SP);
      if b.Cell? && b.next <= k {
        ColumnCut(D, k, b.next, NL);
      }
    }
  }

  lemma StartCut(D: seq<Byte>, k: nat)
    requires k <= |D|
    ensures Start(D[..k]).Ok? <==> Start(D).Ok? && Start(D).value <= k
    ensures Start(D[..k]).Ok? ==> Start(D[..k]) == Start(D)
  {
    hide HeaderLineAt, ColumnsAt;
    HeaderCut(D, k);
    if HeaderLineAt(D).HeaderLine? && HeaderLineAt(D).next <= k {
      ColumnsCut(D, k, HeaderLineAt(D).next);
    }
  }

  lemma RowCut(D: seq<Byte>, k: nat, p: nat)
    requires p <= k <= |D|
    ensures RowAt(D[..k], p) ==
            if p == k then Eof
            else if RowAt(D, p).Found? && RowAt(D, p).next <= k then RowAt(D, p) else Broken(BAD_ROW)
  {
    hide Column;
    ColumnCut(D, k, p, SP);
    var a := Column(D, p, SP);
    if a.Cell? && a.next <= k {
      ColumnCut(D, k, a.next, SP);
      var b := Column(D, a.next, SP);
      if b.Cell? && b.next <= k {
        ColumnCut(D, k, b.next, NL);
      }
    }
  }

  /** The rows that end within the first `k` bytes. Row ends increase, so they come first. */
  function Within(rows: seq<Placed>, k: nat): seq<Placed> {
    if rows == [] || rows[0].end > k then [] else [rows[0]] + Within(rows[1..], k)
  }

  lemma {:induction false} RowsCut(D: seq<Byte>, k: nat, p: nat)
    requires 0 < p <= k <= |D|
    ensures ReadAll(D[..k], p).rows == Within(ReadAll(D, p).rows, k)
    ensures ReadAll(D[..k], p).clean <==>
            k == p || exists i :: 0 <= i < |ReadAll(D, p).rows| && ReadAll(D, p).rows[i].end == k
    decreases |D| - p
  {
    hide RowAt;
    RowCut(D, k, p);
    var s := RowAt(D, p);
    if s.Found? {
      var rest := ReadAll(D, s.next);
      var rows := ReadAll(D, p).rows;
      assert rows == [Placed(s.row, s.next)] + rest.rows;
      EndsGrow(D, p);
      if s.next <= k {
        RowsCut(D, k, s.next);
        assert rows[1..] == rest.rows;
        ShiftedExists(rows, k);
      }
    }
  }

  lemma ShiftedExists(rows: seq<Placed>, k: nat)
    requires rows != []
    ensures (exists i :: 0 <= i < |rows| && rows[i].end == k) <==>
            rows[0].end == k || exists i :: 0 <= i < |rows[1..]| && rows[1..][i].end == k
  {
    if exists i :: 0 <= i < |rows| && rows[i].end == k {
      var i :| 0 <= i < |rows| && rows[i].end == k;
      if i > 0 {
        assert rows[1..][i - 1].end == k;
      }
    }
  }

  /** Each row ends behind the one before it. */
  lemma {:induction false} EndsGrow(D: seq<Byte>, p: nat)
    requires p <= |D|
    ensures forall i :: 0 <= i < |ReadAll(D, p).rows| ==> p < ReadAll(D, p).rows[i].end <= |D|
    ensures forall i, j :: 0 <= i < j < |ReadAll(D, p).rows| ==>
      ReadAll(D, p).rows[i].end < ReadAll(D, p).rows[j].end
    decreases |D| - p
  {
    hide NextRow;
    var s := NextRow(D, p);
    if s.Found? {
      EndsGrow(D, s.next);
    }
  }

  /** A file that is cut off after `k` bytes gives exactly the rows that end within them. The
      last call reports `io.EOF` exactly when the cut is behind the column line or behind
      a row, and an error otherwise. */
  lemma TruncatedFile(D: seq<Byte>, k: nat)
    requires k <= |D|
    ensures Start(D).Ok? && k >= Start(D).value ==> ReadAll(D[..k], 0).rows == Within(ReadAll(D, 0).rows, k)
    ensures !(Start(D).Ok? && k >= Start(D).value) ==> ReadAll(D[..k], 0).rows == []
    ensures ReadAll(D[..k], 0).clean <==>
            Start(D).Ok?
            && (k == Start(D).value || exists i :: 0 <= i < |ReadAll(D, 0).rows| && ReadAll(D, 0).rows[i].end == k)
  {
    hide Start;
    StartCut(D, k);
    if Start(D).Ok? {
      var p := Start(D).value;
      ReadFromStart(D);
      EndsGrow(D, p);
      if k >= p {
        ReadFromStart(D[..k]);
        RowsCut(D, k, p);
      }
    }
  }

  lemma ReadFromStart(D: seq<Byte>)
    requires Start(D).Ok?
    ensures ReadAll(D, 0) == ReadAll(D, Start(D).value)
  {
    hide Start, RowAt;
  }

  // ---- Printing ---------------------------------------------------------------

  function Spaces(n: nat): (s: seq<Byte>)
    ensures |s| == n
  {
    seq(n, _ => SP)
  }

  /** A printed cell: padding in front, a delimiter behind. */
  function PrintCell(pad: nat, text: seq<Byte>, delim: Byte): seq<Byte> {
    Spaces(pad) + (text + [delim])
  }

  /** A row with the extra spaces in front of its second and third column. */
  datatype Line = Line(row: Row, pad1: nat, pad2: nat)

  predicate Printable(r: Row) {
    && SP !in r.name && r.name != []
    && SP !in r.kind && r.kind != []
    && NL !in r.data && (r.data != [] ==> r.data[0] != SP)
  }

  predicate AllPrintable(ls: seq<Line>) {
    forall i :: 0 <= i < |ls| ==> Printable(ls[i].row)
  }

  function PrintLine(l: Line): (s: seq<Byte>) {
    PrintCell(0, l.row.name, SP) + (PrintCell(l.pad1, l.row.kind, SP) + PrintCell(l.pad2, l.row.data, NL))
  }

  function PrintLines(ls: seq<Line>): seq<Byte> {
    if ls == [] then [] else PrintLine(ls[0]) + PrintLines(ls[1..])
  }

  /** The bytes of a plain text. */
  function Ascii(s: string): (b: seq<Byte>)
    requires forall i :: 0 <= i < |s| ==> s[i] < 128 as char
    ensures |b| == |s| && Text(b) == s
  {
    var b: seq<Byte> := seq(|s|, i requires 0 <= i < |s| => s[i] as int);
    assert Text(b) == s;
    b
  }

  /** The header line and the column line. The kind is any number in any way to write it; `rest`
      are the four fields behind it. */
  datatype FileHead = FileHead(kid: seq<Byte>, kind: IntText, rest: seq<seq<Byte>>, snaptime: seq<Byte>,
                               pad0: nat, pad1: nat, pad2: nat)

  function KindBytes(t: IntText): (b: seq<Byte>)
    ensures Text(b) == PrintInt(t) && SP !in b
  {
    PrintIntChars(t);
    var b := Ascii(PrintInt(t));
    assert forall i :: 0 <= i < |b| ==> Text(b)[i] == b[i] as char;
    b
  }

  function PrintFields(fs: seq<seq<Byte>>): seq<Byte> {
    if fs == [] then [] else fs[0] + [SP] + PrintFields(fs[1..])
  }

  predicate HeadOk(h: FileHead) {
    && SP !in h.kid && NL !in h.snaptime
    && |h.rest| == 4 && (forall i :: 0 <= i < 4 ==> SP !in h.rest[i])
  }

  /** The kinds of a header that is read: 32-bit integers that are 1 in their last eight bits. */
  predicate KindRead(t: IntText) {
    -0x8000_0000 <= IntOf(t) <= 0x7FFF_FFFF && IntOf(t) % 256 == 1
  }

  function PrintColumns(h: FileHead): seq<Byte> {
    PrintCell(h.pad0, Ascii("name"), SP)
    + (PrintCell(h.pad1, Ascii("type"), SP) + PrintCell(h.pad2, Ascii("data"), NL))
  }

  function PrintHeader(h: FileHead): seq<Byte> {
    h.kid + [SP] + (KindBytes(h.kind) + [SP] + (PrintFields(h.rest) + (h.snaptime + [NL])))
  }

  function PrintFile(h: FileHead, ls: seq<Line>): seq<Byte> {
    PrintHeader(h) + (PrintColumns(h) + PrintLines(ls))
  }

  // ---- Reading what was printed -----------------------------------------------

  lemma {:induction false} FindText(D: seq<Byte>, p: nat, text: seq<Byte>, b: Byte)
    requires At(D, p, text + [b]) && b !in text
    ensures p + |text| < |D| && Find(D, p, b) == p + |text|
    decreases |text|
  {
    AtSplit(D, p, text, [b]);
    AtSlice(D, p + |text|, [b]);
    if text != [] {
      assert text + [b] == [text[0]] + (text[1..] + [b]);
      AtSplit(D, p, [text[0]], text[1..] + [b]);
      AtSlice(D, p, [text[0]]);
      FindText(D, p + 1, text[1..], b);
    }
  }

  lemma UntilText(D: seq<Byte>, p: nat, text: seq<Byte>, b: Byte)
    requires At(D, p, text + [b]) && b !in text
    ensures p <= |D| && Until(D, p, b) == Cell(text, p + |text| + 1)
  {
    hide Find;
    FindText(D, p, text, b);
    AtSplit(D, p, text, [b]);
    AtSlice(D, p, text);
  }

  lemma {:induction false} FindOtherSpaces(D: seq<Byte>, p: nat, n: nat)
    requires At(D, p, Spaces(n)) && p + n < |D| && D[p + n] != SP
    ensures FindOther(D, p, SP) == p + n
    decreases n
  {
    if n > 0 {
      assert Spaces(n) == [SP] + Spaces(n - 1);
      AtSplit(D, p, [SP], Spaces(n - 1));
      AtSlice(D, p, [SP]);
      FindOtherSpaces(D, p + 1, n - 1);
    }
  }

  lemma CellText(D: seq<Byte>, p: nat, pad: nat, text: seq<Byte>, b: Byte)
    requires At(D, p, PrintCell(pad, text, b)) && b !in text
    requires if text != [] then text[0] != SP else b != SP
    ensures p <= |D| && Column(D, p, b) == Cell(text, p + |PrintCell(pad, text, b)|)
  {
    hide Until, FindOther;
    AtSplit(D, p, Spaces(pad), text + [b]);
    UntilText(D, p + pad, text, b);
    AtSlice(D, p + pad, text + [b]);
    assert D[p + pad] == (text + [b])[0];
    FindOtherSpaces(D, p, pad);
  }

  lemma RowOfLine(D: seq<Byte>, p: nat, l: Line)
    requires Printable(l.row) && At(D, p, PrintLine(l))
    ensures p <= |D| && RowAt(D, p) == Found(l.row, p + |PrintLine(l)|)
  {
    hide Column, At;
    var (a, b, c) := (PrintCell(0, l.row.name, SP), PrintCell(l.pad1, l.row.kind, SP), PrintCell(l.pad2, l.row.data, NL));
    AtSplit3(D, p, a, b, c);
    CellText(D, p, 0, l.row.name, SP);
    CellText(D, p + |a|, l.pad1, l.row.kind, SP);
    CellText(D, p + |a| + |b|, l.pad2, l.row.data, NL);
  }

  function Rows(ls: seq<Line>): seq<Row> {
    seq(|ls|, i requires 0 <= i < |ls| => ls[i].row)
  }

  function RowsOf(ps: seq<Placed>): seq<Row> {
    seq(|ps|, i requires 0 <= i < |ps| => ps[i].row)
  }

  lemma {:induction false} ReadLines(D: seq<Byte>, p: nat, ls: seq<Line>)
    requires p > 0 && AllPrintable(ls) && At(D, p, PrintLines(ls)) && p + |PrintLines(ls)| == |D|
    ensures ReadAll(D, p).clean && RowsOf(ReadAll(D, p).rows) == Rows(ls)
    decreases |ls|
  {
    hide RowAt, At, PrintLine, Printable;
    if ls == [] {
      assert RowAt(D, p) == Eof;
    } else {
      AtSplitAs(D, p, PrintLines(ls), PrintLine(ls[0]), PrintLines(ls[1..]));
      RowOfLine(D, p, ls[0]);
      var q := p + |PrintLine(ls[0])|;
      ReadLines(D, q, ls[1..]);
      var rest := ReadAll(D, q).rows;
      assert ReadAll(D, p).rows == [Placed(ls[0].row, q)] + rest;
      assert RowsOf(ReadAll(D, p).rows) == [ls[0].row] + RowsOf(rest);
      assert Rows(ls) == [ls[0].row] + Rows(ls[1..]);
    }
  }

  lemma {:induction false} FieldsOfPrint(D: seq<Byte>, p: nat, fs: seq<seq<Byte>>)
    requires At(D, p, PrintFields(fs)) && forall i :: 0 <= i < |fs| ==> SP !in fs[i]
    ensures p <= |D| && FieldsEnd(D, p, |fs|) == Some(p + |PrintFields(fs)|)
    decreases |fs|
  {
    hide Until;
    if fs != [] {
      AtSplitAs(D, p, PrintFields(fs), fs[0] + [SP], PrintFields(fs[1..]));
      UntilText(D, p, fs[0], SP);
      FieldsOfPrint(D, p + |fs[0]| + 1, fs[1..]);
    }
  }

  lemma HeaderOfPrint(D: seq<Byte>, h: FileHead)
    requires HeadOk(h) && At(D, 0, PrintHeader(h))
    ensures HeaderLineAt(D) == if -0x8000_0000 <= IntOf(h.kind) <= 0x7FFF_FFFF
                               then HeaderLine(IntOf(h.kind), |PrintHeader(h)|) else BadHeader
  {
    hide Until, FieldsEnd, At, PrintFields, KindBytes, ParseInt32, PrintInt, IntOf;
    var kind := KindBytes(h.kind);
    ParseInt32OfPrint(h.kind);
    var tail := PrintFields(h.rest) + (h.snaptime + [NL]);
    AtSplit3(D, 0, h.kid + [SP], kind + [SP], tail);
    var q := |h.kid| + 1 + |kind| + 1;
    AtSplit(D, q, PrintFields(h.rest), h.snaptime + [NL]);
    UntilText(D, 0, h.kid, SP);
    UntilText(D, |h.kid| + 1, kind, SP);
    FieldsOfPrint(D, q, h.rest);
    UntilText(D, q + |PrintFields(h.rest)|, h.snaptime, NL);
  }

  lemma ColumnsOfPrint(D: seq<Byte>, p: nat, h: FileHead)
    requires At(D, p, PrintColumns(h))
    ensures p <= |D| && ColumnsAt(D, p) == Some(p + |PrintColumns(h)|)
  {
    hide Column, At;
    var (a, b, c) := (PrintCell(h.pad0, Ascii("name"), SP), PrintCell(h.pad1, Ascii("type"), SP),
                      PrintCell(h.pad2, Ascii("data"), NL));
    AtSplit3(D, p, a, b, c);
    assert Ascii("name") == [110, 97, 109, 101] && Ascii("type") == [116, 121, 112, 101];
    assert Ascii("data") == [100, 97, 116, 97];
    CellText(D, p, h.pad0, Ascii("name"), SP);
    CellText(D, p + |a|, h.pad1, Ascii("type"), SP);
    CellText(D, p + |a| + |b|, h.pad2, Ascii("data"), NL);
  }

  /** A printed file is read exactly when its kind is a 32-bit integer that is 1 modulo 256; then
      the reader yields the printed rows in order and `io.EOF` behind them. */
  lemma PrintedFile(h: FileHead, ls: seq<Line>)
    requires HeadOk(h) && AllPrintable(ls)
    ensures var r := ReadAll(PrintFile(h, ls), 0);
      if KindRead(h.kind)
      then r.clean && RowsOf(r.rows) == Rows(ls)
      else r == AllRows([], false)
  {
    hide HeaderLineAt, ColumnsAt, RowAt, At, PrintHeader, PrintColumns, PrintLines, IntOf;
    var D := PrintFile(h, ls);
    Whole(D);
    AtSplit3(D, 0, PrintHeader(h), PrintColumns(h), PrintLines(ls));
    HeaderOfPrint(D, h);
    ColumnsOfPrint(D, |PrintHeader(h)|, h);
    if KindRead(h.kind) {
      ReadFromStart(D);
      ReadLines(D, Start(D).value, ls);
    }
  }

  lemma Whole(D: seq<Byte>)
    ensures At(D, 0, D)
  {
  }
}
