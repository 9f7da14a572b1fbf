/**
 Filling the six counters of a dataset from its kstat file.
 */
module KStatProps {
  import opened Basics
  import opened Decimal
  import opened DatasetProps
  import opened KStat
  import opened KStatTheorems

  // ---- The run over a file ----------------------------------------------------

  /** Apply one row. */
  function Counted(row: Row, acc: Props): Result<Props> {
    match CounterNamed(Text(row.name))
    case None => Ok(acc)
    case Some(f) =>
      match ParseUint64(Text(row.data))
      case Err(e) => Err(e)
      case Ok(n) => Ok(Set(acc, f, n))
  }

  function KStatRun(D: seq<Byte>, p: nat, acc: Props): Result<Props>
    requires p <= |D|
    decreases |D| - p
  {
    match NextRow(D, p)
    case Eof => Ok(acc)
    case Broken(e) => Err(e)
    case Found(row, next) =>
      match Counted(row, acc)
      case Err(e) => Err(e)
      case Ok(a) => KStatRun(D, next, a)
  }

  method ParseKStat(d: PropsObject, r: KStatReader) returns (e: Result<()>)
    requires r.Valid()
    modifies d, r
    ensures match KStatRun(r.Data, old(r.pos), old(d.Snapshot()))
            case Ok(p) => e == Ok(()) && d.Snapshot() == p
            case Err(x) => e == Err(x)
  {
    hide NextRow, CounterNamed, Set, ParseUint64;
    while true
      invariant r.Valid() && KStatRun(r.Data, r.pos, d.Snapshot()) == KStatRun(r.Data, old(r.pos), old(d.Snapshot()))
      decreases |r.Data| - r.pos
    {
      var name := r.Next();
      match name {
        case AtEof => return Ok(());
        case Failed(x) => return Err(x);
        case RowName(_) =>
      }
      if CounterNamed(name.name).Some? {
        var n := r.RowDataAsUInt64();
        if n.Err? { return Err(n.error); }
        d.StoreCounter(name.name, n.value);
      }
    }
    assert false;
  }

  // ---- What rows say ----------------------------------------------------------

  function CountersOf(rows: seq<Row>, acc: Props): Result<Props> {
    if rows == [] then Ok(acc) else
    match Counted(rows[0], acc)
    case Err(e) => Err(e)
    case Ok(a) => CountersOf(rows[1..], a)
  }

  /** The run is a fold over the rows; it succeeds only if the reader ends with `io.EOF`. */
  lemma {:induction false} RunIsFold(D: seq<Byte>, p: nat, acc: Props)
    requires p <= |D|
    ensures KStatRun(D, p, acc).Ok? <==> ReadAll(D, p).clean && CountersOf(RowsOf(ReadAll(D, p).rows), acc).Ok?
    ensures KStatRun(D, p, acc).Ok? ==> KStatRun(D, p, acc) == CountersOf(RowsOf(ReadAll(D, p).rows), acc)
    decreases |D| - p
  {
    hide NextRow, Counted;
    var s := NextRow(D, p);
    if s.Found? {
      var rest := ReadAll(D, s.next);
      var rows := RowsOf(ReadAll(D, p).rows);
      assert ReadAll(D, p).rows == [Placed(s.row, s.next)] + rest.rows;
      assert rows == [s.row] + RowsOf(rest.rows);
      assert rows[1..] == RowsOf(rest.rows);
      if Counted(s.row, acc).Ok? {
        RunIsFold(D, s.next, Counted(s.row, acc).value);
      }
    }
  }

  /** The rows of counters hold numbers. */
  predicate CountersParse(rows: seq<Row>) {
    forall i :: 0 <= i < |rows| && CounterNamed(Text(rows[i].name)).Some? ==> ParseUint64(Text(rows[i].data)).Ok?
  }

  /** The number in the last row of a counter. */
  function LastCount(rows: seq<Row>, f: Field): Option<nat> {
    if rows == [] then None else
    var row := rows[|rows| - 1];
    if CounterNamed(Text(row.name)) == Some(f) && ParseUint64(Text(row.data)).Ok?
    then Some(ParseUint64(Text(row.data)).value)
    else LastCount(rows[..|rows| - 1], f)
  }

  lemma {:induction false} CountersSnoc(rows: seq<Row>, row: Row, acc: Props)
    ensures CountersOf(rows + [row], acc) ==
            match CountersOf(rows, acc) case Err(e) => Err(e) case Ok(a) => Counted(row, a)
  {
    hide Counted;
    if rows == [] {
      assert rows + [row] == [row];
      assert [row][1..] == [];
    } else {
      assert (rows + [row])[1..] == rows[1..] + [row];
      if Counted(rows[0], acc).Ok? {
        CountersSnoc(rows[1..], row, Counted(rows[0], acc).value);
      }
    }
  }

  /** Counting succeeds exactly when all counter rows hold numbers; then each field is that of
      its last row, whatever rows stand around it. */
  lemma {:induction false} CountersAreLast(rows: seq<Row>, acc: Props, f: Field)
    ensures CountersOf(rows, acc).Ok? <==> CountersParse(rows)
    ensures CountersParse(rows) ==>
      Get(CountersOf(rows, acc).value, f) ==
      if LastCount(rows, f).Some? then LastCount(rows, f).value else Get(acc, f)
  {
    hide CounterNamed, ParseUint64, Get, Set;
    if rows != [] {
      var (init, row) := (rows[..|rows| - 1], rows[|rows| - 1]);
      assert rows == init + [row];
      CountersSnoc(init, row, acc);
      CountersAreLast(init, acc, f);
      assert CountersParse(rows) <==>
        CountersParse(init) && (CounterNamed(Text(row.name)).Some? ==> ParseUint64(Text(row.data)).Ok?);
      if CountersParse(rows) && CounterNamed(Text(row.name)).Some? {
        GetAfterSet(CountersOf(init, acc).value, CounterNamed(Text(row.name)).value,
                    ParseUint64(Text(row.data)).value, f);
      }
    }
  }

  // ---- Which field each row reaches -------------------------------------------

  /** The number in the last row with a name. */
  function LastRow(rows: seq<Row>, name: string): Option<int> {
    if rows == [] then None else
    var row := rows[|rows| - 1];
    if Text(row.name) == name && ParseUint64(Text(row.data)).Ok?
    then Some(ParseUint64(Text(row.data)).value)
    else LastRow(rows[..|rows| - 1], name)
  }

  lemma CounterNamesInjective(a: string, b: string)
    requires CounterNamed(a).Some? && CounterNamed(a) == CounterNamed(b)
    ensures a == b
  {
  }

  lemma {:induction false} LastCountIs(rows: seq<Row>, name: string, f: Field)
    requires CounterNamed(name) == Some(f)
    ensures LastRow(rows, name).Some? <==> LastCount(rows, f).Some?
    ensures LastCount(rows, f).Some? ==> LastRow(rows, name).value == LastCount(rows, f).value
    decreases |rows|
  {
    hide CounterNamed, ParseUint64;
    if rows != [] {
      LastCountIs(rows[..|rows| - 1], name, f);
      var n := Text(rows[|rows| - 1].name);
      if CounterNamed(n) == Some(f) {
        CounterNamesInjective(n, name);
      }
    }
  }

  lemma CounterField(rows: seq<Row>, acc: Props, name: string, f: Field)
    requires CountersParse(rows) && CounterNamed(name) == Some(f)
    ensures CountersOf(rows, acc).Ok? && Get(CountersOf(rows, acc).value, f) == NumOr(LastRow(rows, name), Get(acc, f))
  {
    hide CounterNamed, CountersParse, CountersOf, LastCount, LastRow, Get;
    CountersAreLast(rows, acc, f);
    LastCountIs(rows, name, f);
  }

  lemma {:induction false} NotACounter(rows: seq<Row>, f: Field)
    requires f !in {Writes, NWritten, Reads, NRead, NUnlinks, NUnlinked}
    ensures LastCount(rows, f) == None
    decreases |rows|
  {
    hide ParseUint64;
    if rows != [] {
      NotACounter(rows[..|rows| - 1], f);
    }
  }

  lemma OtherField(rows: seq<Row>, acc: Props, f: Field)
    requires CountersParse(rows) && f !in {Writes, NWritten, Reads, NRead, NUnlinks, NUnlinked}
    ensures CountersOf(rows, acc).Ok? && Get(CountersOf(rows, acc).value, f) == Get(acc, f)
  {
    hide CountersParse, CountersOf, LastCount, Get;
    NotACounter(rows, f);
    CountersAreLast(rows, acc, f);
  }

  /** The counters that these rows give, field by field. */
  predicate CountersAre(p: Props, rows: seq<Row>, acc: Props) {
    && p.writes == NumOr(LastRow(rows, "writes"), acc.writes)
    && p.nwritten == NumOr(LastRow(rows, "nwritten"), acc.nwritten)
    && p.readOps == NumOr(LastRow(rows, "reads"), acc.readOps)
    && p.nread == NumOr(LastRow(rows, "nread"), acc.nread)
    && p.nunlinks == NumOr(LastRow(rows, "nunlinks"), acc.nunlinks)
    && p.nunlinked == NumOr(LastRow(rows, "nunlinked"), acc.nunlinked)
  }

  predicate SameProps(p: Props, q: Props) {
    && p.objsetid == q.objsetid && p.available == q.available && p.compressratio == q.compressratio
    && p.used == q.used && p.usedbychildren == q.usedbychildren && p.usedbydataset == q.usedbydataset
    && p.usedbyrefreservation == q.usedbyrefreservation && p.usedbysnapshots == q.usedbysnapshots
    && p.referenced == q.referenced && p.refcompressratio == q.refcompressratio
    && p.logicalreferenced == q.logicalreferenced && p.logicalused == q.logicalused
  }

  lemma CounterNames()
    ensures CounterNamed("writes") == Some(Writes) && CounterNamed("nwritten") == Some(NWritten)
    ensures CounterNamed("reads") == Some(Reads) && CounterNamed("nread") == Some(NRead)
    ensures CounterNamed("nunlinks") == Some(NUnlinks) && CounterNamed("nunlinked") == Some(NUnlinked)
  {
  }

  /** Each of the six row names sets its own counter to its last number, and no property changes. */
  lemma CounterFields(rows: seq<Row>, acc: Props)
    requires CountersParse(rows)
    ensures CountersOf(rows, acc).Ok? && CountersAre(CountersOf(rows, acc).value, rows, acc)
    ensures SameProps(CountersOf(rows, acc).value, acc)
  {
    CounterNames();
    hide CounterNamed, CountersParse, CountersOf, LastRow;
    CounterField(rows, acc, "writes", Writes);
    CounterField(rows, acc, "nwritten", NWritten);
    CounterField(rows, acc, "reads", Reads);
    CounterField(rows, acc, "nread", NRead);
    CounterField(rows, acc, "nunlinks", NUnlinks);
    CounterField(rows, acc, "nunlinked", NUnlinked);
    OtherField(rows, acc, ObjsetId);
    OtherField(rows, acc, Available);
    OtherField(rows, acc, CompressRatio);
    OtherField(rows, acc, Used);
    OtherField(rows, acc, UsedByChildren);
    OtherField(rows, acc, UsedByDataset);
    OtherField(rows, acc, UsedByRefReservation);
    OtherField(rows, acc, UsedBySnapshots);
    OtherField(rows, acc, Referenced);
    OtherField(rows, acc, RefCompressRatio);
    OtherField(rows, acc, LogicalReferenced);
    OtherField(rows, acc, LogicalUsed);
  }

  // ---- Printed counters -------------------------------------------------------

  /** A printed row whose data is the decimal text of `n`. */
  predicate Shows(row: Row, f: Field, n: nat) {
    CounterNamed(Text(row.name)) == Some(f) && Text(row.data) == Dec(n)
  }

  /** Printing a kstat file and parsing it gives back each counter: the last row printed for
      it decides, for every value of 64 bits and every order of rows. */
  lemma KStatRoundTrip(h: FileHead, ls: seq<Line>, acc: Props, i: nat, f: Field, n: nat)
    requires HeadOk(h) && KindRead(h.kind) && AllPrintable(ls)
    requires forall j :: 0 <= j < |ls| && CounterNamed(Text(ls[j].row.name)).Some? ==>
      ParseUint64(Text(ls[j].row.data)).Ok?
    requires i < |ls| && Shows(ls[i].row, f, n) && n <= MAX_UINT64
    requires forall j :: i < j < |ls| ==> CounterNamed(Text(ls[j].row.name)) != Some(f)
    ensures KStatRun(PrintFile(h, ls), 0, acc).Ok?
    ensures Get(KStatRun(PrintFile(h, ls), 0, acc).value, f) == n
  {
    hide CounterNamed, ParseUint64, Get, KStatRun, CountersOf, PrintFile, ReadAll, Printable, HeadOk, KindRead;
    var rows := Rows(ls);
    PrintedFile(h, ls);
    RunIsFold(PrintFile(h, ls), 0, acc);
    CountersAreLast(rows, acc, f);
    ParseInvertsDec(n);
    LastIsAt(rows, i, f);
  }

  /** A field without a row keeps its value. */
  lemma KStatKeepsOthers(h: FileHead, ls: seq<Line>, acc: Props, f: Field)
    requires HeadOk(h) && AllPrintable(ls)
    requires forall j :: 0 <= j < |ls| ==> CounterNamed(Text(ls[j].row.name)) != Some(f)
    ensures var r := KStatRun(PrintFile(h, ls), 0, acc);
      r.Ok? ==> Get(r.value, f) == Get(acc, f)
  {
    hide CounterNamed, ParseUint64, Get, KStatRun, CountersOf, PrintFile, ReadAll, Printable, HeadOk, KindRead;
    PrintedFile(h, ls);
    RunIsFold(PrintFile(h, ls), 0, acc);
    CountersAreLast(Rows(ls), acc, f);
    NoLast(Rows(ls), f);
  }

  lemma {:induction false} LastIsAt(rows: seq<Row>, i: nat, f: Field)
    requires i < |rows| && CounterNamed(Text(rows[i].name)) == Some(f) && ParseUint64(Text(rows[i].data)).Ok?
    requires forall j :: i < j < |rows| ==> CounterNamed(Text(rows[j].name)) != Some(f)
    ensures LastCount(rows, f) == Some(ParseUint64(Text(rows[i].data)).value)
    decreases |rows|
  {
    hide CounterNamed, ParseUint64;
    if i < |rows| - 1 {
      LastIsAt(rows[..|rows| - 1], i, f);
    }
  }

  lemma {:induction false} NoLast(rows: seq<Row>, f: Field)
    requires forall j :: 0 <= j < |rows| ==> CounterNamed(Text(rows[j].name)) != Some(f)
    ensures LastCount(rows, f) == None
  {
    hide CounterNamed, ParseUint64;
    if rows != [] {
      NoLast(rows[..|rows| - 1], f);
    }
  }
}
