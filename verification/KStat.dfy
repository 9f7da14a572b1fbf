/**
 The text reader for kstat files: a header line, a line of column names, then one row a
 line with three columns that are separated by spaces.
 */
module KStat {
  import opened Basics
  import opened Decimal

  const SP: Byte := 32
  const NL: Byte := 10

  // ---- What stands where ------------------------------------------------------

  /** The first offset from `p` on that holds `b`, or the length of the buffer. */
  function Find(D: seq<Byte>, p: nat, b: Byte): (q: nat)
    requires p <= |D|
    ensures p <= q <= |D| && b !in D[p..q] && (q < |D| ==> D[q] == b)
    decreases |D| - p
  {
    if p == |D| || D[p] == b then p else
      var q := Find(D, p + 1, b);
      assert D[p..q] == [D[p]] + D[p + 1..q];
      q
  }

  /** The first offset from `p` on that does not hold `b`, or the length of the buffer. */
  function FindOther(D: seq<Byte>, p: nat, b: Byte): (q: nat)
    requires p <= |D|
    ensures p <= q <= |D| && (q < |D| ==> D[q] != b)
    ensures forall i :: p <= i < q ==> D[i] == b
    decreases |D| - p
  {
    if p == |D| || D[p] != b then p else FindOther(D, p + 1, b)
  }

  /** A field and the offset behind its delimiter. */
  datatype Cell = Cell(text: seq<Byte>, next: nat) | NoCell

  function Until(D: seq<Byte>, p: nat, b: Byte): (c: Cell)
    requires p <= |D|
    ensures c.Cell? ==> p < c.next <= |D|
  {
    var q := Find(D, p, b);
    if q == |D| then NoCell else Cell(D[p..q], q + 1)
  }

  /** A field behind any number of bytes `skip`. */
  function Behind(D: seq<Byte>, p: nat, b: Byte, skip: Byte): (c: Cell)
    requires p <= |D|
    ensures c.Cell? ==> p < c.next <= |D|
  {
    var q := FindOther(D, p, skip);
    if q == |D| then NoCell else Until(D, q, b)
  }

  function Column(D: seq<Byte>, p: nat, b: Byte): (c: Cell)
    requires p <= |D|
    ensures c.Cell? ==> p < c.next <= |D|
  {
    Behind(D, p, b, SP)
  }

  /** The offset behind `n` fields that end in a space. */
  function FieldsEnd(D: seq<Byte>, p: nat, n: nat): (q: Option<nat>)
    requires p <= |D|
    ensures q.Some? ==> p <= q.value <= |D|
    decreases n
  {
    if n == 0 then Some(p) else
    match Until(D, p, SP)
    case NoCell => None
    case Cell(_, next) => FieldsEnd(D, next, n - 1)
  }

  const BAD_HEADER: Error := Rejected("header")
  const BAD_TYPE: Error := Rejected("kstat type")
  const BAD_COLUMNS: Error := Rejected("columns")
  const BAD_ROW: Error := Rejected("row")

  datatype HeaderLine = HeaderLine(kind: int, next: nat) | BadHeader

  /** kid, type, flags, ndata, size and creation time, then the snapshot time. */
  function HeaderLineAt(D: seq<Byte>): (h: HeaderLine)
    ensures h.HeaderLine? ==> 0 < h.next <= |D|
  {
    match Until(D, 0, SP)
    case NoCell => BadHeader
    case Cell(_, p) =>
      match Until(D, p, SP)
      case NoCell => BadHeader
      case Cell(kind, q) =>
        match ParseInt32(Text(kind))
        case Err(_) => BadHeader
        case Ok(t) =>
          match FieldsEnd(D, q, 4)
          case None => BadHeader
          case Some(r) =>
            match Until(D, r, NL)
            case NoCell => BadHeader
            case Cell(_, next) => HeaderLine(t, next)
  }

  /** The offset behind the line of column names. */
  function ColumnsAt(D: seq<Byte>, p: nat): (q: Option<nat>)
    requires p <= |D|
    ensures q.Some? ==> p < q.value <= |D|
  {
    match Column(D, p, SP)
    case NoCell => None
    case Cell(c1, q) =>
      if Text(c1) != "name" then None else
      match Column(D, q, SP)
      case NoCell => None
      case Cell(c2, r) =>
        if Text(c2) != "type" then None else
        match Column(D, r, NL)
        case NoCell => None
        case Cell(c3, s) => if Text(c3) != "data" then None else Some(s)
  }

  /** The offset of the first row. The kind is cut down to eight bits before it is compared. */
  function Start(D: seq<Byte>): (r: Result<nat>)
    ensures r.Ok? ==> 0 < r.value <= |D|
  {
    match HeaderLineAt(D)
    case BadHeader => Err(BAD_HEADER)
    case HeaderLine(kind, p) =>
      if kind % 256 != 1 then Err(BAD_TYPE) else
      match ColumnsAt(D, p)
      case None => Err(BAD_COLUMNS)
      case Some(q) => Ok(q)
  }

  datatype Row = Row(name: seq<Byte>, kind: seq<Byte>, data: seq<Byte>)

  datatype RowStep = Found(row: Row, next: nat) | Eof | Broken(error: Error)

  function RowAt(D: seq<Byte>, p: nat): (s: RowStep)
    requires p <= |D|
    ensures s.Found? ==> p < s.next <= |D|
    ensures s.Eof? <==> p == |D|
  {
    if p == |D| then Eof else
    match Column(D, p, SP)
    case NoCell => Broken(BAD_ROW)
    case Cell(name, q) =>
      match Column(D, q, SP)
      case NoCell => Broken(BAD_ROW)
      case Cell(kind, r) =>
        match Column(D, r, NL)
        case NoCell => Broken(BAD_ROW)
        case Cell(data, s) => Found(Row(name, kind, data), s)
  }

  /** What `Next` finds: at offset 0 it reads the two header lines first. */
  function NextRow(D: seq<Byte>, p: nat): (s: RowStep)
    requires p <= |D|
    ensures s.Found? ==> p < s.next <= |D|
  {
    if p > 0 then RowAt(D, p) else
    match Start(D)
    case Err(e) => Broken(e)
    case Ok(q) => RowAt(D, q)
  }

  // ---- The reader -------------------------------------------------------------

  datatype RowName = RowName(name: string) | AtEof | Failed(error: Error)

  class KStatReader {
    const Data: seq<Byte>
    var pos: nat
    var headerType: nat
    var rowName: string
    var rowType: string
    var rowData: string

    ghost predicate Valid()
      reads this
    {
      pos <= |Data|
    }

    constructor (data: seq<Byte>)
      ensures Data == data && pos == 0 && Valid()
    {
      Data := data;
      pos, headerType, rowName, rowType, rowData := 0, 0, "", "", "";
    }

    method ReadUntilExclude(b: Byte) returns (s: Option<string>)
      requires Valid()
      modifies `pos
      ensures Valid()
      ensures match Until(Data, old(pos), b)
              case NoCell => s == None && pos == old(pos)
              case Cell(text, next) => s == Some(Text(text)) && pos == next
    {
      var p := pos;
      while true
        invariant pos <= p <= |Data| && Find(Data, p, b) == Find(Data, pos, b)
        decreases |Data| - p
      {
        if p >= |Data| { return None; }
        if Data[p] == b { break; }
        p := p + 1;
      }
      var d := Data[pos..p];
      p := p + 1;
      pos := p;
      return Some(Text(d));
    }

    method ReadUntilExcludeIgnoringPrefix(b: Byte, ignorePrefix: Byte) returns (s: Option<string>)
      requires Valid()
      modifies `pos
      ensures Valid() && old(pos) <= pos
      ensures match Behind(Data, old(pos), b, ignorePrefix)
              case NoCell => s == None
              case Cell(text, next) => s == Some(Text(text)) && pos == next
    {
      var p := pos;
      while true
        invariant pos <= p <= |Data| && FindOther(Data, p, ignorePrefix) == FindOther(Data, pos, ignorePrefix)
        decreases |Data| - p
      {
        if p >= |Data| { return None; }
        if Data[p] != ignorePrefix { break; }
        p := p + 1;
      }
      pos := p;
      s := ReadUntilExclude(b);
    }

    method ReadHeader() returns (ok: bool)
      requires Valid() && pos == 0
      modifies `pos, `headerType
      ensures Valid()
      ensures match HeaderLineAt(Data)
              case BadHeader => !ok
              case HeaderLine(kind, next) => ok && pos == next && headerType == kind % 256
    {
      hide Until, ParseInt32;
      var kid := ReadUntilExclude(SP);
      if kid.None? { return false; }
      var kind := ReadUntilExclude(SP);
      if kind.None? { return false; }
      var t := ParseInt32(kind.value);
      if t.Err? { return false; }
      headerType := t.value % 256;
      ghost var p := pos;
      var flags := ReadUntilExclude(SP);
      if flags.None? { return false; }
      var ndata := ReadUntilExclude(SP);
      if ndata.None? { return false; }
      var dataSize := ReadUntilExclude(SP);
      if dataSize.None? { return false; }
      var crTime := ReadUntilExclude(SP);
      if crTime.None? { return false; }
      FourFields(Data, p);
      var snapTime := ReadUntilExclude(NL);
      return snapTime.Some?;
    }

    method ReadColumnHeaders() returns (ok: bool)
      requires Valid()
      modifies `pos
      ensures Valid()
      ensures match ColumnsAt(Data, old(pos)) case None => !ok case Some(q) => ok && pos == q
    {
      var c1 := ReadUntilExcludeIgnoringPrefix(SP, SP);
      if c1.None? || c1.value != "name" { return false; }
      var c2 := ReadUntilExcludeIgnoringPrefix(SP, SP);
      if c2.None? || c2.value != "type" { return false; }
      var c3 := ReadUntilExcludeIgnoringPrefix(NL, SP);
      return c3.Some? && c3.value == "data";
    }

    method Next() returns (r: RowName)
      requires Valid()
      modifies this
      ensures Valid()
      ensures match NextRow(Data, old(pos))
              case Eof => r == AtEof
              case Broken(e) => r == Failed(e)
              case Found(row, next) =>
                && r == RowName(Text(row.name)) && pos == next
                && rowName == Text(row.name) && rowType == Text(row.kind) && rowData == Text(row.data)
    {
      hide HeaderLineAt, ColumnsAt, Behind;
      if pos == 0 {
        var ok := ReadHeader();
        if !ok { return Failed(BAD_HEADER); }
        if headerType != 1 { return Failed(BAD_TYPE); }
        ok := ReadColumnHeaders();
        if !ok { return Failed(BAD_COLUMNS); }
      }
      if pos == |Data| { return AtEof; }
      var name := ReadUntilExcludeIgnoringPrefix(SP, SP);
      if name.None? { return Failed(BAD_ROW); }
      rowName := name.value;
      var kind := ReadUntilExcludeIgnoringPrefix(SP, SP);
      if kind.None? { return Failed(BAD_ROW); }
      rowType := kind.value;
      var data := ReadUntilExcludeIgnoringPrefix(NL, SP);
      if data.None? { return Failed(BAD_ROW); }
      rowData := data.value;
      return RowName(rowName);
    }

    method RowDataAsUInt64() returns (n: Result<nat>)
      ensures n == ParseUint64(rowData)
    {
      return ParseUint64(rowData);
    }
  }

  lemma FourFields(D: seq<Byte>, p: nat)
    requires p <= |D|
    ensures FieldsEnd(D, p, 4) ==
      match Until(D, p, SP)
      case NoCell => None
      case Cell(_, a) =>
        match Until(D, a, SP)
        case NoCell => None
        case Cell(_, b) =>
          match Until(D, b, SP)
          case NoCell => None
          case Cell(_, c) =>
            match Until(D, c, SP)
            case NoCell => None
            case Cell(_, d) => Some(d)
  {
    hide Until;
    match Until(D, p, SP)
    case NoCell =>
    case Cell(_, a) =>
      match Until(D, a, SP)
      case NoCell =>
      case Cell(_, b) => assert FieldsEnd(D, b, 1) == match Until(D, b, SP) case NoCell => None case Cell(_, c) => Some(c);
  }
}
