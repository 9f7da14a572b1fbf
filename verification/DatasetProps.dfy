/**
 The properties of a dataset: decoding the property lists of a reply into the fields of
 one object.
 */
module DatasetProps {
  import opened Basics
  import opened NvFormat
  import opened NvEncode
  import opened NvRuns
  import opened NvTheorems
  import opened NvRoundTrip
  import opened NvReader

  datatype Field =
    | ObjsetId | Available | CompressRatio | Used | UsedByChildren | UsedByDataset |
    UsedByRefReservation | UsedBySnapshots | Referenced | RefCompressRatio | LogicalReferenced |
    LogicalUsed | Writes | NWritten | Reads | NRead | NUnlinks | NUnlinked

  datatype Props = Props(
    objsetid: int, available: int, compressratio: int, used: int, usedbychildren: int,
    usedbydataset: int, usedbyrefreservation: int, usedbysnapshots: int, referenced: int,
    refcompressratio: int, logicalreferenced: int, logicalused: int, writes: int, nwritten: int,
    readOps: int, nread: int, nunlinks: int, nunlinked: int)

  const NO_PROPS := Props(0, 0, 0, 0, 0, 0, 0, 0, 0, 0, 0, 0, 0, 0, 0, 0, 0, 0)

  /** The dataset property with this name, if it is one that is read. */
  function PropNamed(name: string): Option<Field> {
    match name
    case "objsetid" => Some(ObjsetId)
    case "available" => Some(Available)
    case "compressratio" => Some(CompressRatio)
    case "used" => Some(Used)
    case "usedbychildren" => Some(UsedByChildren)
    case "usedbydataset" => Some(UsedByDataset)
    case "usedbyrefreservation" => Some(UsedByRefReservation)
    case "usedbysnapshots" => Some(UsedBySnapshots)
    case "referenced" => Some(Referenced)
    case "refcompressratio" => Some(RefCompressRatio)
    case "logicalreferenced" => Some(LogicalReferenced)
    case "logicalused" => Some(LogicalUsed)
    case _ => None
  }

  /** The counter of the kstat row with this name, if it is one that is read. */
  function CounterNamed(name: string): Option<Field> {
    match name
    case "writes" => Some(Writes)
    case "nwritten" => Some(NWritten)
    case "reads" => Some(Reads)
    case "nread" => Some(NRead)
    case "nunlinks" => Some(NUnlinks)
    case "nunlinked" => Some(NUnlinked)
    case _ => None
  }

  function Get(p: Props, f: Field): int {
    match f
    case ObjsetId => p.objsetid
    case Available => p.available
    case CompressRatio => p.compressratio
    case Used => p.used
    case UsedByChildren => p.usedbychildren
    case UsedByDataset => p.usedbydataset
    case UsedByRefReservation => p.usedbyrefreservation
    case UsedBySnapshots => p.usedbysnapshots
    case Referenced => p.referenced
    case RefCompressRatio => p.refcompressratio
    case LogicalReferenced => p.logicalreferenced
    case LogicalUsed => p.logicalused
    case Writes => p.writes
    case NWritten => p.nwritten
    case Reads => p.readOps
    case NRead => p.nread
    case NUnlinks => p.nunlinks
    case NUnlinked => p.nunlinked
  }

  function Set(p: Props, f: Field, v: int): Props {
    match f
    case ObjsetId => p.(objsetid := v)
    case Available => p.(available := v)
    case CompressRatio => p.(compressratio := v)
    case Used => p.(used := v)
    case UsedByChildren => p.(usedbychildren := v)
    case UsedByDataset => p.(usedbydataset := v)
    case UsedByRefReservation => p.(usedbyrefreservation := v)
    case UsedBySnapshots => p.(usedbysnapshots := v)
    case Referenced => p.(referenced := v)
    case RefCompressRatio => p.(refcompressratio := v)
    case LogicalReferenced => p.(logicalreferenced := v)
    case LogicalUsed => p.(logicalused := v)
    case Writes => p.(writes := v)
    case NWritten => p.(nwritten := v)
    case Reads => p.(readOps := v)
    case NRead => p.(nread := v)
    case NUnlinks => p.(nunlinks := v)
    case NUnlinked => p.(nunlinked := v)
  }

  /** Writing a field changes that field and no other. */
  lemma GetAfterSet(p: Props, f: Field, v: int, other: Field)
    ensures Get(Set(p, f, v), other) == if other == f then v else Get(p, other)
  {
  }

  lemma NamesInjective(a: string, b: string)
    requires PropNamed(a).Some? && PropNamed(a) == PropNamed(b)
    ensures a == b
  {
  }

  // ---- Runs over a buffer -----------------------------------------------------

  /** The inner list of one property. Lists nested in it are not skipped. */
  function ValueList(D: seq<Byte>, c: Cursor, prop: string, acc: Props): (r: Result<(Props, Cursor)>)
    ensures r.Ok? ==> c.pos < r.value.1.pos < |D|
    decreases |D| - c.pos
  {
    var s := NextAt(D, c);
    match s
    case Bad(e) => Err(e)
    case End(next) => Ok((acc, next))
    case Pair(tok, name, _, _, _, next) =>
      if Text(name) == "value" && PropNamed(prop).Some? then
        match NumberAt(D, s, prop)
        case Err(e) => Err(e)
        case Ok(n) => ValueList(D, next, prop, Set(acc, PropNamed(prop).value, n))
      else ValueList(D, next, prop, acc)
  }

  function NumberAt(D: seq<Byte>, s: Step, prop: string): Result<int>
    requires s.Pair?
  {
    if s.tok != UINT64 then Err(Rejected("invalid type for " + prop))
    else WordAt(D, s.dataPos, s.dataLen, 8, false)
  }

  function PropsList(D: seq<Byte>, c: Cursor, acc: Props): (r: Result<(Props, Cursor)>)
    ensures r.Ok? ==> c.pos < r.value.1.pos < |D|
    decreases |D| - c.pos
  {
    match NextAt(D, c)
    case Bad(e) => Err(e)
    case End(next) => Ok((acc, next))
    case Pair(tok, name, _, _, _, next) =>
      if tok != NVLIST then Err(Rejected("expected nvlist")) else
      match ValueList(D, next, Text(name), acc)
      case Err(e) => Err(e)
      case Ok(x) => PropsList(D, x.1, x.0)
  }

  // ---- The object and its parsers ---------------------------------------------

  class PropsObject {
    var objsetid: int
    var available: int
    var compressratio: int
    var used: int
    var usedbychildren: int
    var usedbydataset: int
    var usedbyrefreservation: int
    var usedbysnapshots: int
    var referenced: int
    var refcompressratio: int
    var logicalreferenced: int
    var logicalused: int
    var writes: int
    var nwritten: int
    var readOps: int
    var nread: int
    var nunlinks: int
    var nunlinked: int

    function Snapshot(): Props
      reads this
    {
      Props(objsetid, available, compressratio, used, usedbychildren, usedbydataset,
      usedbyrefreservation, usedbysnapshots, referenced, refcompressratio, logicalreferenced,
      logicalused, writes, nwritten, readOps, nread, nunlinks, nunlinked)
    }

    constructor ()
      ensures Snapshot() == NO_PROPS
    {
      objsetid, available, compressratio, used, usedbychildren, usedbydataset,
      usedbyrefreservation, usedbysnapshots, referenced, refcompressratio, logicalreferenced,
      logicalused := 0, 0, 0, 0, 0, 0, 0, 0, 0, 0, 0, 0;
      writes, nwritten, readOps, nread, nunlinks, nunlinked := 0, 0, 0, 0, 0, 0;
    }

    /** The assignment that the name selects. */
    method StoreProp(prop: string, v: int)
      requires PropNamed(prop).Some?
      modifies this
      ensures Snapshot() == Set(old(Snapshot()), PropNamed(prop).value, v)
    {
      match prop {
        case "objsetid" => objsetid := v;
        case "available" => available := v;
        case "compressratio" => compressratio := v;
        case "used" => used := v;
        case "usedbychildren" => usedbychildren := v;
        case "usedbydataset" => usedbydataset := v;
        case "usedbyrefreservation" => usedbyrefreservation := v;
        case "usedbysnapshots" => usedbysnapshots := v;
        case "referenced" => referenced := v;
        case "refcompressratio" => refcompressratio := v;
        case "logicalreferenced" => logicalreferenced := v;
        case _ => logicalused := v;
      }
    }

    method StoreCounter(row: string, v: int)
      requires CounterNamed(row).Some?
      modifies this
      ensures Snapshot() == Set(old(Snapshot()), CounterNamed(row).value, v)
    {
      match row {
        case "writes" => writes := v;
        case "nwritten" => nwritten := v;
        case "reads" => readOps := v;
        case "nread" => nread := v;
        case "nunlinks" => nunlinks := v;
        case _ => nunlinked := v;
      }
    }

    method ParseValue(r: NVListReader, propName: string) returns (e: Result<()>)
      requires r.Valid()
      modifies this, r
      ensures match ValueList(r.Data, old(r.Here()), propName, old(Snapshot()))
              case Ok(x) => e == Ok(()) && Snapshot() == x.0 && r.Here() == x.1 && r.Valid()
              case Err(x) => e == Err(x)
      ensures e.Ok? ==> old(r.pos) < r.pos < |r.Data|
      ensures r.Frugal(e.Ok?, old(r.calls), old(r.pos))
    {
      hide NextAt, PropNamed, Set;
      while true
        invariant r.Valid() && old(r.pos) <= r.pos && (r.pos > old(r.pos) ==> r.pos < |r.Data|)
        invariant ValueList(r.Data, r.Here(), propName, Snapshot())
                  == ValueList(r.Data, old(r.Here()), propName, old(Snapshot()))
        invariant r.Frugal(true, old(r.calls), old(r.pos))
        decreases |r.Data| - r.pos
      {
        ghost var s := NextAt(r.Data, r.Here());
        var t := r.Next();
        match t {
          case EOF => return Ok(());
          case Error(x) => return Err(x);
          case Token(_) =>
        }
        var token := t.t;
        if r.Name() == "value" && PropNamed(propName).Some? {
          if token != UINT64 { return Err(Rejected("invalid type for " + propName)); }
          var n := r.Scalar(8, false);
          if n.Err? { return Err(n.error); }
          StoreProp(propName, n.value);
        }
      }
      assert false;
    }

    method ParseProps(r: NVListReader) returns (e: Result<()>)
      requires r.Valid()
      modifies this, r
      ensures match PropsList(r.Data, old(r.Here()), old(Snapshot()))
              case Ok(x) => e == Ok(()) && Snapshot() == x.0 && r.Here() == x.1
              case Err(x) => e == Err(x)
      ensures r.Frugal(e.Ok?, old(r.calls), old(r.pos))
    {
      hide NextAt, ValueList;
      while true
        invariant r.Valid() && old(r.pos) <= r.pos && (r.pos > old(r.pos) ==> r.pos < |r.Data|)
        invariant PropsList(r.Data, r.Here(), Snapshot())
                  == PropsList(r.Data, old(r.Here()), old(Snapshot()))
        invariant r.Frugal(true, old(r.calls), old(r.pos))
        decreases |r.Data| - r.pos
      {
        var t := r.Next();
        match t {
          case EOF => return Ok(());
          case Error(x) => return Err(x);
          case Token(_) =>
        }
        if t.t == NVLIST {
          var x := ParseValue(r, r.Name());
          if x.Err? { return x; }
        } else {
          return Err(Rejected("expected nvlist"));
        }
      }
      assert false;
    }
  }

  // ---- What lists say about properties ----------------------------------------

  function NumberIn(val: Val, prop: string): Result<int> {
    if val.Int? && val.w == 8 && !val.signed then Ok(val.n) else Err(Rejected("invalid type for " + prop))
  }

  /** The properties behind one member of a property's list. */
  function MemberOf(name: string, val: Val, prop: string, acc: Props): Result<Props> {
    if name == "value" && PropNamed(prop).Some? then
      match NumberIn(val, prop)
      case Err(e) => Err(e)
      case Ok(n) => Ok(Set(acc, PropNamed(prop).value, n))
    else Ok(acc)
  }

  function ValueOf(l: NvList, prop: string, acc: Props): Result<Props> {
    match l
    case Nil => Ok(acc)
    case Entry(name, val, _, rest) =>
      match MemberOf(Text(name), val, prop, acc)
      case Err(e) => Err(e)
      case Ok(a) => ValueOf(rest, prop, a)
  }

  function PropsOf(l: NvList, acc: Props): Result<Props> {
    match l
    case Nil => Ok(acc)
    case Entry(name, val, _, rest) =>
      match val
      case List(inner) =>
        (match ValueOf(inner, Text(name), acc)
         case Err(e) => Err(e)
         case Ok(a) => PropsOf(rest, a))
      case _ => Err(Rejected("expected nvlist"))
  }

  /** No member holds a list. */
  predicate Flat(l: NvList) {
    match l
    case Nil => true
    case Entry(_, val, _, rest) => !val.List? && (val.Lists? ==> val.ls == NoLists) && Flat(rest)
  }

  predicate InnersFlat(l: NvList) {
    match l
    case Nil => true
    case Entry(_, val, _, rest) => (val.List? ==> Flat(val.l)) && InnersFlat(rest)
  }

  // ---- Decoding an encoding ---------------------------------------------------

  lemma NumberOfEntry(D: seq<Byte>, p: nat, l: NvList, prop: string)
    requires l.Entry? && Encodable(l)
    requires At(D, p + ValueOffset(l.name), ValBytes(l.val))
    requires At(D, p + ValueOffset(l.name), ValBytes(l.val) + l.slack)
    ensures NumberAt(D, EntryStep(p, l.name, l.val, l.slack), prop) == NumberIn(l.val, prop)
  {
    hide WordAt, ValueOffset, At, EntryStep;
    EntryFacts(p, l);
    var q := p + ValueOffset(l.name);
    AtSlice(D, q, ValBytes(l.val) + l.slack);
    match l.val {
      case Int(w, signed, n) =>
        if w == 8 && !signed {
          IntRead(D, q, |ValBytes(l.val)| + |l.slack|, n, w, signed);
        }
      case _ =>
    }
  }

  /** One member of a property's list; the run goes on at once behind its pair. */
  lemma ValueOfEntry(D: seq<Byte>, p: nat, l: NvList, prop: string, acc: Props)
    requires p > 0 && l.Entry? && Encodable(l) && At(D, p, Enc(l)) && p + |Enc(l)| < |D|
    ensures ValueList(D, Cursor(Native, p), prop, acc) ==
      match MemberOf(Text(l.name), l.val, prop, acc)
      case Err(e) => Err(e)
      case Ok(a) => ValueList(D, Cursor(Native, p + PairSize(l.name, l.val, l.slack)), prop, a)
  {
    hide NextAt, NumberAt, NumberIn, Head, At, PairSize, Enc, PropNamed, Set, EntryStep, TypeOf, ValBytes,
         ValueOffset, Encodable;
    EntryParts(D, p, l);
    StepOverEntry(D, p, l);
    EntryFacts(p, l);
    NumberOfEntry(D, p, l, prop);
  }

  lemma ValueOfNil(D: seq<Byte>, p: nat, prop: string, acc: Props)
    requires p > 0 && At(D, p, Enc(Nil)) && p + |Enc(Nil)| < |D|
    ensures ValueList(D, Cursor(Native, p), prop, acc) == Ok((acc, Cursor(Native, p + |Enc(Nil)|)))
  {
    hide NextAt, At;
    StepOverEnd(D, p);
  }

  lemma FlatEntry(l: NvList)
    requires l.Entry? && Flat(l)
    ensures Nested(l.val) == [] && Flat(l.rest)
  {
  }

  lemma {:induction false} ValueInvertsEnc(D: seq<Byte>, p: nat, l: NvList, prop: string, acc: Props)
    requires p > 0 && Encodable(l) && Flat(l) && At(D, p, Enc(l)) && p + |Enc(l)| < |D|
    ensures ValueList(D, Cursor(Native, p), prop, acc) ==
      match ValueOf(l, prop, acc)
      case Ok(a) => Ok((a, Cursor(Native, p + |Enc(l)|)))
      case Err(e) => Err(e)
    decreases l
  {
    hide ValueList, MemberOf, Head, At, PairSize, Enc, Nested, Encodable, Flat;
    match l
    case Nil => ValueOfNil(D, p, prop, acc);
    case Entry(name, val, slack, rest) =>
      EntryParts(D, p, l);
      EntryOk(l);
      FlatEntry(l);
      ValueOfEntry(D, p, l, prop, acc);
      var q := p + PairSize(name, val, slack);
      if MemberOf(Text(name), val, prop, acc).Ok? {
        ValueInvertsEnc(D, q, rest, prop, MemberOf(Text(name), val, prop, acc).value);
      }
  }

  /** A run over a property's list never ends behind the list, and ends before its end
      when a member holds a list. */
  lemma {:induction false} ValueEndsEarly(D: seq<Byte>, p: nat, l: NvList, prop: string, acc: Props)
    requires p > 0 && Encodable(l) && At(D, p, Enc(l)) && p + |Enc(l)| < |D|
    requires ValueList(D, Cursor(Native, p), prop, acc).Ok?
    ensures var end := ValueList(D, Cursor(Native, p), prop, acc).value.1.pos;
      end <= p + |Enc(l)| && (!Flat(l) ==> end < p + |Enc(l)|)
    decreases l
  {
    hide NextAt, MemberOf, Head, At, PairSize, Enc, ValueList, Encodable;
    match l
    case Nil => ValueOfNil(D, p, prop, acc);
    case Entry(name, val, slack, rest) =>
      EntryParts(D, p, l);
      EntryOk(l);
      ValueOfEntry(D, p, l, prop, acc);
      var q := p + PairSize(name, val, slack);
      var a := MemberOf(Text(name), val, prop, acc).value;
      match val
      case List(inner) => ValueEndsEarly(D, q, inner, prop, a);
      case Lists(More(first, os)) =>
        ListsParts(D, q, val.ls);
        ValueEndsEarly(D, q, first, prop, a);
      case _ => ValueEndsEarly(D, q, rest, prop, a);
  }

  /** For a list whose values have the right type, `ParseValue` ends exactly behind it if
      and only if no member of it holds a list. */
  lemma ValueExactIff(D: seq<Byte>, p: nat, l: NvList, prop: string, acc: Props)
    requires p > 0 && Encodable(l) && At(D, p, Enc(l)) && p + |Enc(l)| < |D|
    requires ValueOf(l, prop, acc).Ok?
    ensures Flat(l) <==>
      ValueList(D, Cursor(Native, p), prop, acc).Ok?
      && ValueList(D, Cursor(Native, p), prop, acc).value.1 == Cursor(Native, p + |Enc(l)|)
  {
    hide ValueList, ValueOf, Enc, At;
    if Flat(l) {
      ValueInvertsEnc(D, p, l, prop, acc);
    } else if ValueList(D, Cursor(Native, p), prop, acc).Ok? {
      ValueEndsEarly(D, p, l, prop, acc);
    }
  }

  lemma PropsOfEntry(D: seq<Byte>, p: nat, l: NvList, acc: Props)
    requires p > 0 && l.Entry? && Encodable(l) && At(D, p, Enc(l)) && p + |Enc(l)| < |D|
    requires l.val.List? ==> Flat(l.val.l)
    ensures PropsList(D, Cursor(Native, p), acc) ==
      match l.val
      case List(inner) =>
        (match ValueOf(inner, Text(l.name), acc)
         case Err(e) => Err(e)
         case Ok(a) => PropsList(D, Cursor(Native, p + PairSize(l.name, l.val, l.slack) + |Nested(l.val)|), a))
      case _ => Err(Rejected("expected nvlist"))
  {
    hide NextAt, ValueOf, ValueList, Head, At, PairSize, Enc, EntryStep, TypeOf, ValBytes, ValueOffset, Encodable;
    EntryParts(D, p, l);
    EntryOk(l);
    StepOverEntry(D, p, l);
    EntryFacts(p, l);
    if l.val.List? {
      ValueInvertsEnc(D, p + PairSize(l.name, l.val, l.slack), l.val.l, Text(l.name), acc);
    }
  }

  lemma PropsEnd(D: seq<Byte>, p: nat, acc: Props)
    requires p > 0 && At(D, p, Enc(Nil)) && p + |Enc(Nil)| < |D|
    ensures PropsList(D, Cursor(Native, p), acc) == Ok((acc, Cursor(Native, p + |Enc(Nil)|)))
  {
    hide NextAt, At;
    StepOverEnd(D, p);
  }

  /** Parsing encoded properties gives what their lists say, errors included. */
  lemma {:induction false} PropsInvertEnc(D: seq<Byte>, p: nat, l: NvList, acc: Props)
    requires p > 0 && Encodable(l) && InnersFlat(l) && At(D, p, Enc(l)) && p + |Enc(l)| < |D|
    ensures PropsList(D, Cursor(Native, p), acc) ==
      match PropsOf(l, acc)
      case Ok(a) => Ok((a, Cursor(Native, p + |Enc(l)|)))
      case Err(e) => Err(e)
    decreases l
  {
    hide PropsList, ValueOf, ValueList, Head, At, PairSize, Enc, Nested, Encodable, Flat;
    match l
    case Nil => PropsEnd(D, p, acc);
    case Entry(name, val, slack, rest) =>
      EntryParts(D, p, l);
      EntryOk(l);
      PropsOfEntry(D, p, l, acc);
      match val
      case List(inner) =>
        if ValueOf(inner, Text(name), acc).Ok? {
          PropsInvertEnc(D, p + PairSize(name, val, slack) + |Nested(val)|, rest, ValueOf(inner, Text(name), acc).value);
        }
      case _ =>
  }

  // ---- What the fields hold ---------------------------------------------------

  lemma SetTwice(p: Props, f: Field, a: int, b: int)
    ensures Set(Set(p, f, a), f, b) == Set(p, f, b)
  {
  }

  /** All members named "value" are unsigned 64-bit numbers. */
  predicate ValuesTyped(l: NvList) {
    match l
    case Nil => true
    case Entry(name, val, _, rest) =>
      (Text(name) == "value" ==> val.Int? && val.w == 8 && !val.signed) && ValuesTyped(rest)
  }

  predicate PropsTyped(l: NvList) {
    match l
    case Nil => true
    case Entry(name, val, _, rest) =>
      val.List? && (PropNamed(Text(name)).Some? ==> ValuesTyped(val.l)) && PropsTyped(rest)
  }

  function LastNumber(l: NvList): Option<int> {
    match LastVal(l, "value")
    case Some(Int(_, _, n)) => Some(n)
    case _ => None
  }

  /** The last number that the lists give for a field. */
  function LastProp(l: NvList, f: Field): Option<int> {
    match l
    case Nil => None
    case Entry(name, val, _, rest) =>
      match LastProp(rest, f)
      case Some(n) => Some(n)
      case None => if PropNamed(Text(name)) == Some(f) && val.List? then LastNumber(val.l) else None
  }

  lemma {:induction false} ValueOfIsLast(l: NvList, prop: string, acc: Props)
    ensures PropNamed(prop).None? ==> ValueOf(l, prop, acc) == Ok(acc)
    ensures PropNamed(prop).Some? ==> (ValueOf(l, prop, acc).Ok? <==> ValuesTyped(l))
    ensures PropNamed(prop).Some? && ValuesTyped(l) ==>
      ValueOf(l, prop, acc) ==
      Ok(if LastNumber(l).Some? then Set(acc, PropNamed(prop).value, LastNumber(l).value) else acc)
  {
    hide PropNamed, Set;
    if l.Entry? && MemberOf(Text(l.name), l.val, prop, acc).Ok? {
      ValueOfIsLast(l.rest, prop, MemberOf(Text(l.name), l.val, prop, acc).value);
      if PropNamed(prop).Some? && ValuesTyped(l) {
        ValuesLastTyped(l.rest);
        if Text(l.name) == "value" && LastNumber(l.rest).Some? {
          SetTwice(acc, PropNamed(prop).value, l.val.n, LastNumber(l.rest).value);
        }
      }
    }
  }

  lemma {:induction false} ValuesLastTyped(l: NvList)
    requires ValuesTyped(l)
    ensures LastVal(l, "value").Some? ==> LastVal(l, "value").value.Int?
  {
    if l.Entry? {
      ValuesLastTyped(l.rest);
    }
  }

  /** Parsing succeeds exactly for lists of lists with numbers as values; then each field
      holds the last number given for it, and a field without one keeps what it had. */
  lemma {:induction false} PropsOfIsLast(l: NvList, acc: Props, f: Field)
    ensures PropsOf(l, acc).Ok? <==> PropsTyped(l)
    ensures PropsTyped(l) ==>
      Get(PropsOf(l, acc).value, f) == if LastProp(l, f).Some? then LastProp(l, f).value else Get(acc, f)
  {
    hide PropNamed, Set, Get, ValueOf, LastNumber, ValuesTyped;
    match l
    case Nil =>
    case Entry(name, val, _, rest) =>
      match val
      case List(inner) =>
        ValueOfIsLast(inner, Text(name), acc);
        if ValueOf(inner, Text(name), acc).Ok? {
          var a := ValueOf(inner, Text(name), acc).value;
          PropsOfIsLast(rest, a, f);
          if PropNamed(Text(name)).Some? && LastNumber(inner).Some? {
            GetAfterSet(acc, PropNamed(Text(name)).value, LastNumber(inner).value, f);
          }
        }
      case _ =>
  }

  // ---- Which field each name reaches ------------------------------------------

  /** The last number that the lists give under a name. */
  function LastUnder(l: NvList, name: string): Option<int> {
    match l
    case Nil => None
    case Entry(n, val, _, rest) =>
      match LastUnder(rest, name)
      case Some(v) => Some(v)
      case None => if Text(n) == name && val.List? then LastNumber(val.l) else None
  }

  function NumOr(n: Option<int>, d: int): int {
    match n case Some(v) => v case None => d
  }

  lemma {:induction false} LastPropIs(l: NvList, name: string, f: Field)
    requires PropNamed(name) == Some(f)
    ensures LastProp(l, f) == LastUnder(l, name)
  {
    hide PropNamed, LastNumber;
    if l.Entry? {
      LastPropIs(l.rest, name, f);
      if PropNamed(Text(l.name)) == Some(f) {
        NamesInjective(Text(l.name), name);
      }
    }
  }

  lemma PropField(l: NvList, acc: Props, name: string, f: Field)
    requires PropsTyped(l) && PropNamed(name) == Some(f)
    ensures PropsOf(l, acc).Ok? && Get(PropsOf(l, acc).value, f) == NumOr(LastUnder(l, name), Get(acc, f))
  {
    hide PropNamed, PropsTyped, PropsOf, LastProp, LastUnder, Get;
    PropsOfIsLast(l, acc, f);
    LastPropIs(l, name, f);
  }

  lemma {:induction false} NotAProp(l: NvList, f: Field)
    requires f in {Writes, NWritten, Reads, NRead, NUnlinks, NUnlinked}
    ensures LastProp(l, f) == None
  {
    if l.Entry? {
      NotAProp(l.rest, f);
    }
  }

  lemma OtherFields(l: NvList, acc: Props, f: Field)
    requires PropsTyped(l) && f in {Writes, NWritten, Reads, NRead, NUnlinks, NUnlinked}
    ensures PropsOf(l, acc).Ok? && Get(PropsOf(l, acc).value, f) == Get(acc, f)
  {
    hide PropsTyped, PropsOf, LastProp, Get;
    NotAProp(l, f);
    PropsOfIsLast(l, acc, f);
  }

  lemma NothingSet(f: Field)
    ensures Get(NO_PROPS, f) == 0
  {
  }

  lemma PropNames()
    ensures PropNamed("objsetid") == Some(ObjsetId) && PropNamed("available") == Some(Available)
    ensures PropNamed("compressratio") == Some(CompressRatio) && PropNamed("used") == Some(Used)
    ensures PropNamed("usedbychildren") == Some(UsedByChildren) && PropNamed("usedbydataset") == Some(UsedByDataset)
    ensures PropNamed("usedbyrefreservation") == Some(UsedByRefReservation)
    ensures PropNamed("usedbysnapshots") == Some(UsedBySnapshots) && PropNamed("referenced") == Some(Referenced)
    ensures PropNamed("refcompressratio") == Some(RefCompressRatio)
    ensures PropNamed("logicalreferenced") == Some(LogicalReferenced) && PropNamed("logicalused") == Some(LogicalUsed)
  {
  }

  /** The record that these properties give, field by field. */
  predicate PropsAre(p: Props, l: NvList, acc: Props) {
    && p.objsetid == NumOr(LastUnder(l, "objsetid"), acc.objsetid)
    && p.available == NumOr(LastUnder(l, "available"), acc.available)
    && p.compressratio == NumOr(LastUnder(l, "compressratio"), acc.compressratio)
    && p.used == NumOr(LastUnder(l, "used"), acc.used)
    && p.usedbychildren == NumOr(LastUnder(l, "usedbychildren"), acc.usedbychildren)
    && p.usedbydataset == NumOr(LastUnder(l, "usedbydataset"), acc.usedbydataset)
    && p.usedbyrefreservation == NumOr(LastUnder(l, "usedbyrefreservation"), acc.usedbyrefreservation)
    && p.usedbysnapshots == NumOr(LastUnder(l, "usedbysnapshots"), acc.usedbysnapshots)
    && p.referenced == NumOr(LastUnder(l, "referenced"), acc.referenced)
    && p.refcompressratio == NumOr(LastUnder(l, "refcompressratio"), acc.refcompressratio)
    && p.logicalreferenced == NumOr(LastUnder(l, "logicalreferenced"), acc.logicalreferenced)
    && p.logicalused == NumOr(LastUnder(l, "logicalused"), acc.logicalused)
  }

  predicate SameCounters(p: Props, q: Props) {
    && p.writes == q.writes && p.nwritten == q.nwritten && p.readOps == q.readOps
    && p.nread == q.nread && p.nunlinks == q.nunlinks && p.nunlinked == q.nunlinked
  }

  /** Each of the twelve names sets its own field to its last number, and no counter changes. */
  lemma PropFields(l: NvList, acc: Props)
    requires PropsTyped(l)
    ensures PropsOf(l, acc).Ok? && PropsAre(PropsOf(l, acc).value, l, acc)
    ensures SameCounters(PropsOf(l, acc).value, acc)
  {
    PropNames();
    hide PropNamed, PropsTyped, PropsOf, LastUnder, LastProp;
    PropField(l, acc, "objsetid", ObjsetId);
    PropField(l, acc, "available", Available);
    PropField(l, acc, "compressratio", CompressRatio);
    PropField(l, acc, "used", Used);
    PropField(l, acc, "usedbychildren", UsedByChildren);
    PropField(l, acc, "usedbydataset", UsedByDataset);
    PropField(l, acc, "usedbyrefreservation", UsedByRefReservation);
    PropField(l, acc, "usedbysnapshots", UsedBySnapshots);
    PropField(l, acc, "referenced", Referenced);
    PropField(l, acc, "refcompressratio", RefCompressRatio);
    PropField(l, acc, "logicalreferenced", LogicalReferenced);
    PropField(l, acc, "logicalused", LogicalUsed);
    OtherFields(l, acc, Writes);
    OtherFields(l, acc, NWritten);
    OtherFields(l, acc, Reads);
    OtherFields(l, acc, NRead);
    OtherFields(l, acc, NUnlinks);
    OtherFields(l, acc, NUnlinked);
  }

  // ---- Appended bytes ---------------------------------------------------------

  lemma {:induction false} ValueStable(D: seq<Byte>, E: seq<Byte>, c: Cursor, prop: string, acc: Props)
    requires D <= E && ValueList(D, c, prop, acc).Ok?
    ensures ValueList(E, c, prop, acc) == ValueList(D, c, prop, acc)
    decreases |D| - c.pos
  {
    hide NextAt, PropNamed, Set, WordAt;
    NextStable(D, E, c);
    var s := NextAt(D, c);
    if s.Pair? {
      if Text(s.name) == "value" && PropNamed(prop).Some? {
        WordStable(D, E, s.dataPos, s.dataLen, 8, false);
        ValueStable(D, E, s.next, prop, Set(acc, PropNamed(prop).value, NumberAt(D, s, prop).value));
      } else {
        ValueStable(D, E, s.next, prop, acc);
      }
    }
  }

  lemma {:induction false} PropsStable(D: seq<Byte>, E: seq<Byte>, c: Cursor, acc: Props)
    requires D <= E && PropsList(D, c, acc).Ok?
    ensures PropsList(E, c, acc) == PropsList(D, c, acc)
    decreases |D| - c.pos
  {
    hide NextAt, ValueList;
    NextStable(D, E, c);
    var s := NextAt(D, c);
    if s.Pair? {
      ValueStable(D, E, s.next, Text(s.name), acc);
      var x := ValueList(D, s.next, Text(s.name), acc).value;
      PropsStable(D, E, x.1, x.0);
    }
  }
}
