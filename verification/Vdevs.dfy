/**
 The vdev tree: decoding it from the nested lists of a pool's statistics.
 */
module Vdevs {
  import opened Basics
  import opened NvFormat
  import opened NvEncode
  import opened NvRuns
  import opened NvRoundTrip
  import opened NvReader
  import opened NvTheorems
  import States

  datatype VdevStats = VdevStats(
    alloc: int, free: int, size: int,
    readOperations: int, bytesRead: int, readErrors: int,
    writeOperations: int, bytesWritten: int, writeErrors: int,
    checksumErrors: int, fragmentation: int, state: string)

  datatype Vdev = Vdev(vdevType: string, id: int, path: string, children: seq<Vdev>, stats: VdevStats)

  const NO_STATS := VdevStats(0, 0, 0, 0, 0, 0, 0, 0, 0, 0, 0, "")
  const NO_VDEV := Vdev("", 0, "", [], NO_STATS)

  const VS_STATE := 1
  const VS_AUX := 2
  const VS_ALLOC := 3
  const VS_SPACE := 4
  const VS_OPS_READ := 9
  const VS_OPS_WRITE := 10
  const VS_BYTES_READ := 15
  const VS_BYTES_WRITE := 16
  const VS_READ_ERRORS := 21
  const VS_WRITE_ERRORS := 22
  const VS_CHECKSUM_ERRORS := 23
  const VS_FRAGMENTATION := 28

  /** The highest index it uses decides whether indexing the array panics. The free space
      wraps around like the unsigned subtraction it is. */
  function ParseVdevStats(v: seq<int>): Result<VdevStats> {
    if |v| <= VS_FRAGMENTATION then Err(Fault)
    else Ok(VdevStats(
      v[VS_ALLOC], (v[VS_SPACE] - v[VS_ALLOC]) % 0x1_0000_0000_0000_0000, v[VS_SPACE],
      v[VS_OPS_READ], v[VS_BYTES_READ], v[VS_READ_ERRORS],
      v[VS_OPS_WRITE], v[VS_BYTES_WRITE], v[VS_WRITE_ERRORS],
      v[VS_CHECKSUM_ERRORS], v[VS_FRAGMENTATION],
      States.VDevStateString(v[VS_STATE], v[VS_AUX])))
  }

  /** Which entry of the kernel's array each statistic is. */
  lemma StatsPlaces(ns: seq<int>)
    requires |ns| > 28
    ensures var s := ParseVdevStats(ns).value;
      && s.alloc == ns[3] && s.size == ns[4] && s.free == (ns[4] - ns[3]) % 0x1_0000_0000_0000_0000
      && s.readOperations == ns[9] && s.writeOperations == ns[10]
      && s.bytesRead == ns[15] && s.bytesWritten == ns[16]
      && s.readErrors == ns[21] && s.writeErrors == ns[22] && s.checksumErrors == ns[23]
      && s.fragmentation == ns[28]
  {
    hide States.VDevStateString;
  }

  /** For which state and reason in the array each state name stands. */
  lemma StatsState(ns: seq<int>)
    requires |ns| > 28
    ensures var s := ParseVdevStats(ns).value.state;
      && (s == "OFFLINE" <==> ns[1] == 2) && (s == "REMOVED" <==> ns[1] == 3)
      && (s == "FAULTED" <==> ns[1] == 5 || (ns[1] == 4 && ns[2] in {2, 13}))
      && (s == "SPLIT" <==> ns[1] == 4 && ns[2] == 15)
      && (s == "UNAVAIL" <==> ns[1] == 4 && ns[2] !in {2, 13, 15})
      && (s == "DEGRADED" <==> ns[1] == 6) && (s == "ONLINE" <==> ns[1] == 7)
      && (s == "UNKNOWN" <==> !(2 <= ns[1] <= 7))
  {
    hide States.VDevStateString;
    States.VdevStateNames(ns[1], ns[2]);
  }

  // ---- Runs over a buffer -----------------------------------------------------

  predicate IsField(name: string) {
    name == "type" || name == "id" || name == "path" || name == "vdev_stats"
  }

  /** Decode one of the four members that hold no list. */
  function FieldAt(D: seq<Byte>, s: Step, acc: Vdev): Result<Vdev>
    requires s.Pair? && IsField(Text(s.name))
  {
    var (name, dp, dl) := (Text(s.name), s.dataPos, s.dataLen);
    if name == "id" then
      if s.tok != UINT64 then Err(Rejected("invalid type")) else
      match WordAt(D, dp, dl, 8, false)
      case Ok(n) => Ok(acc.(id := n))
      case Err(e) => Err(e)
    else if name == "vdev_stats" then
      if s.tok != UINT64_ARRAY then Err(Rejected("invalid vdev_stats")) else
      match ViewAt(D, dp, dl, 8, false, s.num)
      case Err(e) => Err(e)
      case Ok(v) => match ParseVdevStats(v) case Ok(x) => Ok(acc.(stats := x)) case Err(e) => Err(e)
    else
      if s.tok != STRING then Err(Rejected("invalid type")) else
      match StringAt(D, dp, dl)
      case Err(e) => Err(e)
      case Ok(t) => Ok(if name == "type" then acc.(vdevType := t) else acc.(path := t))
  }

  predicate HoldsLists(tok: NVType) {
    tok == NVLIST || tok == NVLIST_ARRAY
  }

  /** Read members into `acc` until the list of this vdev ends. An unknown member with lists
      is skipped with one call, also if it is an array. */
  function VdevList(D: seq<Byte>, c: Cursor, acc: Vdev): (r: Result<(Vdev, Cursor)>)
    ensures r.Ok? ==> c.pos < r.value.1.pos < |D|
    decreases |D| - c.pos, 0, 0
  {
    var s := NextAt(D, c);
    match s
    case Bad(e) => Err(e)
    case End(next) => Ok((acc, next))
    case Pair(tok, name, num, _, _, next) =>
      if Text(name) == "children" then
        if tok != NVLIST_ARRAY then Err(Rejected("invalid children")) else
        match VdevLists(D, next, num, acc.children)
        case Err(e) => Err(e)
        case Ok(x) => VdevList(D, x.1, acc.(children := x.0))
      else if IsField(Text(name)) then
        match FieldAt(D, s, acc)
        case Err(e) => Err(e)
        case Ok(v) => VdevList(D, next, v)
      else if HoldsLists(tok) then
        match SkipList(D, next)
        case Err(e) => Err(e)
        case Ok(d) => VdevList(D, d, acc)
      else VdevList(D, next, acc)
  }

  function VdevLists(D: seq<Byte>, c: Cursor, n: nat, acc: seq<Vdev>): (r: Result<(seq<Vdev>, Cursor)>)
    ensures r.Ok? ==> c.pos <= r.value.1.pos && (n > 0 ==> r.value.1.pos < |D|)
    decreases |D| - c.pos, 1, n
  {
    if n == 0 then Ok((acc, c)) else
    match VdevList(D, c, NO_VDEV)
    case Err(e) => Err(e)
    case Ok(x) => VdevLists(D, x.1, n - 1, acc + [x.0])
  }

  // ---- The parser -------------------------------------------------------------

  method ParseField(r: NVListReader, acc: Vdev, ghost s: Step) returns (v: Result<Vdev>)
    requires r.Holds(s) && IsField(Text(s.name))
    ensures v == FieldAt(r.Data, s, acc)
  {
    var token := r.currentToken;
    if r.Name() == "type" {
      if token != STRING { return Err(Rejected("invalid type")); }
      var t := r.String();
      if t.Err? { return Err(t.error); }
      return Ok(acc.(vdevType := t.value));
    } else if r.Name() == "id" {
      if token != UINT64 { return Err(Rejected("invalid type")); }
      var n := r.Scalar(8, false);
      if n.Err? { return Err(n.error); }
      return Ok(acc.(id := n.value));
    } else if r.Name() == "path" {
      if token != STRING { return Err(Rejected("invalid type")); }
      var t := r.String();
      if t.Err? { return Err(t.error); }
      return Ok(acc.(path := t.value));
    } else {
      if token != UINT64_ARRAY { return Err(Rejected("invalid vdev_stats")); }
      var a := r.Array(8, false);
      if a.Err? { return Err(a.error); }
      var x := ParseVdevStats(a.value);
      if x.Err? { return Err(x.error); }
      return Ok(acc.(stats := x.value));
    }
  }

  method ParseVdevs(r: NVListReader) returns (v: Result<Vdev>)
    requires r.Valid()
    modifies r
    ensures match VdevList(r.Data, old(r.Here()), NO_VDEV)
            case Ok(x) => v == Ok(x.0) && r.Here() == x.1 && r.Valid()
            case Err(e) => v == Err(e)
    ensures v.Ok? ==> old(r.pos) < r.pos < |r.Data|
    ensures r.Frugal(v.Ok?, old(r.calls), old(r.pos))
    decreases |r.Data| - r.pos, 0
  {
    hide NextAt, SkipList, FieldAt;
    var vdev := NO_VDEV;
    while true
      invariant r.Valid() && old(r.pos) <= r.pos && (r.pos > old(r.pos) ==> r.pos < |r.Data|)
      invariant VdevList(r.Data, r.Here(), vdev) == VdevList(r.Data, old(r.Here()), NO_VDEV)
      invariant r.Frugal(true, old(r.calls), old(r.pos))
      decreases |r.Data| - r.pos
    {
      ghost var s := NextAt(r.Data, r.Here());
      var t := r.Next();
      match t {
        case EOF => return Ok(vdev);
        case Error(e) => return Err(e);
        case Token(_) =>
      }
      var token := t.t;
      if r.Name() == "children" {
        if token != NVLIST_ARRAY { return Err(Rejected("invalid children")); }
        var kids := ParseChildren(r, vdev.children);
        if kids.Err? { return Err(kids.error); }
        vdev := vdev.(children := kids.value);
      } else if IsField(r.Name()) {
        var f := ParseField(r, vdev, s);
        if f.Err? { return f; }
        vdev := f.value;
      } else if token == NVLIST || token == NVLIST_ARRAY {
        var e := r.Skip();
        if e.Err? { return Err(e.error); }
      }
    }
    assert false;
  }

  /** The loop over the elements of `children`. */
  method ParseChildren(r: NVListReader, before: seq<Vdev>) returns (v: Result<seq<Vdev>>)
    requires r.Valid()
    modifies r
    ensures match VdevLists(r.Data, old(r.Here()), old(r.numElements), before)
            case Ok(x) => v == Ok(x.0) && r.Here() == x.1 && r.Valid()
            case Err(e) => v == Err(e)
    ensures v.Ok? ==> old(r.pos) <= r.pos && (r.pos > old(r.pos) ==> r.pos < |r.Data|)
    ensures r.Frugal(v.Ok?, old(r.calls), old(r.pos))
    decreases |r.Data| - r.pos, 1
  {
    hide VdevList;
    var numChildren := r.numElements;
    var children := before;
    var i := 0;
    while i < numChildren
      invariant 0 <= i <= numChildren
      invariant r.Valid() && old(r.pos) <= r.pos && (r.pos > old(r.pos) ==> r.pos < |r.Data|)
      invariant VdevLists(r.Data, r.Here(), numChildren - i, children)
                == VdevLists(r.Data, old(r.Here()), numChildren, before)
      invariant r.Frugal(true, old(r.calls), old(r.pos))
    {
      var child := ParseVdevs(r);
      if child.Err? { return Err(child.error); }
      children := children + [child.value];
      i := i + 1;
    }
    return Ok(children);
  }

  // ---- What a list says about a vdev ------------------------------------------

  function FieldOf(name: string, val: Val, acc: Vdev): Result<Vdev>
    requires IsField(name)
  {
    match name
    case "type" => if val.Str? then Ok(acc.(vdevType := Text(val.s))) else Err(Rejected("invalid type"))
    case "path" => if val.Str? then Ok(acc.(path := Text(val.s))) else Err(Rejected("invalid type"))
    case "id" =>
      if val.Int? && val.w == 8 && !val.signed then Ok(acc.(id := val.n)) else Err(Rejected("invalid type"))
    case _ =>
      if !(val.Ints? && val.aw == 8 && !val.asigned) then Err(Rejected("invalid vdev_stats")) else
      match ParseVdevStats(val.ns)
      case Ok(x) => Ok(acc.(stats := x))
      case Err(e) => Err(e)
  }

  function VdevOf(l: NvList, acc: Vdev): Result<Vdev>
    decreases l
  {
    match l
    case Nil => Ok(acc)
    case Entry(name, val, _, rest) =>
      if Text(name) == "children" then
        match val
        case Lists(ls) =>
          (match VdevsOf(ls, acc.children)
           case Err(e) => Err(e)
           case Ok(kids) => VdevOf(rest, acc.(children := kids)))
        case _ => Err(Rejected("invalid children"))
      else if IsField(Text(name)) then
        match FieldOf(Text(name), val, acc)
        case Err(e) => Err(e)
        case Ok(v) => VdevOf(rest, v)
      else VdevOf(rest, acc)
  }

  function VdevsOf(ls: NvLists, acc: seq<Vdev>): Result<seq<Vdev>>
    decreases ls
  {
    match ls
    case NoLists => Ok(acc)
    case More(l, os) =>
      match VdevOf(l, NO_VDEV)
      case Err(e) => Err(e)
      case Ok(v) => VdevsOf(os, acc + [v])
  }

  /** Each array of lists that the parser does not know has exactly one element, at every
      level that it parses. Lists that it skips are free. */
  predicate InStep(l: NvList)
    decreases l
  {
    match l
    case Nil => true
    case Entry(name, val, _, rest) =>
      && (match val
          case Lists(ls) => if Text(name) == "children" then AllInStep(ls)
                            else !IsField(Text(name)) ==> Count(ls) == 1
          case _ => true)
      && InStep(rest)
  }

  predicate AllInStep(ls: NvLists)
    decreases ls
  {
    match ls
    case NoLists => true
    case More(l, os) => InStep(l) && AllInStep(os)
  }

  // ---- Decoding an encoding ---------------------------------------------------

  lemma IdOfEntry(D: seq<Byte>, p: nat, l: NvList, acc: Vdev)
    requires l.Entry? && Encodable(l) && Text(l.name) == "id"
    requires At(D, p + ValueOffset(l.name), ValBytes(l.val))
    requires At(D, p + ValueOffset(l.name), ValBytes(l.val) + l.slack)
    ensures FieldAt(D, EntryStep(p, l.name, l.val, l.slack), acc) == FieldOf(Text(l.name), l.val, acc)
  {
    hide StringAt, ViewAt, WordAt, ValueOffset, At, ParseVdevStats, EntryStep;
    EntryFacts(p, l);
    var (q, dl) := (p + ValueOffset(l.name), |ValBytes(l.val)| + |l.slack|);
    AtSlice(D, q, ValBytes(l.val) + l.slack);
    if l.val.Int? && l.val.w == 8 && !l.val.signed {
      IntRead(D, q, dl, l.val.n, 8, false);
    }
  }

  lemma StatsOfEntry(D: seq<Byte>, p: nat, l: NvList, acc: Vdev)
    requires l.Entry? && Encodable(l) && Text(l.name) == "vdev_stats"
    requires At(D, p + ValueOffset(l.name), ValBytes(l.val))
    requires At(D, p + ValueOffset(l.name), ValBytes(l.val) + l.slack)
    ensures FieldAt(D, EntryStep(p, l.name, l.val, l.slack), acc) == FieldOf(Text(l.name), l.val, acc)
  {
    hide StringAt, ViewAt, WordAt, ValueOffset, At, ParseVdevStats, EntryStep;
    EntryFacts(p, l);
    var (q, dl) := (p + ValueOffset(l.name), |ValBytes(l.val)| + |l.slack|);
    AtSlice(D, q, ValBytes(l.val) + l.slack);
    if l.val.Ints? && l.val.aw == 8 && !l.val.asigned {
      UInt64sRead(D, q, dl, l.val.ns);
    }
  }

  lemma TextOfEntry(D: seq<Byte>, p: nat, l: NvList, acc: Vdev)
    requires l.Entry? && Encodable(l) && (Text(l.name) == "type" || Text(l.name) == "path")
    requires At(D, p + ValueOffset(l.name), ValBytes(l.val))
    requires At(D, p + ValueOffset(l.name), ValBytes(l.val) + l.slack)
    ensures FieldAt(D, EntryStep(p, l.name, l.val, l.slack), acc) == FieldOf(Text(l.name), l.val, acc)
  {
    hide StringAt, ViewAt, WordAt, ValueOffset, At, ParseVdevStats, EntryStep;
    EntryFacts(p, l);
    var (q, dl) := (p + ValueOffset(l.name), |ValBytes(l.val)| + |l.slack|);
    AtSlice(D, q, ValBytes(l.val) + l.slack);
    if l.val.Str? {
      StringOfBytes(D, q, dl, l.val.s);
    }
  }

  lemma FieldOfEntry(D: seq<Byte>, p: nat, l: NvList, acc: Vdev)
    requires l.Entry? && Encodable(l) && IsField(Text(l.name))
    requires At(D, p + ValueOffset(l.name), ValBytes(l.val))
    requires At(D, p + ValueOffset(l.name), ValBytes(l.val) + l.slack)
    ensures FieldAt(D, EntryStep(p, l.name, l.val, l.slack), acc) == FieldOf(Text(l.name), l.val, acc)
  {
    hide FieldAt, FieldOf, At, EntryStep, Encodable, ValBytes, ValueOffset;
    if Text(l.name) == "id" {
      IdOfEntry(D, p, l, acc);
    } else if Text(l.name) == "vdev_stats" {
      StatsOfEntry(D, p, l, acc);
    } else {
      TextOfEntry(D, p, l, acc);
    }
  }

  lemma UInt64sRead(D: seq<Byte>, q: nat, dl: int, ns: seq<int>)
    requires AllFit(ns, 8, false) && At(D, q, IntBytes(ns, 8, false)) && 0 <= dl && q + dl <= |D|
    ensures ViewAt(D, q, dl, 8, false, |ns|) == Ok(ns)
  {
    ViewOfIntBytes(D, q, ns, 8, false);
  }

  /** One call of `Skip` over the lists of an unknown member that are in step. */
  lemma SkipOverNested(D: seq<Byte>, q: nat, val: Val)
    requires q > 0 && ValOk(val) && At(D, q, Nested(val)) && q + |Nested(val)| < |D|
    requires val.List? || (val.Lists? && Count(val.ls) == 1)
    ensures SkipList(D, Cursor(Native, q)) == Ok(Cursor(Native, q + |Nested(val)|))
  {
    hide SkipList, At, Enc;
    match val
    case List(l) => SkipIsExact(D, q, l);
    case Lists(ls) =>
      ListsParts(D, q, ls);
      assert ls.others == NoLists;
      SkipIsExact(D, q, ls.first);
  }

  function EndingAt(r: Result<Vdev>, end: Cursor): Result<(Vdev, Cursor)> {
    match r case Ok(v) => Ok((v, end)) case Err(e) => Err(e)
  }

  /** The children nested behind a member have been read as they mean. */
  ghost predicate ChildrenRead(D: seq<Byte>, q: nat, val: Val, kids: seq<Vdev>) {
    val.Lists? ==>
      VdevLists(D, Cursor(Native, q), Count(val.ls), kids) ==
      match VdevsOf(val.ls, kids)
      case Ok(vs) => Ok((vs, Cursor(Native, q + |Nested(val)|)))
      case Err(e) => Err(e)
  }

  /** The state in which the parser goes on behind an encoded member. */
  function AfterEntry(l: NvList, acc: Vdev): Result<Vdev>
    requires l.Entry?
  {
    if Text(l.name) == "children" then
      match l.val
      case Lists(ls) =>
        (match VdevsOf(ls, acc.children) case Ok(kids) => Ok(acc.(children := kids)) case Err(e) => Err(e))
      case _ => Err(Rejected("invalid children"))
    else if IsField(Text(l.name)) then FieldOf(Text(l.name), l.val, acc)
    else Ok(acc)
  }

  lemma VdevOfEntry(D: seq<Byte>, p: nat, l: NvList, acc: Vdev)
    requires p > 0 && l.Entry? && Encodable(l) && InStep(l) && At(D, p, Enc(l)) && p + |Enc(l)| < |D|
    requires Text(l.name) == "children" ==>
      ChildrenRead(D, p + PairSize(l.name, l.val, l.slack), l.val, acc.children)
    ensures VdevList(D, Cursor(Native, p), acc) ==
      match AfterEntry(l, acc)
      case Err(e) => Err(e)
      case Ok(v) => VdevList(D, Cursor(Native, p + PairSize(l.name, l.val, l.slack) + |Nested(l.val)|), v)
  {
    hide NextAt, FieldAt, FieldOf, Head, At, PairSize, Enc, VdevLists, VdevsOf, SkipList, EntryStep, TypeOf,
         ValBytes, ValueOffset;
    EntryParts(D, p, l);
    EntryOk(l);
    StepOverEntry(D, p, l);
    EntryFacts(p, l);
    if Text(l.name) == "children" {
    } else if IsField(Text(l.name)) {
      FieldOfEntry(D, p, l, acc);
      if FieldOf(Text(l.name), l.val, acc).Ok? {
        FieldHasNoLists(l, acc);
      }
    } else if l.val.List? || l.val.Lists? {
      SkipOverNested(D, p + PairSize(l.name, l.val, l.slack), l.val);
    }
  }

  lemma FieldHasNoLists(l: NvList, acc: Vdev)
    requires l.Entry? && IsField(Text(l.name)) && FieldOf(Text(l.name), l.val, acc).Ok?
    ensures Nested(l.val) == []
  {
  }

  lemma VdevEnds(D: seq<Byte>, p: nat, acc: Vdev)
    requires p > 0 && At(D, p, Enc(Nil)) && p + |Enc(Nil)| < |D|
    ensures VdevList(D, Cursor(Native, p), acc) == Ok((acc, Cursor(Native, p + |Enc(Nil)|)))
  {
    hide NextAt, At;
    StepOverEnd(D, p);
  }

  lemma ChildrenNested(val: Val)
    ensures val.Lists? ==> Nested(val) == EncAll(val.ls)
  {
  }

  /** Parsing an encoded vdev gives what its list says, errors included, and ends exactly
      behind it. */
  lemma {:induction false} ParseInvertsEnc(D: seq<Byte>, p: nat, l: NvList, acc: Vdev)
    requires p > 0 && Encodable(l) && InStep(l) && At(D, p, Enc(l)) && p + |Enc(l)| < |D|
    ensures VdevList(D, Cursor(Native, p), acc) == EndingAt(VdevOf(l, acc), Cursor(Native, p + |Enc(l)|))
    decreases l
  {
    hide VdevList, VdevLists, FieldOf, Head, At, PairSize, Enc, Nested, Encodable;
    match l
    case Nil => VdevEnds(D, p, acc);
    case Entry(name, val, slack, rest) =>
      EntryParts(D, p, l);
      EntryOk(l);
      ChildrenNested(val);
      var q := p + PairSize(name, val, slack);
      if Text(name) == "children" && val.Lists? {
        ParseInvertsEncAll(D, q, val.ls, acc.children);
      }
      VdevOfEntry(D, p, l, acc);
      match AfterEntry(l, acc)
      case Err(_) =>
      case Ok(v) => ParseInvertsEnc(D, q + |Nested(val)|, rest, v);
  }

  lemma {:induction false} ParseInvertsEncAll(D: seq<Byte>, p: nat, ls: NvLists, acc: seq<Vdev>)
    requires p > 0 && AllEncodable(ls) && AllInStep(ls) && At(D, p, EncAll(ls)) && p + |EncAll(ls)| < |D|
    ensures VdevLists(D, Cursor(Native, p), Count(ls), acc) ==
      match VdevsOf(ls, acc)
      case Ok(vs) => Ok((vs, Cursor(Native, p + |EncAll(ls)|)))
      case Err(e) => Err(e)
    decreases ls
  {
    hide VdevList, VdevOf, At, Enc, Encodable, InStep;
    match ls
    case NoLists =>
    case More(l, os) =>
      ListsParts(D, p, ls);
      ParseInvertsEnc(D, p, l, NO_VDEV);
      match VdevOf(l, NO_VDEV)
      case Err(_) =>
      case Ok(v) => ParseInvertsEncAll(D, p + |Enc(l)|, os, acc + [v]);
  }

  // ---- What the parsed vdev holds ---------------------------------------------

  /** The members that the parser looks at have the types it expects, at every level. */
  predicate WellTyped(l: NvList)
    decreases l
  {
    match l
    case Nil => true
    case Entry(name, val, _, rest) =>
      && (Text(name) == "children" ==> val.Lists? && AllWellTyped(val.ls))
      && (Text(name) == "type" || Text(name) == "path" ==> val.Str?)
      && (Text(name) == "id" ==> val.Int? && val.w == 8 && !val.signed)
      && (Text(name) == "vdev_stats" ==>
            val.Ints? && val.aw == 8 && !val.asigned && |val.ns| > VS_FRAGMENTATION)
      && WellTyped(rest)
  }

  predicate AllWellTyped(ls: NvLists)
    decreases ls
  {
    match ls
    case NoLists => true
    case More(l, os) => WellTyped(l) && AllWellTyped(os)
  }

  /** The vdevs of all members named "children", in order. */
  function KidsIn(l: NvList): seq<Vdev>
    requires WellTyped(l)
    decreases l, 0
  {
    match l
    case Nil => []
    case Entry(name, val, _, rest) =>
      (if Text(name) == "children" then KidsOf(val.ls) else []) + KidsIn(rest)
  }

  function KidsOf(ls: NvLists): seq<Vdev>
    requires AllWellTyped(ls)
    decreases ls, 0
  {
    match ls
    case NoLists => []
    case More(l, os) => [VdevFrom(l)] + KidsOf(os)
  }

  function StringOr(v: Option<Val>, d: string): string {
    if v.Some? && v.value.Str? then Text(v.value.s) else d
  }

  function IdOr(v: Option<Val>, d: int): int {
    if v.Some? && v.value.Int? then v.value.n else d
  }

  function StatsOr(v: Option<Val>, d: VdevStats): VdevStats {
    if v.Some? && v.value.Ints? && ParseVdevStats(v.value.ns).Ok? then ParseVdevStats(v.value.ns).value else d
  }

  /** `acc` with each field taken from its last member in `l`, and the children appended. */
  function Overlay(l: NvList, acc: Vdev): Vdev
    requires WellTyped(l)
    decreases l, 1
  {
    Vdev(StringOr(LastVal(l, "type"), acc.vdevType), IdOr(LastVal(l, "id"), acc.id),
         StringOr(LastVal(l, "path"), acc.path), acc.children + KidsIn(l),
         StatsOr(LastVal(l, "vdev_stats"), acc.stats))
  }

  function VdevFrom(l: NvList): Vdev
    requires WellTyped(l)
    decreases l, 2
  {
    Overlay(l, NO_VDEV)
  }

  /** Parsing succeeds exactly for well-typed lists, and then each field is that of the last
      member with its name, wherever it stands among the others. */
  lemma {:induction false} VdevOfIsOverlay(l: NvList, acc: Vdev)
    ensures VdevOf(l, acc).Ok? <==> WellTyped(l)
    ensures WellTyped(l) ==> VdevOf(l, acc) == Ok(Overlay(l, acc))
    decreases l
  {
    hide ParseVdevStats;
    match l
    case Nil => assert acc.children + [] == acc.children;
    case Entry(name, val, _, rest) =>
      if Text(name) == "children" && val.Lists? {
        VdevsOfIsKids(val.ls, acc.children);
      }
      StatsLength(val);
      match AfterEntry(l, acc)
      case Err(_) =>
      case Ok(v) =>
        VdevOfIsOverlay(rest, v);
        if WellTyped(l) {
          OverlayEntry(l, acc, v);
        }
  }

  lemma StatsLength(val: Val)
    ensures val.Ints? ==> (ParseVdevStats(val.ns).Ok? <==> |val.ns| > VS_FRAGMENTATION)
  {
  }

  lemma {:induction false} LastValTyped(l: NvList)
    requires WellTyped(l)
    ensures LastVal(l, "type").Some? ==> LastVal(l, "type").value.Str?
    ensures LastVal(l, "path").Some? ==> LastVal(l, "path").value.Str?
    ensures LastVal(l, "id").Some? ==> LastVal(l, "id").value.Int?
    ensures LastVal(l, "vdev_stats").Some? ==>
      LastVal(l, "vdev_stats").value.Ints? && |LastVal(l, "vdev_stats").value.ns| > VS_FRAGMENTATION
    decreases l
  {
    hide AllWellTyped;
    if l.Entry? {
      LastValTyped(l.rest);
    }
  }

  lemma OverlayStrings(l: NvList, acc: Vdev, v: Vdev)
    requires l.Entry? && WellTyped(l) && AfterEntry(l, acc) == Ok(v)
    ensures StringOr(LastVal(l.rest, "type"), v.vdevType) == StringOr(LastVal(l, "type"), acc.vdevType)
    ensures StringOr(LastVal(l.rest, "path"), v.path) == StringOr(LastVal(l, "path"), acc.path)
  {
    hide ParseVdevStats, AllWellTyped, VdevsOf;
    LastValTyped(l.rest);
  }

  lemma OverlayNumbers(l: NvList, acc: Vdev, v: Vdev)
    requires l.Entry? && WellTyped(l) && AfterEntry(l, acc) == Ok(v)
    ensures IdOr(LastVal(l.rest, "id"), v.id) == IdOr(LastVal(l, "id"), acc.id)
    ensures StatsOr(LastVal(l.rest, "vdev_stats"), v.stats) == StatsOr(LastVal(l, "vdev_stats"), acc.stats)
  {
    hide ParseVdevStats, AllWellTyped, VdevsOf;
    LastValTyped(l.rest);
    if LastVal(l.rest, "vdev_stats").Some? {
      StatsLength(LastVal(l.rest, "vdev_stats").value);
    }
  }

  lemma OverlayChildren(l: NvList, acc: Vdev, v: Vdev)
    requires l.Entry? && WellTyped(l) && AfterEntry(l, acc) == Ok(v)
    requires Text(l.name) == "children" ==> v.children == acc.children + KidsOf(l.val.ls)
    ensures v.children + KidsIn(l.rest) == acc.children + KidsIn(l)
  {
    hide ParseVdevStats, KidsOf, AllWellTyped, VdevsOf;
    var k := if Text(l.name) == "children" then KidsOf(l.val.ls) else [];
    assert v.children == acc.children + k;
    assert acc.children + k + KidsIn(l.rest) == acc.children + (k + KidsIn(l.rest));
  }

  lemma OverlayEntry(l: NvList, acc: Vdev, v: Vdev)
    requires l.Entry? && WellTyped(l) && AfterEntry(l, acc) == Ok(v)
    requires Text(l.name) == "children" ==> v.children == acc.children + KidsOf(l.val.ls)
    ensures Overlay(l.rest, v) == Overlay(l, acc)
  {
    hide AfterEntry, KidsIn, LastVal;
    OverlayStrings(l, acc, v);
    OverlayNumbers(l, acc, v);
    OverlayChildren(l, acc, v);
  }

  lemma {:induction false} VdevsOfIsKids(ls: NvLists, acc: seq<Vdev>)
    ensures VdevsOf(ls, acc).Ok? <==> AllWellTyped(ls)
    ensures AllWellTyped(ls) ==> VdevsOf(ls, acc) == Ok(acc + KidsOf(ls))
    decreases ls
  {
    match ls
    case NoLists => assert acc + [] == acc;
    case More(l, os) =>
      VdevOfIsOverlay(l, NO_VDEV);
      match VdevOf(l, NO_VDEV)
      case Err(_) =>
      case Ok(v) =>
        VdevsOfIsKids(os, acc + [v]);
        if AllWellTyped(ls) {
          assert acc + [v] + KidsOf(os) == acc + ([v] + KidsOf(os));
        }
  }

  // ---- Where one skip is not enough -------------------------------------------

  /** One call of `Skip` over the lists of an array, with the rest of the list around them
      behind it, ends behind the array exactly when the array has one element. */
  lemma OneSkipIff(D: seq<Byte>, p: nat, ls: NvLists, rest: NvList)
    requires p > 0 && AllEncodable(ls) && Encodable(rest)
    requires At(D, p, EncAll(ls) + Enc(rest)) && p + |EncAll(ls)| + |Enc(rest)| < |D|
    ensures SkipList(D, Cursor(Native, p)) == Ok(Cursor(Native, p + |EncAll(ls)|)) <==> Count(ls) == 1
  {
    hide SkipList, At, Enc, EncAll;
    AtSplit(D, p, EncAll(ls), Enc(rest));
    EncAllEmptyIff(ls);
    match ls
    case NoLists => SkipIsExact(D, p, rest);
    case More(l, os) =>
      ListsParts(D, p, ls);
      SkipIsExact(D, p, l);
      EncAllEmptyIff(os);
  }

  lemma EncAllEmptyIff(ls: NvLists)
    ensures |EncAll(ls)| == 0 <==> ls == NoLists
    ensures Count(ls) == 0 <==> ls == NoLists
  {
    if ls.More? {
      assert |EncAll(ls)| == |Enc(ls.first)| + |EncAll(ls.others)|;
    }
  }

  /** A step over an unknown member with lists: one call of `Skip`. */
  lemma UnknownStep(D: seq<Byte>, c: Cursor, s: Step, acc: Vdev)
    requires NextAt(D, c) == s && s.Pair? && HoldsLists(s.tok)
    requires Text(s.name) != "children" && !IsField(Text(s.name))
    ensures SkipList(D, s.next).Ok? ==> VdevList(D, c, acc) == VdevList(D, SkipList(D, s.next).value, acc)
  {
    hide NextAt, SkipList, VdevLists, FieldAt;
  }

  /** Where the two lists of an array lie. */
  lemma TwoListsAt(D: seq<Byte>, p: nat, l: NvList, A: NvList, B: NvList)
    requires p > 0 && Encodable(l) && At(D, p, Enc(l)) && p + |Enc(l)| < |D|
    requires l.Entry? && l.val == Lists(More(A, More(B, NoLists)))
    ensures var (q, s) := (p + PairSize(l.name, l.val, l.slack), EntryStep(p, l.name, l.val, l.slack));
      && NextAt(D, Cursor(Native, p)) == s && s.Pair? && s.name == l.name && HoldsLists(s.tok)
      && s.next == Cursor(Native, q)
      && Encodable(A) && At(D, q, Enc(A)) && q + |Enc(A)| < |D|
      && Encodable(B) && At(D, q + |Enc(A)|, Enc(B)) && q + |Enc(A)| + |Enc(B)| < |D|
      && q + |Enc(A)| + |Enc(B)| == p + |Enc(l)| - |Enc(l.rest)|
  {
    hide *;
    var q := p + PairSize(l.name, l.val, l.slack);
    EntryOk(l);
    ArraysHoldLists();
    BothEncodable(A, B);
    ChildrenNested(l.val);
    EntryParts(D, p, l);
    StepOverEntry(D, p, l);
    EntryFacts(p, l);
    ListsParts(D, q, l.val.ls);
    ListsParts(D, q + |Enc(A)|, l.val.ls.others);
    NoListsEmpty();
  }

  lemma BothEncodable(A: NvList, B: NvList)
    requires AllEncodable(More(A, More(B, NoLists)))
    ensures Encodable(A) && Encodable(B)
  {
    hide Encodable;
  }

  lemma ArraysHoldLists()
    ensures HoldsLists(NVLIST_ARRAY)
  {
  }

  lemma NoListsEmpty()
    ensures EncAll(NoLists) == []
  {
  }

  /** An unknown member with two lists, A and B: the parser takes the members of B for its
      own, stops at the end of B and never sees the rest of the list. */
  lemma TwoElementArrayLeaks(D: seq<Byte>, p: nat, l: NvList, A: NvList, B: NvList, acc: Vdev)
    requires p > 0 && Encodable(l) && At(D, p, Enc(l)) && p + |Enc(l)| < |D|
    requires l.Entry? && Text(l.name) != "children" && !IsField(Text(l.name))
    requires l.val == Lists(More(A, More(B, NoLists))) && InStep(B)
    ensures VdevList(D, Cursor(Native, p), acc) ==
            EndingAt(VdevOf(B, acc), Cursor(Native, p + |Enc(l)| - |Enc(l.rest)|))
  {
    hide *;
    var q := p + PairSize(l.name, l.val, l.slack);
    TwoListsAt(D, p, l, A, B);
    UnknownStep(D, Cursor(Native, p), EntryStep(p, l.name, l.val, l.slack), acc);
    SkipIsExact(D, q, A);
    ParseInvertsEnc(D, q + |Enc(A)|, B, acc);
  }

  /** A vdev with an unknown array of two empty lists in front of its id. */
  function BrokenList(): NvList {
    Entry([120], Lists(More(Nil, More(Nil, NoLists))), [], Entry([105, 100], Int(8, false, 5), [], Nil))
  }

  lemma BrokenListMeans()
    ensures Encodable(BrokenList()) && VdevOf(BrokenList(), NO_VDEV) == Ok(NO_VDEV.(id := 5))
  {
    Widths();
    assert Text([120]) == "x" && Text([105, 100]) == "id";
    var r := BrokenList().rest;
    assert VdevOf(r, NO_VDEV) == VdevOf(Nil, NO_VDEV.(id := 5));
    assert Encodable(r) && AllEncodable(BrokenList().val.ls);
  }

  /** The parser does not read that list as it stands: it stops before the id. */
  lemma TwoElementArrayExample(version: nat, flags: nat)
    ensures VdevOf(BrokenList(), NO_VDEV) == Ok(NO_VDEV.(id := 5))
    ensures var D := Header(version, flags) + Enc(BrokenList()) + [0];
      VdevList(D, Cursor(Native, HEADER_SIZE), NO_VDEV)
      == Ok((NO_VDEV, Cursor(Native, HEADER_SIZE + |Enc(BrokenList())| - |Enc(BrokenList().rest)|)))
  {
    hide VdevList, At, Enc, Header, Encodable;
    var l := BrokenList();
    BrokenListMeans();
    HeaderThenList(version, flags, l, [0]);
    assert Text(l.name) == "x";
    TwoElementArrayLeaks(Header(version, flags) + Enc(l) + [0], HEADER_SIZE, l, Nil, Nil, NO_VDEV);
  }

  // ---- Arbitrary bytes: where a parse ends ------------------------------------

  /** In a run of the parser, each unknown array of lists declares one element. */
  predicate RunInStep(D: seq<Byte>, c: Cursor)
    decreases |D| - c.pos, 0, 0
  {
    match NextAt(D, c)
    case Bad(_) => true
    case End(_) => true
    case Pair(tok, name, num, _, _, next) =>
      if Text(name) == "children" && tok == NVLIST_ARRAY then
        && RunsInStep(D, next, num)
        && match SkipLists(D, next, num) case Ok(d) => RunInStep(D, d) case Err(_) => true
      else if !IsField(Text(name)) && HoldsLists(tok) then
        && (tok == NVLIST_ARRAY ==> num == 1)
        && match SkipList(D, next) case Ok(d) => RunInStep(D, d) case Err(_) => true
      else RunInStep(D, next)
  }

  predicate RunsInStep(D: seq<Byte>, c: Cursor, n: nat)
    decreases |D| - c.pos, 1, n
  {
    n > 0 ==>
      && RunInStep(D, c)
      && match SkipList(D, c) case Ok(d) => RunsInStep(D, d, n - 1) case Err(_) => true
  }

  /** On any bytes: a parse that succeeds in step ends where `Skip` ends. */
  lemma {:induction false} ParseAgreesWithSkip(D: seq<Byte>, c: Cursor, acc: Vdev)
    requires VdevList(D, c, acc).Ok? && RunInStep(D, c)
    ensures SkipList(D, c) == Ok(VdevList(D, c, acc).value.1)
    decreases |D| - c.pos, 0, 0
  {
    hide NextAt, FieldAt;
    var s := NextAt(D, c);
    match s {
      case Bad(_) =>
      case End(_) =>
      case Pair(tok, name, num, _, _, next) =>
        if Text(name) == "children" {
          ParsesAgreeWithSkips(D, next, num, acc.children);
          var x := VdevLists(D, next, num, acc.children).value;
          ParseAgreesWithSkip(D, x.1, acc.(children := x.0));
        } else if IsField(Text(name)) {
          FieldIsNoList(D, s, acc);
          ParseAgreesWithSkip(D, next, FieldAt(D, s, acc).value);
        } else if HoldsLists(tok) {
          OneList(D, next);
          ParseAgreesWithSkip(D, SkipList(D, next).value, acc);
        } else {
          ParseAgreesWithSkip(D, next, acc);
        }
    }
  }

  lemma FieldIsNoList(D: seq<Byte>, s: Step, acc: Vdev)
    requires s.Pair? && IsField(Text(s.name)) && FieldAt(D, s, acc).Ok?
    ensures !HoldsLists(s.tok)
  {
    hide WordAt, ViewAt, StringAt;
  }

  lemma OneList(D: seq<Byte>, c: Cursor)
    ensures SkipLists(D, c, 1) == SkipList(D, c)
  {
    hide SkipList;
    match SkipList(D, c)
    case Err(_) =>
    case Ok(d) => assert SkipLists(D, d, 0) == Ok(d);
  }

  lemma {:induction false} ParsesAgreeWithSkips(D: seq<Byte>, c: Cursor, n: nat, acc: seq<Vdev>)
    requires VdevLists(D, c, n, acc).Ok? && RunsInStep(D, c, n)
    ensures SkipLists(D, c, n) == Ok(VdevLists(D, c, n, acc).value.1)
    decreases |D| - c.pos, 1, n
  {
    hide VdevList, SkipList, RunInStep;
    if n > 0 {
      ParseAgreesWithSkip(D, c, NO_VDEV);
      var x := VdevList(D, c, NO_VDEV).value;
      ParsesAgreeWithSkips(D, x.1, n - 1, acc + [x.0]);
    }
  }

  // ---- Appended bytes ---------------------------------------------------------

  lemma FieldStable(D: seq<Byte>, E: seq<Byte>, s: Step, acc: Vdev)
    requires D <= E && s.Pair? && IsField(Text(s.name)) && FieldAt(D, s, acc).Ok?
    ensures FieldAt(E, s, acc) == FieldAt(D, s, acc)
  {
    hide View, UntilNul, WordAt;
    var (dp, dl) := (s.dataPos, s.dataLen);
    if s.tok == UINT64 {
      WordStable(D, E, dp, dl, 8, false);
    } else if s.tok == UINT64_ARRAY {
      StatsStable(D, E, dp, s.num);
    } else {
      UntilNulStable(D, E, dp, dl);
    }
  }

  /** More bytes can only lengthen the part of an array inside the buffer, and the
      statistics look at its first elements only. */
  lemma StatsStable(D: seq<Byte>, E: seq<Byte>, p: nat, n: nat)
    requires D <= E && ParseVdevStats(View(D, p, 8, false, n)).Ok?
    ensures ParseVdevStats(View(E, p, 8, false, n)) == ParseVdevStats(View(D, p, 8, false, n))
  {
    hide View;
    ViewGrows(D, E, p, n);
    var v, w := View(D, p, 8, false, n), View(E, p, 8, false, n);
    assert forall i :: 0 <= i < |v| ==> w[i] == v[i];
  }

  lemma {:induction false} ViewGrows(D: seq<Byte>, E: seq<Byte>, p: nat, n: nat)
    requires D <= E
    ensures View(D, p, 8, false, n) <= View(E, p, 8, false, n)
    decreases n
  {
    hide FromLE, Reading;
    if n > 0 && p + 8 <= |D| {
      PrefixSlice(D, E, p, p + 8);
      ViewGrows(D, E, p + 8, n - 1);
    }
  }

  lemma {:induction false} VdevStable(D: seq<Byte>, E: seq<Byte>, c: Cursor, acc: Vdev)
    requires D <= E && VdevList(D, c, acc).Ok?
    ensures VdevList(E, c, acc) == VdevList(D, c, acc)
    decreases |D| - c.pos, 0, 0
  {
    hide NextAt, FieldAt;
    NextStable(D, E, c);
    var s := NextAt(D, c);
    if s.Pair? {
      var (name, next) := (Text(s.name), s.next);
      if name == "children" {
        VdevsStable(D, E, next, s.num, acc.children);
        var x := VdevLists(D, next, s.num, acc.children).value;
        VdevStable(D, E, x.1, acc.(children := x.0));
      } else if IsField(name) {
        FieldStable(D, E, s, acc);
        VdevStable(D, E, next, FieldAt(D, s, acc).value);
      } else if HoldsLists(s.tok) {
        SkipStable(D, E, next);
        VdevStable(D, E, SkipList(D, next).value, acc);
      } else {
        VdevStable(D, E, next, acc);
      }
    }
  }

  lemma {:induction false} VdevsStable(D: seq<Byte>, E: seq<Byte>, c: Cursor, n: nat, acc: seq<Vdev>)
    requires D <= E && VdevLists(D, c, n, acc).Ok?
    ensures VdevLists(E, c, n, acc) == VdevLists(D, c, n, acc)
    decreases |D| - c.pos, 1, n
  {
    hide VdevList;
    if n > 0 {
      VdevStable(D, E, c, NO_VDEV);
      var x := VdevList(D, c, NO_VDEV).value;
      VdevsStable(D, E, x.1, n - 1, acc + [x.0]);
    }
  }
}
