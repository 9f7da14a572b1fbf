/**
 Decoding the statistics of one pool: its state, its error count and its vdev tree, each
 wherever it stands among members that are skipped.
 */
module Pools {
  import opened Basics
  import opened NvFormat
  import opened NvEncode
  import opened NvRuns
  import opened NvTheorems
  import opened NvRoundTrip
  import opened NvReader
  import opened Vdevs
  import States

  datatype PoolInfo = PoolInfo(state: string, errorCount: int, vdev: Option<Vdev>)

  const NO_POOL := PoolInfo("", 0, None)

  predicate IsCounter(name: string) {
    name == "state" || name == "error_count"
  }

  /** Decode one of the two number members. */
  function CounterAt(D: seq<Byte>, s: Step, acc: PoolInfo): Result<PoolInfo>
    requires s.Pair? && IsCounter(Text(s.name))
  {
    if s.tok != UINT64 then Err(Rejected("invalid " + Text(s.name))) else
    match WordAt(D, s.dataPos, s.dataLen, 8, false)
    case Err(e) => Err(e)
    case Ok(n) => Ok(SetCounter(Text(s.name), n, acc))
  }

  function SetCounter(name: string, n: int, acc: PoolInfo): PoolInfo {
    if name == "state" then acc.(state := States.PoolStateString(n)) else acc.(errorCount := n)
  }

  function PoolList(D: seq<Byte>, c: Cursor, acc: PoolInfo): (r: Result<(PoolInfo, Cursor)>)
    ensures r.Ok? ==> c.pos < r.value.1.pos < |D|
    decreases |D| - c.pos
  {
    var s := NextAt(D, c);
    match s
    case Bad(e) => Err(e)
    case End(next) => Ok((acc, next))
    case Pair(tok, name, _, _, _, next) =>
      if IsCounter(Text(name)) then
        match CounterAt(D, s, acc)
        case Err(e) => Err(e)
        case Ok(a) => PoolList(D, next, a)
      else if Text(name) == "vdev_tree" then
        if tok != NVLIST then Err(Rejected("invalid vdev_tree")) else
        match VdevList(D, next, NO_VDEV)
        case Err(e) => Err(e)
        case Ok(x) => PoolList(D, x.1, acc.(vdev := Some(x.0)))
      else if HoldsLists(tok) then
        match SkipList(D, next)
        case Err(e) => Err(e)
        case Ok(d) => PoolList(D, d, acc)
      else PoolList(D, next, acc)
  }

  /** The decode loop of `handlePool`. */
  method DecodePool(r: NVListReader) returns (p: Result<PoolInfo>)
    requires r.Valid()
    modifies r
    ensures match PoolList(r.Data, old(r.Here()), NO_POOL)
            case Ok(x) => p == Ok(x.0) && r.Here() == x.1
            case Err(e) => p == Err(e)
    ensures r.Frugal(p.Ok?, old(r.calls), old(r.pos))
  {
    hide NextAt, SkipList, VdevList;
    var state, errorCount: int, vdev: Option<Vdev> := "", 0, None;
    while true
      invariant r.Valid() && old(r.pos) <= r.pos && (r.pos > old(r.pos) ==> r.pos < |r.Data|)
      invariant PoolList(r.Data, r.Here(), PoolInfo(state, errorCount, vdev))
                == PoolList(r.Data, old(r.Here()), NO_POOL)
      invariant r.Frugal(true, old(r.calls), old(r.pos))
      decreases |r.Data| - r.pos
    {
      var t := r.Next();
      match t {
        case EOF => return Ok(PoolInfo(state, errorCount, vdev));
        case Error(e) => return Err(e);
        case Token(_) =>
      }
      var token := t.t;
      if r.Name() == "state" {
        assert "invalid " + "state" == "invalid state";
        if token != UINT64 { return Err(Rejected("invalid state")); }
        var n := r.Scalar(8, false);
        if n.Err? { return Err(n.error); }
        state := States.PoolStateString(n.value);
      } else if r.Name() == "error_count" {
        assert "invalid " + "error_count" == "invalid error_count";
        if token != UINT64 { return Err(Rejected("invalid error_count")); }
        var n := r.Scalar(8, false);
        if n.Err? { return Err(n.error); }
        errorCount := n.value;
      } else if r.Name() == "vdev_tree" {
        if token != NVLIST { return Err(Rejected("invalid vdev_tree")); }
        var v := ParseVdevs(r);
        if v.Err? { return Err(v.error); }
        vdev := Some(v.value);
      } else if token == NVLIST || token == NVLIST_ARRAY {
        var e := r.Skip();
        if e.Err? { return Err(e.error); }
      }
    }
    assert false;
  }

  // ---- What a list says about a pool ------------------------------------------

  function CounterOf(name: string, val: Val, acc: PoolInfo): Result<PoolInfo>
    requires IsCounter(name)
  {
    if val.Int? && val.w == 8 && !val.signed then Ok(SetCounter(name, val.n, acc))
    else Err(Rejected("invalid " + name))
  }

  function PoolEntry(name: string, val: Val, acc: PoolInfo): Result<PoolInfo> {
    if IsCounter(name) then CounterOf(name, val, acc)
    else if name == "vdev_tree" then
      match val
      case List(t) => (match VdevOf(t, NO_VDEV) case Ok(v) => Ok(acc.(vdev := Some(v))) case Err(e) => Err(e))
      case _ => Err(Rejected("invalid vdev_tree"))
    else Ok(acc)
  }

  function PoolOf(l: NvList, acc: PoolInfo): Result<PoolInfo> {
    match l
    case Nil => Ok(acc)
    case Entry(name, val, _, rest) =>
      match PoolEntry(Text(name), val, acc)
      case Err(e) => Err(e)
      case Ok(a) => PoolOf(rest, a)
  }

  /** Unknown arrays of lists have one element, at the top and inside the vdev tree. */
  predicate PoolInStep(l: NvList) {
    match l
    case Nil => true
    case Entry(name, val, _, rest) =>
      && (Text(name) == "vdev_tree" && val.List? ==> InStep(val.l))
      && (Text(name) != "vdev_tree" && !IsCounter(Text(name)) && val.Lists? ==> Count(val.ls) == 1)
      && PoolInStep(rest)
  }

  lemma PoolOfEntry(D: seq<Byte>, p: nat, l: NvList, acc: PoolInfo)
    requires p > 0 && l.Entry? && Encodable(l) && PoolInStep(l) && At(D, p, Enc(l)) && p + |Enc(l)| < |D|
    ensures PoolList(D, Cursor(Native, p), acc) ==
      match PoolEntry(Text(l.name), l.val, acc)
      case Err(e) => Err(e)
      case Ok(a) => PoolList(D, Cursor(Native, p + PairSize(l.name, l.val, l.slack) + |Nested(l.val)|), a)
  {
    hide NextAt, CounterAt, CounterOf, Head, At, PairSize, Enc, VdevList, VdevOf, SkipList, EntryStep, TypeOf,
         ValBytes, ValueOffset, Encodable, InStep;
    EntryParts(D, p, l);
    EntryOk(l);
    StepOverEntry(D, p, l);
    EntryFacts(p, l);
    var q := p + PairSize(l.name, l.val, l.slack);
    if IsCounter(Text(l.name)) {
      CounterOfEntry(D, p, l, acc);
    } else if Text(l.name) == "vdev_tree" {
      if l.val.List? {
        ParseInvertsEnc(D, q, l.val.l, NO_VDEV);
      }
    } else if l.val.List? || l.val.Lists? {
      SkipOverNested(D, q, l.val);
    }
  }

  lemma CounterOfEntry(D: seq<Byte>, p: nat, l: NvList, acc: PoolInfo)
    requires l.Entry? && Encodable(l) && IsCounter(Text(l.name))
    requires At(D, p + ValueOffset(l.name), ValBytes(l.val))
    requires At(D, p + ValueOffset(l.name), ValBytes(l.val) + l.slack)
    ensures CounterAt(D, EntryStep(p, l.name, l.val, l.slack), acc) == CounterOf(Text(l.name), l.val, acc)
    ensures CounterOf(Text(l.name), l.val, acc).Ok? ==> Nested(l.val) == []
  {
    hide WordAt, ValueOffset, At, SetCounter, EntryStep;
    EntryFacts(p, l);
    var q := p + ValueOffset(l.name);
    AtSlice(D, q, ValBytes(l.val) + l.slack);
    match l.val {
      case Int(w, signed, n) =>
        if w == 8 && !signed {
          IntRead(D, q, |ValBytes(l.val)| + |l.slack|, n, w, signed);
        }
      case _ =>
    }
  }

  lemma PoolEnds(D: seq<Byte>, p: nat, acc: PoolInfo)
    requires p > 0 && At(D, p, Enc(Nil)) && p + |Enc(Nil)| < |D|
    ensures PoolList(D, Cursor(Native, p), acc) == Ok((acc, Cursor(Native, p + |Enc(Nil)|)))
  {
    hide NextAt, At;
    StepOverEnd(D, p);
  }

  /** Decoding an encoded pool gives what its list says, wherever the members stand. */
  lemma {:induction false} DecodeInvertsEnc(D: seq<Byte>, p: nat, l: NvList, acc: PoolInfo)
    requires p > 0 && Encodable(l) && PoolInStep(l) && At(D, p, Enc(l)) && p + |Enc(l)| < |D|
    ensures PoolList(D, Cursor(Native, p), acc) ==
      match PoolOf(l, acc)
      case Ok(a) => Ok((a, Cursor(Native, p + |Enc(l)|)))
      case Err(e) => Err(e)
    decreases l
  {
    hide PoolList, PoolEntry, Head, At, PairSize, Enc, Nested, Encodable;
    match l
    case Nil => PoolEnds(D, p, acc);
    case Entry(name, val, slack, rest) =>
      EntryParts(D, p, l);
      EntryOk(l);
      PoolOfEntry(D, p, l, acc);
      match PoolEntry(Text(name), val, acc)
      case Err(_) =>
      case Ok(a) => DecodeInvertsEnc(D, p + PairSize(name, val, slack) + |Nested(val)|, rest, a);
  }

  // ---- What the decoded pool holds --------------------------------------------

  predicate PoolWellTyped(l: NvList) {
    match l
    case Nil => true
    case Entry(name, val, _, rest) =>
      && (IsCounter(Text(name)) ==> val.Int? && val.w == 8 && !val.signed)
      && (Text(name) == "vdev_tree" ==> val.List? && WellTyped(val.l))
      && PoolWellTyped(rest)
  }

  function StateOr(v: Option<Val>, d: string): string {
    if v.Some? && v.value.Int? then States.PoolStateString(v.value.n) else d
  }

  function TreeOr(v: Option<Val>, d: Option<Vdev>): Option<Vdev> {
    if v.Some? && v.value.List? && WellTyped(v.value.l) then Some(VdevFrom(v.value.l)) else d
  }

  function PoolOverlay(l: NvList, acc: PoolInfo): PoolInfo {
    PoolInfo(StateOr(LastVal(l, "state"), acc.state), IdOr(LastVal(l, "error_count"), acc.errorCount),
             TreeOr(LastVal(l, "vdev_tree"), acc.vdev))
  }

  /** Decoding succeeds exactly for well-typed lists, and then each of the three fields is
      that of the last member with its name. */
  lemma {:induction false} PoolOfIsOverlay(l: NvList, acc: PoolInfo)
    ensures PoolOf(l, acc).Ok? <==> PoolWellTyped(l)
    ensures PoolWellTyped(l) ==> PoolOf(l, acc) == Ok(PoolOverlay(l, acc))
  {
    hide VdevOf, WellTyped, VdevFrom;
    match l
    case Nil =>
    case Entry(name, val, _, rest) =>
      if val.List? {
        TreeOverlay(val.l);
      }
      match PoolEntry(Text(name), val, acc)
      case Err(_) =>
      case Ok(a) =>
        PoolOfIsOverlay(rest, a);
        if PoolWellTyped(l) {
          PoolLastTyped(rest);
        }
  }

  lemma TreeOverlay(l: NvList)
    ensures VdevOf(l, NO_VDEV).Ok? <==> WellTyped(l)
    ensures WellTyped(l) ==> VdevOf(l, NO_VDEV) == Ok(VdevFrom(l))
  {
    hide VdevOf, WellTyped, Overlay;
    VdevOfIsOverlay(l, NO_VDEV);
  }

  lemma {:induction false} PoolLastTyped(l: NvList)
    requires PoolWellTyped(l)
    ensures LastVal(l, "state").Some? ==> LastVal(l, "state").value.Int?
    ensures LastVal(l, "error_count").Some? ==> LastVal(l, "error_count").value.Int?
    ensures LastVal(l, "vdev_tree").Some? ==>
      LastVal(l, "vdev_tree").value.List? && WellTyped(LastVal(l, "vdev_tree").value.l)
  {
    hide WellTyped;
    if l.Entry? {
      PoolLastTyped(l.rest);
    }
  }

  // ---- Appended bytes ---------------------------------------------------------

  lemma {:induction false} PoolStable(D: seq<Byte>, E: seq<Byte>, c: Cursor, acc: PoolInfo)
    requires D <= E && PoolList(D, c, acc).Ok?
    ensures PoolList(E, c, acc) == PoolList(D, c, acc)
    decreases |D| - c.pos
  {
    hide NextAt, VdevList, SkipList, WordAt, SetCounter;
    NextStable(D, E, c);
    var s := NextAt(D, c);
    if s.Pair? {
      var (name, next) := (Text(s.name), s.next);
      if IsCounter(name) {
        WordStable(D, E, s.dataPos, s.dataLen, 8, false);
        PoolStable(D, E, next, CounterAt(D, s, acc).value);
      } else if name == "vdev_tree" {
        VdevStable(D, E, next, NO_VDEV);
        var x := VdevList(D, next, NO_VDEV).value;
        PoolStable(D, E, x.1, acc.(vdev := Some(x.0)));
      } else if HoldsLists(s.tok) {
        SkipStable(D, E, next);
        PoolStable(D, E, SkipList(D, next).value, acc);
      } else {
        PoolStable(D, E, next, acc);
      }
    }
  }
}
