/**
 Property lists as data, and the bytes of their native encoding: the independent
 reference that the decoders are proved against.
 */
module NvEncode {
  import opened Basics
  import opened NvFormat

  type Width = w: nat | w == 1 || w == 2 || w == 4 || w == 8 witness 1

  /** A member's value. `Raw` is a member of a type no consumer looks at. */
  datatype Val =
    | Flag
    | ByteV(b: Byte)
    | BoolV(v: bool)
    | Int(w: Width, signed: bool, n: int)
    | Str(s: seq<Byte>)
    | Bytes(bs: seq<Byte>)
    | Ints(aw: Width, asigned: bool, ns: seq<int>)
    | Bools(vs: seq<bool>)
    | Strs(ss: seq<seq<Byte>>)
    | Raw(t: nat, num: nat)
    | List(l: NvList)
    | Lists(ls: NvLists)

  /** `slack` is whatever follows the value inside the pair: padding, or the in-memory
      list structures that precede a nested list. Its bytes are arbitrary. */
  datatype NvList = Nil | Entry(name: seq<Byte>, val: Val, slack: seq<Byte>, rest: NvList)

  datatype NvLists = NoLists | More(first: NvList, others: NvLists)

  function Count(ls: NvLists): nat {
    match ls case NoLists => 0 case More(_, os) => 1 + Count(os)
  }

  /** The value of the last member with this name. */
  function LastVal(l: NvList, key: string): Option<Val> {
    match l
    case Nil => None
    case Entry(name, val, _, rest) =>
      match LastVal(rest, key)
      case Some(v) => Some(v)
      case None => if Text(name) == key then Some(val) else None
  }

  function TypeOf(v: Val): nat {
    match v
    case Flag => BOOLEAN
    case ByteV(_) => BYTE
    case BoolV(_) => BOOLEAN_VALUE
    case Int(w, signed, _) =>
      if w == 1 then (if signed then INT8 else UINT8)
      else if w == 2 then (if signed then INT16 else UINT16)
      else if w == 4 then (if signed then INT32 else UINT32)
      else (if signed then INT64 else UINT64)
    case Str(_) => STRING
    case Bytes(_) => BYTE_ARRAY
    case Ints(w, signed, _) =>
      if w == 1 then (if signed then INT8_ARRAY else UINT8_ARRAY)
      else if w == 2 then (if signed then INT16_ARRAY else UINT16_ARRAY)
      else if w == 4 then (if signed then INT32_ARRAY else UINT32_ARRAY)
      else (if signed then INT64_ARRAY else UINT64_ARRAY)
    case Bools(_) => BOOLEAN_ARRAY
    case Strs(_) => STRING_ARRAY
    case Raw(t, _) => t
    case List(_) => NVLIST
    case Lists(_) => NVLIST_ARRAY
  }

  function NumOf(v: Val): nat {
    match v
    case Flag => 0
    case ByteV(_) => 1
    case BoolV(_) => 1
    case Int(_, _, _) => 1
    case Str(_) => 1
    case Bytes(bs) => |bs|
    case Ints(_, _, ns) => |ns|
    case Bools(vs) => |vs|
    case Strs(ss) => |ss|
    case Raw(_, num) => num
    case List(_) => 1
    case Lists(ls) => Count(ls)
  }

  // ---- Which lists can be encoded ---------------------------------------------

  predicate AllFit(ns: seq<int>, w: nat, signed: bool) {
    forall i :: 0 <= i < |ns| ==> Fits(ns[i], w, signed)
  }

  predicate ValOk(v: Val) {
    match v
    case Int(w, signed, n) => Fits(n, w, signed)
    case Ints(w, signed, ns) => AllFit(ns, w, signed)
    case Str(s) => 0 !in s
    case Strs(ss) => forall i :: 0 <= i < |ss| ==> 0 !in ss[i]
    case Raw(t, _) => t == HRTIME || (DOUBLE <= t < 0x1_0000_0000)
    case List(l) => Encodable(l)
    case Lists(ls) => AllEncodable(ls)
    case _ => true
  }

  /** Every member respects the format's limits: an int16 name size, an int32 pair size,
      at most 65535 elements, NUL-free strings and integers that fit their width. */
  predicate Encodable(l: NvList) {
    match l
    case Nil => true
    case Entry(name, val, slack, rest) =>
      && |name| + 1 < 0x8000
      && NumOf(val) <= MAX_ELEMENTS
      && ValOk(val)
      && PairSize(name, val, slack) < 0x8000_0000
      && Encodable(rest)
  }

  predicate AllEncodable(ls: NvLists) {
    match ls
    case NoLists => true
    case More(l, os) => Encodable(l) && AllEncodable(os)
  }

  // ---- The encoding -----------------------------------------------------------

  function IntBytes(ns: seq<int>, w: nat, signed: bool): seq<Byte>
    requires AllFit(ns, w, signed)
  {
    if ns == [] then [] else LE(ToUnsigned(ns[0], w), w) + IntBytes(ns[1..], w, signed)
  }

  function BoolBytes(v: bool): seq<Byte> {
    LE(if v then 1 else 0, 4)
  }

  function BoolsBytes(vs: seq<bool>): seq<Byte> {
    if vs == [] then [] else BoolBytes(vs[0]) + BoolsBytes(vs[1..])
  }

  function StrsBytes(ss: seq<seq<Byte>>): seq<Byte> {
    if ss == [] then [] else ss[0] + [0] + StrsBytes(ss[1..])
  }

  /** The value bytes of a pair, before its slack. An array of strings starts with eight
      bytes of pointer space an element. */
  function ValBytes(v: Val): seq<Byte> {
    match v
    case ByteV(b) => [b]
    case BoolV(b) => BoolBytes(b)
    case Int(w, signed, n) => if Fits(n, w, signed) then LE(ToUnsigned(n, w), w) else []
    case Str(s) => s + [0]
    case Bytes(bs) => bs
    case Ints(w, signed, ns) => if AllFit(ns, w, signed) then IntBytes(ns, w, signed) else []
    case Bools(vs) => BoolsBytes(vs)
    case Strs(ss) => Zeros(8 * |ss|) + StrsBytes(ss)
    case _ => []
  }

  /** The value starts at the next multiple of eight behind the fixed fields, the name and its NUL. */
  function ValueOffset(name: seq<Byte>): (n: nat)
    ensures n >= 17 + |name|
  {
    (|name| + 24) / 8 * 8
  }

  lemma ValueIsAligned(p: nat, name: seq<Byte>)
    ensures AlignUp(p, p + 17 + |name|, Native) == p + ValueOffset(name)
  {
  }

  function PairSize(name: seq<Byte>, val: Val, slack: seq<Byte>): nat {
    ValueOffset(name) + |ValBytes(val)| + |slack|
  }

  function Fixed(size: nat, nameSize: nat, num: nat, tok: nat): (s: seq<Byte>)
    ensures |s| == 16
  {
    LE(size, 4) + LE(nameSize, 2) + LE(0, 2) + LE(num, 4) + LE(tok, 4)
  }

  /** A pair up to its value: fixed fields, NUL-terminated name, padding. */
  function Front(name: seq<Byte>, val: Val, slack: seq<Byte>): (s: seq<Byte>)
    ensures |s| == ValueOffset(name)
  {
    Fixed(PairSize(name, val, slack), |name| + 1, NumOf(val), TypeOf(val))
    + (name + [0] + Zeros(ValueOffset(name) - 17 - |name|))
  }

  function Head(name: seq<Byte>, val: Val, slack: seq<Byte>): (s: seq<Byte>)
    ensures |s| == PairSize(name, val, slack)
  {
    Front(name, val, slack) + (ValBytes(val) + slack)
  }

  /** Nested lists are not inside the pair: they follow it. */
  function Nested(v: Val): seq<Byte> {
    match v
    case List(l) => Enc(l)
    case Lists(ls) => EncAll(ls)
    case _ => []
  }

  function Enc(l: NvList): (s: seq<Byte>)
    ensures |s| >= 4
  {
    match l
    case Nil => Zeros(4)
    case Entry(name, val, slack, rest) => Head(name, val, slack) + (Nested(val) + Enc(rest))
  }

  function EncAll(ls: NvLists): seq<Byte> {
    match ls
    case NoLists => []
    case More(l, os) => Enc(l) + EncAll(os)
  }

  /** Encoding byte, endianness byte, two reserved bytes, version and flags. */
  function Header(version: nat, flags: nat): (s: seq<Byte>)
    ensures |s| == HEADER_SIZE
  {
    [0, 1, 0, 0] + LE(version, 4) + LE(flags, 4)
  }

  // ---- One step over encoded bytes --------------------------------------------

  lemma FixedFields(D: seq<Byte>, p: nat, size: nat, nameSize: nat, num: nat, tok: nat)
    requires size < 0x8000_0000 && nameSize < 0x8000 && num <= MAX_ELEMENTS && tok < 0x1_0000_0000
    requires At(D, p, Fixed(size, nameSize, num, tok))
    ensures I32(D, p) == size && I16(D, p + 4) == nameSize
    ensures I32(D, p + 8) == num && U32(D, p + 12) == tok
  {
    var a, b, c, d, e := LE(size, 4), LE(nameSize, 2), LE(0, 2), LE(num, 4), LE(tok, 4);
    AtSplit(D, p, a + b + c + d, e);
    AtSplit(D, p, a + b + c, d);
    AtSplit(D, p, a + b, c);
    AtSplit(D, p, a, b);
    AtSlice(D, p, a);
    AtSlice(D, p + 4, b);
    AtSlice(D, p + 8, d);
    AtSlice(D, p + 12, e);
    Widths();
    FromLEInvertsLE(size, 4);
    FromLEInvertsLE(nameSize, 2);
    FromLEInvertsLE(num, 4);
    FromLEInvertsLE(tok, 4);
  }

  lemma FrontAt(D: seq<Byte>, p: nat, name: seq<Byte>, val: Val, slack: seq<Byte>)
    requires At(D, p, Front(name, val, slack))
    ensures At(D, p, Fixed(PairSize(name, val, slack), |name| + 1, NumOf(val), TypeOf(val)))
    ensures p + 17 + |name| <= |D| && D[p + 16..p + 16 + |name|] == name
  {
    hide LE, Fixed, PairSize, ValueOffset, ValBytes;
    var f := Fixed(PairSize(name, val, slack), |name| + 1, NumOf(val), TypeOf(val));
    var z := Zeros(ValueOffset(name) - 17 - |name|);
    AtSplit(D, p, f, name + [0] + z);
    AtSplit(D, p + 16, name + [0], z);
    AtSplit(D, p + 16, name, [0]);
    AtSlice(D, p + 16, name);
  }

  /** The step found at an encoded pair. */
  function EntryStep(p: nat, name: seq<Byte>, val: Val, slack: seq<Byte>): Step {
    var q := p + ValueOffset(name);
    var t := TypeOf(val);
    Pair(if t < 0x1_0000_0000 then t else 0, name, NumOf(val),
         if t == STRING_ARRAY then q + 8 * NumOf(val) else q,
         |ValBytes(val)| + |slack|,
         Cursor(Native, p + PairSize(name, val, slack)))
  }

  lemma EntryOk(l: NvList)
    requires l.Entry? && Encodable(l)
    ensures ValOk(l.val) && Encodable(l.rest)
    ensures l.val.List? ==> Encodable(l.val.l)
    ensures l.val.Lists? ==> AllEncodable(l.val.ls)
  {
  }

  lemma EntryFacts(p: nat, l: NvList)
    requires l.Entry? && Encodable(l)
    ensures var s := EntryStep(p, l.name, l.val, l.slack);
      && s.Pair? && s.name == l.name && s.tok == TypeOf(l.val) && s.num == NumOf(l.val)
      && (l.val.Lists? ==> s.num == Count(l.val.ls))
      && (!l.val.Strs? ==> s.dataPos == p + ValueOffset(l.name))
      && s.dataLen == |ValBytes(l.val)| + |l.slack|
      && s.next == Cursor(Native, p + PairSize(l.name, l.val, l.slack))
      && (s.tok == NVLIST <==> l.val.List?) && (s.tok == NVLIST_ARRAY <==> l.val.Lists?)
  {
    hide ValueOffset, ValBytes, Encodable, PairSize;
    EntryOk(l);
  }

  lemma StepFromFields(D: seq<Byte>, p: nat, size: nat, name: seq<Byte>, num: nat, tok: nat)
    requires p > 0 && 0 < size && num <= MAX_ELEMENTS && tok < 0x1_0000_0000
    requires p + size + 4 < |D| && p + 17 + |name| < |D|
    requires I32(D, p) == size && I16(D, p + 4) == |name| + 1
    requires I32(D, p + 8) == num && U32(D, p + 12) == tok
    requires D[p + 16..p + 16 + |name|] == name
    ensures var q := p + ValueOffset(name);
      NextAt(D, Cursor(Native, p)) == Pair(tok, name, num, if tok == STRING_ARRAY then q + 8 * num else q,
                                           p + size - q, Cursor(Native, p + size))
  {
    hide ValueOffset, AlignUp;
    ValueIsAligned(p, name);
  }

  lemma StepOverEntry(D: seq<Byte>, p: nat, l: NvList)
    requires p > 0 && l.Entry? && Encodable(l)
    requires At(D, p, Head(l.name, l.val, l.slack))
    requires p + PairSize(l.name, l.val, l.slack) + 4 < |D|
    ensures NextAt(D, Cursor(Native, p)) == EntryStep(p, l.name, l.val, l.slack)
    ensures At(D, p + ValueOffset(l.name), ValBytes(l.val))
    ensures At(D, p + ValueOffset(l.name), ValBytes(l.val) + l.slack)
  {
    var size := PairSize(l.name, l.val, l.slack);
    HeadFields(D, p, l);
    StepFromFields(D, p, size, l.name, NumOf(l.val), TypeOf(l.val));
  }

  lemma HeadParts(D: seq<Byte>, p: nat, l: NvList)
    requires l.Entry? && At(D, p, Head(l.name, l.val, l.slack))
    ensures At(D, p, Front(l.name, l.val, l.slack))
    ensures At(D, p + ValueOffset(l.name), ValBytes(l.val))
    ensures At(D, p + ValueOffset(l.name), ValBytes(l.val) + l.slack)
  {
    AtSplitAs(D, p, Head(l.name, l.val, l.slack), Front(l.name, l.val, l.slack), ValBytes(l.val) + l.slack);
    AtSplit(D, p + ValueOffset(l.name), ValBytes(l.val), l.slack);
  }

  lemma HeadFields(D: seq<Byte>, p: nat, l: NvList)
    requires l.Entry? && Encodable(l) && At(D, p, Head(l.name, l.val, l.slack))
    ensures p + 17 + |l.name| <= |D|
    ensures I32(D, p) == PairSize(l.name, l.val, l.slack) && I16(D, p + 4) == |l.name| + 1
    ensures I32(D, p + 8) == NumOf(l.val) && U32(D, p + 12) == TypeOf(l.val)
    ensures D[p + 16..p + 16 + |l.name|] == l.name
    ensures At(D, p + ValueOffset(l.name), ValBytes(l.val))
    ensures At(D, p + ValueOffset(l.name), ValBytes(l.val) + l.slack)
  {
    HeadParts(D, p, l);
    FrontAt(D, p, l.name, l.val, l.slack);
    FixedFields(D, p, PairSize(l.name, l.val, l.slack), |l.name| + 1, NumOf(l.val), TypeOf(l.val));
  }

  lemma StepOverEnd(D: seq<Byte>, p: nat)
    requires p > 0 && At(D, p, Zeros(4))
    ensures p + 4 < |D| ==> NextAt(D, Cursor(Native, p)) == End(Cursor(Native, p + 4))
    ensures p + 4 == |D| ==> NextAt(D, Cursor(Native, p)) == Bad(InvalidData)
  {
    Widths();
    FromLEInvertsLE(0, 4);
    assert LE(0, 4) == Zeros(4);
    AtSlice(D, p, Zeros(4));
  }

  /** A pair whose end coincides with the last end mark of a buffer without a tail. */
  lemma StepOverLastEntry(D: seq<Byte>, p: nat, l: NvList)
    requires p > 0 && l.Entry? && Encodable(l)
    requires At(D, p, Head(l.name, l.val, l.slack))
    requires p + PairSize(l.name, l.val, l.slack) + 4 == |D|
    ensures NextAt(D, Cursor(Native, p)) == Bad(InvalidData)
  {
    HeadFields(D, p, l);
  }

  lemma EncEntry(l: NvList)
    requires l.Entry?
    ensures Enc(l) == Head(l.name, l.val, l.slack) + (Nested(l.val) + Enc(l.rest))
    ensures |Enc(l)| == PairSize(l.name, l.val, l.slack) + |Nested(l.val)| + |Enc(l.rest)|
  {
  }

  /** Where the parts of an encoded entry lie. */
  lemma EntryParts(D: seq<Byte>, p: nat, l: NvList)
    requires l.Entry? && At(D, p, Enc(l))
    ensures At(D, p, Head(l.name, l.val, l.slack))
    ensures At(D, p + PairSize(l.name, l.val, l.slack), Nested(l.val))
    ensures At(D, p + PairSize(l.name, l.val, l.slack) + |Nested(l.val)|, Enc(l.rest))
    ensures |Enc(l)| == PairSize(l.name, l.val, l.slack) + |Nested(l.val)| + |Enc(l.rest)|
  {
    hide At, Head, PairSize, Enc, Nested;
    EncEntry(l);
    AtSplit3(D, p, Head(l.name, l.val, l.slack), Nested(l.val), Enc(l.rest));
  }

  lemma ListsParts(D: seq<Byte>, p: nat, ls: NvLists)
    requires ls.More? && At(D, p, EncAll(ls))
    ensures At(D, p, Enc(ls.first)) && At(D, p + |Enc(ls.first)|, EncAll(ls.others))
    ensures |EncAll(ls)| == |Enc(ls.first)| + |EncAll(ls.others)|
  {
    AtSplitAs(D, p, EncAll(ls), Enc(ls.first), EncAll(ls.others));
  }

  /** A whole message: the header, then the list, then anything. */
  lemma HeaderThenList(version: nat, flags: nat, l: NvList, tail: seq<Byte>)
    ensures var D := Header(version, flags) + Enc(l) + tail;
      && |D| == HEADER_SIZE + |Enc(l)| + |tail|
      && At(D, HEADER_SIZE, Enc(l))
      && NextAt(D, Cursor(Native, 0)) == NextAt(D, Cursor(Native, HEADER_SIZE))
      && NextAt(D, Cursor(Xdr, 0)) == NextAt(D, Cursor(Native, HEADER_SIZE))
  {
    var D := Header(version, flags) + Enc(l) + tail;
    assert D[HEADER_SIZE..HEADER_SIZE + |Enc(l)|] == Enc(l);
    assert D[0] == 0 && D[1] == 1;
  }
}
