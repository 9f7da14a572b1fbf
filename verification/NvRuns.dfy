/**
 What whole runs over a buffer mean: skipping a list, scanning with one counter, and
 unmarshalling into a generic map. These are the specifications of the reader's methods,
 on arbitrary bytes.
 */
module NvRuns {
  import opened Basics
  import opened NvFormat

  // ---- Skip -------------------------------------------------------------------

  /** Skip the rest of the list the cursor is in, up to and with its end mark. */
  function SkipList(D: seq<Byte>, c: Cursor): (r: Result<Cursor>)
    ensures r.Ok? ==> c.pos + 4 <= r.value.pos < |D|
    decreases |D| - c.pos, 0, 0
  {
    match NextAt(D, c)
    case Bad(e) => Err(e)
    case End(next) => Ok(next)
    case Pair(tok, _, num, _, _, next) =>
      if tok == NVLIST then
        match SkipList(D, next)
        case Err(e) => Err(e)
        case Ok(d) => SkipList(D, d)
      else if tok == NVLIST_ARRAY then
        match SkipLists(D, next, num)
        case Err(e) => Err(e)
        case Ok(d) => SkipList(D, d)
      else SkipList(D, next)
  }

  /** Skip `n` lists that follow each other. */
  function SkipLists(D: seq<Byte>, c: Cursor, n: nat): (r: Result<Cursor>)
    ensures r.Ok? ==> c.pos + 4 * n <= r.value.pos && (n > 0 ==> r.value.pos < |D|)
    ensures n == 0 ==> r == Ok(c)
    decreases |D| - c.pos, 1, n
  {
    if n == 0 then Ok(c) else
    match SkipList(D, c)
    case Err(e) => Err(e)
    case Ok(d) => SkipLists(D, d, n - 1)
  }

  // ---- A scanner with one counter ---------------------------------------------

  /** How many lists a step opens. */
  function Opens(s: Step): nat {
    if s.Pair? && s.tok == NVLIST then 1
    else if s.Pair? && s.tok == NVLIST_ARRAY then s.num
    else 0
  }

  /** Read steps until `pending` lists have ended: no recursion, no stack. */
  function Scan(D: seq<Byte>, c: Cursor, pending: nat): (r: Result<Cursor>)
    decreases |D| - c.pos
  {
    if pending == 0 then Ok(c) else
    var s := NextAt(D, c);
    match s
    case Bad(e) => Err(e)
    case End(next) => Scan(D, next, pending - 1)
    case Pair(_, _, _, _, _, next) => Scan(D, next, pending + Opens(s))
  }

  /** The steps that `Scan` reads. */
  function Trace(D: seq<Byte>, c: Cursor, pending: nat): (t: seq<Step>)
    decreases |D| - c.pos
  {
    if pending == 0 then [] else
    var s := NextAt(D, c);
    match s
    case Bad(_) => [s]
    case End(next) => [s] + Trace(D, next, pending - 1)
    case Pair(_, _, _, _, _, next) => [s] + Trace(D, next, pending + Opens(s))
  }

  function Ends(t: seq<Step>): nat {
    if t == [] then 0 else (if t[0].End? then 1 else 0) + Ends(t[1..])
  }

  function Opened(t: seq<Step>): nat {
    if t == [] then 0 else Opens(t[0]) + Opened(t[1..])
  }

  // ---- Values -----------------------------------------------------------------

  /** A decoded Go value; integers keep their width and signedness. */
  datatype Value =
    | GoBool(b: bool)
    | GoInt(w: nat, signed: bool, n: int)
    | GoString(s: string)
    | GoInts(aw: nat, asigned: bool, ns: seq<int>)
    | GoBools(bs: seq<bool>)
    | GoStrings(ss: seq<string>)
    | GoMap(m: map<string, Value>)
    | GoMaps(ms: seq<map<string, Value>>)

  /** A fixed-width integer of two or more bytes: the Go code slices out the data of the pair. */
  function WordAt(D: seq<Byte>, dp: nat, dl: int, w: nat, signed: bool): Result<int> {
    if dl < w || dp + dl > |D| then Err(Fault)
    else Ok(Reading(FromLE(D[dp..dp + w]), w, signed))
  }

  /** A one-byte integer: the Go code indexes the buffer and does not look at the data length. */
  function ByteAt(D: seq<Byte>, dp: nat, signed: bool): Result<int> {
    if dp >= |D| then Err(Fault) else Ok(Reading(D[dp], 1, signed))
  }

  function ScalarAt(D: seq<Byte>, dp: nat, dl: int, w: nat, signed: bool): Result<int> {
    if w == 1 then ByteAt(D, dp, signed) else WordAt(D, dp, dl, w, signed)
  }

  /** The elements of an unsafe slice of `n` integers that lie inside the buffer. */
  function View(D: seq<Byte>, p: nat, w: nat, signed: bool, n: nat): (v: seq<int>)
    ensures |v| <= n
    decreases n
  {
    if n == 0 || p + w > |D| then []
    else [Reading(FromLE(D[p..p + w]), w, signed)] + View(D, p + w, w, signed, n - 1)
  }

  function ViewAt(D: seq<Byte>, dp: nat, dl: int, w: nat, signed: bool, n: nat): Result<seq<int>> {
    if dl < 0 || dp + dl > |D| then Err(Fault) else Ok(View(D, dp, w, signed, n))
  }

  /** The bytes before the first NUL among the next `n`. */
  function UntilNul(D: seq<Byte>, p: nat, n: int): Result<seq<Byte>>
    decreases if n < 0 then 0 else n
  {
    if n <= 0 then Err(InvalidData)
    else if p >= |D| then Err(Fault)
    else if D[p] == 0 then Ok([])
    else After([D[p]], UntilNul(D, p + 1, n - 1))
  }

  function After(xs: seq<Byte>, r: Result<seq<Byte>>): Result<seq<Byte>> {
    match r
    case Ok(s) => Ok(xs + s)
    case Err(e) => Err(e)
  }

  lemma {:induction false} UntilNulFinds(D: seq<Byte>, p: nat, n: int, k: nat)
    requires k < n && p + k < |D| && D[p + k] == 0
    requires 0 !in D[p..p + k]
    ensures UntilNul(D, p, n) == Ok(D[p..p + k])
    decreases k
  {
    if k == 0 {
      assert D[p..p + k] == [];
    } else {
      assert D[p..p + k] == [D[p]] + D[p + 1..p + k];
      assert D[p] in D[p..p + k];
      UntilNulFinds(D, p + 1, n - 1, k - 1);
    }
  }

  lemma {:induction false} UntilNulMisses(D: seq<Byte>, p: nat, n: int, k: nat)
    requires k > 0 ==> p + k <= |D| && 0 !in D[p..p + k]
    requires k >= n || (k < n && p + k >= |D|)
    ensures UntilNul(D, p, n) == Err(if k < n then Fault else InvalidData)
    decreases k
  {
    if n > 0 && p < |D| {
      assert D[p..p + k] == [D[p]] + D[p + 1..p + k];
      assert D[p] in D[p..p + k];
      UntilNulMisses(D, p + 1, n - 1, k - 1);
    }
  }

  function BooleanAt(D: seq<Byte>, dp: nat, dl: int): Result<bool> {
    match WordAt(D, dp, dl, 4, true)
    case Err(e) => Err(e)
    case Ok(n) => if n == 0 then Ok(false) else if n == 1 then Ok(true) else Err(InvalidData)
  }

  function StringAt(D: seq<Byte>, dp: nat, dl: int): Result<string> {
    match UntilNul(D, dp, dl)
    case Ok(s) => Ok(Text(s))
    case Err(e) => Err(e)
  }

  function Repeat<T>(x: T, n: nat): seq<T> {
    seq(n, _ => x)
  }

  datatype Leaf = Store(v: Value) | Ignore | Fail(error: Error)

  function Stored<T>(r: Result<T>, wrap: T -> Value): Leaf {
    match r case Ok(x) => Store(wrap(x)) case Err(e) => Fail(e)
  }

  function IntLeaf(D: seq<Byte>, s: Step, w: nat, signed: bool): Leaf
    requires s.Pair?
  {
    Stored(ScalarAt(D, s.dataPos, s.dataLen, w, signed), n => GoInt(w, signed, n))
  }

  /** Cloning an unsafe slice reads all of its elements. */
  function IntsLeaf(D: seq<Byte>, s: Step, w: nat, signed: bool): Leaf
    requires s.Pair?
  {
    match ViewAt(D, s.dataPos, s.dataLen, w, signed, s.num)
    case Err(e) => Fail(e)
    case Ok(v) => if |v| < s.num then Fail(Fault) else Store(GoInts(w, signed, v))
  }

  /** What unmarshalling stores for a pair that holds no list. */
  function LeafOf(D: seq<Byte>, s: Step): Leaf
    requires s.Pair?
  {
    var (dp, dl, t) := (s.dataPos, s.dataLen, s.tok);
    if t == UNKNOWN then Fail(InvalidData)
    else if t == BOOLEAN then Store(GoBool(true))
    else if t == INT16 then IntLeaf(D, s, 2, true)
    else if t == UINT16 then IntLeaf(D, s, 2, false)
    else if t == INT32 then IntLeaf(D, s, 4, true)
    else if t == UINT32 then IntLeaf(D, s, 4, false)
    else if t == INT64 then IntLeaf(D, s, 8, true)
    else if t == UINT64 then IntLeaf(D, s, 8, false)
    else if t == INT8 then IntLeaf(D, s, 1, true)
    else if t == UINT8 || t == BYTE then IntLeaf(D, s, 1, false)
    else if t == STRING then Stored(StringAt(D, dp, dl), x => GoString(x))
    else if t == BOOLEAN_VALUE then Stored(BooleanAt(D, dp, dl), x => GoBool(x))
    else if t == INT8_ARRAY then IntsLeaf(D, s, 1, true)
    else if t == UINT8_ARRAY then IntsLeaf(D, s, 1, false)
    else if t == INT16_ARRAY then IntsLeaf(D, s, 2, true)
    else if t == UINT16_ARRAY then IntsLeaf(D, s, 2, false)
    else if t == INT32_ARRAY then IntsLeaf(D, s, 4, true)
    else if t == UINT32_ARRAY then IntsLeaf(D, s, 4, false)
    else if t == INT64_ARRAY then IntsLeaf(D, s, 8, true)
    else if t == UINT64_ARRAY then IntsLeaf(D, s, 8, false)
    else if t == BYTE_ARRAY then
      if dl < 0 || dp + dl > |D| then Fail(Fault) else Store(GoInts(1, false, D[dp..dp + dl]))
    else if t == STRING_ARRAY then
      if s.num == 0 then Store(GoStrings([]))
      else Stored(StringAt(D, dp, dl), x => GoStrings(Repeat(x, s.num)))
    else if t == BOOLEAN_ARRAY then
      if s.num == 0 then Store(GoBools([]))
      else Stored(BooleanAt(D, dp, dl), x => GoBools(Repeat(x, s.num)))
    else Ignore
  }

  // ---- Unmarshal into a generic map -------------------------------------------

  function UnmarshalList(D: seq<Byte>, c: Cursor, acc: map<string, Value>)
    : (r: Result<(map<string, Value>, Cursor)>)
    ensures r.Ok? ==> c.pos < r.value.1.pos < |D|
    decreases |D| - c.pos, 0, 0
  {
    var s := NextAt(D, c);
    match s
    case Bad(e) => Err(e)
    case End(next) => Ok((acc, next))
    case Pair(tok, name, num, _, _, next) =>
      if tok == NVLIST then
        match UnmarshalList(D, next, map[])
        case Err(e) => Err(e)
        case Ok(x) => UnmarshalList(D, x.1, acc[Text(name) := GoMap(x.0)])
      else if tok == NVLIST_ARRAY then
        match UnmarshalLists(D, next, num, [])
        case Err(e) => Err(e)
        case Ok(x) => UnmarshalList(D, x.1, acc[Text(name) := GoMaps(x.0)])
      else
        match LeafOf(D, s)
        case Fail(e) => Err(e)
        case Ignore => UnmarshalList(D, next, acc)
        case Store(v) => UnmarshalList(D, next, acc[Text(name) := v])
  }

  function UnmarshalLists(D: seq<Byte>, c: Cursor, n: nat, acc: seq<map<string, Value>>)
    : (r: Result<(seq<map<string, Value>>, Cursor)>)
    ensures r.Ok? ==> c.pos <= r.value.1.pos && (n > 0 ==> r.value.1.pos < |D|)
    decreases |D| - c.pos, 1, n
  {
    if n == 0 then Ok((acc, c)) else
    match UnmarshalList(D, c, map[])
    case Err(e) => Err(e)
    case Ok(x) => UnmarshalLists(D, x.1, n - 1, acc + [x.0])
  }
}
