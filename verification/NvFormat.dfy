/**
 The native nvlist layout as one declarative decoding step: what a reader that stands
 at a cursor finds there. The class in NvReader.dfy reaches the same answer field by field.
 */
module NvFormat {
  import opened Basics

  type NVType = t: nat | t < 0x1_0000_0000

  const UNKNOWN: NVType := 0
  const BOOLEAN: NVType := 1
  const BYTE: NVType := 2
  const INT16: NVType := 3
  const UINT16: NVType := 4
  const INT32: NVType := 5
  const UINT32: NVType := 6
  const INT64: NVType := 7
  const UINT64: NVType := 8
  const STRING: NVType := 9
  const BYTE_ARRAY: NVType := 10
  const INT16_ARRAY: NVType := 11
  const UINT16_ARRAY: NVType := 12
  const INT32_ARRAY: NVType := 13
  const UINT32_ARRAY: NVType := 14
  const INT64_ARRAY: NVType := 15
  const UINT64_ARRAY: NVType := 16
  const STRING_ARRAY: NVType := 17
  const HRTIME: NVType := 18
  const NVLIST: NVType := 19
  const NVLIST_ARRAY: NVType := 20
  const BOOLEAN_VALUE: NVType := 21
  const INT8: NVType := 22
  const UINT8: NVType := 23
  const BOOLEAN_ARRAY: NVType := 24
  const INT8_ARRAY: NVType := 25
  const UINT8_ARRAY: NVType := 26
  const DOUBLE: NVType := 27

  const MAX_ELEMENTS := 65535

  datatype Encoding = Native | Xdr

  function Alignment(e: Encoding): (a: nat)
    ensures a > 0
  {
    if e == Native then 8 else 4
  }

  /** Where a reader stands. Position 0 means that the list header is still to be read. */
  datatype Cursor = Cursor(enc: Encoding, pos: nat)

  /** What one call of `Next` finds. `dataLen` can be negative. */
  datatype Step =
    | Pair(tok: NVType, name: seq<Byte>, num: nat, dataPos: nat, dataLen: int, next: Cursor)
    | End(next: Cursor)
    | Bad(error: Error)

  function I16(D: seq<Byte>, p: nat): int
    requires p + 2 <= |D|
  {
    ToSigned(FromLE(D[p..p + 2]), 2)
  }

  function I32(D: seq<Byte>, p: nat): int
    requires p + 4 <= |D|
  {
    ToSigned(FromLE(D[p..p + 4]), 4)
  }

  function U32(D: seq<Byte>, p: nat): nat
    requires p + 4 <= |D|
  {
    FromLE(D[p..p + 4])
  }

  const HEADER_SIZE := 12

  function HeaderAt(D: seq<Byte>): Result<Encoding> {
    if |D| < 1 then Err(InvalidData)
    else if D[0] > 1 then Err(InvalidEncoding)
    else if |D| < 2 then Err(InvalidData)
    else if D[1] == 0 then Err(BigEndianUnsupported)
    else if D[1] != 1 then Err(InvalidEndianess)
    else if |D| <= HEADER_SIZE then Err(InvalidData)
    else Ok(if D[0] == 0 then Native else Xdr)
  }

  /** The first offset at or after `p` that lies a whole number of alignment units past `start`. */
  function AlignUp(start: nat, p: nat, e: Encoding): (q: nat)
    requires start <= p
    ensures p <= q < p + Alignment(e)
    ensures (q - start) % Alignment(e) == 0
  {
    match e
    case Native => if (p - start) % 8 == 0 then p else p + (8 - (p - start) % 8)
    case Xdr => if (p - start) % 4 == 0 then p else p + (4 - (p - start) % 4)
  }

  datatype Fields = Fields(nameSize: nat, num: nat, tok: NVType) | BadFields

  /** The fixed fields behind the pair size: name size, a reserved word, element count, type. */
  function FieldsAt(D: seq<Byte>, h: nat): (f: Fields)
    ensures f.Fields? ==> f.nameSize > 0 && f.num <= MAX_ELEMENTS && h + 12 < |D|
  {
    if h + 12 >= |D| then BadFields else
    var nameSize := I16(D, h);
    var num := I32(D, h + 4);
    if nameSize <= 0 || !(0 <= num <= MAX_ELEMENTS) then BadFields
    else Fields(nameSize, num, U32(D, h + 8))
  }

  /** The pair of `size` bytes at a cursor. In XDR mode four more bytes precede the fields. */
  function BodyAt(D: seq<Byte>, c: Cursor, size: nat): (s: Step)
    requires size > 0
    ensures s.Pair? ==> s.next == Cursor(c.enc, c.pos + size) && s.next.pos + 4 < |D| && s.num <= MAX_ELEMENTS
    ensures !s.Pair? ==> s == Bad(InvalidData)
  {
    var h := if c.enc == Xdr then c.pos + 8 else c.pos + 4;
    if c.pos + 4 + size >= |D| then Bad(InvalidData) else
    match FieldsAt(D, h)
    case BadFields => Bad(InvalidData)
    case Fields(nameSize, num, tok) =>
      if h + 12 + nameSize >= |D| then Bad(InvalidData)
      else PairStep(c, size, tok, num, D[h + 12..h + 12 + nameSize - 1], h + 12 + nameSize)
  }

  /** The pair whose name ends at `p`: its value starts at the next aligned offset. */
  function PairStep(c: Cursor, size: nat, tok: NVType, num: nat, name: seq<Byte>, p: nat): Step
    requires c.pos <= p
  {
    var q := AlignUp(c.pos, p, c.enc);
    Pair(tok, name, num, if tok == STRING_ARRAY then q + 8 * num else q,
         c.pos + size - q, Cursor(c.enc, c.pos + size))
  }

  /** The pair or end mark at a cursor past the header. */
  function PairAt(D: seq<Byte>, c: Cursor): (s: Step)
    ensures s.Pair? ==> c.pos < s.next.pos && s.next.pos + 4 < |D| && s.num <= MAX_ELEMENTS
    ensures s.End? ==> s.next == Cursor(c.enc, c.pos + 4) && s.next.pos < |D|
  {
    if c.pos + 4 >= |D| then Bad(InvalidData) else
    var size := I32(D, c.pos);
    if size < 0 then Bad(InvalidData)
    else if size == 0 then End(Cursor(c.enc, c.pos + 4))
    else BodyAt(D, c, size)
  }

  /** What `Next` finds from any cursor, reading the header first at position 0. */
  function NextAt(D: seq<Byte>, c: Cursor): (s: Step)
    ensures s.Pair? ==> c.pos < s.next.pos && s.next.pos + 4 < |D| && s.num <= MAX_ELEMENTS
    ensures s.End? ==> c.pos + 4 <= s.next.pos < |D|
  {
    if c.pos == 0 then
      match HeaderAt(D)
      case Ok(e) => PairAt(D, Cursor(e, HEADER_SIZE))
      case Err(e) => Bad(e)
    else PairAt(D, c)
  }

  lemma FieldsStable(D: seq<Byte>, E: seq<Byte>, h: nat)
    requires D <= E && FieldsAt(D, h).Fields?
    ensures FieldsAt(E, h) == FieldsAt(D, h)
  {
    PrefixSlice(D, E, h, h + 2);
    PrefixSlice(D, E, h + 4, h + 8);
    PrefixSlice(D, E, h + 8, h + 12);
  }

  lemma BodyStable(D: seq<Byte>, E: seq<Byte>, c: Cursor, size: nat)
    requires D <= E && size > 0 && BodyAt(D, c, size).Pair?
    ensures BodyAt(E, c, size) == BodyAt(D, c, size)
  {
    hide FieldsAt, PairStep;
    var h := if c.enc == Xdr then c.pos + 8 else c.pos + 4;
    FieldsStable(D, E, h);
    PrefixSlice(D, E, h + 12, h + 12 + FieldsAt(D, h).nameSize - 1);
  }

  lemma PairStable(D: seq<Byte>, E: seq<Byte>, c: Cursor)
    requires D <= E && !PairAt(D, c).Bad?
    ensures PairAt(E, c) == PairAt(D, c)
  {
    PrefixSlice(D, E, c.pos, c.pos + 4);
    if I32(D, c.pos) > 0 {
      BodyStable(D, E, c, I32(D, c.pos));
    }
  }

  /** Bytes appended behind the buffer do not change a step that succeeds. */
  lemma NextStable(D: seq<Byte>, E: seq<Byte>, c: Cursor)
    requires D <= E && !NextAt(D, c).Bad?
    ensures NextAt(E, c) == NextAt(D, c)
  {
    if c.pos > 0 {
      PairStable(D, E, c);
    } else {
      PairStable(D, E, Cursor(HeaderAt(D).value, HEADER_SIZE));
    }
  }
}
