/**
 The mutable reader. `Next` reads one field after the other with a bounds check each;
 the other methods pull pairs through it. Each is proved to do what NvFormat and NvRuns
 say of the bytes, and to make no more calls of `Next` than it consumes bytes.
 */
module NvReader {
  import opened Basics
  import opened NvFormat
  import opened NvRuns

  datatype Token = Token(t: NVType) | EOF | Error(error: Error)

  class NVListReader {
    const Data: seq<Byte>
    var pos: nat
    var encoding: Encoding
    var alignment: nat
    var flags: nat
    var version: int
    var nameBytes: seq<Byte>
    var numElements: nat
    var dataPos: nat
    var dataLen: int
    var currentToken: NVType

    /** Calls of `Next` so far. */
    ghost var calls: nat

    ghost predicate Valid()
      reads this
    {
      pos > 0 ==> alignment == Alignment(encoding)
    }

    function Here(): Cursor
      reads this
    {
      Cursor(encoding, pos)
    }

    /** The reader has just found this pair. */
    ghost predicate Holds(s: Step)
      reads this
    {
      && s.Pair?
      && Here() == s.next
      && currentToken == s.tok && nameBytes == s.name && numElements == s.num
      && dataPos == s.dataPos && dataLen == s.dataLen
    }

    /** A call has returned `t` and left the reader as the step says. */
    ghost predicate Yields(t: Token, s: Step)
      reads this
    {
      match s
      case Bad(e) => t == Error(e)
      case End(next) => t == EOF && Here() == next
      case Pair(tok, _, _, _, _, _) => t == Token(tok) && Holds(s)
    }

    /** Since the reader stood at `from` and had made `before` calls of `Next`, a run that
        succeeds has made at most one for each byte it consumed, and a run that fails at most
        one more than there were bytes. */
    ghost predicate Frugal(ok: bool, before: nat, from: nat)
      reads this
    {
      calls - before <= if ok then pos - from else if from < |Data| then |Data| - from + 1 else 1
    }

    constructor (data: seq<Byte>)
      ensures Data == data && pos == 0 && encoding == Native && calls == 0 && Valid()
    {
      Data := data;
      pos, encoding, alignment, flags, version := 0, Native, 0, 0, 0;
      nameBytes, numElements, dataPos, dataLen, currentToken := [], 0, 0, 0, UNKNOWN;
      calls := 0;
    }

    method ReadByte() returns (r: Result<Byte>)
      modifies `pos
      ensures r == if old(pos) < |Data| then Ok(Data[old(pos)]) else Err(InvalidData)
      ensures pos == if r.Ok? then old(pos) + 1 else old(pos)
    {
      if pos < |Data| {
        r := Ok(Data[pos]);
        pos := pos + 1;
      } else {
        r := Err(InvalidData);
      }
    }

    method ReadInt32() returns (r: Result<int>)
      modifies `pos
      ensures r == if old(pos) + 4 < |Data| then Ok(I32(Data, old(pos))) else Err(InvalidData)
      ensures pos == if r.Ok? then old(pos) + 4 else old(pos)
    {
      if pos + 4 >= |Data| { return Err(InvalidData); }
      r := Ok(I32(Data, pos));
      pos := pos + 4;
    }

    method ReadInt16() returns (r: Result<int>)
      modifies `pos
      ensures r == if old(pos) + 2 < |Data| then Ok(I16(Data, old(pos))) else Err(InvalidData)
      ensures pos == if r.Ok? then old(pos) + 2 else old(pos)
    {
      if pos + 2 >= |Data| { return Err(InvalidData); }
      r := Ok(I16(Data, pos));
      pos := pos + 2;
    }

    method ReadUint32() returns (r: Result<nat>)
      modifies `pos
      ensures r == if old(pos) + 4 < |Data| then Ok(U32(Data, old(pos))) else Err(InvalidData)
      ensures pos == if r.Ok? then old(pos) + 4 else old(pos)
    {
      if pos + 4 >= |Data| { return Err(InvalidData); }
      r := Ok(U32(Data, pos));
      pos := pos + 4;
    }

    method ReadBytes(n: nat) returns (r: Result<seq<Byte>>)
      modifies `pos
      ensures r == if old(pos) + n < |Data| then Ok(Data[old(pos)..old(pos) + n]) else Err(InvalidData)
      ensures pos == if r.Ok? then old(pos) + n else old(pos)
    {
      if pos + n >= |Data| { return Err(InvalidData); }
      r := Ok(Data[pos..pos + n]);
      pos := pos + n;
    }

    method ReadNvHeader() returns (r: Result<()>)
      requires pos == 0
      modifies `pos, `encoding, `alignment, `version, `flags
      ensures match HeaderAt(Data)
              case Err(e) => r == Err(e)
              case Ok(e) =>
                && r == Ok(()) && Here() == Cursor(e, HEADER_SIZE) && Valid()
                && version == I32(Data, 4) && flags == U32(Data, 8)
    {
      var enc := ReadByte();
      if enc.Err? { return Err(enc.error); }
      if enc.value == 0 {
        encoding, alignment := Native, 8;
      } else if enc.value == 1 {
        encoding, alignment := Xdr, 4;
      } else {
        return Err(InvalidEncoding);
      }
      var end := ReadByte();
      if end.Err? { return Err(end.error); }
      if end.value != 0 && end.value != 1 { return Err(InvalidEndianess); }
      if end.value == 0 { return Err(BigEndianUnsupported); }
      pos := pos + 2;
      var v := ReadInt32();
      if v.Err? { return Err(v.error); }
      version := v.value;
      var f := ReadUint32();
      if f.Err? { return Err(f.error); }
      flags := f.value;
      return Ok(());
    }

    method AlignPos(startPos: nat)
      requires Valid() && 0 < startPos <= pos
      modifies `pos
      ensures pos == AlignUp(startPos, old(pos), encoding)
    {
      ghost var p := pos;
      if (pos - startPos) % alignment != 0 {
        pos := pos + (alignment - (pos - startPos) % alignment);
      }
      assert encoding == Native ==> alignment == 8 && pos == AlignUp(startPos, p, Native);
    }

    /** The fixed fields of a pair. */
    method NextFields() returns (f: Fields)
      modifies `pos, `numElements
      ensures f == FieldsAt(Data, old(pos))
      ensures f.Fields? ==> pos == old(pos) + 12 && numElements == f.num
      ensures pos >= old(pos)
    {
      var nameSize := ReadInt16();
      if nameSize.Err? || nameSize.value <= 0 { return BadFields; }
      var reserve := ReadInt16();
      if reserve.Err? { return BadFields; }
      var num := ReadInt32();
      if num.Err? || num.value < 0 || num.value > MAX_ELEMENTS { return BadFields; }
      numElements := num.value;
      var tok := ReadUint32();
      if tok.Err? { return BadFields; }
      Widths();
      return Fields(nameSize.value, num.value, tok.value);
    }

    /** The part of `Next` behind the name. */
    method FinishPair(startPos: nat, nextNVPairPos: nat, tok: NVType)
      requires Valid() && 0 < startPos <= pos && startPos <= nextNVPairPos
      modifies `pos, `dataPos, `dataLen, `currentToken
      ensures Holds(PairStep(Cursor(encoding, startPos), nextNVPairPos - startPos, tok, numElements, nameBytes, old(pos)))
      ensures currentToken == tok
    {
      AlignPos(startPos);
      dataPos := pos;
      dataLen := nextNVPairPos - pos;
      pos := nextNVPairPos;
      currentToken := tok;
      if tok == STRING_ARRAY {
        dataPos := dataPos + 8 * numElements;
      }
    }

    /** The part of `Next` behind the pair size. */
    method NextBody(startPos: nat, size: nat) returns (t: Token)
      requires Valid() && startPos > 0 && size > 0 && pos == startPos + 4
      modifies `pos, `numElements, `nameBytes, `dataPos, `dataLen, `currentToken
      ensures Yields(t, BodyAt(Data, Cursor(encoding, startPos), size))
      ensures !t.Token? ==> unchanged(`dataPos) && unchanged(`dataLen) && unchanged(`currentToken)
      ensures pos > 0
    {
      hide FieldsAt, PairStep;
      if pos + size >= |Data| { return Error(InvalidData); }
      var nextNVPairPos := startPos + size;
      if encoding == Xdr { pos := pos + 4; }
      var f := NextFields();
      if f.BadFields? { return Error(InvalidData); }
      var name := ReadBytes(f.nameSize);
      if name.Err? { return Error(name.error); }
      nameBytes := name.value[..|name.value| - 1];
      ghost var c := Cursor(encoding, startPos);
      assert BodyAt(Data, c, size) == PairStep(c, size, f.tok, numElements, nameBytes, pos) by {
        ghost var h := if encoding == Xdr then startPos + 8 else startPos + 4;
        assert f == FieldsAt(Data, h) && pos == h + 12 + f.nameSize;
        SliceInit(Data, h + 12, f.nameSize);
        assert nameBytes == Data[h + 12..h + 12 + f.nameSize - 1];
      }
      FinishPair(startPos, nextNVPairPos, f.tok);
      return Token(f.tok);
    }

    /** The part of `Next` behind the header. */
    method NextPair() returns (t: Token)
      requires Valid() && pos > 0
      modifies `pos, `numElements, `nameBytes, `dataPos, `dataLen, `currentToken
      ensures Valid()
      ensures Yields(t, PairAt(Data, old(Here())))
      ensures !t.Token? ==> unchanged(`dataPos) && unchanged(`dataLen) && unchanged(`currentToken)
    {
      var startPos := pos;
      var size := ReadInt32();
      if size.Err? { return Error(size.error); }
      if size.value < 0 { return Error(InvalidData); }
      if size.value == 0 { return EOF; }
      t := NextBody(startPos, size.value);
    }

    method Next() returns (t: Token)
      requires Valid()
      modifies this
      ensures !t.Error? ==> Valid()
      ensures Yields(t, NextAt(Data, old(Here())))
      ensures calls == old(calls) + 1
    {
      calls := calls + 1;
      if pos == 0 {
        var h := ReadNvHeader();
        if h.Err? { return Error(h.error); }
      }
      t := NextPair();
    }

    /** Skip the rest of the current list and everything nested in it. */
    method Skip() returns (r: Result<()>)
      requires Valid()
      modifies this
      ensures match SkipList(Data, old(Here()))
              case Ok(c) => r == Ok(()) && Here() == c && Valid()
              case Err(e) => r == Err(e)
      ensures r.Ok? ==> old(pos) < pos < |Data|
      ensures Frugal(r.Ok?, old(calls), old(pos))
      decreases |Data| - pos, 0
    {
      while true
        invariant Valid() && old(pos) <= pos && (pos > old(pos) ==> pos < |Data|)
        invariant SkipList(Data, Here()) == SkipList(Data, old(Here()))
        invariant Frugal(true, old(calls), old(pos))
        decreases |Data| - pos
      {
        var t := Next();
        match t {
          case EOF => return Ok(());
          case Error(e) => return Err(e);
          case Token(_) =>
        }
        if t.t == NVLIST {
          var e := Skip();
          if e.Err? { return e; }
        } else if t.t == NVLIST_ARRAY {
          var e := SkipElements();
          if e.Err? { return e; }
        }
      }
      assert false;
    }

    /** The loop over the lists of an nvlist array. */
    method SkipElements() returns (r: Result<()>)
      requires Valid()
      modifies this
      ensures match SkipLists(Data, old(Here()), old(numElements))
              case Ok(c) => r == Ok(()) && Here() == c && Valid()
              case Err(e) => r == Err(e)
      ensures r.Ok? ==> old(pos) <= pos && (pos > old(pos) ==> pos < |Data|)
      ensures Frugal(r.Ok?, old(calls), old(pos))
      decreases |Data| - pos, 1
    {
      var n := numElements;
      var i := 0;
      while i < n
        invariant 0 <= i <= n
        invariant Valid() && old(pos) <= pos && (pos > old(pos) ==> pos < |Data|)
        invariant SkipLists(Data, Here(), n - i) == SkipLists(Data, old(Here()), n)
        invariant Frugal(true, old(calls), old(pos))
      {
        var e := Skip();
        if e.Err? { return e; }
        i := i + 1;
      }
      return Ok(());
    }

    // ---- Accessors for the current pair ---------------------------------------

    /** `Int16`, `UInt16`, ... `UInt64`, and with width one `Int8`, `UInt8` and `Byte`. */
    function Scalar(w: nat, signed: bool): Result<int>
      reads this
    {
      ScalarAt(Data, dataPos, dataLen, w, signed)
    }

    /** `Int8Array`, ... `UInt64Array`: the part of the slice that lies inside the buffer. */
    function Array(w: nat, signed: bool): Result<seq<int>>
      reads this
    {
      ViewAt(Data, dataPos, dataLen, w, signed, numElements)
    }

    function ByteArray(): Result<seq<Byte>>
      reads this
    {
      if dataLen < 0 || dataPos + dataLen > |Data| then Err(Fault) else Ok(Data[dataPos..dataPos + dataLen])
    }

    function Name(): string
      reads this
    {
      Text(nameBytes)
    }

    /** How far a search of the data can go: to the end of the pair, or of the buffer. */
    ghost function SearchEnd(): (e: nat)
      reads this
      ensures dataPos <= |Data| ==> dataPos <= e <= |Data|
    {
      if dataLen <= 0 || dataPos > |Data| then dataPos
      else if dataPos + dataLen > |Data| then |Data|
      else dataPos + dataLen
    }

    method BytesUntilDelimiter(delim: Byte) returns (r: Result<seq<Byte>>)
      ensures r.Ok? ==>
        && |r.value| < dataLen && dataPos + |r.value| < |Data|
        && r.value == Data[dataPos..dataPos + |r.value|] && delim !in r.value
        && Data[dataPos + |r.value|] == delim
      ensures r.Err? && dataPos <= |Data| ==> delim !in Data[dataPos..SearchEnd()]
      ensures r.Err? ==> r.error == if dataLen > 0 && dataPos + dataLen > |Data| then Fault else InvalidData
      ensures delim == 0 ==> r == UntilNul(Data, dataPos, dataLen)
    {
      var i := 0;
      while i < dataLen
        invariant 0 <= i && (i > 0 ==> i <= dataLen && dataPos + i <= |Data|)
        invariant i > 0 ==> delim !in Data[dataPos..dataPos + i]
      {
        if dataPos + i >= |Data| {
          if delim == 0 { UntilNulMisses(Data, dataPos, dataLen, i); }
          return Err(Fault);
        }
        SliceSnoc(Data, dataPos, dataPos + i);
        if Data[dataPos + i] == delim {
          if delim == 0 { UntilNulFinds(Data, dataPos, dataLen, i); }
          return Ok(Data[dataPos..dataPos + i]);
        }
        i := i + 1;
      }
      if delim == 0 { UntilNulMisses(Data, dataPos, dataLen, i); }
      return Err(InvalidData);
    }

    method String() returns (r: Result<string>)
      ensures r == StringAt(Data, dataPos, dataLen)
    {
      var b := BytesUntilDelimiter(0);
      if b.Err? { return Err(b.error); }
      return Ok(Text(b.value));
    }

    method Boolean() returns (r: Result<bool>)
      ensures r == BooleanAt(Data, dataPos, dataLen)
    {
      var n := Scalar(4, true);
      if n.Err? { return Err(n.error); }
      if n.value == 0 { return Ok(false); }
      if n.value == 1 { return Ok(true); }
      return Err(InvalidData);
    }

    /** The cursor into the data never moves, so each element repeats the first. */
    method BooleanArray() returns (r: Result<seq<bool>>)
      ensures r == if numElements == 0 then Ok([]) else
                   match BooleanAt(Data, dataPos, dataLen)
                   case Ok(b) => Ok(Repeat(b, numElements))
                   case Err(e) => Err(e)
    {
      var dst: seq<bool> := [];
      while |dst| < numElements
        invariant |dst| <= numElements
        invariant |dst| > 0 ==> BooleanAt(Data, dataPos, dataLen).Ok?
        invariant forall i :: 0 <= i < |dst| ==> dst[i] == BooleanAt(Data, dataPos, dataLen).value
      {
        var s := Boolean();
        if s.Err? { return Err(s.error); }
        dst := dst + [s.value];
      }
      assert numElements > 0 ==> dst == Repeat(BooleanAt(Data, dataPos, dataLen).value, numElements);
      return Ok(dst);
    }

    method StringArray() returns (r: Result<seq<string>>)
      ensures r == if numElements == 0 then Ok([]) else
                   match StringAt(Data, dataPos, dataLen)
                   case Ok(s) => Ok(Repeat(s, numElements))
                   case Err(e) => Err(e)
    {
      var dst: seq<string> := [];
      while |dst| < numElements
        invariant |dst| <= numElements
        invariant |dst| > 0 ==> StringAt(Data, dataPos, dataLen).Ok?
        invariant forall i :: 0 <= i < |dst| ==> dst[i] == StringAt(Data, dataPos, dataLen).value
      {
        var s := String();
        if s.Err? { return Err(s.error); }
        dst := dst + [s.value];
      }
      assert numElements > 0 ==> dst == Repeat(StringAt(Data, dataPos, dataLen).value, numElements);
      return Ok(dst);
    }

    // ---- Unmarshal ------------------------------------------------------------

    method IntValue(w: nat, signed: bool, ghost s: Step) returns (v: Leaf)
      requires Holds(s)
      ensures v == IntLeaf(Data, s, w, signed)
    {
      var n := Scalar(w, signed);
      return match n case Ok(x) => Store(GoInt(w, signed, x)) case Err(e) => Fail(e);
    }

    /** `slices.Clone` of an unsafe slice reads all of its elements. */
    method IntsValue(w: nat, signed: bool, ghost s: Step) returns (v: Leaf)
      requires Holds(s)
      ensures v == IntsLeaf(Data, s, w, signed)
    {
      var a := Array(w, signed);
      if a.Err? { return Fail(a.error); }
      if |a.value| < numElements { return Fail(Fault); }
      return Store(GoInts(w, signed, a.value));
    }

    /** The value switch of `Unmarshal` for pairs that hold no list. */
    method LeafValue(ghost s: Step) returns (v: Leaf)
      requires Holds(s)
      ensures v == LeafOf(Data, s)
    {
      v := Ignore;
      match currentToken {
        case UNKNOWN => v := Fail(InvalidData);
        case BOOLEAN => v := Store(GoBool(true));
        case INT16 => v := IntValue(2, true, s);
        case UINT16 => v := IntValue(2, false, s);
        case INT32 => v := IntValue(4, true, s);
        case UINT32 => v := IntValue(4, false, s);
        case INT64 => v := IntValue(8, true, s);
        case UINT64 => v := IntValue(8, false, s);
        case INT8 => v := IntValue(1, true, s);
        case UINT8 => v := IntValue(1, false, s);
        case BYTE => v := IntValue(1, false, s);
        case STRING =>
          var x := String();
          v := match x case Ok(t) => Store(GoString(t)) case Err(e) => Fail(e);
        case BOOLEAN_VALUE =>
          var x := Boolean();
          v := match x case Ok(b) => Store(GoBool(b)) case Err(e) => Fail(e);
        case INT8_ARRAY => v := IntsValue(1, true, s);
        case UINT8_ARRAY => v := IntsValue(1, false, s);
        case INT16_ARRAY => v := IntsValue(2, true, s);
        case UINT16_ARRAY => v := IntsValue(2, false, s);
        case INT32_ARRAY => v := IntsValue(4, true, s);
        case UINT32_ARRAY => v := IntsValue(4, false, s);
        case INT64_ARRAY => v := IntsValue(8, true, s);
        case UINT64_ARRAY => v := IntsValue(8, false, s);
        case BYTE_ARRAY =>
          var x := ByteArray();
          v := match x case Ok(b) => Store(GoInts(1, false, b)) case Err(e) => Fail(e);
        case STRING_ARRAY =>
          var x := StringArray();
          v := match x case Ok(ss) => Store(GoStrings(ss)) case Err(e) => Fail(e);
        case BOOLEAN_ARRAY =>
          var x := BooleanArray();
          v := match x case Ok(bs) => Store(GoBools(bs)) case Err(e) => Fail(e);
        case _ =>
      }
    }

    /** Unmarshal the list at the cursor into a generic map that already holds `into`. */
    method Unmarshal(into: map<string, Value>) returns (r: Result<map<string, Value>>)
      requires Valid()
      modifies this
      ensures match UnmarshalList(Data, old(Here()), into)
              case Ok(x) => r == Ok(x.0) && Here() == x.1 && Valid()
              case Err(e) => r == Err(e)
      ensures r.Ok? ==> old(pos) < pos < |Data|
      ensures Frugal(r.Ok?, old(calls), old(pos))
      decreases |Data| - pos, 0
    {
      hide NextAt, LeafOf;
      var v := into;
      while true
        invariant Valid() && old(pos) <= pos && (pos > old(pos) ==> pos < |Data|)
        invariant UnmarshalList(Data, Here(), v) == UnmarshalList(Data, old(Here()), into)
        invariant Frugal(true, old(calls), old(pos))
        decreases |Data| - pos
      {
        ghost var s := NextAt(Data, Here());
        var t := Next();
        match t {
          case EOF => return Ok(v);
          case Error(e) => return Err(e);
          case Token(_) =>
        }
        var name := Name();
        if t.t == NVLIST {
          var m := Unmarshal(map[]);
          if m.Err? { return m; }
          v := v[name := GoMap(m.value)];
        } else if t.t == NVLIST_ARRAY {
          var ms := UnmarshalElements();
          if ms.Err? { return Err(ms.error); }
          v := v[name := GoMaps(ms.value)];
        } else {
          var leaf := LeafValue(s);
          match leaf {
            case Fail(e) => return Err(e);
            case Ignore =>
            case Store(x) => v := v[name := x];
          }
        }
      }
      assert false;
    }

    method UnmarshalElements() returns (r: Result<seq<map<string, Value>>>)
      requires Valid()
      modifies this
      ensures match UnmarshalLists(Data, old(Here()), old(numElements), [])
              case Ok(x) => r == Ok(x.0) && Here() == x.1 && Valid()
              case Err(e) => r == Err(e)
      ensures r.Ok? ==> old(pos) <= pos && (pos > old(pos) ==> pos < |Data|)
      ensures Frugal(r.Ok?, old(calls), old(pos))
      decreases |Data| - pos, 1
    {
      var n := numElements;
      hide UnmarshalList;
      var val: seq<map<string, Value>> := [];
      while |val| < n
        invariant |val| <= n
        invariant Valid() && old(pos) <= pos && (pos > old(pos) ==> pos < |Data|)
        invariant UnmarshalLists(Data, Here(), n - |val|, val) == UnmarshalLists(Data, old(Here()), n, [])
        invariant Frugal(true, old(calls), old(pos))
      {
        var m := Unmarshal(map[]);
        if m.Err? { return Err(m.error); }
        val := val + [m.value];
      }
      return Ok(val);
    }
  }

  /** The package's entry point, for a generic map target. */
  method UnmarshalData(data: seq<Byte>) returns (r: Result<map<string, Value>>)
    ensures r == match UnmarshalList(data, Cursor(Native, 0), map[])
                 case Ok(x) => Ok(x.0)
                 case Err(e) => Err(e)
  {
    var reader := new NVListReader(data);
    r := reader.Unmarshal(map[]);
  }
}
