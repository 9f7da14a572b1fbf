/**
 Encoded lists, read back: what a list means as a generic map, and that skipping and
 unmarshalling an encoding end exactly behind it, for every nesting, provided one more
 byte follows.
 */
module NvRoundTrip {
  import opened Basics
  import opened NvFormat
  import opened NvEncode
  import opened NvRuns
  import opened NvTheorems

  // ---- What a list means ------------------------------------------------------

  /** What the reader returns for a member that holds no list; `None` for the types it
      ignores. A byte array takes its slack along; string and boolean arrays repeat their
      first element. */
  function LeafMeaning(v: Val, slack: seq<Byte>): Option<Value> {
    match v
    case Flag => Some(GoBool(true))
    case ByteV(b) => Some(GoInt(1, false, b))
    case BoolV(b) => Some(GoBool(b))
    case Int(w, signed, n) => Some(GoInt(w, signed, n))
    case Str(s) => Some(GoString(Text(s)))
    case Bytes(bs) => Some(GoInts(1, false, bs + slack))
    case Ints(w, signed, ns) => Some(GoInts(w, signed, ns))
    case Bools(vs) => Some(GoBools(if vs == [] then [] else Repeat(vs[0], |vs|)))
    case Strs(ss) => Some(GoStrings(if ss == [] then [] else Repeat(Text(ss[0]), |ss|)))
    case _ => None
  }

  function Meaning(l: NvList, acc: map<string, Value>): map<string, Value>
    decreases l, 0
  {
    match l
    case Nil => acc
    case Entry(name, val, slack, rest) =>
      match Denotes(val, slack)
      case None => Meaning(rest, acc)
      case Some(v) => Meaning(rest, acc[Text(name) := v])
  }

  function Denotes(v: Val, slack: seq<Byte>): Option<Value>
    decreases v, 1
  {
    match v
    case List(l) => Some(GoMap(Meaning(l, map[])))
    case Lists(ls) => Some(GoMaps(Meanings(ls)))
    case _ => LeafMeaning(v, slack)
  }

  function Meanings(ls: NvLists): seq<map<string, Value>>
    decreases ls, 0
  {
    match ls
    case NoLists => []
    case More(l, os) => [Meaning(l, map[])] + Meanings(os)
  }

  /** The value of the last member with this name, if any member with it counts. */
  function LastNamed(l: NvList, key: string): Option<Value> {
    match l
    case Nil => None
    case Entry(name, val, slack, rest) =>
      match LastNamed(rest, key)
      case Some(v) => Some(v)
      case None => if Text(name) == key then Denotes(val, slack) else None
  }

  /** The meaning of a list is a lookup of the last member of each name. */
  lemma {:induction false} MeaningIsLastWins(l: NvList, acc: map<string, Value>, key: string)
    ensures (key in Meaning(l, acc)) <==> (LastNamed(l, key).Some? || key in acc)
    ensures key in Meaning(l, acc) ==>
      Meaning(l, acc)[key] == if LastNamed(l, key).Some? then LastNamed(l, key).value else acc[key]
  {
    match l
    case Nil =>
    case Entry(name, val, slack, rest) =>
      match Denotes(val, slack)
      case None => MeaningIsLastWins(rest, acc, key);
      case Some(v) => MeaningIsLastWins(rest, acc[Text(name) := v], key);
  }

  // ---- The types whose value does not survive ---------------------------------

  /** What the writer of a member put in. */
  function Intended(v: Val): Option<Value> {
    match v
    case Bytes(bs) => Some(GoInts(1, false, bs))
    case Bools(vs) => Some(GoBools(vs))
    case Strs(ss) => Some(GoStrings(Texts(ss)))
    case _ => LeafMeaning(v, [])
  }

  function Texts(ss: seq<seq<Byte>>): seq<string> {
    seq(|ss|, i requires 0 <= i < |ss| => Text(ss[i]))
  }

  predicate AllSame<T(==)>(xs: seq<T>) {
    forall i :: 0 <= i < |xs| ==> xs[i] == xs[0]
  }

  /** A member without lists is read back as it was written exactly when it is no byte array
      with slack behind it and no boolean or string array with two different elements. */
  lemma LeafFaithfulIff(v: Val, slack: seq<Byte>)
    ensures LeafMeaning(v, slack) == Intended(v) <==>
            match v
            case Bytes(_) => slack == []
            case Bools(vs) => AllSame(vs)
            case Strs(ss) => AllSame(ss)
            case _ => true
  {
    match v {
      case Bytes(bs) =>
        assert bs + slack == bs <==> slack == [] by {
          assert |bs + slack| == |bs| + |slack|;
        }
      case Bools(vs) =>
        if vs != [] {
          RepeatIff(vs);
        }
      case Strs(ss) =>
        if ss == [] {
          assert Texts(ss) == [];
        } else {
          var ts := Texts(ss);
          RepeatIff(ts);
          assert LeafMeaning(v, slack) == Some(GoStrings(Repeat(ts[0], |ts|)));
          assert AllSame(ts) <==> AllSame(ss) by {
            forall i | 0 <= i < |ss| ensures ts[i] == ts[0] <==> ss[i] == ss[0] {
              if ts[i] == ts[0] {
                TextInjective(ss[i], ss[0]);
              }
            }
          }
        }
      case _ =>
    }
  }

  lemma RepeatIff<T>(xs: seq<T>)
    requires xs != []
    ensures Repeat(xs[0], |xs|) == xs <==> AllSame(xs)
  {
    var r := Repeat(xs[0], |xs|);
    if r == xs {
      forall i | 0 <= i < |xs| ensures xs[i] == xs[0] {
        assert r[i] == xs[i];
      }
    }
  }

  // ---- One leaf ---------------------------------------------------------------

  lemma IntAt(D: seq<Byte>, p: nat, n: int, w: nat, signed: bool)
    requires w > 0 && Fits(n, w, signed) && At(D, p, LE(ToUnsigned(n, w), w))
    ensures p + w <= |D| && Reading(FromLE(D[p..p + w]), w, signed) == n
  {
    hide LE, FromLE;
    AtSlice(D, p, LE(ToUnsigned(n, w), w));
    ReadingInverts(n, w, signed);
  }

  lemma {:induction false} ViewOfIntBytes(D: seq<Byte>, p: nat, ns: seq<int>, w: nat, signed: bool)
    requires w > 0 && AllFit(ns, w, signed) && At(D, p, IntBytes(ns, w, signed))
    ensures View(D, p, w, signed, |ns|) == ns
    decreases |ns|
  {
    hide LE, FromLE, Reading, At;
    if ns != [] {
      AtSplitAs(D, p, IntBytes(ns, w, signed), LE(ToUnsigned(ns[0], w), w), IntBytes(ns[1..], w, signed));
      IntAt(D, p, ns[0], w, signed);
      ViewOfIntBytes(D, p + w, ns[1..], w, signed);
      assert [ns[0]] + ns[1..] == ns;
    }
  }

  lemma BooleanOfBytes(D: seq<Byte>, p: nat, dl: int, b: bool)
    requires At(D, p, BoolBytes(b)) && dl >= 4 && p + dl <= |D|
    ensures BooleanAt(D, p, dl) == Ok(b)
  {
    hide LE, FromLE;
    Widths();
    IntAt(D, p, if b then 1 else 0, 4, true);
  }

  lemma StringOfBytes(D: seq<Byte>, p: nat, dl: int, s: seq<Byte>)
    requires At(D, p, s + [0]) && 0 !in s && dl > |s|
    ensures StringAt(D, p, dl) == Ok(Text(s))
  {
    AtSplit(D, p, s, [0]);
    AtSlice(D, p, s);
    AtSlice(D, p + |s|, [0]);
    UntilNulFinds(D, p, dl, |s|);
  }

  lemma FirstBoolean(D: seq<Byte>, p: nat, dl: int, vs: seq<bool>)
    requires vs != [] && At(D, p, BoolsBytes(vs)) && dl >= |BoolsBytes(vs)| && p + dl <= |D|
    ensures BooleanAt(D, p, dl) == Ok(vs[0])
  {
    hide LE;
    AtSplitAs(D, p, BoolsBytes(vs), BoolBytes(vs[0]), BoolsBytes(vs[1..]));
    BooleanOfBytes(D, p, dl, vs[0]);
  }

  lemma FirstString(D: seq<Byte>, p: nat, dl: int, ss: seq<seq<Byte>>)
    requires ss != [] && 0 !in ss[0] && At(D, p, Zeros(8 * |ss|) + StrsBytes(ss))
    requires dl >= 8 * |ss| + |StrsBytes(ss)|
    ensures StringAt(D, p + 8 * |ss|, dl) == Ok(Text(ss[0]))
  {
    hide At, StringAt;
    AtSplit(D, p, Zeros(8 * |ss|), StrsBytes(ss));
    AtSplitAs(D, p + 8 * |ss|, StrsBytes(ss), ss[0] + [0], StrsBytes(ss[1..]));
    StringOfBytes(D, p + 8 * |ss|, dl, ss[0]);
  }

  function Expected(m: Option<Value>): Leaf {
    match m case None => Ignore case Some(v) => Store(v)
  }

  lemma LeafOfNumbers(D: seq<Byte>, p: nat, l: NvList)
    requires l.Entry? && Encodable(l) && (l.val.Int? || l.val.Ints?)
    requires At(D, p + ValueOffset(l.name), ValBytes(l.val))
    requires At(D, p + ValueOffset(l.name), ValBytes(l.val) + l.slack)
    ensures LeafOf(D, EntryStep(p, l.name, l.val, l.slack)) == Expected(LeafMeaning(l.val, l.slack))
  {
    hide LE, Fits, ToUnsigned, View, ScalarAt, ValueOffset, At, IntBytes;
    var q := p + ValueOffset(l.name);
    AtSlice(D, q, ValBytes(l.val) + l.slack);
    match l.val {
      case Int(w, signed, n) => IntRead(D, q, w + |l.slack|, n, w, signed);
      case Ints(w, signed, ns) => ViewOfIntBytes(D, q, ns, w, signed);
    }
  }

  lemma LeafOfTexts(D: seq<Byte>, p: nat, l: NvList)
    requires l.Entry? && Encodable(l) && (l.val.Str? || l.val.Bytes? || l.val.Strs?)
    requires At(D, p + ValueOffset(l.name), ValBytes(l.val))
    requires At(D, p + ValueOffset(l.name), ValBytes(l.val) + l.slack)
    ensures LeafOf(D, EntryStep(p, l.name, l.val, l.slack)) == Expected(LeafMeaning(l.val, l.slack))
  {
    hide StringAt, ValueOffset, At;
    var q := p + ValueOffset(l.name);
    var dl := |ValBytes(l.val)| + |l.slack|;
    AtSlice(D, q, ValBytes(l.val) + l.slack);
    match l.val {
      case Str(s) => StringOfBytes(D, q, dl, s);
      case Bytes(bs) =>
      case Strs(ss) =>
        if ss != [] {
          FirstString(D, q, dl, ss);
        }
    }
  }

  lemma LeafOfBooleans(D: seq<Byte>, p: nat, l: NvList)
    requires l.Entry? && Encodable(l) && (l.val.BoolV? || l.val.Bools?)
    requires At(D, p + ValueOffset(l.name), ValBytes(l.val))
    requires At(D, p + ValueOffset(l.name), ValBytes(l.val) + l.slack)
    ensures LeafOf(D, EntryStep(p, l.name, l.val, l.slack)) == Expected(LeafMeaning(l.val, l.slack))
  {
    hide BooleanAt, ValueOffset, At;
    var q := p + ValueOffset(l.name);
    var dl := |ValBytes(l.val)| + |l.slack|;
    AtSlice(D, q, ValBytes(l.val) + l.slack);
    match l.val {
      case BoolV(b) => BooleanOfBytes(D, q, dl, b);
      case Bools(vs) =>
        if vs != [] {
          FirstBoolean(D, q, dl, vs);
        }
    }
  }

  /** Reading the value of an encoded pair without nested lists gives its meaning. */
  lemma LeafOfEntry(D: seq<Byte>, p: nat, l: NvList)
    requires l.Entry? && Encodable(l) && !l.val.List? && !l.val.Lists?
    requires At(D, p + ValueOffset(l.name), ValBytes(l.val))
    requires At(D, p + ValueOffset(l.name), ValBytes(l.val) + l.slack)
    ensures LeafOf(D, EntryStep(p, l.name, l.val, l.slack)) == Expected(LeafMeaning(l.val, l.slack))
  {
    hide ScalarAt, ValueOffset, At;
    match l.val {
      case Int(_, _, _) => hide *; LeafOfNumbers(D, p, l);
      case Ints(_, _, _) => hide *; LeafOfNumbers(D, p, l);
      case BoolV(_) => hide *; LeafOfBooleans(D, p, l);
      case Bools(_) => hide *; LeafOfBooleans(D, p, l);
      case Str(_) => hide *; LeafOfTexts(D, p, l);
      case Bytes(_) => hide *; LeafOfTexts(D, p, l);
      case Strs(_) => hide *; LeafOfTexts(D, p, l);
      case ByteV(b) => ByteRead(D, p + ValueOffset(l.name), 1 + |l.slack|, b);
      case Flag =>
      case Raw(_, _) =>
    }
  }

  lemma ByteRead(D: seq<Byte>, q: nat, dl: int, b: Byte)
    requires At(D, q, [b])
    ensures ScalarAt(D, q, dl, 1, false) == Ok(b)
  {
    assert [b][0] == D[q];
  }

  lemma IntRead(D: seq<Byte>, q: nat, dl: int, n: int, w: Width, signed: bool)
    requires Fits(n, w, signed) && At(D, q, LE(ToUnsigned(n, w), w)) && w <= dl && q + dl <= |D|
    ensures ScalarAt(D, q, dl, w, signed) == Ok(n)
  {
    hide LE, Fits;
    IntAt(D, q, n, w, signed);
    if w == 1 {
      assert D[q..q + 1][1..] == [];
      assert FromLE(D[q..q + 1]) == D[q];
    }
  }

  // ---- Whole encodings --------------------------------------------------------

  /** The lists nested in a value have been read from `q` on as the value means. */
  ghost predicate NestedRead(D: seq<Byte>, q: nat, val: Val) {
    var end := Cursor(Native, q + |Nested(val)|);
    match val
    case List(l) => UnmarshalList(D, Cursor(Native, q), map[]) == Ok((Meaning(l, map[]), end))
    case Lists(ls) => UnmarshalLists(D, Cursor(Native, q), Count(ls), []) == Ok((Meanings(ls), end))
    case _ => true
  }

  /** One encoded member: its value is stored, and the run goes on behind its lists. */
  lemma UnmarshalOfEntry(D: seq<Byte>, p: nat, l: NvList, acc: map<string, Value>)
    requires p > 0 && l.Entry? && Encodable(l) && At(D, p, Enc(l))
    requires p + PairSize(l.name, l.val, l.slack) + 4 < |D|
    requires NestedRead(D, p + PairSize(l.name, l.val, l.slack), l.val)
    ensures var next := Cursor(Native, p + PairSize(l.name, l.val, l.slack) + |Nested(l.val)|);
      UnmarshalList(D, Cursor(Native, p), acc) ==
      match Denotes(l.val, l.slack)
      case None => UnmarshalList(D, next, acc)
      case Some(v) => UnmarshalList(D, next, acc[Text(l.name) := v])
  {
    hide NextAt, LeafOf, LeafMeaning, Head, At, PairSize, Enc, UnmarshalLists, Meaning, Meanings, EntryStep,
         TypeOf, ValBytes, ValueOffset, Encodable;
    EntryParts(D, p, l);
    StepOverEntry(D, p, l);
    EntryFacts(p, l);
    if !l.val.List? && !l.val.Lists? {
      LeafOfEntry(D, p, l);
    }
  }

  lemma UnmarshalStops(D: seq<Byte>, c: Cursor, acc: map<string, Value>)
    requires NextAt(D, c).Bad?
    ensures UnmarshalList(D, c, acc) == Err(NextAt(D, c).error)
  {
    hide NextAt, LeafOf;
  }

  lemma UnmarshalOfNil(D: seq<Byte>, p: nat, acc: map<string, Value>)
    requires p > 0 && At(D, p, Enc(Nil)) && p + |Enc(Nil)| <= |D|
    ensures UnmarshalList(D, Cursor(Native, p), acc) ==
            if p + |Enc(Nil)| == |D| then Err(InvalidData) else Ok((acc, Cursor(Native, p + |Enc(Nil)|)))
  {
    hide NextAt, LeafOf, At;
    StepOverEnd(D, p);
  }

  lemma {:induction false} UnmarshalOfEnc(D: seq<Byte>, p: nat, l: NvList, acc: map<string, Value>)
    requires p > 0 && Encodable(l) && At(D, p, Enc(l)) && p + |Enc(l)| < |D|
    ensures UnmarshalList(D, Cursor(Native, p), acc) == Ok((Meaning(l, acc), Cursor(Native, p + |Enc(l)|)))
    decreases l, 0
  {
    hide LeafMeaning, Head, At, PairSize, Enc, Encodable, Nested, UnmarshalList, NestedRead, Denotes;
    match l
    case Nil => UnmarshalOfNil(D, p, acc);
    case Entry(name, val, slack, rest) =>
      EntryParts(D, p, l);
      EntryOk(l);
      var q := p + PairSize(name, val, slack);
      UnmarshalOfNested(D, q, val);
      UnmarshalOfEntry(D, p, l, acc);
      match Denotes(val, slack)
      case None => UnmarshalOfEnc(D, q + |Nested(val)|, rest, acc);
      case Some(v) => UnmarshalOfEnc(D, q + |Nested(val)|, rest, acc[Text(name) := v]);
  }

  lemma {:induction false} UnmarshalOfNested(D: seq<Byte>, q: nat, val: Val)
    requires q > 0 && ValOk(val) && At(D, q, Nested(val)) && q + |Nested(val)| < |D|
    ensures NestedRead(D, q, val)
    decreases val, 1
  {
    hide At, UnmarshalList, UnmarshalLists, Meaning, Meanings, Enc, EncAll;
    match val
    case List(l) => UnmarshalOfEnc(D, q, l, map[]);
    case Lists(ls) =>
      UnmarshalOfEncAll(D, q, ls, []);
      assert [] + Meanings(ls) == Meanings(ls);
    case _ =>
  }

  lemma {:induction false} UnmarshalOfEncAll(D: seq<Byte>, p: nat, ls: NvLists, acc: seq<map<string, Value>>)
    requires p > 0 && AllEncodable(ls) && At(D, p, EncAll(ls)) && p + |EncAll(ls)| < |D|
    ensures UnmarshalLists(D, Cursor(Native, p), Count(ls), acc)
            == Ok((acc + Meanings(ls), Cursor(Native, p + |EncAll(ls)|)))
    decreases ls, 0
  {
    hide UnmarshalList, At, Meaning;
    match ls
    case NoLists => assert acc + [] == acc;
    case More(l, os) =>
      ListsParts(D, p, ls);
      UnmarshalOfEnc(D, p, l, map[]);
      UnmarshalOfEncAll(D, p + |Enc(l)|, os, acc + [Meaning(l, map[])]);
      assert acc + [Meaning(l, map[])] + Meanings(os) == acc + Meanings(ls);
  }

  /** Without a byte behind it, the last list of a buffer cannot be read. */
  lemma {:induction false} UnmarshalNeedsTail(D: seq<Byte>, p: nat, l: NvList, acc: map<string, Value>)
    requires p > 0 && Encodable(l) && At(D, p, Enc(l)) && p + |Enc(l)| == |D|
    ensures UnmarshalList(D, Cursor(Native, p), acc) == Err(InvalidData)
    decreases l
  {
    hide LeafMeaning, Head, At, PairSize, Enc, Encodable, Nested, UnmarshalList, NestedRead, Denotes;
    match l
    case Nil => UnmarshalOfNil(D, p, acc);
    case Entry(name, val, slack, rest) =>
      EntryParts(D, p, l);
      EntryOk(l);
      var q := p + PairSize(name, val, slack);
      if q + 4 == |D| {
        StepOverLastEntry(D, p, l);
        UnmarshalStops(D, Cursor(Native, p), acc);
      } else {
        UnmarshalOfNested(D, q, val);
        UnmarshalOfEntry(D, p, l, acc);
        match Denotes(val, slack)
        case None => UnmarshalNeedsTail(D, q + |Nested(val)|, rest, acc);
        case Some(v) => UnmarshalNeedsTail(D, q + |Nested(val)|, rest, acc[Text(name) := v]);
      }
  }

  /** The whole message: any list, any version and flags, and a tail of any content. */
  lemma RoundTrip(version: nat, flags: nat, l: NvList, tail: seq<Byte>)
    requires Encodable(l)
    ensures UnmarshalList(Header(version, flags) + Enc(l) + tail, Cursor(Native, 0), map[]) ==
            if tail == [] then Err(InvalidData)
            else Ok((Meaning(l, map[]), Cursor(Native, HEADER_SIZE + |Enc(l)|)))
  {
    hide NextAt, Enc, At;
    var D := Header(version, flags) + Enc(l) + tail;
    HeaderThenList(version, flags, l, tail);
    assert UnmarshalList(D, Cursor(Native, 0), map[]) == UnmarshalList(D, Cursor(Native, HEADER_SIZE), map[]) by {
      hide LeafOf;
    }
    if tail == [] {
      UnmarshalNeedsTail(D, HEADER_SIZE, l, map[]);
    } else {
      UnmarshalOfEnc(D, HEADER_SIZE, l, map[]);
    }
  }

  /** A message that is cut off after `k` bytes can be read exactly when the cut leaves at
      least one byte behind the list. */
  lemma TruncatedReadableIff(version: nat, flags: nat, l: NvList, tail: seq<Byte>, k: nat)
    requires Encodable(l)
    requires k <= HEADER_SIZE + |Enc(l)| + |tail|
    ensures UnmarshalList((Header(version, flags) + Enc(l) + tail)[..k], Cursor(Native, 0), map[]).Ok?
            <==> k > HEADER_SIZE + |Enc(l)|
  {
    hide UnmarshalList, Enc, Meaning;
    var D := Header(version, flags) + Enc(l) + tail;
    var C := D[..k];
    var n := HEADER_SIZE + |Enc(l)|;
    if k > n {
      var short := D[n..k];
      assert C == Header(version, flags) + Enc(l) + short;
      RoundTrip(version, flags, l, short);
    } else if UnmarshalList(C, Cursor(Native, 0), map[]).Ok? {
      UnmarshalStable(C, D, Cursor(Native, 0), map[]);
      RoundTrip(version, flags, l, tail);
    }
  }

  // ---- Skip -------------------------------------------------------------------

  /** `Skip` moves by exactly the length of an encoding that is followed by a byte. */
  lemma SkipIsExact(D: seq<Byte>, p: nat, l: NvList)
    requires p > 0 && Encodable(l) && At(D, p, Enc(l)) && p + |Enc(l)| < |D|
    ensures SkipList(D, Cursor(Native, p)) == Ok(Cursor(Native, p + |Enc(l)|))
  {
    hide *;
    UnmarshalOfEnc(D, p, l, map[]);
    UnmarshalAgreesWithSkip(D, Cursor(Native, p), map[]);
  }

  lemma SkipsAreExact(D: seq<Byte>, p: nat, ls: NvLists)
    requires p > 0 && AllEncodable(ls) && At(D, p, EncAll(ls)) && p + |EncAll(ls)| < |D|
    ensures SkipLists(D, Cursor(Native, p), Count(ls)) == Ok(Cursor(Native, p + |EncAll(ls)|))
  {
    hide *;
    UnmarshalOfEncAll(D, p, ls, []);
    UnmarshalsAgreeWithSkips(D, Cursor(Native, p), Count(ls), []);
  }
}
