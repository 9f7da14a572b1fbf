/**
 Laws of the runs on arbitrary bytes: the recursion is a one-counter scan, every list that
 is opened is ended, appended bytes change nothing, and unmarshalling and skipping agree
 on where a list ends.
 */
module NvTheorems {
  import opened Basics
  import opened NvFormat
  import opened NvRuns

  // ---- The header -------------------------------------------------------------

  /** Exactly which buffers are rejected for their first byte and for their byte order, whatever
      follows. */
  lemma HeaderRejected(D: seq<Byte>, acc: map<string, Value>)
    ensures var r := UnmarshalList(D, Cursor(Native, 0), acc);
      && (r == Err(InvalidEncoding) <==> |D| >= 1 && D[0] > 1)
      && (r == Err(BigEndianUnsupported) <==> |D| >= 2 && D[0] <= 1 && D[1] == 0)
      && (r == Err(InvalidEndianess) <==> |D| >= 2 && D[0] <= 1 && D[1] > 1)
  {
    hide LeafOf, PairAt;
    if HeaderAt(D).Ok? {
      var c := Cursor(HeaderAt(D).value, HEADER_SIZE);
      assert NextAt(D, Cursor(Native, 0)) == NextAt(D, c);
      assert UnmarshalList(D, Cursor(Native, 0), acc) == UnmarshalList(D, c, acc);
      ErrorBehindHeader(D, c, acc);
    }
  }

  /** Behind the header, a list is invalid data or makes the reader leave the buffer. */
  lemma {:induction false} ErrorBehindHeader(D: seq<Byte>, c: Cursor, acc: map<string, Value>)
    requires c.pos > 0
    ensures UnmarshalList(D, c, acc).Err? ==> UnmarshalList(D, c, acc).error in {InvalidData, Fault}
    decreases |D| - c.pos, 0, 0
  {
    hide LeafOf, BodyAt;
    var s := NextAt(D, c);
    match s {
      case Bad(_) => BadPair(D, c);
      case End(_) =>
      case Pair(tok, name, num, _, _, next) =>
        if tok == NVLIST {
          ErrorBehindHeader(D, next, map[]);
          var r := UnmarshalList(D, next, map[]);
          if r.Ok? {
            ErrorBehindHeader(D, r.value.1, acc[Text(name) := GoMap(r.value.0)]);
          }
        } else if tok == NVLIST_ARRAY {
          ErrorsBehindHeader(D, next, num, []);
          var r := UnmarshalLists(D, next, num, []);
          if r.Ok? {
            ErrorBehindHeader(D, r.value.1, acc[Text(name) := GoMaps(r.value.0)]);
          }
        } else {
          LeafError(D, s);
          match LeafOf(D, s) {
            case Fail(_) =>
            case Ignore => ErrorBehindHeader(D, next, acc);
            case Store(v) => ErrorBehindHeader(D, next, acc[Text(name) := v]);
          }
        }
    }
  }

  lemma {:induction false} ErrorsBehindHeader(D: seq<Byte>, c: Cursor, n: nat, acc: seq<map<string, Value>>)
    requires c.pos > 0
    ensures UnmarshalLists(D, c, n, acc).Err? ==> UnmarshalLists(D, c, n, acc).error in {InvalidData, Fault}
    decreases |D| - c.pos, 1, n
  {
    hide UnmarshalList;
    if n > 0 {
      ErrorBehindHeader(D, c, map[]);
      var r := UnmarshalList(D, c, map[]);
      if r.Ok? {
        ErrorsBehindHeader(D, r.value.1, n - 1, acc + [r.value.0]);
      }
    }
  }

  lemma BadPair(D: seq<Byte>, c: Cursor)
    requires c.pos > 0 && NextAt(D, c).Bad?
    ensures NextAt(D, c) == Bad(InvalidData)
  {
  }

  lemma {:induction false} SearchError(D: seq<Byte>, p: nat, n: int)
    ensures UntilNul(D, p, n).Err? ==> UntilNul(D, p, n).error in {InvalidData, Fault}
    decreases n
  {
    if n > 0 && p < |D| && D[p] != 0 {
      SearchError(D, p + 1, n - 1);
    }
  }

  lemma LeafError(D: seq<Byte>, s: Step)
    requires s.Pair?
    ensures LeafOf(D, s).Fail? ==> LeafOf(D, s).error in {InvalidData, Fault}
  {
    hide UntilNul, View, FromLE, Reading;
    SearchError(D, s.dataPos, s.dataLen);
  }

  // ---- Skip is a scan with one counter ----------------------------------------

  lemma {:induction false} SkipListsAppend(D: seq<Byte>, c: Cursor, a: nat, b: nat)
    ensures SkipLists(D, c, a + b) ==
            match SkipLists(D, c, a) case Ok(d) => SkipLists(D, d, b) case Err(e) => Err(e)
    decreases a
  {
    hide SkipList;
    if a > 0 {
      var r := SkipList(D, c);
      if r.Ok? {
        SkipListsAppend(D, r.value, a - 1, b);
      }
    }
  }

  lemma {:induction false} ScanIsSkip(D: seq<Byte>, c: Cursor, pending: nat)
    ensures Scan(D, c, pending) == SkipLists(D, c, pending)
    decreases |D| - c.pos
  {
    hide NextAt;
    if pending > 0 {
      var s := NextAt(D, c);
      match s {
        case Bad(_) =>
        case End(next) => ScanIsSkip(D, next, pending - 1);
        case Pair(tok, _, num, _, _, next) =>
          ScanIsSkip(D, next, pending + Opens(s));
          SkipOpened(D, next, Opens(s), pending);
          assert SkipList(D, c) == SkipThenRest(D, next, Opens(s));
      }
    }
  }

  /** Skip `n` nested lists, then the rest of the list around them. */
  function SkipThenRest(D: seq<Byte>, c: Cursor, n: nat): Result<Cursor> {
    match SkipLists(D, c, n) case Ok(d) => SkipList(D, d) case Err(e) => Err(e)
  }

  lemma SkipOpened(D: seq<Byte>, c: Cursor, n: nat, pending: nat)
    requires pending > 0
    ensures SkipLists(D, c, pending + n) ==
            match SkipThenRest(D, c, n) case Ok(d) => SkipLists(D, d, pending - 1) case Err(e) => Err(e)
  {
    hide SkipList;
    SkipListsAppend(D, c, n, pending);
  }

  /** The recursive `Skip` and the scanner that starts with one pending list give the same
      answer on every buffer, errors included. */
  lemma SkipRefinesScanner(D: seq<Byte>, c: Cursor)
    ensures SkipList(D, c) == Scan(D, c, 1)
  {
    hide SkipList, Scan;
    ScanIsSkip(D, c, 1);
  }

  /** In a run that succeeds each opened list is ended once, and each step consumes a byte. */
  lemma {:induction false} TraceBalances(D: seq<Byte>, c: Cursor, pending: nat)
    requires Scan(D, c, pending).Ok?
    ensures var t := Trace(D, c, pending);
      && Ends(t) == pending + Opened(t)
      && |t| <= Scan(D, c, pending).value.pos - c.pos
      && forall i :: 0 <= i < |t| ==> !t[i].Bad?
    decreases |D| - c.pos
  {
    hide NextAt;
    if pending > 0 {
      var s := NextAt(D, c);
      var (next, p) := (s.next, if s.End? then pending - 1 else pending + Opens(s));
      TraceBalances(D, next, p);
      var t := Trace(D, next, p);
      assert ([s] + t)[1..] == t;
    }
  }

  lemma SkipBalances(D: seq<Byte>, c: Cursor)
    requires SkipList(D, c).Ok?
    ensures Ends(Trace(D, c, 1)) == 1 + Opened(Trace(D, c, 1))
    ensures |Trace(D, c, 1)| <= SkipList(D, c).value.pos - c.pos
  {
    hide SkipList, Scan, Trace;
    SkipRefinesScanner(D, c);
    TraceBalances(D, c, 1);
  }

  // ---- Unmarshal and Skip agree on extents ------------------------------------

  lemma {:induction false} UnmarshalAgreesWithSkip(D: seq<Byte>, c: Cursor, acc: map<string, Value>)
    requires UnmarshalList(D, c, acc).Ok?
    ensures SkipList(D, c) == Ok(UnmarshalList(D, c, acc).value.1)
    decreases |D| - c.pos, 0, 0
  {
    hide NextAt, LeafOf;
    var s := NextAt(D, c);
    match s {
      case Bad(_) =>
      case End(_) =>
      case Pair(tok, name, num, _, _, next) =>
        if tok == NVLIST {
          UnmarshalAgreesWithSkip(D, next, map[]);
          var x := UnmarshalList(D, next, map[]).value;
          UnmarshalAgreesWithSkip(D, x.1, acc[Text(name) := GoMap(x.0)]);
        } else if tok == NVLIST_ARRAY {
          UnmarshalsAgreeWithSkips(D, next, num, []);
          var x := UnmarshalLists(D, next, num, []).value;
          UnmarshalAgreesWithSkip(D, x.1, acc[Text(name) := GoMaps(x.0)]);
        } else {
          match LeafOf(D, s) {
            case Fail(_) =>
            case Ignore => UnmarshalAgreesWithSkip(D, next, acc);
            case Store(v) => UnmarshalAgreesWithSkip(D, next, acc[Text(name) := v]);
          }
        }
    }
  }

  lemma {:induction false} UnmarshalsAgreeWithSkips(D: seq<Byte>, c: Cursor, n: nat, acc: seq<map<string, Value>>)
    requires UnmarshalLists(D, c, n, acc).Ok?
    ensures SkipLists(D, c, n) == Ok(UnmarshalLists(D, c, n, acc).value.1)
    decreases |D| - c.pos, 1, n
  {
    hide UnmarshalList, SkipList;
    if n > 0 {
      UnmarshalAgreesWithSkip(D, c, map[]);
      var x := UnmarshalList(D, c, map[]).value;
      UnmarshalsAgreeWithSkips(D, x.1, n - 1, acc + [x.0]);
    }
  }

  // ---- Appended bytes change nothing ------------------------------------------

  lemma {:induction false} SkipStable(D: seq<Byte>, E: seq<Byte>, c: Cursor)
    requires D <= E && SkipList(D, c).Ok?
    ensures SkipList(E, c) == SkipList(D, c)
    decreases |D| - c.pos, 0, 0
  {
    hide NextAt;
    var s := NextAt(D, c);
    if !s.Bad? {
      NextStable(D, E, c);
    }
    match s {
      case Bad(_) =>
      case End(_) =>
      case Pair(tok, _, num, _, _, next) =>
        if tok == NVLIST {
          SkipStable(D, E, next);
          SkipStable(D, E, SkipList(D, next).value);
        } else if tok == NVLIST_ARRAY {
          SkipsStable(D, E, next, num);
          SkipStable(D, E, SkipLists(D, next, num).value);
        } else {
          SkipStable(D, E, next);
        }
    }
  }

  lemma {:induction false} SkipsStable(D: seq<Byte>, E: seq<Byte>, c: Cursor, n: nat)
    requires D <= E && SkipLists(D, c, n).Ok?
    ensures SkipLists(E, c, n) == SkipLists(D, c, n)
    decreases |D| - c.pos, 1, n
  {
    hide SkipList;
    if n > 0 {
      SkipStable(D, E, c);
      SkipsStable(D, E, SkipList(D, c).value, n - 1);
    }
  }

  lemma {:induction false} ViewStable(D: seq<Byte>, E: seq<Byte>, p: nat, w: nat, signed: bool, n: nat)
    requires D <= E && |View(D, p, w, signed, n)| == n
    ensures View(E, p, w, signed, n) == View(D, p, w, signed, n)
    decreases n
  {
    hide FromLE, Reading;
    if n > 0 {
      PrefixSlice(D, E, p, p + w);
      ViewStable(D, E, p + w, w, signed, n - 1);
    }
  }

  lemma {:induction false} UntilNulStable(D: seq<Byte>, E: seq<Byte>, p: nat, n: int)
    requires D <= E && UntilNul(D, p, n).Ok?
    ensures UntilNul(E, p, n) == UntilNul(D, p, n)
    decreases n
  {
    if D[p] != 0 {
      UntilNulStable(D, E, p + 1, n - 1);
    }
  }

  lemma WordStable(D: seq<Byte>, E: seq<Byte>, dp: nat, dl: int, w: nat, signed: bool)
    requires D <= E && WordAt(D, dp, dl, w, signed).Ok?
    ensures WordAt(E, dp, dl, w, signed) == WordAt(D, dp, dl, w, signed)
  {
    hide FromLE, Reading;
    PrefixSlice(D, E, dp, dp + w);
  }

  lemma LeafStable(D: seq<Byte>, E: seq<Byte>, s: Step)
    requires D <= E && s.Pair? && !LeafOf(D, s).Fail?
    ensures LeafOf(E, s) == LeafOf(D, s)
  {
    hide View, UntilNul, WordAt, FromLE, Reading;
    var (dp, dl) := (s.dataPos, s.dataLen);
    forall w: nat, signed | WordAt(D, dp, dl, w, signed).Ok?
      ensures WordAt(E, dp, dl, w, signed) == WordAt(D, dp, dl, w, signed)
    {
      WordStable(D, E, dp, dl, w, signed);
    }
    forall w: nat, signed | |View(D, dp, w, signed, s.num)| == s.num
      ensures View(E, dp, w, signed, s.num) == View(D, dp, w, signed, s.num)
    {
      ViewStable(D, E, dp, w, signed, s.num);
    }
    if UntilNul(D, dp, dl).Ok? {
      UntilNulStable(D, E, dp, dl);
    }
    if dl >= 0 && dp + dl <= |D| {
      PrefixSlice(D, E, dp, dp + dl);
    }
  }

  lemma {:induction false} UnmarshalStable(D: seq<Byte>, E: seq<Byte>, c: Cursor, acc: map<string, Value>)
    requires D <= E && UnmarshalList(D, c, acc).Ok?
    ensures UnmarshalList(E, c, acc) == UnmarshalList(D, c, acc)
    decreases |D| - c.pos, 0, 0
  {
    hide NextAt, LeafOf;
    var s := NextAt(D, c);
    if !s.Bad? {
      NextStable(D, E, c);
    }
    match s {
      case Bad(_) =>
      case End(_) =>
      case Pair(tok, name, num, _, _, next) =>
        if tok == NVLIST {
          UnmarshalStable(D, E, next, map[]);
          var x := UnmarshalList(D, next, map[]).value;
          UnmarshalStable(D, E, x.1, acc[Text(name) := GoMap(x.0)]);
        } else if tok == NVLIST_ARRAY {
          UnmarshalsStable(D, E, next, num, []);
          var x := UnmarshalLists(D, next, num, []).value;
          UnmarshalStable(D, E, x.1, acc[Text(name) := GoMaps(x.0)]);
        } else {
          if !LeafOf(D, s).Fail? {
            LeafStable(D, E, s);
          }
          match LeafOf(D, s) {
            case Fail(_) =>
            case Ignore => UnmarshalStable(D, E, next, acc);
            case Store(v) => UnmarshalStable(D, E, next, acc[Text(name) := v]);
          }
        }
    }
  }

  lemma {:induction false} UnmarshalsStable(D: seq<Byte>, E: seq<Byte>, c: Cursor, n: nat, acc: seq<map<string, Value>>)
    requires D <= E && UnmarshalLists(D, c, n, acc).Ok?
    ensures UnmarshalLists(E, c, n, acc) == UnmarshalLists(D, c, n, acc)
    decreases |D| - c.pos, 1, n
  {
    hide UnmarshalList;
    if n > 0 {
      UnmarshalStable(D, E, c, map[]);
      var x := UnmarshalList(D, c, map[]).value;
      UnmarshalsStable(D, E, x.1, n - 1, acc + [x.0]);
    }
  }
}
