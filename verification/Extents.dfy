/**
 Where the parsers of vdevs, pools and properties end, compared with `Skip`. Each parse is
 followed by a count of the lists that are still open; it ends where its list ends exactly
 when that count says so.
 */
module Extents {
  import opened Basics
  import opened NvFormat
  import opened NvEncode
  import opened NvRuns
  import opened NvTheorems
  import opened NvRoundTrip
  import opened Vdevs
  import opened Pools
  import opened DatasetProps

  // ---- Scans ------------------------------------------------------------------

  /** A run from `c` to `end` that began with `open` lists to be ended has `after` of them left
      there; with `None`, the last one was ended before. */
  ghost predicate Leaves(D: seq<Byte>, c: Cursor, open: nat, end: Cursor, after: Option<nat>) {
    match after
    case Some(n) => Scan(D, c, open) == Scan(D, end, n)
    case None => Scan(D, c, open).Ok? && Scan(D, c, open).value.pos < end.pos
  }

  lemma ScanOverList(D: seq<Byte>, c: Cursor, open: nat)
    requires open > 0 && SkipList(D, c).Ok?
    ensures Scan(D, c, open) == Scan(D, SkipList(D, c).value, open - 1)
  {
    hide SkipList, Scan;
    ScanIsSkip(D, c, open);
    ScanIsSkip(D, SkipList(D, c).value, open - 1);
  }

  /** Such a run ends where `Skip` ends exactly when none is left. */
  lemma LeavesNoneIff(D: seq<Byte>, c: Cursor, end: Cursor, after: Option<nat>)
    requires Leaves(D, c, 1, end, after)
    ensures SkipList(D, c) == Ok(end) <==> after == Some(0)
  {
    hide SkipList, Scan;
    SkipRefinesScanner(D, c);
    if after.Some? {
      ScanIsSkip(D, end, after.value);
    }
  }

  // ---- Open lists along the parse of a vdev -----------------------------------

  /** The parse of a vdev that begins with `open` lists to be ended, its own among them: how
      many are left where it stops, unless the last one was ended before. */
  function OpenAfter(D: seq<Byte>, c: Cursor, acc: Vdev, open: nat): Option<nat>
    decreases |D| - c.pos, 0, 0
  {
    if open == 0 then None else
    var s := NextAt(D, c);
    match s
    case Bad(_) => None
    case End(_) => Some(open - 1)
    case Pair(tok, name, num, _, _, next) =>
      if Text(name) == "children" then
        match VdevLists(D, next, num, acc.children)
        case Err(_) => None
        case Ok(x) =>
          match OpenAfterAll(D, next, num, acc.children, open + Opens(s))
          case None => None
          case Some(n) => OpenAfter(D, x.1, acc.(children := x.0), n)
      else if IsField(Text(name)) then
        match FieldAt(D, s, acc)
        case Err(_) => None
        case Ok(v) => OpenAfter(D, next, v, open)
      else if HoldsLists(tok) then
        match SkipList(D, next)
        case Err(_) => None
        case Ok(d) => OpenAfter(D, d, acc, open + Opens(s) - 1)
      else OpenAfter(D, next, acc, open)
  }

  function OpenAfterAll(D: seq<Byte>, c: Cursor, n: nat, acc: seq<Vdev>, open: nat): Option<nat>
    decreases |D| - c.pos, 1, n
  {
    if n == 0 then Some(open) else
    match VdevList(D, c, NO_VDEV)
    case Err(_) => None
    case Ok(x) =>
      match OpenAfter(D, c, NO_VDEV, open)
      case None => None
      case Some(o) => OpenAfterAll(D, x.1, n - 1, acc + [x.0], o)
  }

  lemma {:induction false} VdevLeaves(D: seq<Byte>, c: Cursor, acc: Vdev, open: nat)
    requires VdevList(D, c, acc).Ok?
    ensures Leaves(D, c, open, VdevList(D, c, acc).value.1, OpenAfter(D, c, acc, open))
    decreases |D| - c.pos, 0, 0
  {
    hide NextAt, FieldAt, SkipList;
    if open > 0 {
      var s := NextAt(D, c);
      match s {
        case Bad(_) =>
        case End(_) =>
        case Pair(tok, name, num, _, _, next) =>
          if Text(name) == "children" {
            VdevsLeave(D, next, num, acc.children, open + num);
            var x := VdevLists(D, next, num, acc.children).value;
            var o := OpenAfterAll(D, next, num, acc.children, open + num);
            if o.Some? {
              VdevLeaves(D, x.1, acc.(children := x.0), o.value);
            }
          } else if IsField(Text(name)) {
            FieldIsNoList(D, s, acc);
            VdevLeaves(D, next, FieldAt(D, s, acc).value, open);
          } else if HoldsLists(tok) {
            ScanOverList(D, next, open + Opens(s));
            VdevLeaves(D, SkipList(D, next).value, acc, open + Opens(s) - 1);
          } else {
            VdevLeaves(D, next, acc, open);
          }
      }
    }
  }

  lemma {:induction false} VdevsLeave(D: seq<Byte>, c: Cursor, n: nat, acc: seq<Vdev>, open: nat)
    requires VdevLists(D, c, n, acc).Ok?
    ensures Leaves(D, c, open, VdevLists(D, c, n, acc).value.1, OpenAfterAll(D, c, n, acc, open))
    decreases |D| - c.pos, 1, n
  {
    hide VdevList, OpenAfter, Scan;
    if n > 0 {
      VdevLeaves(D, c, NO_VDEV, open);
      var x := VdevList(D, c, NO_VDEV).value;
      var o := OpenAfter(D, c, NO_VDEV, open);
      if o.Some? {
        VdevsLeave(D, x.1, n - 1, acc + [x.0], o.value);
      }
    }
  }

  /** On any bytes: a parse that succeeds ends where `Skip` ends if and only if, with the
      unknown arrays counted as they are declared, no list is left open and none was ended
      too early. */
  lemma ParseEndsWithSkipIff(D: seq<Byte>, c: Cursor, acc: Vdev)
    requires VdevList(D, c, acc).Ok?
    ensures SkipList(D, c) == Ok(VdevList(D, c, acc).value.1) <==> OpenAfter(D, c, acc, 1) == Some(0)
  {
    hide SkipList, VdevList, OpenAfter, Leaves;
    VdevLeaves(D, c, acc, 1);
    LeavesNoneIff(D, c, VdevList(D, c, acc).value.1, OpenAfter(D, c, acc, 1));
  }

  // ---- Without empty arrays ---------------------------------------------------

  /** Of the arrays of lists that a scan meets, none is declared empty. */
  predicate FullArrays(D: seq<Byte>, c: Cursor, open: nat)
    decreases |D| - c.pos
  {
    if open == 0 then true else
    var s := NextAt(D, c);
    match s
    case Bad(_) => true
    case End(next) => FullArrays(D, next, open - 1)
    case Pair(tok, _, num, _, _, next) => (tok == NVLIST_ARRAY ==> num > 0) && FullArrays(D, next, open + Opens(s))
  }

  lemma {:induction false} FullAfterScan(D: seq<Byte>, c: Cursor, n: nat, k: nat)
    requires Scan(D, c, n).Ok? && FullArrays(D, c, n + k)
    ensures FullArrays(D, Scan(D, c, n).value, k)
    decreases |D| - c.pos
  {
    hide NextAt;
    if n > 0 {
      var s := NextAt(D, c);
      match s
      case Bad(_) =>
      case End(next) => FullAfterScan(D, next, n - 1, k);
      case Pair(_, _, _, _, _, next) => FullAfterScan(D, next, n + Opens(s), k);
    }
  }

  lemma FullAfterSkip(D: seq<Byte>, c: Cursor, k: nat)
    requires SkipList(D, c).Ok? && FullArrays(D, c, k + 1)
    ensures FullArrays(D, SkipList(D, c).value, k)
  {
    hide SkipList, Scan, FullArrays;
    SkipRefinesScanner(D, c);
    FullAfterScan(D, c, 1, k);
  }

  /** Then unknown arrays can only leave lists open. */
  lemma {:induction false} OpenGrows(D: seq<Byte>, c: Cursor, acc: Vdev, open: nat)
    requires open > 0 && VdevList(D, c, acc).Ok? && FullArrays(D, c, open)
    ensures var o := OpenAfter(D, c, acc, open);
      o.Some? && o.value >= open - 1 && FullArrays(D, VdevList(D, c, acc).value.1, o.value)
    decreases |D| - c.pos, 0, 0
  {
    hide NextAt, FieldAt, SkipList;
    var s := NextAt(D, c);
    match s {
      case Bad(_) =>
      case End(_) =>
      case Pair(tok, name, num, _, _, next) =>
        if Text(name) == "children" {
          OpenAllGrows(D, next, num, acc.children, open + num);
          var x := VdevLists(D, next, num, acc.children).value;
          OpenGrows(D, x.1, acc.(children := x.0), OpenAfterAll(D, next, num, acc.children, open + num).value);
        } else if IsField(Text(name)) {
          FieldIsNoList(D, s, acc);
          OpenGrows(D, next, FieldAt(D, s, acc).value, open);
        } else if HoldsLists(tok) {
          FullAfterSkip(D, next, open + Opens(s) - 1);
          OpenGrows(D, SkipList(D, next).value, acc, open + Opens(s) - 1);
        } else {
          OpenGrows(D, next, acc, open);
        }
    }
  }

  lemma {:induction false} OpenAllGrows(D: seq<Byte>, c: Cursor, n: nat, acc: seq<Vdev>, open: nat)
    requires open >= n && VdevLists(D, c, n, acc).Ok? && FullArrays(D, c, open)
    ensures var o := OpenAfterAll(D, c, n, acc, open);
      o.Some? && o.value >= open - n && FullArrays(D, VdevLists(D, c, n, acc).value.1, o.value)
    decreases |D| - c.pos, 1, n
  {
    hide VdevList, OpenAfter, FullArrays;
    if n > 0 {
      OpenGrows(D, c, NO_VDEV, open);
      var x := VdevList(D, c, NO_VDEV).value;
      OpenAllGrows(D, x.1, n - 1, acc + [x.0], OpenAfter(D, c, NO_VDEV, open).value);
    }
  }

  // ---- Encoded vdevs ----------------------------------------------------------

  /** No array of lists is empty, at any depth. */
  predicate NoEmptyArrays(l: NvList)
    decreases l
  {
    match l
    case Nil => true
    case Entry(_, val, _, rest) =>
      && (val.List? ==> NoEmptyArrays(val.l))
      && (val.Lists? ==> val.ls.More? && NoneEmpty(val.ls))
      && NoEmptyArrays(rest)
  }

  predicate NoneEmpty(ls: NvLists)
    decreases ls
  {
    match ls
    case NoLists => true
    case More(l, os) => NoEmptyArrays(l) && NoneEmpty(os)
  }

  function ListsIn(val: Val): nat {
    match val
    case List(_) => 1
    case Lists(ls) => Count(ls)
    case _ => 0
  }

  lemma EntryOpens(p: nat, l: NvList)
    requires l.Entry? && Encodable(l)
    ensures Opens(EntryStep(p, l.name, l.val, l.slack)) == ListsIn(l.val)
  {
    hide EntryStep, TypeOf, ValBytes, ValueOffset, Encodable;
    EntryFacts(p, l);
  }

  lemma {:induction false} FullOfEnc(D: seq<Byte>, p: nat, l: NvList, k: nat)
    requires p > 0 && Encodable(l) && NoEmptyArrays(l) && At(D, p, Enc(l)) && p + |Enc(l)| < |D|
    requires FullArrays(D, Cursor(Native, p + |Enc(l)|), k)
    ensures FullArrays(D, Cursor(Native, p), k + 1)
    decreases l, 0
  {
    hide NextAt, At, Head, PairSize, Enc, FullArrays;
    match l
    case Nil => FullOfEnd(D, p, l, k);
    case Entry(name, val, slack, rest) =>
      EntryParts(D, p, l);
      EntryOk(l);
      var q := p + PairSize(name, val, slack);
      FullOfEnc(D, q + |Nested(val)|, rest, k);
      FullOfNested(D, q, val, k + 1);
      FullOverEntry(D, p, l, k + 1);
  }

  lemma FullOfEnd(D: seq<Byte>, p: nat, l: NvList, k: nat)
    requires p > 0 && l.Nil? && At(D, p, Enc(l)) && p + |Enc(l)| < |D|
    requires FullArrays(D, Cursor(Native, p + |Enc(l)|), k)
    ensures FullArrays(D, Cursor(Native, p), k + 1)
  {
    hide NextAt, At;
    StepOverEnd(D, p);
  }

  lemma FullOverEntry(D: seq<Byte>, p: nat, l: NvList, open: nat)
    requires p > 0 && open > 0 && l.Entry? && Encodable(l) && NoEmptyArrays(l)
    requires At(D, p, Head(l.name, l.val, l.slack)) && p + PairSize(l.name, l.val, l.slack) + 4 < |D|
    requires FullArrays(D, Cursor(Native, p + PairSize(l.name, l.val, l.slack)), open + ListsIn(l.val))
    ensures FullArrays(D, Cursor(Native, p), open)
  {
    hide NextAt, At, Head, PairSize, Encodable, EntryStep, TypeOf, ValBytes, ValueOffset, Opens;
    StepOverEntry(D, p, l);
    EntryFacts(p, l);
    EntryOpens(p, l);
  }

  lemma {:induction false} FullOfNested(D: seq<Byte>, q: nat, val: Val, k: nat)
    requires q > 0 && ValOk(val) && At(D, q, Nested(val)) && q + |Nested(val)| < |D|
    requires val.List? ==> NoEmptyArrays(val.l)
    requires val.Lists? ==> NoneEmpty(val.ls)
    requires FullArrays(D, Cursor(Native, q + |Nested(val)|), k)
    ensures FullArrays(D, Cursor(Native, q), k + ListsIn(val))
    decreases val, 1
  {
    hide At, FullArrays, Enc, EncAll;
    match val
    case List(l) => FullOfEnc(D, q, l, k);
    case Lists(ls) => FullOfEncAll(D, q, ls, k);
    case _ =>
  }

  lemma {:induction false} FullOfEncAll(D: seq<Byte>, p: nat, ls: NvLists, k: nat)
    requires p > 0 && AllEncodable(ls) && NoneEmpty(ls) && At(D, p, EncAll(ls)) && p + |EncAll(ls)| < |D|
    requires FullArrays(D, Cursor(Native, p + |EncAll(ls)|), k)
    ensures FullArrays(D, Cursor(Native, p), k + Count(ls))
    decreases ls, 0
  {
    hide At, FullArrays, Enc, Encodable;
    match ls
    case NoLists =>
    case More(l, os) =>
      ListsParts(D, p, ls);
      FullOfEncAll(D, p + |Enc(l)|, os, k);
      FullOfEnc(D, p, l, k + Count(os));
  }

  lemma RestNotEmpty(l: NvList)
    requires l.Entry? && NoEmptyArrays(l)
    ensures NoEmptyArrays(l.rest) && (l.val.Lists? ==> Count(l.val.ls) > 0 && NoneEmpty(l.val.ls))
  {
  }

  /** An unknown array with more than one element leaves a list open for good. */
  lemma {:induction false} OutOfStepGrows(D: seq<Byte>, p: nat, l: NvList, acc: Vdev, open: nat)
    requires p > 0 && Encodable(l) && At(D, p, Enc(l)) && p + |Enc(l)| < |D|
    requires NoEmptyArrays(l) && !InStep(l)
    requires open > 0 && VdevList(D, Cursor(Native, p), acc).Ok? && FullArrays(D, Cursor(Native, p), open)
    ensures var o := OpenAfter(D, Cursor(Native, p), acc, open);
      o.Some? && o.value >= open
    decreases l, 1
  {
    hide NextAt, FieldAt, Head, At, PairSize, Enc, VdevLists, SkipList, OpenAfterAll, EntryStep, TypeOf,
         ValBytes, ValueOffset, Opens, NoEmptyArrays;
    var q := p + PairSize(l.name, l.val, l.slack);
    RestNotEmpty(l);
    EntryParts(D, p, l);
    EntryOk(l);
    StepOverEntry(D, p, l);
    EntryFacts(p, l);
    EntryOpens(p, l);
    var s := EntryStep(p, l.name, l.val, l.slack);
    if Text(l.name) == "children" {
      OutOfStepChildren(D, q, l, acc, open);
    } else if IsField(Text(l.name)) {
      FieldIsNoList(D, s, acc);
      OutOfStepGrows(D, q, l.rest, FieldAt(D, s, acc).value, open);
    } else if HoldsLists(s.tok) {
      OutOfStepSkipped(D, q, l, acc, open);
    } else {
      OutOfStepGrows(D, q, l.rest, acc, open);
    }
  }

  /** Behind the pair of an unknown member with lists. */
  lemma {:induction false} OutOfStepSkipped(D: seq<Byte>, q: nat, l: NvList, acc: Vdev, open: nat)
    requires l.Entry? && Text(l.name) != "children" && !IsField(Text(l.name)) && (l.val.List? || l.val.Lists?)
    requires q > 0 && Encodable(l) && At(D, q, Nested(l.val))
    requires At(D, q + |Nested(l.val)|, Enc(l.rest)) && q + |Nested(l.val)| + |Enc(l.rest)| < |D|
    requires NoEmptyArrays(l) && !InStep(l)
    requires open > 0 && FullArrays(D, Cursor(Native, q), open + ListsIn(l.val))
    requires SkipList(D, Cursor(Native, q)).Ok? && VdevList(D, SkipList(D, Cursor(Native, q)).value, acc).Ok?
    ensures var o := OpenAfter(D, SkipList(D, Cursor(Native, q)).value, acc, open + ListsIn(l.val) - 1);
      o.Some? && o.value >= open
    decreases l, 0
  {
    hide VdevList, OpenAfter, SkipList, FullArrays, At, Enc, EncAll, AllInStep, NoEmptyArrays, Encodable, AllEncodable;
    EntryOk(l);
    RestNotEmpty(l);
    FullAfterSkip(D, Cursor(Native, q), open + ListsIn(l.val) - 1);
    if ListsIn(l.val) == 1 {
      SkipOverNested(D, q, l.val);
      OutOfStepGrows(D, q + |Nested(l.val)|, l.rest, acc, open);
    } else {
      OpenGrows(D, SkipList(D, Cursor(Native, q)).value, acc, open + ListsIn(l.val) - 1);
    }
  }

  lemma ChildrenInStep(l: NvList)
    requires l.Entry? && Text(l.name) == "children" && l.val.Lists?
    ensures InStep(l) <==> AllInStep(l.val.ls) && InStep(l.rest)
  {
  }

  /** The same behind a pair named "children": the array or the rest is out of step. */
  lemma {:induction false} OutOfStepChildren(D: seq<Byte>, q: nat, l: NvList, acc: Vdev, open: nat)
    requires l.Entry? && Text(l.name) == "children" && l.val.Lists?
    requires q > 0 && Encodable(l) && At(D, q, EncAll(l.val.ls))
    requires At(D, q + |EncAll(l.val.ls)|, Enc(l.rest)) && q + |EncAll(l.val.ls)| + |Enc(l.rest)| < |D|
    requires NoEmptyArrays(l) && !InStep(l)
    requires open > 0 && FullArrays(D, Cursor(Native, q), open + Count(l.val.ls))
    requires VdevLists(D, Cursor(Native, q), Count(l.val.ls), acc.children).Ok?
    requires var x := VdevLists(D, Cursor(Native, q), Count(l.val.ls), acc.children).value;
      VdevList(D, x.1, acc.(children := x.0)).Ok?
    ensures var x := VdevLists(D, Cursor(Native, q), Count(l.val.ls), acc.children).value;
      var o := OpenAfterAll(D, Cursor(Native, q), Count(l.val.ls), acc.children, open + Count(l.val.ls));
      o.Some? && var e := OpenAfter(D, x.1, acc.(children := x.0), o.value);
      e.Some? && e.value >= open
    decreases l, 0
  {
    hide VdevList, VdevLists, OpenAfter, OpenAfterAll, FullArrays, At, Enc, EncAll, Encodable, AllEncodable,
         InStep, AllInStep, NoEmptyArrays, NoneEmpty;
    var (c, ls, rest) := (Cursor(Native, q), l.val.ls, l.rest);
    EntryOk(l);
    RestNotEmpty(l);
    ChildrenInStep(l);
    var x := VdevLists(D, c, Count(ls), acc.children).value;
    OpenAllGrows(D, c, Count(ls), acc.children, open + Count(ls));
    var o := OpenAfterAll(D, c, Count(ls), acc.children, open + Count(ls)).value;
    if AllInStep(ls) {
      ParseInvertsEncAll(D, q, ls, acc.children);
      OutOfStepGrows(D, q + |EncAll(ls)|, rest, acc.(children := x.0), o);
    } else {
      AllOutOfStepGrows(D, q, ls, acc.children, open + Count(ls));
      OpenGrows(D, x.1, acc.(children := x.0), o);
    }
  }

  lemma {:induction false} AllOutOfStepGrows(D: seq<Byte>, p: nat, ls: NvLists, acc: seq<Vdev>, open: nat)
    requires p > 0 && AllEncodable(ls) && At(D, p, EncAll(ls)) && p + |EncAll(ls)| < |D|
    requires NoneEmpty(ls) && !AllInStep(ls)
    requires open >= Count(ls) && VdevLists(D, Cursor(Native, p), Count(ls), acc).Ok?
    requires FullArrays(D, Cursor(Native, p), open)
    ensures var o := OpenAfterAll(D, Cursor(Native, p), Count(ls), acc, open);
      o.Some? && o.value > open - Count(ls)
    decreases ls, 0
  {
    hide VdevList, OpenAfter, FullArrays, At, Enc, Encodable, InStep;
    var (l, os, c) := (ls.first, ls.others, Cursor(Native, p));
    ListsParts(D, p, ls);
    OpenGrows(D, c, NO_VDEV, open);
    var x := VdevList(D, c, NO_VDEV).value;
    var o := OpenAfter(D, c, NO_VDEV, open).value;
    if InStep(l) {
      ParseInvertsEnc(D, p, l, NO_VDEV);
      AllOutOfStepGrows(D, p + |Enc(l)|, os, acc + [x.0], o);
    } else {
      OutOfStepGrows(D, p, l, NO_VDEV, open);
      OpenAllGrows(D, x.1, Count(os), acc + [x.0], o);
    }
  }

  /** An encoded vdev without empty arrays of lists: a parse that succeeds ends exactly behind
      it if and only if each unknown array has one element. */
  lemma ParseExactIff(D: seq<Byte>, p: nat, l: NvList, acc: Vdev)
    requires p > 0 && Encodable(l) && At(D, p, Enc(l)) && p + |Enc(l)| < |D|
    requires NoEmptyArrays(l) && VdevList(D, Cursor(Native, p), acc).Ok?
    ensures VdevList(D, Cursor(Native, p), acc).value.1 == Cursor(Native, p + |Enc(l)|) <==> InStep(l)
  {
    hide VdevList, OpenAfter, FullArrays, At, Enc, Encodable, InStep, SkipList, NoEmptyArrays;
    var c := Cursor(Native, p);
    if InStep(l) {
      ParseInvertsEnc(D, p, l, acc);
    } else {
      assert FullArrays(D, Cursor(Native, p + |Enc(l)|), 0) by { NothingOpen(D, Cursor(Native, p + |Enc(l)|)); }
      FullOfEnc(D, p, l, 0);
      OutOfStepGrows(D, p, l, acc, 1);
      ParseEndsWithSkipIff(D, c, acc);
      SkipIsExact(D, p, l);
    }
  }

  lemma NothingOpen(D: seq<Byte>, c: Cursor)
    ensures FullArrays(D, c, 0)
  {
  }

  // ---- An empty array can make up for one with two elements -------------------

  lemma EncNil()
    ensures Enc(Nil) == Zeros(4)
  {
  }

  /** An unknown array without elements, inside a list: `Skip` takes the rest of the list. */
  lemma EmptyArraySkipsRest(D: seq<Byte>, p: nat, l: NvList, acc: Vdev)
    requires p > 0 && l.Entry? && Encodable(l) && At(D, p, Enc(l)) && p + |Enc(l)| < |D|
    requires Text(l.name) != "children" && !IsField(Text(l.name)) && l.val == Lists(NoLists)
    ensures VdevList(D, Cursor(Native, p), acc) == VdevList(D, Cursor(Native, p + |Enc(l)|), acc)
  {
    hide At, Enc, NextAt, PairSize, Head, SkipList, FieldAt, VdevLists, EntryStep, TypeOf, ValBytes, ValueOffset;
    EntryParts(D, p, l);
    EntryOk(l);
    StepOverEntry(D, p, l);
    EntryFacts(p, l);
    assert Nested(l.val) == [];
    SkipIsExact(D, p + PairSize(l.name, l.val, l.slack), l.rest);
  }

  lemma OnlyList(D: seq<Byte>, q: nat, k: NvList)
    requires At(D, q, EncAll(More(k, NoLists))) && AllEncodable(More(k, NoLists))
    ensures At(D, q, Enc(k)) && |EncAll(More(k, NoLists))| == |Enc(k)| && Encodable(k)
  {
    hide At, Enc, Encodable;
    ListsParts(D, q, More(k, NoLists));
  }

  lemma CountOne(k: NvList)
    ensures Count(More(k, NoLists)) == 1
  {
  }

  /** Where an only child and what follows its first pair lie. */
  lemma OnlyChildAt(D: seq<Byte>, p: nat, l: NvList, k: NvList)
    requires p > 0 && Encodable(l) && At(D, p, Enc(l)) && p + |Enc(l)| < |D|
    requires l.Entry? && l.val == Lists(More(k, NoLists)) && k.Entry?
    ensures NextAt(D, Cursor(Native, p)) == EntryStep(p, l.name, l.val, l.slack)
    ensures var q := p + PairSize(l.name, l.val, l.slack);
      && Encodable(k) && Encodable(k.rest) && At(D, q, Enc(k)) && |Enc(k)| >= |Enc(k.rest)|
      && At(D, q + |Enc(k)| - |Enc(k.rest)|, Enc(k.rest))
      && q + |Enc(k)| == p + |Enc(l)| - |Enc(l.rest)| < |D|
  {
    hide *;
    EntryParts(D, p, l);
    EntryOk(l);
    ChildrenNested(l.val);
    StepOverEntry(D, p, l);
    OnlyList(D, p + PairSize(l.name, l.val, l.slack), k);
    EntryParts(D, p + PairSize(l.name, l.val, l.slack), k);
    EntryOk(k);
  }

  function WithChildren(D: seq<Byte>, kids: Result<(seq<Vdev>, Cursor)>, acc: Vdev): Result<(Vdev, Cursor)> {
    match kids
    case Err(e) => Err(e)
    case Ok(x) => VdevList(D, x.1, acc.(children := x.0))
  }

  function OneMore(child: Result<Vdev>, end: Cursor, before: seq<Vdev>): Result<(seq<Vdev>, Cursor)> {
    match child
    case Err(e) => Err(e)
    case Ok(v) => Ok((before + [v], end))
  }

  lemma OneMoreChild(D: seq<Byte>, child: Result<Vdev>, end: Cursor, acc: Vdev)
    ensures WithChildren(D, OneMore(child, end, acc.children), acc) ==
            if child.Err? then Err(child.error) else VdevList(D, end, acc.(children := acc.children + [child.value]))
  {
    hide VdevList;
  }

  lemma ChildStep(D: seq<Byte>, c: Cursor, s: Step, acc: Vdev)
    requires NextAt(D, c) == s && s.Pair? && Text(s.name) == "children" && s.tok == NVLIST_ARRAY
    ensures VdevList(D, c, acc) == WithChildren(D, VdevLists(D, s.next, s.num, acc.children), acc)
  {
    hide NextAt, VdevLists, SkipList, FieldAt;
  }

  lemma ListOfOne(D: seq<Byte>, c: Cursor, child: Result<Vdev>, end: Cursor, before: seq<Vdev>)
    requires VdevList(D, c, NO_VDEV) == EndingAt(child, end)
    ensures VdevLists(D, c, 1, before) == OneMore(child, end, before)
  {
    hide VdevList;
    if child.Ok? {
      assert VdevLists(D, end, 0, before + [child.value]) == Ok((before + [child.value], end));
    }
  }

  /** The step over "children" with one child whose parse ends at `r`. */
  lemma OneChild(D: seq<Byte>, p: nat, l: NvList, r: nat, child: Result<Vdev>, acc: Vdev)
    requires l.Entry? && Encodable(l) && Text(l.name) == "children" && l.val.Lists? && Count(l.val.ls) == 1
    requires NextAt(D, Cursor(Native, p)) == EntryStep(p, l.name, l.val, l.slack)
    requires VdevList(D, Cursor(Native, p + PairSize(l.name, l.val, l.slack)), NO_VDEV)
             == EndingAt(child, Cursor(Native, r))
    ensures VdevList(D, Cursor(Native, p), acc)
            == WithChildren(D, OneMore(child, Cursor(Native, r), acc.children), acc)
  {
    hide *;
    EntryFacts(p, l);
    ChildStep(D, Cursor(Native, p), EntryStep(p, l.name, l.val, l.slack), acc);
    ListOfOne(D, Cursor(Native, p + PairSize(l.name, l.val, l.slack)), child, Cursor(Native, r), acc.children);
  }

  /** A child with an unknown array of two lists, A and B, and an empty one right behind it: the
      parser makes B the child, and goes on exactly behind the child all the same. */
  lemma EmptyArrayCancels(D: seq<Byte>, p: nat, l: NvList, k: NvList, A: NvList, B: NvList, acc: Vdev)
    requires p > 0 && Encodable(l) && At(D, p, Enc(l)) && p + |Enc(l)| < |D|
    requires l.Entry? && Text(l.name) == "children" && l.val == Lists(More(k, NoLists))
    requires k.Entry? && Text(k.name) != "children" && !IsField(Text(k.name))
    requires k.val == Lists(More(A, More(B, NoLists))) && InStep(B)
    requires k.rest.Entry? && Text(k.rest.name) != "children" && !IsField(Text(k.rest.name))
    requires k.rest.val == Lists(NoLists)
    ensures VdevList(D, Cursor(Native, p), acc) ==
      match VdevOf(B, NO_VDEV)
      case Err(e) => Err(e)
      case Ok(v) => VdevList(D, Cursor(Native, p + |Enc(l)| - |Enc(l.rest)|), acc.(children := acc.children + [v]))
  {
    hide *;
    CountOne(k);
    var q := p + PairSize(l.name, l.val, l.slack);
    var r := q + |Enc(k)| - |Enc(k.rest)|;
    OnlyChildAt(D, p, l, k);
    TwoElementArrayLeaks(D, q, k, A, B, NO_VDEV);
    OneChild(D, p, l, r, VdevOf(B, NO_VDEV), acc);
    OneMoreChild(D, VdevOf(B, NO_VDEV), Cursor(Native, r), acc);
    match VdevOf(B, NO_VDEV)
    case Err(_) =>
    case Ok(v) => EmptyArraySkipsRest(D, r, k.rest, acc.(children := acc.children + [v]));
  }

  /** A vdev with one child: in front of the child's id an unknown array of two empty lists,
      then an empty one. */
  function CancelChild(): NvList {
    Entry([120], Lists(More(Nil, More(Nil, NoLists))), [],
          Entry([120], Lists(NoLists), [], Entry([105, 100], Int(8, false, 5), [], Nil)))
  }

  function CancelList(): NvList {
    Entry([99, 104, 105, 108, 100, 114, 101, 110], Lists(More(CancelChild(), NoLists)), [], Nil)
  }

  lemma CancelTexts()
    ensures Text([120]) == "x" && Text([105, 100]) == "id"
    ensures Text([99, 104, 105, 108, 100, 114, 101, 110]) == "children"
  {
  }

  lemma CancelChildParts()
    ensures var k := CancelChild();
      && k.Entry? && Text(k.name) == "x" && k.val == Lists(More(Nil, More(Nil, NoLists)))
      && k.rest.Entry? && Text(k.rest.name) == "x" && k.rest.val == Lists(NoLists)
  {
    CancelTexts();
  }

  lemma CancelChildMeans()
    ensures Encodable(CancelChild()) && !InStep(CancelChild())
    ensures VdevOf(CancelChild(), NO_VDEV) == Ok(NO_VDEV.(id := 5))
  {
    CancelTexts();
    Widths();
    var k := CancelChild();
    var r := k.rest.rest;
    assert VdevOf(r, NO_VDEV) == VdevOf(Nil, NO_VDEV.(id := 5));
    assert VdevOf(k.rest, NO_VDEV) == VdevOf(r, NO_VDEV);
    assert AllEncodable(k.val.ls) && Encodable(r) && Encodable(k.rest);
  }

  lemma CancelListMeans()
    ensures Encodable(CancelList()) && !InStep(CancelList())
    ensures VdevOf(CancelList(), NO_VDEV) == Ok(NO_VDEV.(children := [NO_VDEV.(id := 5)]))
  {
    hide CancelChild;
    CancelTexts();
    CancelChildMeans();
    var l := CancelList();
    assert [] + [NO_VDEV.(id := 5)] == [NO_VDEV.(id := 5)];
    assert VdevsOf(l.val.ls, []) == VdevsOf(NoLists, [] + [NO_VDEV.(id := 5)]);
    assert AllEncodable(l.val.ls) && !AllInStep(l.val.ls);
  }

  lemma CancelsToEnd(D: seq<Byte>, p: nat, l: NvList, k: NvList)
    requires p > 0 && Encodable(l) && At(D, p, Enc(l)) && p + |Enc(l)| < |D|
    requires l.Entry? && Text(l.name) == "children" && l.val == Lists(More(k, NoLists)) && l.rest == Nil
    requires k.Entry? && Text(k.name) == "x" && k.val == Lists(More(Nil, More(Nil, NoLists)))
    requires k.rest.Entry? && Text(k.rest.name) == "x" && k.rest.val == Lists(NoLists)
    ensures VdevList(D, Cursor(Native, p), NO_VDEV)
            == Ok((NO_VDEV.(children := [NO_VDEV]), Cursor(Native, p + |Enc(l)|)))
  {
    hide At, Enc, Encodable, VdevList, PairSize, Head, Nested;
    EmptyArrayCancels(D, p, l, k, Nil, Nil, NO_VDEV);
    assert [] + [NO_VDEV] == [NO_VDEV];
    EntryParts(D, p, l);
    EncNil();
    VdevEnds(D, p + |Enc(l)| - 4, NO_VDEV.(children := [NO_VDEV]));
  }

  lemma CancelRead(D: seq<Byte>, p: nat)
    requires p > 0 && At(D, p, Enc(CancelList())) && p + |Enc(CancelList())| < |D|
    ensures VdevList(D, Cursor(Native, p), NO_VDEV)
            == Ok((NO_VDEV.(children := [NO_VDEV]), Cursor(Native, p + |Enc(CancelList())|)))
  {
    hide At, Enc, Encodable, VdevList, CancelChild, InStep, VdevOf;
    CancelListMeans();
    CancelTexts();
    CancelChildParts();
    CancelsToEnd(D, p, CancelList(), CancelChild());
  }

  /** The parse ends exactly behind the list although it has lost the id of the child: with
      empty arrays, ending there proves nothing. */
  lemma CancelExample(version: nat, flags: nat)
    ensures !InStep(CancelList())
    ensures VdevOf(CancelList(), NO_VDEV) == Ok(NO_VDEV.(children := [NO_VDEV.(id := 5)]))
    ensures var D := Header(version, flags) + Enc(CancelList()) + [0];
      VdevList(D, Cursor(Native, HEADER_SIZE), NO_VDEV)
      == Ok((NO_VDEV.(children := [NO_VDEV]), Cursor(Native, HEADER_SIZE + |Enc(CancelList())|)))
  {
    hide At, Enc, Header, VdevList, CancelList, InStep, VdevOf, NextAt;
    CancelListMeans();
    HeaderThenList(version, flags, CancelList(), [0]);
    CancelRead(Header(version, flags) + Enc(CancelList()) + [0], HEADER_SIZE);
  }

  // ---- Pools ------------------------------------------------------------------

  /** The same count along the decode loop of a pool. */
  function PoolOpenAfter(D: seq<Byte>, c: Cursor, acc: PoolInfo, open: nat): Option<nat>
    decreases |D| - c.pos
  {
    if open == 0 then None else
    var s := NextAt(D, c);
    match s
    case Bad(_) => None
    case End(_) => Some(open - 1)
    case Pair(tok, name, _, _, _, next) =>
      if IsCounter(Text(name)) then
        match CounterAt(D, s, acc)
        case Err(_) => None
        case Ok(a) => PoolOpenAfter(D, next, a, open)
      else if Text(name) == "vdev_tree" then
        match VdevList(D, next, NO_VDEV)
        case Err(_) => None
        case Ok(x) =>
          match OpenAfter(D, next, NO_VDEV, open + Opens(s))
          case None => None
          case Some(o) => PoolOpenAfter(D, x.1, acc.(vdev := Some(x.0)), o)
      else if HoldsLists(tok) then
        match SkipList(D, next)
        case Err(_) => None
        case Ok(d) => PoolOpenAfter(D, d, acc, open + Opens(s) - 1)
      else PoolOpenAfter(D, next, acc, open)
  }

  lemma CounterIsNoList(D: seq<Byte>, s: Step, acc: PoolInfo)
    requires s.Pair? && IsCounter(Text(s.name)) && CounterAt(D, s, acc).Ok?
    ensures !HoldsLists(s.tok)
  {
  }

  lemma {:induction false} PoolLeaves(D: seq<Byte>, c: Cursor, acc: PoolInfo, open: nat)
    requires PoolList(D, c, acc).Ok?
    ensures Leaves(D, c, open, PoolList(D, c, acc).value.1, PoolOpenAfter(D, c, acc, open))
    decreases |D| - c.pos
  {
    hide NextAt, CounterAt, SkipList, VdevList, OpenAfter;
    if open > 0 {
      var s := NextAt(D, c);
      match s {
        case Bad(_) =>
        case End(_) =>
        case Pair(tok, name, _, _, _, next) =>
          if IsCounter(Text(name)) {
            CounterIsNoList(D, s, acc);
            PoolLeaves(D, next, CounterAt(D, s, acc).value, open);
          } else if Text(name) == "vdev_tree" {
            VdevLeaves(D, next, NO_VDEV, open + Opens(s));
            var x := VdevList(D, next, NO_VDEV).value;
            var o := OpenAfter(D, next, NO_VDEV, open + Opens(s));
            if o.Some? {
              PoolLeaves(D, x.1, acc.(vdev := Some(x.0)), o.value);
            }
          } else if HoldsLists(tok) {
            ScanOverList(D, next, open + Opens(s));
            PoolLeaves(D, SkipList(D, next).value, acc, open + Opens(s) - 1);
          } else {
            PoolLeaves(D, next, acc, open);
          }
      }
    }
  }

  /** On any bytes: decoding a pool ends where `Skip` ends under the same condition. */
  lemma DecodeEndsWithSkipIff(D: seq<Byte>, c: Cursor, acc: PoolInfo)
    requires PoolList(D, c, acc).Ok?
    ensures SkipList(D, c) == Ok(PoolList(D, c, acc).value.1) <==> PoolOpenAfter(D, c, acc, 1) == Some(0)
  {
    hide SkipList, PoolList, PoolOpenAfter, Leaves;
    PoolLeaves(D, c, acc, 1);
    LeavesNoneIff(D, c, PoolList(D, c, acc).value.1, PoolOpenAfter(D, c, acc, 1));
  }

  lemma {:induction false} PoolOpenGrows(D: seq<Byte>, c: Cursor, acc: PoolInfo, open: nat)
    requires open > 0 && PoolList(D, c, acc).Ok? && FullArrays(D, c, open)
    ensures PoolOpenAfter(D, c, acc, open).Some? && PoolOpenAfter(D, c, acc, open).value >= open - 1
    decreases |D| - c.pos
  {
    hide NextAt, CounterAt, SkipList, VdevList, OpenAfter;
    var s := NextAt(D, c);
    match s {
      case Bad(_) =>
      case End(_) =>
      case Pair(tok, name, _, _, _, next) =>
        if IsCounter(Text(name)) {
          CounterIsNoList(D, s, acc);
          PoolOpenGrows(D, next, CounterAt(D, s, acc).value, open);
        } else if Text(name) == "vdev_tree" {
          OpenGrows(D, next, NO_VDEV, open + Opens(s));
          var x := VdevList(D, next, NO_VDEV).value;
          PoolOpenGrows(D, x.1, acc.(vdev := Some(x.0)), OpenAfter(D, next, NO_VDEV, open + Opens(s)).value);
        } else if HoldsLists(tok) {
          FullAfterSkip(D, next, open + Opens(s) - 1);
          PoolOpenGrows(D, SkipList(D, next).value, acc, open + Opens(s) - 1);
        } else {
          PoolOpenGrows(D, next, acc, open);
        }
    }
  }

  lemma {:induction false} PoolOutOfStepGrows(D: seq<Byte>, p: nat, l: NvList, acc: PoolInfo, open: nat)
    requires p > 0 && Encodable(l) && At(D, p, Enc(l)) && p + |Enc(l)| < |D|
    requires NoEmptyArrays(l) && !PoolInStep(l)
    requires open > 0 && PoolList(D, Cursor(Native, p), acc).Ok? && FullArrays(D, Cursor(Native, p), open)
    ensures var o := PoolOpenAfter(D, Cursor(Native, p), acc, open);
      o.Some? && o.value >= open
    decreases l, 1
  {
    hide NextAt, Encodable, CounterAt, Head, At, PairSize, Enc, VdevList, SkipList, OpenAfter, InStep,
         EntryStep, TypeOf, ValBytes, ValueOffset, Opens, NoEmptyArrays;
    var q := p + PairSize(l.name, l.val, l.slack);
    RestNotEmpty(l);
    EntryParts(D, p, l);
    EntryOk(l);
    StepOverEntry(D, p, l);
    EntryFacts(p, l);
    EntryOpens(p, l);
    var s := EntryStep(p, l.name, l.val, l.slack);
    if IsCounter(Text(l.name)) {
      CounterIsNoList(D, s, acc);
      PoolOutOfStepGrows(D, q, l.rest, CounterAt(D, s, acc).value, open);
    } else if Text(l.name) == "vdev_tree" {
      PoolOutOfStepTree(D, q, l, acc, open);
    } else if HoldsLists(s.tok) {
      PoolOutOfStepSkipped(D, q, l, acc, open);
    } else {
      PoolOutOfStepGrows(D, q, l.rest, acc, open);
    }
  }

  lemma {:induction false} PoolOutOfStepTree(D: seq<Byte>, q: nat, l: NvList, acc: PoolInfo, open: nat)
    requires l.Entry? && Text(l.name) == "vdev_tree" && l.val.List?
    requires q > 0 && Encodable(l) && At(D, q, Nested(l.val))
    requires At(D, q + |Nested(l.val)|, Enc(l.rest)) && q + |Nested(l.val)| + |Enc(l.rest)| < |D|
    requires NoEmptyArrays(l) && !PoolInStep(l)
    requires open > 0 && FullArrays(D, Cursor(Native, q), open + 1)
    requires VdevList(D, Cursor(Native, q), NO_VDEV).Ok?
    requires var x := VdevList(D, Cursor(Native, q), NO_VDEV).value; PoolList(D, x.1, acc.(vdev := Some(x.0))).Ok?
    ensures var x := VdevList(D, Cursor(Native, q), NO_VDEV).value;
      var o := OpenAfter(D, Cursor(Native, q), NO_VDEV, open + 1);
      o.Some? && var e := PoolOpenAfter(D, x.1, acc.(vdev := Some(x.0)), o.value);
      e.Some? && e.value >= open
    decreases l, 0
  {
    hide VdevList, PoolList, OpenAfter, PoolOpenAfter, FullArrays, At, Enc, InStep;
    EntryOk(l);
    var (c, t) := (Cursor(Native, q), l.val.l);
    OpenGrows(D, c, NO_VDEV, open + 1);
    var x := VdevList(D, c, NO_VDEV).value;
    var o := OpenAfter(D, c, NO_VDEV, open + 1).value;
    if InStep(t) {
      ParseInvertsEnc(D, q, t, NO_VDEV);
      PoolOutOfStepGrows(D, q + |Enc(t)|, l.rest, acc.(vdev := Some(x.0)), o);
    } else {
      OutOfStepGrows(D, q, t, NO_VDEV, open + 1);
      PoolOpenGrows(D, x.1, acc.(vdev := Some(x.0)), o);
    }
  }

  lemma {:induction false} PoolOutOfStepSkipped(D: seq<Byte>, q: nat, l: NvList, acc: PoolInfo, open: nat)
    requires l.Entry? && Text(l.name) != "vdev_tree" && !IsCounter(Text(l.name)) && (l.val.List? || l.val.Lists?)
    requires q > 0 && Encodable(l) && At(D, q, Nested(l.val))
    requires At(D, q + |Nested(l.val)|, Enc(l.rest)) && q + |Nested(l.val)| + |Enc(l.rest)| < |D|
    requires NoEmptyArrays(l) && !PoolInStep(l)
    requires open > 0 && FullArrays(D, Cursor(Native, q), open + ListsIn(l.val))
    requires SkipList(D, Cursor(Native, q)).Ok? && PoolList(D, SkipList(D, Cursor(Native, q)).value, acc).Ok?
    ensures var o := PoolOpenAfter(D, SkipList(D, Cursor(Native, q)).value, acc, open + ListsIn(l.val) - 1);
      o.Some? && o.value >= open
    decreases l, 0
  {
    hide PoolList, PoolOpenAfter, SkipList, FullArrays, At, Enc, EncAll, InStep, NoEmptyArrays, Encodable, AllEncodable;
    EntryOk(l);
    RestNotEmpty(l);
    FullAfterSkip(D, Cursor(Native, q), open + ListsIn(l.val) - 1);
    if ListsIn(l.val) == 1 {
      SkipOverNested(D, q, l.val);
      PoolOutOfStepGrows(D, q + |Nested(l.val)|, l.rest, acc, open);
    } else {
      PoolOpenGrows(D, SkipList(D, Cursor(Native, q)).value, acc, open + ListsIn(l.val) - 1);
    }
  }

  /** Encoded statistics without empty arrays of lists: decoding that succeeds ends exactly
      behind them if and only if each unknown array has one element, in the vdev tree too. */
  lemma DecodeExactIff(D: seq<Byte>, p: nat, l: NvList, acc: PoolInfo)
    requires p > 0 && Encodable(l) && At(D, p, Enc(l)) && p + |Enc(l)| < |D|
    requires NoEmptyArrays(l) && PoolList(D, Cursor(Native, p), acc).Ok?
    ensures PoolList(D, Cursor(Native, p), acc).value.1 == Cursor(Native, p + |Enc(l)|) <==> PoolInStep(l)
  {
    hide PoolList, PoolOpenAfter, FullArrays, At, Enc, Encodable, PoolInStep, SkipList, NoEmptyArrays;
    if PoolInStep(l) {
      DecodeInvertsEnc(D, p, l, acc);
    } else {
      NothingOpen(D, Cursor(Native, p + |Enc(l)|));
      FullOfEnc(D, p, l, 0);
      PoolOutOfStepGrows(D, p, l, acc, 1);
      DecodeEndsWithSkipIff(D, Cursor(Native, p), acc);
      SkipIsExact(D, p, l);
    }
  }

  // ---- Properties -------------------------------------------------------------

  /** The same count along `ParseValue`, which skips nothing. */
  function ValueOpenAfter(D: seq<Byte>, c: Cursor, prop: string, acc: Props, open: nat): (o: nat)
    requires open > 0 && ValueList(D, c, prop, acc).Ok?
    ensures o >= open - 1
    decreases |D| - c.pos
  {
    var s := NextAt(D, c);
    if s.End? then open - 1
    else if Text(s.name) == "value" && PropNamed(prop).Some? then
      ValueOpenAfter(D, s.next, prop, Set(acc, PropNamed(prop).value, NumberAt(D, s, prop).value), open + Opens(s))
    else ValueOpenAfter(D, s.next, prop, acc, open + Opens(s))
  }

  function PropsOpenAfter(D: seq<Byte>, c: Cursor, acc: Props, open: nat): (o: nat)
    requires open > 0 && PropsList(D, c, acc).Ok?
    ensures o >= open - 1
    decreases |D| - c.pos
  {
    var s := NextAt(D, c);
    if s.End? then open - 1 else
    var x := ValueList(D, s.next, Text(s.name), acc).value;
    PropsOpenAfter(D, x.1, x.0, ValueOpenAfter(D, s.next, Text(s.name), acc, open + Opens(s)))
  }

  lemma {:induction false} ValueLeaves(D: seq<Byte>, c: Cursor, prop: string, acc: Props, open: nat)
    requires open > 0 && ValueList(D, c, prop, acc).Ok?
    ensures Scan(D, c, open)
            == Scan(D, ValueList(D, c, prop, acc).value.1, ValueOpenAfter(D, c, prop, acc, open))
    decreases |D| - c.pos
  {
    hide NextAt, PropNamed, Set, NumberAt;
    var s := NextAt(D, c);
    if s.Pair? {
      if Text(s.name) == "value" && PropNamed(prop).Some? {
        ValueLeaves(D, s.next, prop, Set(acc, PropNamed(prop).value, NumberAt(D, s, prop).value), open + Opens(s));
      } else {
        ValueLeaves(D, s.next, prop, acc, open + Opens(s));
      }
    }
  }

  lemma {:induction false} PropsLeave(D: seq<Byte>, c: Cursor, acc: Props, open: nat)
    requires open > 0 && PropsList(D, c, acc).Ok?
    ensures Scan(D, c, open) == Scan(D, PropsList(D, c, acc).value.1, PropsOpenAfter(D, c, acc, open))
    decreases |D| - c.pos
  {
    hide NextAt, ValueList, ValueOpenAfter;
    var s := NextAt(D, c);
    if s.Pair? {
      ValueLeaves(D, s.next, Text(s.name), acc, open + Opens(s));
      var x := ValueList(D, s.next, Text(s.name), acc).value;
      PropsLeave(D, x.1, x.0, ValueOpenAfter(D, s.next, Text(s.name), acc, open + Opens(s)));
    }
  }

  /** On any bytes: parsing properties ends where `Skip` ends exactly when it has not read into
      a list of a property's list. */
  lemma PropsEndWithSkipIff(D: seq<Byte>, c: Cursor, acc: Props)
    requires PropsList(D, c, acc).Ok?
    ensures SkipList(D, c) == Ok(PropsList(D, c, acc).value.1) <==> PropsOpenAfter(D, c, acc, 1) == 0
  {
    hide SkipList, PropsList, PropsOpenAfter, Scan;
    PropsLeave(D, c, acc, 1);
    assert Leaves(D, c, 1, PropsList(D, c, acc).value.1, Some(PropsOpenAfter(D, c, acc, 1)));
    LeavesNoneIff(D, c, PropsList(D, c, acc).value.1, Some(PropsOpenAfter(D, c, acc, 1)));
  }

  /** A property's list that holds a list leaves one open. */
  lemma {:induction false} ValueNotFlatGrows(D: seq<Byte>, p: nat, l: NvList, prop: string, acc: Props, open: nat)
    requires p > 0 && Encodable(l) && At(D, p, Enc(l)) && p + |Enc(l)| < |D| && !Flat(l)
    requires open > 0 && ValueList(D, Cursor(Native, p), prop, acc).Ok?
    ensures ValueOpenAfter(D, Cursor(Native, p), prop, acc, open) >= open
    decreases l
  {
    hide NextAt, NumberAt, PropNamed, Set, Head, At, PairSize, Enc, EntryStep, TypeOf, ValBytes, ValueOffset, Opens;
    EntryParts(D, p, l);
    EntryOk(l);
    StepOverEntry(D, p, l);
    EntryFacts(p, l);
    EntryOpens(p, l);
    var s := EntryStep(p, l.name, l.val, l.slack);
    if ListsIn(l.val) == 0 {
      var a := if Text(s.name) == "value" && PropNamed(prop).Some?
               then Set(acc, PropNamed(prop).value, NumberAt(D, s, prop).value) else acc;
      EmptyNested(l.val);
      ValueNotFlatGrows(D, p + PairSize(l.name, l.val, l.slack), l.rest, prop, a, open);
    }
  }

  lemma EmptyNested(val: Val)
    requires ListsIn(val) == 0
    ensures Nested(val) == [] && !val.List? && (val.Lists? ==> val.ls == NoLists)
  {
  }

  lemma {:induction false} PropsNotFlatGrows(D: seq<Byte>, p: nat, l: NvList, acc: Props, open: nat)
    requires p > 0 && Encodable(l) && At(D, p, Enc(l)) && p + |Enc(l)| < |D| && !InnersFlat(l)
    requires open > 0 && PropsList(D, Cursor(Native, p), acc).Ok?
    ensures PropsOpenAfter(D, Cursor(Native, p), acc, open) >= open
    decreases l
  {
    hide NextAt, Head, At, PairSize, Enc, ValueList, ValueOpenAfter, Flat, EntryStep, TypeOf, ValBytes,
         ValueOffset, Opens;
    EntryParts(D, p, l);
    EntryOk(l);
    StepOverEntry(D, p, l);
    EntryFacts(p, l);
    EntryOpens(p, l);
    var q := p + PairSize(l.name, l.val, l.slack);
    var x := ValueList(D, Cursor(Native, q), Text(l.name), acc).value;
    if Flat(l.val.l) {
      ValueInvertsEnc(D, q, l.val.l, Text(l.name), acc);
      PropsNotFlatGrows(D, q + |Enc(l.val.l)|, l.rest, x.0,
                        ValueOpenAfter(D, Cursor(Native, q), Text(l.name), acc, open + 1));
    } else {
      ValueNotFlatGrows(D, q, l.val.l, Text(l.name), acc, open + 1);
    }
  }

  /** An encoded property list whose values have the right types is parsed to its end if and
      only if no property's list holds a list. */
  lemma PropsExactIff(D: seq<Byte>, p: nat, l: NvList, acc: Props)
    requires p > 0 && Encodable(l) && At(D, p, Enc(l)) && p + |Enc(l)| < |D| && PropsTyped(l)
    ensures InnersFlat(l) <==>
      PropsList(D, Cursor(Native, p), acc).Ok?
      && PropsList(D, Cursor(Native, p), acc).value.1 == Cursor(Native, p + |Enc(l)|)
  {
    hide PropsList, PropsOpenAfter, At, Enc, Encodable, InnersFlat, SkipList, PropsTyped, PropsOf, LastProp;
    PropsOfIsLast(l, acc, ObjsetId);
    if InnersFlat(l) {
      PropsInvertEnc(D, p, l, acc);
    } else if PropsList(D, Cursor(Native, p), acc).Ok? {
      PropsNotFlatGrows(D, p, l, acc, 1);
      PropsEndWithSkipIff(D, Cursor(Native, p), acc);
      SkipIsExact(D, p, l);
    }
  }

  /** The list of the first property ends in a member with an empty list: that list's end mark
      ends the property, the property's own ends the parse, and the rest is lost. */
  lemma NestedListEndsProps(D: seq<Byte>, p: nat, l: NvList, acc: Props)
    requires p > 0 && Encodable(l) && At(D, p, Enc(l)) && p + |Enc(l)| < |D|
    requires l.Entry? && l.val.List? && l.val.l.Entry? && Nested(l.val.l.val) == [] && l.val.l.rest.Entry?
    requires var x := l.val.l.rest; x.val == List(Nil) && x.rest == Nil && Text(x.name) != "value"
    ensures var i := l.val.l;
      PropsList(D, Cursor(Native, p), acc) ==
      match MemberOf(Text(i.name), i.val, Text(l.name), acc)
      case Err(e) => Err(e)
      case Ok(a) => Ok((a, Cursor(Native, p + |Enc(l)| - |Enc(l.rest)|)))
  {
    hide ValueList, At, Enc, NextAt, PairSize, Head, MemberOf, EntryStep, TypeOf, ValBytes, ValueOffset;
    EntryFacts(p, l);
    var (i, prop) := (l.val.l, Text(l.name));
    EntryParts(D, p, l);
    EntryOk(l);
    StepOverEntry(D, p, l);
    var q := p + PairSize(l.name, l.val, l.slack);
    InnerEndsEarly(D, q, i, prop, acc);
  }

  lemma InnerEndsEarly(D: seq<Byte>, q: nat, i: NvList, prop: string, acc: Props)
    requires q > 0 && Encodable(i) && At(D, q, Enc(i)) && q + |Enc(i)| < |D|
    requires i.Entry? && Nested(i.val) == [] && i.rest.Entry?
    requires i.rest.val == List(Nil) && i.rest.rest == Nil && Text(i.rest.name) != "value"
    ensures ValueList(D, Cursor(Native, q), prop, acc) ==
      match MemberOf(Text(i.name), i.val, prop, acc)
      case Err(e) => Err(e)
      case Ok(a) => Ok((a, Cursor(Native, q + |Enc(i)| - 4)))
    ensures NextAt(D, Cursor(Native, q + |Enc(i)| - 4)) == End(Cursor(Native, q + |Enc(i)|))
  {
    hide At, Enc, NextAt, PairSize, Head, NumberAt, NumberIn, PropNamed, Encodable;
    EntryOk(i);
    EntryOk(i.rest);
    EntryParts(D, q, i);
    ValueOfEntry(D, q, i, prop, acc);
    var r := q + PairSize(i.name, i.val, i.slack);
    EntryParts(D, r, i.rest);
    EncNil();
    var x := r + PairSize(i.rest.name, i.rest.val, i.rest.slack);
    assert Nested(i.rest.val) == Enc(Nil);
    StepOverEnd(D, x);
    StepOverEnd(D, x + 4);
    if MemberOf(Text(i.name), i.val, prop, acc).Ok? {
      ValueOfEntry(D, r, i.rest, prop, MemberOf(Text(i.name), i.val, prop, acc).value);
    }
  }

  /** Two properties; the list of the first holds a list behind its value. */
  function NestedInner(): NvList {
    Entry([118, 97, 108, 117, 101], Int(8, false, 5), [], Entry([120], List(Nil), [], Nil))
  }

  function SecondProp(): NvList {
    Entry([97, 118, 97, 105, 108, 97, 98, 108, 101],
          List(Entry([118, 97, 108, 117, 101], Int(8, false, 7), [], Nil)), [], Nil)
  }

  function NestedProps(): NvList {
    Entry([117, 115, 101, 100], List(NestedInner()), [], SecondProp())
  }

  lemma NestedTexts()
    ensures Text([118, 97, 108, 117, 101]) == "value" && Text([120]) == "x" && Text([117, 115, 101, 100]) == "used"
    ensures Text([97, 118, 97, 105, 108, 97, 98, 108, 101]) == "available"
  {
  }

  lemma NestedInnerMeans()
    ensures Encodable(NestedInner()) && !Flat(NestedInner())
    ensures ValueOf(NestedInner(), "used", NO_PROPS) == Ok(NO_PROPS.(used := 5))
  {
    Widths();
    NestedTexts();
    var i := NestedInner();
    assert ValueOf(i.rest, "used", NO_PROPS.(used := 5)) == ValueOf(Nil, "used", NO_PROPS.(used := 5));
    assert Encodable(i.rest);
  }

  lemma SecondPropMeans(acc: Props)
    ensures Encodable(SecondProp()) && PropsOf(SecondProp(), acc) == Ok(acc.(available := 7))
  {
    Widths();
    NestedTexts();
    var i := SecondProp().val.l;
    assert ValueOf(i, "available", acc) == ValueOf(Nil, "available", acc.(available := 7));
    assert Encodable(i);
  }

  /** Parsing succeeds without the second property. */
  lemma NestedPropsExample(version: nat, flags: nat)
    ensures PropsOf(NestedProps(), NO_PROPS) == Ok(NO_PROPS.(used := 5, available := 7))
    ensures var D := Header(version, flags) + Enc(NestedProps()) + [0];
      PropsList(D, Cursor(Native, HEADER_SIZE), NO_PROPS)
      == Ok((NO_PROPS.(used := 5), Cursor(Native, HEADER_SIZE + |Enc(NestedProps())| - |Enc(SecondProp())|)))
  {
    hide PropsList, At, Enc, Header, SecondProp, ValueOf, Encodable;
    var l := NestedProps();
    var D := Header(version, flags) + Enc(l) + [0];
    NestedInnerMeans();
    SecondPropMeans(NO_PROPS.(used := 5));
    NestedTexts();
    assert Encodable(l) by { NestedEncodable(); }
    HeaderThenList(version, flags, l, [0]);
    NestedListEndsProps(D, HEADER_SIZE, l, NO_PROPS);
    assert MemberOf("value", Int(8, false, 5), "used", NO_PROPS) == Ok(NO_PROPS.(used := 5));
  }

  lemma NestedEncodable()
    ensures Encodable(NestedProps())
  {
    hide NestedInner, SecondProp;
    Widths();
    NestedInnerMeans();
    SecondPropMeans(NO_PROPS);
  }
}
