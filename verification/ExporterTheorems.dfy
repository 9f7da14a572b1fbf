/**
 What a scrape emits: each dataset once and in preorder, each vdev once under its own
 label, each pool in the order of the configurations, and nothing from a reply that does
 not leave a byte of the buffer free.
 */
module ExporterTheorems {
  import opened Basics
  import opened NvFormat
  import opened NvEncode
  import opened NvRuns
  import opened NvTheorems
  import opened NvRoundTrip
  import opened Vdevs
  import opened Pools
  import opened DatasetProps
  import opened Labels
  import opened Ioctl
  import opened Exporter
  import KStat
  import KStatTheorems
  import KStatProps
  import States

  // ---- What a row holds -------------------------------------------------------

  /** The rows of the kstat file of an object set, if there is one. */
  function FileRows(files: Files, pool: seq<Byte>, objset: int): seq<KStat.Row> {
    if (pool, objset) in files && files[(pool, objset)].Some?
    then KStatTheorems.RowsOf(KStatTheorems.ReadAll(files[(pool, objset)].value, 0).rows) else []
  }

  /** A row holds the last number of each property of its dataset, the last number of each counter
      in the file of its object set, and zero for what is given nowhere. */
  predicate RowIs(files: Files, pool: seq<Byte>, l: NvList, p: Props) {
    && PropsAre(p, l, NO_PROPS)
    && KStatProps.CountersAre(p, FileRows(files, pool, NumOr(LastUnder(l, "objsetid"), 0)), NO_PROPS)
  }

  lemma RowHolds(h: Host, pool: seq<Byte>, d: Dataset)
    requires Encodable(d.props) && InnersFlat(d.props) && RowProps(h, pool, d).Ok?
    ensures RowIs(h.files, pool, d.props, RowProps(h, pool, d).value)
  {
    hide Message, PropsOf, PropsTyped, LastUnder, PropsBytes, KStatProps.KStatRun, KStatTheorems.ReadAll,
         KStatProps.CountersOf, KStatProps.CountersParse, KStatProps.LastRow, LastProp, Encodable, InnersFlat;
    ReplyDecodes(h.kernel, d.props, Zeros(RESP_SIZE));
    PropsOfIsLast(d.props, NO_PROPS, ObjsetId);
    PropFields(d.props, NO_PROPS);
    var p := PropsOf(d.props, NO_PROPS).value;
    var rows := FileRows(h.files, pool, p.objsetid);
    if (pool, p.objsetid) in h.files {
      var bytes := h.files[(pool, p.objsetid)].value;
      KStatProps.RunIsFold(bytes, 0, p);
      KStatProps.CountersAreLast(rows, p, Writes);
      KStatProps.CounterFields(rows, p);
    } else {
      NoRowsCount();
    }
  }

  lemma NoRowsCount()
    ensures forall name :: KStatProps.LastRow([], name) == None
  {
  }

  // ---- The dataset walk is a preorder -----------------------------------------

  /** All datasets of a forest, parents before children. */
  function Preorder(ds: seq<Dataset>): seq<Dataset>
    decreases ds
  {
    if ds == [] then [] else [ds[0]] + Below(ds[0]) + Preorder(ds[1..])
  }

  function Below(d: Dataset): seq<Dataset>
    decreases d
  {
    Preorder(d.children)
  }

  /** The kernel turns down no listing in these frames. */
  predicate Listable(k: Kernel, f: Frame, ds: seq<Dataset>)
    decreases ds
  {
    && Declined(k, f.dir, f.cookie).None?
    && (ds != [] ==>
          && Listable(k, Frame(ds[0].name, 0), ds[0].children)
          && Listable(k, Frame(f.dir, ds[0].cookie), ds[1..]))
  }

  /** One row after the other, up to the first error: no recursion over a tree. */
  function RowsRun(h: Host, pool: seq<Byte>, ds: seq<Dataset>): Run
    decreases |ds|
  {
    if ds == [] then Emit([]) else
    match RowOf(h, pool, ds[0])
    case Err(e) => Stop(e)
    case Ok(m) => Then(Emit([m]), RowsRun(h, pool, ds[1..]))
  }

  lemma {:induction false} RowsRunAppend(h: Host, pool: seq<Byte>, a: seq<Dataset>, b: seq<Dataset>)
    ensures RowsRun(h, pool, a + b) == Then(RowsRun(h, pool, a), RowsRun(h, pool, b))
    decreases |a|
  {
    hide RowOf;
    if a == [] {
      assert a + b == b;
      var r := RowsRun(h, pool, b);
      assert [] + r.metrics == r.metrics;
    } else {
      assert (a + b)[0] == a[0] && (a + b)[1..] == a[1..] + b;
      RowsRunAppend(h, pool, a[1..], b);
      match RowOf(h, pool, a[0]) {
        case Err(_) =>
        case Ok(m) => ThenAssociates(Emit([m]), RowsRun(h, pool, a[1..]), RowsRun(h, pool, b));
      }
    }
  }

  /** Where no listing is turned down, the recursive walk does what a loop over the preorder
      does, errors included. */
  lemma {:induction false} WalkIsPreorder(h: Host, pool: seq<Byte>, f: Frame, ds: seq<Dataset>)
    requires Listable(h.kernel, f, ds)
    ensures KidsRun(h, pool, f, ds) == RowsRun(h, pool, Preorder(ds))
    decreases ds
  {
    hide RowOf, Declined;
    if ds != [] {
      var d := ds[0];
      NodeIsPreorder(h, pool, d);
      WalkIsPreorder(h, pool, Frame(f.dir, d.cookie), ds[1..]);
      RowsRunAppend(h, pool, [d] + Below(d), Preorder(ds[1..]));
    }
  }

  lemma {:induction false} NodeIsPreorder(h: Host, pool: seq<Byte>, d: Dataset)
    requires Listable(h.kernel, Frame(d.name, 0), d.children)
    ensures NodeRun(h, pool, d) == RowsRun(h, pool, [d] + Below(d))
    decreases d
  {
    hide RowOf;
    WalkIsPreorder(h, pool, Frame(d.name, 0), d.children);
    assert ([d] + Below(d))[0] == d && ([d] + Below(d))[1..] == Below(d);
  }

  predicate RowsOk(h: Host, pool: seq<Byte>, ds: seq<Dataset>) {
    forall i :: 0 <= i < |ds| ==> RowOf(h, pool, ds[i]).Ok?
  }

  /** The run ends without an error exactly when every dataset has a row, and then it emits
      one row for each, in order. */
  lemma {:induction false} RowsRunIff(h: Host, pool: seq<Byte>, ds: seq<Dataset>)
    ensures RowsRun(h, pool, ds).error.None? <==> RowsOk(h, pool, ds)
    ensures RowsOk(h, pool, ds) ==>
      var ms := RowsRun(h, pool, ds).metrics;
      |ms| == |ds| && forall i :: 0 <= i < |ds| ==> ms[i] == RowOf(h, pool, ds[i]).value
    decreases |ds|
  {
    hide RowOf;
    if ds != [] {
      RowsRunIff(h, pool, ds[1..]);
      assert forall i :: 0 < i < |ds| ==> ds[i] == ds[1..][i - 1];
      assert RowsOk(h, pool, ds) <==> RowOf(h, pool, ds[0]).Ok? && RowsOk(h, pool, ds[1..]);
    }
  }

  /** A walk that ends without an error was turned down nowhere. */
  lemma {:induction false} SuccessNeedsListing(h: Host, pool: seq<Byte>, f: Frame, ds: seq<Dataset>)
    requires KidsRun(h, pool, f, ds).error.None?
    ensures Listable(h.kernel, f, ds)
    decreases ds
  {
    hide RowOf, Declined;
    if ds != [] {
      var d := ds[0];
      assert NodeRun(h, pool, d).error.None?;
      SuccessNeedsListing(h, pool, Frame(d.name, 0), d.children);
      SuccessNeedsListing(h, pool, Frame(f.dir, d.cookie), ds[1..]);
    }
  }

  /** The walk succeeds exactly when the kernel lists everything and every dataset has a row. */
  lemma WalkSucceedsIff(h: Host, pool: seq<Byte>, f: Frame, ds: seq<Dataset>)
    ensures KidsRun(h, pool, f, ds).error.None? <==> Listable(h.kernel, f, ds) && RowsOk(h, pool, Preorder(ds))
  {
    hide KidsRun, Listable, RowsRun, RowsOk, Preorder;
    RowsRunIff(h, pool, Preorder(ds));
    if KidsRun(h, pool, f, ds).error.None? {
      SuccessNeedsListing(h, pool, f, ds);
    }
    if Listable(h.kernel, f, ds) {
      WalkIsPreorder(h, pool, f, ds);
    }
  }

  // ---- Every dataset once -----------------------------------------------------

  const SLASH: Byte := 47

  /** Children are named after their parent, and siblings by distinct components. */
  predicate WellNamed(d: Dataset)
    decreases d
  {
    && (forall c :: c in d.children ==>
          && d.name + [SLASH] <= c.name && SLASH !in c.name[|d.name| + 1..] && WellNamed(c))
    && (forall i, j :: 0 <= i < j < |d.children| ==> d.children[i].name != d.children[j].name)
  }

  function Names(ds: seq<Dataset>): seq<seq<Byte>> {
    seq(|ds|, i requires 0 <= i < |ds| => ds[i].name)
  }

  predicate SiblingsOf(prefix: seq<Byte>, ds: seq<Dataset>) {
    && (forall c :: c in ds ==> prefix + [SLASH] <= c.name && SLASH !in c.name[|prefix| + 1..] && WellNamed(c))
    && (forall i, j :: 0 <= i < j < |ds| ==> ds[i].name != ds[j].name)
  }

  lemma {:induction false} BelowUnder(d: Dataset, x: Dataset)
    requires WellNamed(d) && x in Below(d)
    ensures Under(d.name, SLASH, x.name) && x.name != d.name
    decreases d, 0
  {
    hide WellNamed, Under;
    assert SiblingsOf(d.name, d.children) by { WellNamedSiblings(d); }
    var i := OwnerOf(d.name, d.children, x);
    OneLevelDown(d.name, d.children[i].name, x.name);
  }

  lemma WellNamedSiblings(d: Dataset)
    requires WellNamed(d)
    ensures SiblingsOf(d.name, d.children)
  {
  }

  lemma OneLevelDown(prefix: seq<Byte>, name: seq<Byte>, x: seq<Byte>)
    requires prefix + [SLASH] <= name && Under(name, SLASH, x)
    ensures Under(prefix, SLASH, x) && x != prefix
  {
    assert name == prefix + [SLASH] + name[|prefix| + 1..];
    UnderChild(prefix, SLASH, name[|prefix| + 1..], x);
  }

  /** Which sibling a dataset belongs to. */
  lemma {:induction false} OwnerOf(prefix: seq<Byte>, ds: seq<Dataset>, x: Dataset) returns (i: nat)
    requires SiblingsOf(prefix, ds) && x in Preorder(ds)
    ensures i < |ds| && Under(ds[i].name, SLASH, x.name)
    decreases ds
  {
    hide WellNamed;
    assert ds[0] in ds;
    if x == ds[0] {
      i := 0;
    } else if x in Below(ds[0]) {
      i := 0;
      BelowUnder(ds[0], x);
    } else {
      FewerSiblings(prefix, ds);
      var j := OwnerOf(prefix, ds[1..], x);
      i := j + 1;
    }
  }

  lemma FewerSiblings(prefix: seq<Byte>, ds: seq<Dataset>)
    requires ds != [] && SiblingsOf(prefix, ds)
    ensures SiblingsOf(prefix, ds[1..])
  {
    hide WellNamed;
    assert forall c :: c in ds[1..] ==> c in ds;
  }

  lemma DifferentOwners(prefix: seq<Byte>, a: seq<Byte>, b: seq<Byte>, x: seq<Byte>)
    requires prefix + [SLASH] <= a && prefix + [SLASH] <= b
    requires SLASH !in a[|prefix| + 1..] && SLASH !in b[|prefix| + 1..]
    requires Under(a, SLASH, x) && Under(b, SLASH, x)
    ensures a == b
  {
    var (p, la, lb) := (prefix + [SLASH], a[|prefix| + 1..], b[|prefix| + 1..]);
    assert a == p + la && b == p + lb;
    UnderUnique(p, SLASH, la, lb, x);
  }

  /** In a well-named tree no name occurs twice below a dataset. */
  lemma {:induction false} NamesDistinct(prefix: seq<Byte>, ds: seq<Dataset>)
    requires SiblingsOf(prefix, ds)
    ensures States.NoDuplicates(Names(Preorder(ds)))
    decreases ds
  {
    hide WellNamed, Under;
    if ds != [] {
      var d := ds[0];
      assert d in ds;
      var (a, b) := ([d] + Below(d), Preorder(ds[1..]));
      FewerSiblings(prefix, ds);
      OwnNamesDistinct(d);
      NamesDistinct(prefix, ds[1..]);
      forall i, j | 0 <= i < |a| && 0 <= j < |b| ensures a[i].name != b[j].name {
        var k := OwnerOf(prefix, ds[1..], b[j]);
        OwnUnder(d, a[i]);
        if a[i].name == b[j].name {
          assert ds[1..][k] == ds[k + 1] && ds[k + 1] in ds;
          DifferentOwners(prefix, d.name, ds[k + 1].name, a[i].name);
        }
      }
      assert Preorder(ds) == a + b;
      assert Names(a + b) == Names(a) + Names(b);
    }
  }

  lemma OwnUnder(d: Dataset, x: Dataset)
    requires WellNamed(d) && x in [d] + Below(d)
    ensures Under(d.name, SLASH, x.name)
  {
    hide WellNamed, Below;
    if x != d {
      assert x in Below(d);
      BelowUnder(d, x);
    }
  }

  lemma {:induction false} OwnNamesDistinct(d: Dataset)
    requires WellNamed(d)
    ensures States.NoDuplicates(Names([d] + Below(d)))
    decreases d
  {
    hide WellNamed, Under;
    WellNamedSiblings(d);
    NamesDistinct(d.name, d.children);
    var b := Below(d);
    forall j | 0 <= j < |b| ensures b[j].name != d.name {
      BelowUnder(d, b[j]);
    }
    assert Names([d] + b) == [d.name] + Names(b);
  }

  /** The metrics are rows for the first datasets of this list, in order. */
  predicate RowsFor(ms: seq<Metric>, pool: seq<Byte>, ds: seq<Dataset>) {
    && |ms| <= |ds|
    && forall i :: 0 <= i < |ms| ==>
         ms[i].DatasetValues? && ms[i].pool == Text(pool) && ms[i].name == Text(ds[i].name)
  }

  /** Whatever the kernel answers and the buffer holds, a walk reports the datasets below the
      root in preorder, and it ends without an error exactly when it reports all of them and
      no listing is turned down. */
  lemma {:induction false} WalkVisits(h: Host, pool: seq<Byte>, f: Frame, ds: seq<Dataset>, buf: seq<Byte>)
    ensures var run := KidsWalk(h, pool, f, ds, buf).run;
      && RowsFor(run.metrics, pool, Preorder(ds))
      && (run.error.None? <==> |run.metrics| == |Preorder(ds)| && Listable(h.kernel, f, ds))
    decreases ds
  {
    hide NodeWalk, Below, Declined;
    if ds != [] && Declined(h.kernel, f.dir, f.cookie).None? {
      NodeVisits(h, pool, ds[0], buf);
      var w := NodeWalk(h, pool, ds[0], buf);
      if w.run.error.None? {
        WalkVisits(h, pool, Frame(f.dir, ds[0].cookie), ds[1..], w.buf);
      }
    }
  }

  lemma {:induction false} NodeVisits(h: Host, pool: seq<Byte>, d: Dataset, buf: seq<Byte>)
    ensures var run := NodeWalk(h, pool, d, buf).run;
      && RowsFor(run.metrics, pool, [d] + Below(d))
      && (run.error.None? <==>
            |run.metrics| == |[d] + Below(d)| && Listable(h.kernel, Frame(d.name, 0), d.children))
    decreases d
  {
    hide RowBytes, Filled, Message, KidsWalk;
    WalkVisits(h, pool, Frame(d.name, 0), d.children, Filled(buf, Message(h.kernel, d.props)));
  }

  /** The metric that reports a dataset. */
  predicate RowMetric(files: Files, pool: seq<Byte>, d: Dataset, m: Metric) {
    m.DatasetValues? && m.pool == Text(pool) && m.name == Text(d.name) && RowIs(files, pool, d.props, m.props)
  }

  /** A walk that succeeds emits every proper descendant of the root exactly once: one row
      each, in preorder, under pairwise distinct names, and each with the numbers of its own
      dataset although all replies share a buffer; every reply left a byte of it free. */
  lemma WalkEmitsEachOnce(h: Host, pool: seq<Byte>, t: Dataset, buf: seq<Byte>)
    requires WellNamed(t) && KidsRegular(t.children) && |buf| == RESP_SIZE
    requires KidsWalk(h, pool, Frame(t.name, 0), t.children, buf).run.error.None?
    ensures var (ds, ms) := (Preorder(t.children), KidsWalk(h, pool, Frame(t.name, 0), t.children, buf).run.metrics);
      && |ms| == |ds| && States.NoDuplicates(Names(ds))
      && forall i :: 0 <= i < |ds| ==>
        && RowMetric(h.files, pool, ds[i], ms[i])
        && |Message(h.kernel, ds[i].props)| < RESP_SIZE
  {
    hide KidsRun, KidsWalk, RowsRun, RowProps, WellNamed, Message, KidsRegular, Listable, RowIs;
    var (ds, f) := (Preorder(t.children), Frame(t.name, 0));
    KidsWalkIs(h, pool, f, t.children, buf);
    WalkSucceedsIff(h, pool, f, t.children);
    WalkIsPreorder(h, pool, f, t.children);
    RowsRunIff(h, pool, ds);
    WellNamedSiblings(t);
    NamesDistinct(t.name, t.children);
    var ms := KidsWalk(h, pool, f, t.children, buf).run.metrics;
    forall i | 0 <= i < |ds|
      ensures RowMetric(h.files, pool, ds[i], ms[i]) && |Message(h.kernel, ds[i].props)| < RESP_SIZE
    {
      RegularBelow(t.children, ds[i]);
      RowNeedsRoom(h, pool, ds[i]);
      RowHolds(h, pool, ds[i]);
    }
  }

  /** Also a walk that stops with an error sends only rows that hold what they should. */
  lemma WalkRowsHold(h: Host, pool: seq<Byte>, f: Frame, ds: seq<Dataset>, buf: seq<Byte>)
    requires KidsRegular(ds) && |buf| == RESP_SIZE
    ensures var ms := KidsWalk(h, pool, f, ds, buf).run.metrics;
      |ms| <= |Preorder(ds)| && forall i :: 0 <= i < |ms| ==> RowMetric(h.files, pool, Preorder(ds)[i], ms[i])
  {
    hide KidsRun, KidsWalk, RowProps, KidsRegular, RowIs, Encodable, InnersFlat;
    KidsWalkIs(h, pool, f, ds, buf);
    RunSendsRows(h, pool, f, ds);
    var ms := KidsRun(h, pool, f, ds).metrics;
    forall i | 0 <= i < |ms| ensures RowMetric(h.files, pool, Preorder(ds)[i], ms[i]) {
      RegularBelow(ds, Preorder(ds)[i]);
      RowHolds(h, pool, Preorder(ds)[i]);
    }
  }

  predicate SentRows(h: Host, pool: seq<Byte>, ds: seq<Dataset>, ms: seq<Metric>) {
    |ms| <= |ds| && forall i :: 0 <= i < |ms| ==> RowOf(h, pool, ds[i]) == Ok(ms[i])
  }

  lemma {:induction false} RunSendsRows(h: Host, pool: seq<Byte>, f: Frame, ds: seq<Dataset>)
    ensures SentRows(h, pool, Preorder(ds), KidsRun(h, pool, f, ds).metrics)
    ensures KidsRun(h, pool, f, ds).error.None? ==> |KidsRun(h, pool, f, ds).metrics| == |Preorder(ds)|
    decreases ds
  {
    hide RowOf, Declined, Below, NodeRun;
    if ds != [] && Declined(h.kernel, f.dir, f.cookie).None? {
      NodeSendsRows(h, pool, ds[0]);
      if NodeRun(h, pool, ds[0]).error.None? {
        RunSendsRows(h, pool, Frame(f.dir, ds[0].cookie), ds[1..]);
      }
    }
  }

  lemma {:induction false} NodeSendsRows(h: Host, pool: seq<Byte>, d: Dataset)
    ensures SentRows(h, pool, [d] + Below(d), NodeRun(h, pool, d).metrics)
    ensures NodeRun(h, pool, d).error.None? ==> |NodeRun(h, pool, d).metrics| == |[d] + Below(d)|
    decreases d
  {
    hide RowOf, KidsRun;
    RunSendsRows(h, pool, Frame(d.name, 0), d.children);
  }

  lemma RowNeedsRoom(h: Host, pool: seq<Byte>, d: Dataset)
    requires Encodable(d.props) && InnersFlat(d.props) && RowOf(h, pool, d).Ok?
    ensures |Message(h.kernel, d.props)| < RESP_SIZE
  {
    hide DecodedProps, Message, WithKStat;
    ReplyDecodes(h.kernel, d.props, Zeros(RESP_SIZE));
  }

  lemma {:induction false} RegularBelow(ds: seq<Dataset>, x: Dataset)
    requires KidsRegular(ds) && x in Preorder(ds)
    ensures Encodable(x.props) && InnersFlat(x.props)
    decreases ds
  {
    hide Encodable, InnersFlat;
    if x in Below(ds[0]) {
      RegularBelow(ds[0].children, x);
    } else if x != ds[0] {
      RegularBelow(ds[1..], x);
    }
  }

  // ---- Replies and the size of the buffer -------------------------------------

  /** After the wrapper has filled the buffer, with or without a retry, the reply can be
      unmarshalled exactly when the buffer was longer than the reply before the call. The
      retry allocates exactly the size of the reply, one byte too few for the reader. */
  lemma ReplyReadableIff(k: Kernel, l: NvList, before: seq<Byte>)
    requires Encodable(l)
    ensures UnmarshalList(Filled(before, Message(k, l)), Cursor(Native, 0), map[]).Ok? <==> |Message(k, l)| < |before|
  {
    hide UnmarshalList, Enc, Header, Meaning;
    var m := Message(k, l);
    if |m| < |before| {
      RoundTrip(k.version, k.flags, l, before[|m|..]);
    } else {
      assert |m| == |before| ==> before[|m|..] == [] && m + [] == m;
      assert m + [] == m;
      RoundTrip(k.version, k.flags, l, []);
    }
  }

  // ---- All pools --------------------------------------------------------------

  /** A scrape handles one pool for each configuration, in order, however deeply the
      configurations nest. If the kernel turns the request down or the configurations leave no
      byte of the buffer free, it ends in an error. */
  lemma CollectHandlesEachPool(h: Host)
    requires Encodable(h.kernel.configs)
    ensures match Reply(h.kernel, PoolConfigs, [], 0)
      case Refused(e) => CollectRun(h) == Stop(Errno(e))
      case Given(_, _, m) => if |m| < RESP_SIZE then CollectRun(h) == CollectOf(h, h.kernel.configs)
                             else CollectRun(h).error.Some?
  {
    hide NextAt, Enc, Header, PoolWalk, At, CollectOf, SkipList;
    var (k, before) := (h.kernel, Zeros(RESP_SIZE));
    var m := Message(k, k.configs);
    var D := Filled(before, m);
    if |m| < RESP_SIZE {
      HeaderThenList(k.version, k.flags, k.configs, before[|m|..]);
      assert CollectBytes(h, D, Cursor(Native, 0)) == CollectBytes(h, D, Cursor(Native, HEADER_SIZE));
      CollectInvertsEnc(h, D, HEADER_SIZE, k.configs);
    } else {
      assert |m| == RESP_SIZE ==> before[|m|..] == [] && m + [] == m;
      if CollectBytes(h, m, Cursor(Native, 0)).error.None? {
        CollectEndsInSkip(h, m, Cursor(Native, 0));
        MessageNeedsTail(k, k.configs);
      }
    }
  }

  lemma {:induction false} CollectEndsInSkip(h: Host, D: seq<Byte>, c: Cursor)
    requires CollectBytes(h, D, c).error.None?
    ensures SkipList(D, c).Ok?
    decreases |D| - c.pos
  {
    hide NextAt, PoolWalk;
    var s := NextAt(D, c);
    if s.Pair? && SkipList(D, s.next).Ok? {
      CollectEndsInSkip(h, D, SkipList(D, s.next).value);
    }
  }

  lemma MessageNeedsTail(k: Kernel, l: NvList)
    requires Encodable(l)
    ensures SkipList(Message(k, l), Cursor(Native, 0)).Err?
  {
    hide SkipList, Enc, Header, UnmarshalList, Meaning;
    var m := Message(k, l);
    if SkipList(m, Cursor(Native, 0)).Ok? {
      SkipStable(m, m + [0], Cursor(Native, 0));
      RoundTrip(k.version, k.flags, l, [0]);
      UnmarshalAgreesWithSkip(m + [0], Cursor(Native, 0), map[]);
    }
  }

  // ---- Labels in the metrics --------------------------------------------------

  /** What tells the metrics of one vdev apart: the value that is reported, or the state. */
  datatype Gauge = OfValue(kind: VdevKind) | OfState(state: string)

  predicate Reads(m: Metric, g: Gauge) {
    match g
    case OfValue(kind) => m.VdevValue? && m.kind == kind
    case OfState(state) => m.VdevState? && m.state == state
  }

  predicate Known(g: Gauge) {
    g.OfState? ==> g.state in States.VDEV_STATES
  }

  /** The labels under which a gauge is reported. */
  function LabelsOf(ms: seq<Metric>, g: Gauge): seq<string> {
    if ms == [] then [] else (if Reads(ms[0], g) then [ms[0].vdev] else []) + LabelsOf(ms[1..], g)
  }

  lemma {:induction false} LabelsOfAppend(a: seq<Metric>, b: seq<Metric>, g: Gauge)
    ensures LabelsOf(a + b, g) == LabelsOf(a, g) + LabelsOf(b, g)
  {
    if a == [] {
      assert a + b == b;
    } else {
      assert (a + b)[1..] == a[1..] + b;
      LabelsOfAppend(a[1..], b, g);
    }
  }

  lemma {:induction false} NoLabels(ms: seq<Metric>, g: Gauge)
    requires forall i :: 0 <= i < |ms| ==> !Reads(ms[i], g)
    ensures LabelsOf(ms, g) == []
  {
    if ms != [] {
      NoLabels(ms[1..], g);
    }
  }

  lemma OneLabel(ms: seq<Metric>, g: Gauge, k: nat)
    requires k < |ms| && Reads(ms[k], g)
    requires forall i :: 0 <= i < |ms| && i != k ==> !Reads(ms[i], g)
    ensures LabelsOf(ms, g) == [ms[k].vdev]
  {
    var (a, b) := (ms[..k], ms[k..]);
    assert ms == a + b;
    LabelsOfAppend(a, b, g);
    NoLabels(a, g);
    NoLabels(b[1..], g);
  }

  /** Each vdev reports each of its gauges once. */
  lemma OwnLabels(pool: string, name: string, v: Vdev, g: Gauge)
    requires Known(g)
    ensures LabelsOf(StateMetrics(pool, name, v) + ValueMetrics(pool, name, v), g) == [name]
  {
    hide StateMetrics, ValueMetrics, LabelsOf, Reads;
    var (a, b) := (StateMetrics(pool, name, v), ValueMetrics(pool, name, v));
    LabelsOfAppend(a, b, g);
    match g {
      case OfValue(kind) => OwnValueLabel(pool, name, v, kind);
      case OfState(state) => OwnStateLabel(pool, name, v, state);
    }
  }

  lemma OwnValueLabel(pool: string, name: string, v: Vdev, kind: VdevKind)
    ensures LabelsOf(StateMetrics(pool, name, v), OfValue(kind)) == []
    ensures LabelsOf(ValueMetrics(pool, name, v), OfValue(kind)) == [name]
  {
    hide LabelsOf;
    NoLabels(StateMetrics(pool, name, v), OfValue(kind));
    OneLabel(ValueMetrics(pool, name, v), OfValue(kind), PlaceOf(kind));
  }

  lemma OwnStateLabel(pool: string, name: string, v: Vdev, state: string)
    requires state in States.VDEV_STATES
    ensures LabelsOf(StateMetrics(pool, name, v), OfState(state)) == [name]
    ensures LabelsOf(ValueMetrics(pool, name, v), OfState(state)) == []
  {
    hide LabelsOf;
    NoLabels(ValueMetrics(pool, name, v), OfState(state));
    States.VdevStatesDistinct();
    var k :| 0 <= k < |States.VDEV_STATES| && States.VDEV_STATES[k] == state;
    var a := StateMetrics(pool, name, v);
    hide ValueMetrics;
    assert forall i :: 0 <= i < |a| && i != k ==> States.VDEV_STATES[i] != state;
    OneLabel(a, OfState(state), k);
  }

  /** Where a value stands among those of a vdev. */
  function PlaceOf(kind: VdevKind): (i: nat)
    ensures i < 9
  {
    match kind
    case AllocSpace => 0
    case TotalSpace => 1
    case ReadOps => 2
    case ReadBytes => 3
    case ReadErrors => 4
    case WriteOps => 5
    case WriteBytes => 6
    case WriteErrors => 7
    case ChecksumErrors => 8
  }

  /** The export visits the tree in preorder: every vdev reports each of its nine values and
      eight states once, under its full label. */
  lemma {:induction false} ExportVisitsLabels(pool: string, prefix: string, v: Vdev, g: Gauge)
    requires Known(g)
    ensures LabelsOf(VdevMetrics(pool, prefix, v), g) == VdevLabels(pool, prefix, v)
    decreases v
  {
    hide LocalName, StateMetrics, ValueMetrics, LabelsOf, Known;
    var name := prefix + LocalName(pool, v);
    OwnLabels(pool, name, v, g);
    LabelsOfAppend(StateMetrics(pool, name, v) + ValueMetrics(pool, name, v),
                   VdevsMetrics(pool, name + "/", v.children), g);
    ExportVisitsSiblings(pool, name + "/", v.children, g);
  }

  lemma {:induction false} ExportVisitsSiblings(pool: string, prefix: string, vs: seq<Vdev>, g: Gauge)
    requires Known(g)
    ensures LabelsOf(VdevsMetrics(pool, prefix, vs), g) == VdevsLabels(pool, prefix, vs)
    decreases vs
  {
    hide VdevMetrics, VdevLabels, Known;
    if vs != [] {
      ExportVisitsLabels(pool, prefix, vs[0], g);
      ExportVisitsSiblings(pool, prefix, vs[1..], g);
      LabelsOfAppend(VdevMetrics(pool, prefix, vs[0]), VdevsMetrics(pool, prefix, vs[1..]), g);
    }
  }

  // ---- State gauges in the metrics --------------------------------------------

  function OnFlags(ms: seq<Metric>): seq<bool>
    requires forall i :: 0 <= i < |ms| ==> ms[i].VdevState? || ms[i].PoolState?
  {
    seq(|ms|, i requires 0 <= i < |ms| => ms[i].on)
  }

  lemma GaugeFlags(states: seq<string>, pool: string, name: string, vdevType: string, state: string)
    ensures OnFlags(GaugeMetrics(states, pool, name, vdevType, state)) == States.Gauges(states, state)
    ensures OnFlags(PoolGaugeMetrics(states, pool, state)) == States.Gauges(states, state)
  {
  }

  // ---- Values in the metrics --------------------------------------------------

  /** Which entry of the kernel's statistics array each exported value is. */
  function StatIndex(kind: VdevKind): nat {
    match kind
    case AllocSpace => 3
    case TotalSpace => 4
    case ReadOps => 9
    case WriteOps => 10
    case ReadBytes => 15
    case WriteBytes => 16
    case ReadErrors => 21
    case WriteErrors => 22
    case ChecksumErrors => 23
  }

  /** Each value metric of a parsed vdev is the entry of its statistics array that its kind
      stands for, and each kind is reported once. */
  lemma ValuesComeFromStats(pool: string, name: string, l: NvList)
    requires WellTyped(l) && LastVal(l, "vdev_stats").Some?
    ensures LastVal(l, "vdev_stats").value.Ints? && |LastVal(l, "vdev_stats").value.ns| > VS_FRAGMENTATION
    ensures var (ms, ns) := (ValueMetrics(pool, name, VdevFrom(l)), LastVal(l, "vdev_stats").value.ns);
      && (forall i :: 0 <= i < |ms| ==> ms[i].VdevValue? && ms[i].value == ns[StatIndex(ms[i].kind)])
      && (forall i, j :: 0 <= i < j < |ms| ==> ms[i].kind != ms[j].kind)
      && |ms| == 9
  {
    hide KidsIn, WellTyped, LastVal;
    LastValTyped(l);
    StatsLength(LastVal(l, "vdev_stats").value);
  }

  // ---- When a scrape succeeds -------------------------------------------------

  /** The kstat file of an object set, if there is one, can be read and counted. */
  predicate KStatOk(files: Files, pool: seq<Byte>, objset: int) {
    (pool, objset) in files ==>
      && files[(pool, objset)].Some?
      && var all := KStatTheorems.ReadAll(files[(pool, objset)].value, 0);
         all.clean && KStatProps.CountersParse(KStatTheorems.RowsOf(all.rows))
  }

  /** A dataset has a row exactly when its reply leaves a byte of the buffer free, its
      properties are lists of numbers, and its kstat file is missing or sound. */
  lemma RowOkIff(h: Host, pool: seq<Byte>, d: Dataset)
    requires Encodable(d.props) && InnersFlat(d.props)
    ensures RowProps(h, pool, d).Ok? <==>
      && |Message(h.kernel, d.props)| < RESP_SIZE
      && PropsTyped(d.props)
      && KStatOk(h.files, pool, if LastProp(d.props, ObjsetId).Some? then LastProp(d.props, ObjsetId).value else 0)
    ensures RowOf(h, pool, d).Ok? <==>
      RowProps(h, pool, d).Ok? && h.accepts(DatasetValues(Text(pool), Text(d.name), RowProps(h, pool, d).value))
  {
    hide Message, PropsOf, PropsTyped, LastProp, PropsBytes, KStatProps.KStatRun, KStatTheorems.ReadAll,
         KStatProps.CountersOf, KStatProps.CountersParse;
    ReplyDecodes(h.kernel, d.props, Zeros(RESP_SIZE));
    PropsOfIsLast(d.props, NO_PROPS, ObjsetId);
    if |Message(h.kernel, d.props)| < RESP_SIZE && PropsTyped(d.props) {
      var p := PropsOf(d.props, NO_PROPS).value;
      var key := (pool, p.objsetid);
      if key in h.files && h.files[key].Some? {
        KStatProps.RunIsFold(h.files[key].value, 0, p);
        KStatProps.CountersAreLast(KStatTheorems.RowsOf(KStatTheorems.ReadAll(h.files[key].value, 0).rows), p, ObjsetId);
      }
    }
  }

  /** Everything that a pool's statistics are turned into. */
  function InfoMetrics(pool: string, info: PoolInfo): seq<Metric> {
    CountMetrics(pool, info) + match info.vdev case None => [] case Some(t) => VdevMetrics(pool, "", t)
  }

  /** The metrics of a pool are sent exactly when it has a tree and all of them can be built. */
  lemma InfoSentIff(h: Host, pool: string, info: PoolInfo)
    ensures InfoRun(h, pool, info).error.None? <==>
      info.vdev.Some? && AllAccepted(h, InfoMetrics(pool, info))
    ensures InfoRun(h, pool, info).metrics <= InfoMetrics(pool, info)
  {
    hide CountMetrics, VdevMetrics, Send, AllAccepted;
    var a := CountMetrics(pool, info);
    SendIff(h, a);
    if info.vdev.Some? {
      var b := VdevMetrics(pool, "", info.vdev.value);
      SendAppend(h, a, b);
      SendIff(h, a + b);
    } else {
      assert a + [] == a;
    }
  }

  /** What a pool needs: an answer that fits, is well typed, holds a vdev tree and gives metrics
      that can be built; datasets that the kernel lists; and a row for each of them. */
  ghost predicate PoolOk(h: Host, name: seq<Byte>) {
    var (k, n) := (h.kernel, CmdName(name));
    && Reply(k, PoolStats, n, 0).Given?
    && |Message(k, k.stats[n])| < RESP_SIZE
    && PoolWellTyped(k.stats[n])
    && LastVal(k.stats[n], "vdev_tree").Some?
    && AllAccepted(h, InfoMetrics(Text(name), PoolOverlay(k.stats[n], NO_POOL)))
    && Listable(k, Frame(n, 0), Kids(k, n))
    && RowsOk(h, name, Preorder(Kids(k, n)))
  }

  lemma PoolSucceedsIff(h: Host, name: seq<Byte>)
    requires RepliesInStep(h.kernel)
    ensures PoolWalk(h, name).error.None? <==> PoolOk(h, name)
  {
    hide Message, PoolOf, PoolWellTyped, LastVal, KidsRun, PoolWalk, Kids, Encodable, PoolInStep, CmdName,
         PoolBytes, InfoRun, InfoMetrics, WellTyped, VdevFrom, RowsOk, Listable, KidsRegular, AllAccepted, PoolOverlay;
    var (k, n) := (h.kernel, CmdName(name));
    PoolWalkIs(h, name);
    if Reply(k, PoolStats, n, 0).Given? {
      var l := k.stats[n];
      PoolDecodes(k, l, Zeros(RESP_SIZE));
      PoolOfIsOverlay(l, NO_POOL);
      if PoolWellTyped(l) {
        TreeFrom(l);
      }
      InfoSentIff(h, Text(name), PoolOverlay(l, NO_POOL));
      WalkSucceedsIff(h, name, Frame(n, 0), Kids(k, n));
    }
  }

  lemma TreeFrom(l: NvList)
    requires PoolWellTyped(l)
    ensures PoolOverlay(l, NO_POOL).vdev.Some? <==> LastVal(l, "vdev_tree").Some?
  {
    hide PoolWellTyped, LastVal, WellTyped, VdevFrom;
    PoolLastTyped(l);
  }

  /** Every configuration is a list, and its pool has what it needs. */
  ghost predicate PoolsOk(h: Host, l: NvList) {
    match l
    case Nil => true
    case Entry(name, val, _, rest) => val.List? && PoolOk(h, name) && PoolsOk(h, rest)
  }

  lemma {:induction false} PoolsSucceedIff(h: Host, l: NvList)
    requires RepliesInStep(h.kernel)
    ensures CollectOf(h, l).error.None? <==> PoolsOk(h, l)
    decreases l
  {
    hide PoolWalk, PoolOk, RepliesInStep;
    if l.Entry? {
      PoolSucceedsIff(h, l.name);
      PoolsSucceedIff(h, l.rest);
    }
  }

  /** A scrape ends without an error exactly when the kernel hands out the configurations, they
      leave a byte of the buffer free and every pool in them has what it needs. */
  lemma ScrapeSucceedsIff(h: Host)
    requires RepliesInStep(h.kernel) && Encodable(h.kernel.configs)
    ensures CollectRun(h).error.None? <==>
      var a := Reply(h.kernel, PoolConfigs, [], 0);
      a.Given? && |a.payload| < RESP_SIZE && PoolsOk(h, h.kernel.configs)
  {
    hide CollectRun, CollectOf, PoolsOk, Message, RepliesInStep, Encodable;
    CollectHandlesEachPool(h);
    PoolsSucceedIff(h, h.kernel.configs);
  }
}
