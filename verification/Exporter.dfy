/**
 The collector: pools, their vdev trees and their datasets, turned into a sequence of
 metrics. Emission on the channel is appending to `out`.
 */
module Exporter {
  import opened Basics
  import opened NvFormat
  import opened NvEncode
  import opened NvRuns
  import opened NvRoundTrip
  import opened NvReader
  import opened Vdevs
  import opened Pools
  import opened DatasetProps
  import opened Labels
  import opened Ioctl
  import Device = Ioctl
  import KStat
  import KStatProps
  import States

  // ---- Metrics ----------------------------------------------------------------

  datatype VdevKind =
    | AllocSpace | TotalSpace | ReadOps | ReadBytes | ReadErrors
    | WriteOps | WriteBytes | WriteErrors | ChecksumErrors

  datatype Metric =
    | PoolState(pool: string, state: string, on: bool)
    | PoolErrors(pool: string, count: int)
    | VdevState(pool: string, vdev: string, vdevType: string, state: string, on: bool)
    | VdevValue(kind: VdevKind, pool: string, vdev: string, vdevType: string, value: int)
    | DatasetValues(pool: string, name: string, props: Props)

  /** The kstat files by pool and object set; `None` is a file that cannot be read. */
  type Files = map<(seq<Byte>, int), Option<seq<Byte>>>

  /** What the collector runs on: the kernel, the files below `/proc`, and the metrics library,
      which can refuse to build a metric from its labels. */
  datatype Host = Host(kernel: Kernel, files: Files, accepts: Metric -> bool)

  /** What a call emits, and the error that it stops with. */
  datatype Run = Run(metrics: seq<Metric>, error: Option<Error>)

  function Emit(ms: seq<Metric>): Run {
    Run(ms, None)
  }

  function Stop(e: Error): Run {
    Run([], Some(e))
  }

  function Then(a: Run, b: Run): Run {
    if a.error.Some? then a else Run(a.metrics + b.metrics, b.error)
  }

  lemma ThenAssociates(a: Run, b: Run, c: Run)
    ensures Then(Then(a, b), c) == Then(a, Then(b, c))
  {
    assert a.metrics + b.metrics + c.metrics == a.metrics + (b.metrics + c.metrics);
  }

  const UNACCEPTED: Error := Rejected("metric")

  /** Send one metric after the other, up to the first that cannot be built. */
  function Send(h: Host, ms: seq<Metric>): Run {
    if ms == [] then Emit([])
    else if !h.accepts(ms[0]) then Stop(UNACCEPTED)
    else Then(Emit([ms[0]]), Send(h, ms[1..]))
  }

  predicate AllAccepted(h: Host, ms: seq<Metric>) {
    forall i :: 0 <= i < |ms| ==> h.accepts(ms[i])
  }

  lemma {:induction false} SendAppend(h: Host, a: seq<Metric>, b: seq<Metric>)
    ensures Send(h, a + b) == Then(Send(h, a), Send(h, b))
  {
    if a == [] {
      assert a + b == b && [] + Send(h, b).metrics == Send(h, b).metrics;
    } else {
      assert (a + b)[0] == a[0] && (a + b)[1..] == a[1..] + b;
      SendAppend(h, a[1..], b);
      ThenAssociates(Emit([a[0]]), Send(h, a[1..]), Send(h, b));
    }
  }

  /** What is sent is a prefix, and all of it exactly when every metric can be built. */
  lemma {:induction false} SendIff(h: Host, ms: seq<Metric>)
    ensures Send(h, ms).metrics <= ms
    ensures Send(h, ms).error.None? <==> AllAccepted(h, ms)
    ensures AllAccepted(h, ms) ==> Send(h, ms) == Emit(ms)
  {
    if ms != [] {
      SendIff(h, ms[1..]);
      assert ms == [ms[0]] + ms[1..];
      assert AllAccepted(h, ms) <==> h.accepts(ms[0]) && AllAccepted(h, ms[1..]) by {
        assert forall i :: 0 < i < |ms| ==> ms[i] == ms[1..][i - 1];
      }
    }
  }

  lemma SendStops(h: Host, ms: seq<Metric>, i: nat)
    requires i < |ms| && AllAccepted(h, ms[..i]) && !h.accepts(ms[i])
    ensures Send(h, ms) == Run(ms[..i], Some(UNACCEPTED))
  {
    assert ms == ms[..i] + ms[i..];
    SendAppend(h, ms[..i], ms[i..]);
    SendIff(h, ms[..i]);
    assert ms[..i] + [] == ms[..i];
  }

  // ---- What vdevs emit --------------------------------------------------------

  function GaugeMetrics(states: seq<string>, pool: string, name: string, vdevType: string, state: string)
    : (ms: seq<Metric>)
    ensures |ms| == |states|
    ensures forall i :: 0 <= i < |ms| ==> ms[i] == VdevState(pool, name, vdevType, states[i], states[i] == state)
  {
    seq(|states|, i requires 0 <= i < |states| => VdevState(pool, name, vdevType, states[i], states[i] == state))
  }

  function StateMetrics(pool: string, name: string, v: Vdev): seq<Metric> {
    GaugeMetrics(States.VDEV_STATES, pool, name, v.vdevType, v.stats.state)
  }

  function ValueMetrics(pool: string, name: string, v: Vdev): seq<Metric> {
    [VdevValue(AllocSpace, pool, name, v.vdevType, v.stats.alloc),
     VdevValue(TotalSpace, pool, name, v.vdevType, v.stats.size),
     VdevValue(ReadOps, pool, name, v.vdevType, v.stats.readOperations),
     VdevValue(ReadBytes, pool, name, v.vdevType, v.stats.bytesRead),
     VdevValue(ReadErrors, pool, name, v.vdevType, v.stats.readErrors),
     VdevValue(WriteOps, pool, name, v.vdevType, v.stats.writeOperations),
     VdevValue(WriteBytes, pool, name, v.vdevType, v.stats.bytesWritten),
     VdevValue(WriteErrors, pool, name, v.vdevType, v.stats.writeErrors),
     VdevValue(ChecksumErrors, pool, name, v.vdevType, v.stats.checksumErrors)]
  }

  /** The tree in preorder, with the label of the parent and a slash as prefix. */
  function VdevMetrics(pool: string, prefix: string, v: Vdev): seq<Metric>
    decreases v
  {
    var name := prefix + LocalName(pool, v);
    StateMetrics(pool, name, v) + ValueMetrics(pool, name, v) + VdevsMetrics(pool, name + "/", v.children)
  }

  function VdevsMetrics(pool: string, prefix: string, vs: seq<Vdev>): seq<Metric>
    decreases vs
  {
    if vs == [] then [] else VdevMetrics(pool, prefix, vs[0]) + VdevsMetrics(pool, prefix, vs[1..])
  }

  lemma SendVdev(h: Host, pool: string, prefix: string, v: Vdev)
    ensures var name := prefix + LocalName(pool, v);
      Send(h, VdevMetrics(pool, prefix, v)) ==
      Then(Send(h, StateMetrics(pool, name, v)),
           Then(Send(h, ValueMetrics(pool, name, v)), Send(h, VdevsMetrics(pool, name + "/", v.children))))
  {
    hide Send, StateMetrics, ValueMetrics, LocalName, VdevsMetrics;
    var name := prefix + LocalName(pool, v);
    var (a, b, c) := (StateMetrics(pool, name, v), ValueMetrics(pool, name, v), VdevsMetrics(pool, name + "/", v.children));
    SendAppend(h, a + b, c);
    SendAppend(h, a, b);
    ThenAssociates(Send(h, a), Send(h, b), Send(h, c));
  }

  /** What the loop over siblings still has to send from `i` on, behind what it has sent. */
  function VdevsLeft(h: Host, pool: string, prefix: string, vs: seq<Vdev>, i: nat, done: seq<Metric>): Run
    requires i <= |vs|
  {
    Then(Emit(done), Send(h, VdevsMetrics(pool, prefix, vs[i..])))
  }

  lemma FirstVdev(h: Host, pool: string, prefix: string, vs: seq<Vdev>)
    ensures VdevsLeft(h, pool, prefix, vs, 0, []) == Send(h, VdevsMetrics(pool, prefix, vs))
  {
    hide Send, VdevsMetrics;
    assert vs[0..] == vs;
    var run := Send(h, VdevsMetrics(pool, prefix, vs));
    assert [] + run.metrics == run.metrics;
  }

  lemma LastVdev(h: Host, pool: string, prefix: string, vs: seq<Vdev>, done: seq<Metric>)
    ensures VdevsLeft(h, pool, prefix, vs, |vs|, done) == Emit(done)
  {
    assert vs[|vs|..] == [] && done + [] == done;
  }

  lemma NextVdev(h: Host, pool: string, prefix: string, vs: seq<Vdev>, i: nat, done: seq<Metric>)
    requires i < |vs|
    ensures var one := Send(h, VdevMetrics(pool, prefix, vs[i]));
      VdevsLeft(h, pool, prefix, vs, i, done) ==
      if one.error.Some? then Run(done + one.metrics, one.error)
      else VdevsLeft(h, pool, prefix, vs, i + 1, done + one.metrics)
  {
    hide Send, VdevMetrics;
    assert vs[i..][0] == vs[i] && vs[i..][1..] == vs[i + 1..];
    var (a, b) := (VdevMetrics(pool, prefix, vs[i]), VdevsMetrics(pool, prefix, vs[i + 1..]));
    SendAppend(h, a, b);
    ThenAssociates(Emit(done), Send(h, a), Send(h, b));
  }

  // ---- Rows of datasets -------------------------------------------------------

  const RESP_SIZE: nat := 262144

  function WithKStat(files: Files, pool: seq<Byte>, p: Props): Result<Props> {
    var key := (pool, p.objsetid);
    if key !in files then Ok(p) else
    match files[key]
    case None => Err(Rejected("error reading kstats"))
    case Some(bytes) => KStatProps.KStatRun(bytes, 0, p)
  }

  function PropsBytes(D: seq<Byte>): Result<Props> {
    match PropsList(D, Cursor(Native, 0), NO_PROPS)
    case Ok(x) => Ok(x.0)
    case Err(e) => Err(e)
  }

  /** The properties of a reply. One that fills the buffer or more is decoded from its own
      bytes alone. */
  function DecodedProps(k: Kernel, l: NvList): Result<Props> {
    if |Message(k, l)| < RESP_SIZE then PropsOf(l, NO_PROPS) else PropsBytes(Message(k, l))
  }

  /** The properties and counters of the dataset whose reply stands in the buffer. */
  function RowBytes(h: Host, pool: seq<Byte>, D: seq<Byte>): Result<Props> {
    match PropsBytes(D)
    case Err(e) => Err(e)
    case Ok(p) => WithKStat(h.files, pool, p)
  }

  function RowProps(h: Host, pool: seq<Byte>, d: Dataset): Result<Props> {
    match DecodedProps(h.kernel, d.props)
    case Err(e) => Err(e)
    case Ok(p) => WithKStat(h.files, pool, p)
  }

  function MetricOf(h: Host, pool: seq<Byte>, name: seq<Byte>, row: Result<Props>): Result<Metric> {
    match row
    case Err(e) => Err(e)
    case Ok(p) =>
      var m := DatasetValues(Text(pool), Text(name), p);
      if h.accepts(m) then Ok(m) else Err(UNACCEPTED)
  }

  function RowOf(h: Host, pool: seq<Byte>, d: Dataset): Result<Metric> {
    MetricOf(h, pool, d.name, RowProps(h, pool, d))
  }

  lemma PropsBehindHeader(k: Kernel, l: NvList, tail: seq<Byte>)
    requires Encodable(l) && InnersFlat(l) && tail != []
    ensures PropsList(Message(k, l) + tail, Cursor(Native, 0), NO_PROPS) ==
      match PropsOf(l, NO_PROPS)
      case Ok(a) => Ok((a, Cursor(Native, |Message(k, l)|)))
      case Err(e) => Err(e)
  {
    hide NextAt, Enc, At, Header;
    var D := Message(k, l) + tail;
    HeaderThenList(k.version, k.flags, l, tail);
    assert PropsList(D, Cursor(Native, 0), NO_PROPS) == PropsList(D, Cursor(Native, HEADER_SIZE), NO_PROPS);
    PropsInvertEnc(D, HEADER_SIZE, l, NO_PROPS);
  }

  /** A reply whose list is decoded behind the buffer's old content gives what its list says,
      if it leaves a byte of it; a larger one cannot be decoded at all. */
  lemma ReplyDecodes(k: Kernel, l: NvList, before: seq<Byte>)
    requires |before| == RESP_SIZE && Encodable(l) && InnersFlat(l)
    ensures PropsBytes(Filled(before, Message(k, l))) == DecodedProps(k, l)
    ensures |Message(k, l)| < RESP_SIZE ==> |Filled(before, Message(k, l))| == RESP_SIZE
    ensures |Message(k, l)| >= RESP_SIZE ==> DecodedProps(k, l).Err?
  {
    hide PropsList, PropsOf, Enc, Header;
    var m := Message(k, l);
    if |m| < RESP_SIZE {
      PropsBehindHeader(k, l, before[|m|..]);
    } else {
      assert |m| == RESP_SIZE ==> before[|m|..] == [] && m + [] == m;
      if PropsList(m, Cursor(Native, 0), NO_PROPS).Ok? {
        PropsStable(m, m + [0], Cursor(Native, 0), NO_PROPS);
        PropsBehindHeader(k, l, [0]);
      }
    }
  }

  lemma RowInBuffer(h: Host, pool: seq<Byte>, d: Dataset, before: seq<Byte>)
    requires |before| == RESP_SIZE && Encodable(d.props) && InnersFlat(d.props)
    ensures RowBytes(h, pool, Filled(before, Message(h.kernel, d.props))) == RowProps(h, pool, d)
    ensures RowProps(h, pool, d).Ok? ==> |Filled(before, Message(h.kernel, d.props))| == RESP_SIZE
  {
    hide PropsBytes, DecodedProps, WithKStat, Message;
    ReplyDecodes(h.kernel, d.props, before);
  }

  // ---- The walk over datasets -------------------------------------------------

  /** What belongs to one frame of the recursive listing: the dataset that it lists and the
      cookie of the child it has listed last. */
  datatype Frame = Frame(dir: seq<Byte>, cookie: nat)

  /** What a walk emits, and the response buffer that it leaves to its caller. */
  datatype Walk = Walk(run: Run, buf: seq<Byte>)

  function FollowedBy(ms: seq<Metric>, w: Walk): Walk {
    Walk(Then(Emit(ms), w.run), w.buf)
  }

  /** A dataset and everything below it, for any replies and any buffer. Each reply is written
      over whatever the replies before it have left in the one buffer. */
  function NodeWalk(h: Host, pool: seq<Byte>, d: Dataset, buf: seq<Byte>): Walk
    decreases d
  {
    var b := Filled(buf, Message(h.kernel, d.props));
    match MetricOf(h, pool, d.name, RowBytes(h, pool, b))
    case Err(e) => Walk(Stop(e), b)
    case Ok(m) => FollowedBy([m], KidsWalk(h, pool, Frame(d.name, 0), d.children, b))
  }

  /** The children that a frame has not listed yet, unless the kernel turns the listing down. */
  function KidsWalk(h: Host, pool: seq<Byte>, f: Frame, ds: seq<Dataset>, buf: seq<Byte>): Walk
    decreases ds
  {
    match Declined(h.kernel, f.dir, f.cookie)
    case Some(e) => Walk(Stop(Errno(e)), buf)
    case None =>
      if ds == [] then Walk(Emit([]), buf) else
      var w := NodeWalk(h, pool, ds[0], buf);
      if w.run.error.Some? then w
      else FollowedBy(w.run.metrics, KidsWalk(h, pool, Frame(f.dir, ds[0].cookie), ds[1..], w.buf))
  }

  /** The same without a buffer: a dataset's row depends on its properties alone. */
  function NodeRun(h: Host, pool: seq<Byte>, d: Dataset): Run
    decreases d
  {
    match RowOf(h, pool, d)
    case Err(e) => Stop(e)
    case Ok(m) => Then(Emit([m]), KidsRun(h, pool, Frame(d.name, 0), d.children))
  }

  function KidsRun(h: Host, pool: seq<Byte>, f: Frame, ds: seq<Dataset>): Run
    decreases ds
  {
    match Declined(h.kernel, f.dir, f.cookie)
    case Some(e) => Stop(Errno(e))
    case None =>
      if ds == [] then Emit([])
      else Then(NodeRun(h, pool, ds[0]), KidsRun(h, pool, Frame(f.dir, ds[0].cookie), ds[1..]))
  }

  /** The properties of a dataset and of all below it are well-formed lists of flat lists. */
  predicate Regular(d: Dataset)
    decreases d, 0
  {
    Encodable(d.props) && InnersFlat(d.props) && KidsRegular(d.children)
  }

  predicate KidsRegular(ds: seq<Dataset>)
    decreases ds
  {
    ds != [] ==> Regular(ds[0]) && KidsRegular(ds[1..])
  }

  /** With well-formed properties the walk through the buffer is the walk over the tree, and
      no reply leaves a trace in a later row. */
  lemma {:induction false} NodeWalkIs(h: Host, pool: seq<Byte>, d: Dataset, buf: seq<Byte>)
    requires |buf| == RESP_SIZE && Regular(d)
    ensures NodeWalk(h, pool, d, buf).run == NodeRun(h, pool, d)
    ensures NodeRun(h, pool, d).error.None? ==> |NodeWalk(h, pool, d, buf).buf| == RESP_SIZE
    decreases d, 0
  {
    hide RowBytes, RowProps, Message, Filled, Encodable, InnersFlat;
    RowInBuffer(h, pool, d, buf);
    if RowOf(h, pool, d).Ok? {
      KidsWalkIs(h, pool, Frame(d.name, 0), d.children, Filled(buf, Message(h.kernel, d.props)));
    }
  }

  lemma {:induction false} KidsWalkIs(h: Host, pool: seq<Byte>, f: Frame, ds: seq<Dataset>, buf: seq<Byte>)
    requires |buf| == RESP_SIZE && KidsRegular(ds)
    ensures KidsWalk(h, pool, f, ds, buf).run == KidsRun(h, pool, f, ds)
    ensures KidsRun(h, pool, f, ds).error.None? ==> |KidsWalk(h, pool, f, ds, buf).buf| == RESP_SIZE
    decreases ds
  {
    hide NodeWalk, NodeRun, Encodable, InnersFlat, Declined;
    if ds != [] {
      NodeWalkIs(h, pool, ds[0], buf);
      var w := NodeWalk(h, pool, ds[0], buf);
      if w.run.error.None? {
        KidsWalkIs(h, pool, Frame(f.dir, ds[0].cookie), ds[1..], w.buf);
      }
    }
  }

  // ---- The kernel's side of the contract --------------------------------------

  predicate NameOk(name: seq<Byte>) {
    |name| < NAME_SIZE && 0 !in name
  }

  /** Cookies tell the children of one dataset apart, and none of them means "start". */
  predicate CookiesOk(kids: seq<Dataset>) {
    && (forall i :: 0 <= i < |kids| ==> kids[i].cookie != 0)
    && (forall i, j :: 0 <= i < j < |kids| ==> kids[i].cookie != kids[j].cookie)
  }

  /** What the kernel lists in a dataset of this tree, if it lists it at all, are exactly the
      children. */
  predicate Serves(k: Kernel, t: Dataset)
    decreases t
  {
    t.name in k.dirs ==>
      && k.dirs[t.name] == t.children && CookiesOk(t.children)
      && forall c :: c in t.children ==> NameOk(c.name) && Serves(k, c)
  }

  lemma {:induction false} NextChildIs(kids: seq<Dataset>, i: nat)
    requires CookiesOk(kids) && 0 < i <= |kids|
    ensures NextChild(kids, kids[i - 1].cookie) == i
    decreases |kids|
  {
    if i > 1 {
      NextChildIs(kids[1..], i - 1);
    }
  }

  lemma ChildServed(k: Kernel, t: Dataset, i: nat)
    requires Serves(k, t) && t.name in k.dirs
    ensures k.dirs[t.name] == t.children && CookiesOk(t.children)
    ensures i < |t.children| ==>
      var c := t.children[i];
      NameOk(c.name) && Serves(k, c) && CmdName(c.name) == c.name
  {
    hide CmdName;
    if i < |t.children| {
      assert t.children[i] in t.children;
      NameSurvivesIff(t.children[i].name);
    }
  }

  lemma ListingStarts(h: Host, pool: seq<Byte>, f: Frame, kids: seq<Dataset>, buf: seq<Byte>)
    ensures NextChild(kids, 0) == 0
    ensures KidsWalk(h, pool, f, kids, buf) == FollowedBy([], KidsWalk(h, pool, f, kids[0..], buf))
  {
    hide KidsWalk;
    assert kids[0..] == kids;
    var w := KidsWalk(h, pool, f, kids, buf);
    assert [] + w.run.metrics == w.run.metrics;
  }

  /** What the loop over siblings does when it gets no child: the listing ends or is turned down. */
  lemma NoNode(h: Host, pool: seq<Byte>, f: Frame, kids: seq<Dataset>, i: nat, done: seq<Metric>, buf: seq<Byte>)
    requires i <= |kids|
    ensures var all := FollowedBy(done, KidsWalk(h, pool, f, kids[i..], buf));
      match Declined(h.kernel, f.dir, f.cookie)
      case Some(e) => all == Walk(Run(done, Some(Errno(e))), buf)
      case None => i == |kids| ==> all == Walk(Emit(done), buf)
  {
    hide Declined, NodeWalk;
    assert done + [] == done;
  }

  /** What it does with the next child, from the buffer that it finds. */
  lemma NextNode(h: Host, pool: seq<Byte>, f: Frame, kids: seq<Dataset>, i: nat, done: seq<Metric>, buf: seq<Byte>)
    requires i < |kids| && Declined(h.kernel, f.dir, f.cookie) == None
    ensures var all := FollowedBy(done, KidsWalk(h, pool, f, kids[i..], buf));
      var b := Filled(buf, Message(h.kernel, kids[i].props));
      match MetricOf(h, pool, kids[i].name, RowBytes(h, pool, b))
      case Err(e) => all == Walk(Run(done, Some(e)), b)
      case Ok(m) =>
        var sub := KidsWalk(h, pool, Frame(kids[i].name, 0), kids[i].children, b);
        var more := done + [m] + sub.run.metrics;
        all == if sub.run.error.Some? then Walk(Run(more, sub.run.error), sub.buf)
               else FollowedBy(more, KidsWalk(h, pool, Frame(f.dir, kids[i].cookie), kids[i + 1..], sub.buf))
  {
    hide RowBytes, Filled, Message, MetricOf, Declined;
    var rest := kids[i..];
    assert rest[0] == kids[i] && rest[1..] == kids[i + 1..];
    var b := Filled(buf, Message(h.kernel, kids[i].props));
    match MetricOf(h, pool, kids[i].name, RowBytes(h, pool, b)) {
      case Err(e) => assert done + [] == done;
      case Ok(m) =>
        var sub := KidsWalk(h, pool, Frame(kids[i].name, 0), kids[i].children, b).run.metrics;
        var w := KidsWalk(h, pool, Frame(kids[i].name, 0), kids[i].children, b);
        var after := KidsWalk(h, pool, Frame(f.dir, kids[i].cookie), kids[i + 1..], w.buf).run.metrics;
        assert done + ([m] + sub) == done + [m] + sub;
        assert done + ([m] + sub + after) == done + [m] + sub + after;
    }
  }

  // ---- Pools ------------------------------------------------------------------

  function PoolBytes(D: seq<Byte>): Result<PoolInfo> {
    match PoolList(D, Cursor(Native, 0), NO_POOL)
    case Ok(x) => Ok(x.0)
    case Err(e) => Err(e)
  }

  function DecodedPool(k: Kernel, l: NvList): Result<PoolInfo> {
    if |Message(k, l)| < RESP_SIZE then PoolOf(l, NO_POOL) else PoolBytes(Message(k, l))
  }

  lemma PoolBehindHeader(k: Kernel, l: NvList, tail: seq<Byte>)
    requires Encodable(l) && PoolInStep(l) && tail != []
    ensures PoolList(Message(k, l) + tail, Cursor(Native, 0), NO_POOL) ==
      match PoolOf(l, NO_POOL)
      case Ok(a) => Ok((a, Cursor(Native, |Message(k, l)|)))
      case Err(e) => Err(e)
  {
    hide NextAt, Enc, At, Header, VdevList, CounterAt, SkipList, Encodable, PoolInStep, PoolOf;
    var D := Message(k, l) + tail;
    HeaderThenList(k.version, k.flags, l, tail);
    assert PoolList(D, Cursor(Native, 0), NO_POOL) == PoolList(D, Cursor(Native, HEADER_SIZE), NO_POOL);
    DecodeInvertsEnc(D, HEADER_SIZE, l, NO_POOL);
  }

  lemma PoolDecodes(k: Kernel, l: NvList, before: seq<Byte>)
    requires |before| == RESP_SIZE && Encodable(l) && PoolInStep(l)
    ensures PoolBytes(Filled(before, Message(k, l))) == DecodedPool(k, l)
    ensures |Message(k, l)| < RESP_SIZE ==> |Filled(before, Message(k, l))| == RESP_SIZE
    ensures |Message(k, l)| >= RESP_SIZE ==> DecodedPool(k, l).Err?
  {
    hide PoolList, PoolOf, Enc, Header;
    var m := Message(k, l);
    if |m| < RESP_SIZE {
      PoolBehindHeader(k, l, before[|m|..]);
    } else {
      assert |m| == RESP_SIZE ==> before[|m|..] == [] && m + [] == m;
      if PoolList(m, Cursor(Native, 0), NO_POOL).Ok? {
        PoolStable(m, m + [0], Cursor(Native, 0), NO_POOL);
        PoolBehindHeader(k, l, [0]);
      }
    }
  }

  function PoolGaugeMetrics(states: seq<string>, pool: string, state: string): (ms: seq<Metric>)
    ensures |ms| == |states|
    ensures forall i :: 0 <= i < |ms| ==> ms[i] == PoolState(pool, states[i], states[i] == state)
  {
    seq(|states|, i requires 0 <= i < |states| => PoolState(pool, states[i], states[i] == state))
  }

  function PoolStateMetrics(pool: string, state: string): seq<Metric> {
    PoolGaugeMetrics(States.POOL_STATES, pool, state)
  }

  /** The gauges and the error count of a pool. */
  function CountMetrics(pool: string, info: PoolInfo): seq<Metric> {
    PoolStateMetrics(pool, info.state) + [PoolErrors(pool, info.errorCount)]
  }

  /** A pool without a vdev tree makes the exporter dereference nil. */
  function VdevRun(h: Host, pool: string, v: Option<Vdev>): Run {
    match v case None => Stop(Fault) case Some(t) => Send(h, VdevMetrics(pool, "", t))
  }

  function InfoRun(h: Host, pool: string, info: PoolInfo): Run {
    Then(Send(h, CountMetrics(pool, info)), VdevRun(h, pool, info.vdev))
  }

  function Kids(k: Kernel, n: seq<Byte>): seq<Dataset> {
    if n in k.dirs then k.dirs[n] else []
  }

  function Root(k: Kernel, n: seq<Byte>): Dataset {
    Dataset(n, 0, Nil, Kids(k, n))
  }

  /** One pool: its statistics, then the datasets below its root, for any replies. The kernel
      sees the name as the command carries it. */
  function PoolWalk(h: Host, name: seq<Byte>): Run {
    var n := CmdName(name);
    match Reply(h.kernel, PoolStats, n, 0)
    case Refused(e) => Stop(Errno(e))
    case Given(_, _, payload) =>
      var b := Filled(Zeros(RESP_SIZE), payload);
      match PoolBytes(b)
      case Err(e) => Stop(e)
      case Ok(info) =>
        Then(InfoRun(h, Text(name), info), KidsWalk(h, name, Frame(n, 0), Kids(h.kernel, n), b).run)
  }

  /** The same without a buffer, from what the statistics and properties say. */
  function PoolRun(h: Host, name: seq<Byte>): Run {
    var n := CmdName(name);
    match Reply(h.kernel, PoolStats, n, 0)
    case Refused(e) => Stop(Errno(e))
    case Given(_, _, _) =>
      match DecodedPool(h.kernel, h.kernel.stats[n])
      case Err(e) => Stop(e)
      case Ok(info) => Then(InfoRun(h, Text(name), info), KidsRun(h, name, Frame(n, 0), Kids(h.kernel, n)))
  }

  /** The kernel serves the dataset tree of every pool. */
  ghost predicate World(k: Kernel) {
    forall n :: n in k.stats ==> Serves(k, Root(k, n))
  }

  lemma PoolServed(k: Kernel, n: seq<Byte>)
    requires World(k) && Reply(k, PoolStats, n, 0).Given?
    ensures Serves(k, Root(k, n)) && Root(k, n).name == n && Root(k, n).children == Kids(k, n)
  {
    hide Serves, Kids;
  }

  /** All replies are encodings that the parsers stay in step with. */
  ghost predicate RepliesInStep(k: Kernel) {
    forall n :: n in k.stats ==>
      Encodable(k.stats[n]) && PoolInStep(k.stats[n]) && KidsRegular(Kids(k, n))
  }

  lemma PoolWalkIs(h: Host, name: seq<Byte>)
    requires RepliesInStep(h.kernel)
    ensures PoolWalk(h, name) == PoolRun(h, name)
  {
    hide PoolBytes, DecodedPool, Message, Filled, Encodable, PoolInStep, KidsRegular, KidsWalk, KidsRun,
         InfoRun, CmdName, Kids;
    var (k, n) := (h.kernel, CmdName(name));
    if Reply(k, PoolStats, n, 0).Given? {
      var b := Filled(Zeros(RESP_SIZE), Message(k, k.stats[n]));
      PoolDecodes(k, k.stats[n], Zeros(RESP_SIZE));
      if PoolBytes(b).Ok? {
        KidsWalkIs(h, name, Frame(n, 0), Kids(k, n), b);
      }
    }
  }

  // ---- All pools --------------------------------------------------------------

  /** The loop over the pool configurations, on any bytes. */
  function CollectBytes(h: Host, D: seq<Byte>, c: Cursor): Run
    decreases |D| - c.pos
  {
    match NextAt(D, c)
    case Bad(e) => Stop(e)
    case End(_) => Emit([])
    case Pair(tok, name, _, _, _, next) =>
      if tok != NVLIST then Stop(Rejected("invalid pool configs")) else
      Then(PoolWalk(h, name),
           match SkipList(D, next) case Err(e) => Stop(e) case Ok(d) => CollectBytes(h, D, d))
  }

  /** A whole scrape. */
  function CollectRun(h: Host): Run {
    match Reply(h.kernel, PoolConfigs, [], 0)
    case Refused(e) => Stop(Errno(e))
    case Given(_, _, payload) => CollectBytes(h, Filled(Zeros(RESP_SIZE), payload), Cursor(Native, 0))
  }

  /** One pool after the other, whatever their configurations hold. */
  function CollectOf(h: Host, l: NvList): Run {
    match l
    case Nil => Emit([])
    case Entry(name, val, _, rest) =>
      if !val.List? then Stop(Rejected("invalid pool configs"))
      else Then(PoolWalk(h, name), CollectOf(h, rest))
  }

  lemma {:induction false} CollectInvertsEnc(h: Host, D: seq<Byte>, p: nat, l: NvList)
    requires p > 0 && Encodable(l) && At(D, p, Enc(l)) && p + |Enc(l)| < |D|
    ensures CollectBytes(h, D, Cursor(Native, p)) == CollectOf(h, l)
    decreases l
  {
    hide NextAt, PoolWalk, SkipList, At, PairSize, Head, Encodable, EntryStep;
    match l
    case Nil => StepOverEnd(D, p);
    case Entry(name, val, slack, rest) =>
      EntryParts(D, p, l);
      EntryOk(l);
      EntryFacts(p, l);
      StepOverEntry(D, p, l);
      var q := p + PairSize(name, val, slack);
      if val.List? {
        SkipIsExact(D, q, val.l);
        CollectInvertsEnc(h, D, q + |Nested(val)|, rest);
      }
  }

  /** What the loop over configurations does when it gets no pool. */
  lemma NoPool(h: Host, D: seq<Byte>, c: Cursor, done: seq<Metric>)
    ensures var (all, s) := (Then(Emit(done), CollectBytes(h, D, c)), NextAt(D, c));
      && (s.Bad? ==> all == Run(done, Some(s.error)))
      && (s.End? ==> all == Emit(done))
      && (s.Pair? && s.tok != NVLIST ==> all == Run(done, Some(Rejected("invalid pool configs"))))
  {
    hide NextAt, PoolWalk, SkipList;
    assert done + [] == done;
  }

  /** What it does with the next pool. */
  lemma NextPool(h: Host, D: seq<Byte>, c: Cursor, done: seq<Metric>)
    requires NextAt(D, c).Pair? && NextAt(D, c).tok == NVLIST
    ensures var (all, s) := (Then(Emit(done), CollectBytes(h, D, c)), NextAt(D, c));
      var run := PoolWalk(h, s.name);
      var (more, skipped) := (done + run.metrics, SkipList(D, s.next));
      && (run.error.Some? ==> all == Run(more, run.error))
      && (run.error.None? && skipped.Err? ==> all == Run(more, Some(skipped.error)))
      && (run.error.None? && skipped.Ok? ==> all == Then(Emit(more), CollectBytes(h, D, skipped.value)))
  {
    hide NextAt, PoolWalk, SkipList;
    var s := NextAt(D, c);
    var (run, skipped) := (PoolWalk(h, s.name), SkipList(D, s.next));
    if run.error.None? && skipped.Ok? {
      ThenAssociates(Emit(done), run, CollectBytes(h, D, skipped.value));
    } else {
      assert run.metrics + [] == run.metrics;
    }
  }

  // ---- The collector ----------------------------------------------------------

  lemma ThenFirst(run: Run)
    ensures run == Then(Emit([]), run)
  {
    assert [] + run.metrics == run.metrics;
  }

  lemma EmitOutcome(ms: seq<Metric>)
    ensures Emit(ms).error == None && Emit(ms).metrics == ms
  {
  }

  lemma NoneSent(h: Host, all: seq<Metric>, before: seq<Metric>)
    ensures AllAccepted(h, all[..0]) && before == before + all[..0]
  {
  }

  lemma ValuesInOrder(pool: string, name: string, v: Vdev)
    ensures var (all, t, s) := (ValueMetrics(pool, name, v), v.vdevType, v.stats);
      && |all| == 9
      && all[0] == VdevValue(AllocSpace, pool, name, t, s.alloc)
      && all[1] == VdevValue(TotalSpace, pool, name, t, s.size)
      && all[2] == VdevValue(ReadOps, pool, name, t, s.readOperations)
      && all[3] == VdevValue(ReadBytes, pool, name, t, s.bytesRead)
      && all[4] == VdevValue(ReadErrors, pool, name, t, s.readErrors)
      && all[5] == VdevValue(WriteOps, pool, name, t, s.writeOperations)
      && all[6] == VdevValue(WriteBytes, pool, name, t, s.bytesWritten)
      && all[7] == VdevValue(WriteErrors, pool, name, t, s.writeErrors)
      && all[8] == VdevValue(ChecksumErrors, pool, name, t, s.checksumErrors)
  {
  }

  lemma DeclinedIfUnknown(k: Kernel, dir: seq<Byte>, cookie: nat)
    ensures dir !in k.dirs ==> Declined(k, dir, cookie).Some?
  {
  }

  function Outcome(r: Run): Result<()> {
    match r.error case None => Ok(()) case Some(e) => Err(e)
  }

  class Collector {
    const host: Host
    var out: seq<Metric>

    constructor (h: Host)
      ensures host == h && out == []
    {
      host, out := h, [];
    }

    /** A call has ended with `r` and appended what this run emits. */
    ghost predicate Did(r: Result<()>, before: seq<Metric>, run: Run)
      reads this
    {
      r == Outcome(run) && out == before + run.metrics
    }

    /** Build and send metric `i` of `all`, behind those before it. */
    method Export(m: Metric, ghost before: seq<Metric>, ghost all: seq<Metric>, ghost i: nat) returns (r: Result<()>)
      requires i < |all| && all[i] == m && out == before + all[..i] && AllAccepted(host, all[..i])
      modifies `out
      ensures r.Ok? ==> out == before + all[..i + 1] && AllAccepted(host, all[..i + 1])
      ensures r.Err? || i + 1 == |all| ==> Did(r, before, Send(host, all))
    {
      hide Send;
      if !host.accepts(m) {
        SendStops(host, all, i);
        return Err(UNACCEPTED);
      }
      out := out + [m];
      assert all[..i + 1] == all[..i] + [m];
      if i + 1 == |all| {
        assert all[..i + 1] == all;
        SendIff(host, all);
      }
      return Ok(());
    }

    method HandleVdev(pool: string, vdevNamePrefix: string, vdev: Vdev) returns (r: Result<()>)
      modifies `out
      ensures Did(r, old(out), Send(host, VdevMetrics(pool, vdevNamePrefix, vdev)))
      decreases vdev
    {
      hide StateMetrics, ValueMetrics, VdevMetrics, VdevsMetrics, PathBase, DecInt, Send;
      var vdevName;
      if vdev.path != "" {
        vdevName := PathBase(vdev.path);
      } else if vdev.vdevType == "root" {
        vdevName := pool;
      } else {
        vdevName := vdev.vdevType + "-" + DecInt(vdev.id);
      }
      SendVdev(host, pool, vdevNamePrefix, vdev);
      vdevName := vdevNamePrefix + vdevName;
      r := EmitStates(pool, vdevName, vdev);
      if r.Err? { return r; }
      r := EmitValues(pool, vdevName, vdev);
      if r.Err? { return r; }
      r := HandleChildren(pool, vdevName + "/", vdev.children);
    }

    /** The loop over the children of a vdev. */
    method HandleChildren(pool: string, prefix: string, vs: seq<Vdev>) returns (r: Result<()>)
      modifies `out
      ensures Did(r, old(out), Send(host, VdevsMetrics(pool, prefix, vs)))
      decreases vs
    {
      hide VdevMetrics, VdevsMetrics, Send, VdevsLeft;
      var i := 0;
      ghost var done: seq<Metric> := [];
      FirstVdev(host, pool, prefix, vs);
      while i < |vs|
        invariant 0 <= i <= |vs| && out == old(out) + done
        invariant VdevsLeft(host, pool, prefix, vs, i, done) == Send(host, VdevsMetrics(pool, prefix, vs))
      {
        NextVdev(host, pool, prefix, vs, i, done);
        ghost var one := Send(host, VdevMetrics(pool, prefix, vs[i]));
        var e := HandleVdev(pool, prefix, vs[i]);
        if e.Err? { return e; }
        done := done + one.metrics;
        i := i + 1;
      }
      LastVdev(host, pool, prefix, vs, done);
      return Ok(());
    }

    /** One gauge for each known state. */
    method EmitStates(pool: string, vdevName: string, vdev: Vdev) returns (r: Result<()>)
      modifies `out
      ensures Did(r, old(out), Send(host, StateMetrics(pool, vdevName, vdev)))
    {
      hide Send;
      ghost var all := StateMetrics(pool, vdevName, vdev);
      var i := 0;
      while i < |States.VDEV_STATES|
        invariant 0 <= i <= |States.VDEV_STATES| && out == old(out) + all[..i] && AllAccepted(host, all[..i])
      {
        var m := VdevState(pool, vdevName, vdev.vdevType, States.VDEV_STATES[i],
                           States.VDEV_STATES[i] == vdev.stats.state);
        var e := Export(m, old(out), all, i);
        if e.Err? { return e; }
        i := i + 1;
      }
      assert all[..i] == all;
      SendIff(host, all);
      return Ok(());
    }

    /** The nine values of a vdev. */
    method EmitValues(pool: string, name: string, vdev: Vdev) returns (r: Result<()>)
      modifies `out
      ensures Did(r, old(out), Send(host, ValueMetrics(pool, name, vdev)))
    {
      hide Send, AllAccepted, ValueMetrics;
      ghost var (was, all) := (out, ValueMetrics(pool, name, vdev));
      NoneSent(host, all, was);
      ValuesInOrder(pool, name, vdev);
      var (t, s) := (vdev.vdevType, vdev.stats);
      r := Export(VdevValue(AllocSpace, pool, name, t, s.alloc), was, all, 0);
      if r.Err? { return r; }
      r := Export(VdevValue(TotalSpace, pool, name, t, s.size), was, all, 1);
      if r.Err? { return r; }
      r := Export(VdevValue(ReadOps, pool, name, t, s.readOperations), was, all, 2);
      if r.Err? { return r; }
      r := Export(VdevValue(ReadBytes, pool, name, t, s.bytesRead), was, all, 3);
      if r.Err? { return r; }
      r := Export(VdevValue(ReadErrors, pool, name, t, s.readErrors), was, all, 4);
      if r.Err? { return r; }
      r := Export(VdevValue(WriteOps, pool, name, t, s.writeOperations), was, all, 5);
      if r.Err? { return r; }
      r := Export(VdevValue(WriteBytes, pool, name, t, s.bytesWritten), was, all, 6);
      if r.Err? { return r; }
      r := Export(VdevValue(WriteErrors, pool, name, t, s.writeErrors), was, all, 7);
      if r.Err? { return r; }
      r := Export(VdevValue(ChecksumErrors, pool, name, t, s.checksumErrors), was, all, 8);
    }

    /** The gauges of a pool, one for each known state, and its error count. */
    method EmitCounts(pool: string, info: PoolInfo) returns (r: Result<()>)
      modifies `out
      ensures Did(r, old(out), Send(host, CountMetrics(pool, info)))
    {
      hide Send;
      ghost var all := CountMetrics(pool, info);
      var i := 0;
      while i < |States.POOL_STATES|
        invariant 0 <= i <= |States.POOL_STATES| && out == old(out) + all[..i] && AllAccepted(host, all[..i])
      {
        var m := PoolState(pool, States.POOL_STATES[i], States.POOL_STATES[i] == info.state);
        var e := Export(m, old(out), all, i);
        if e.Err? { return e; }
        i := i + 1;
      }
      r := Export(PoolErrors(pool, info.errorCount), old(out), all, i);
    }

    /** The properties and counters of the dataset whose reply is in the buffer. */
    method ReadRow(pool: seq<Byte>, resp: seq<Byte>) returns (p: Result<Props>)
      ensures p == RowBytes(host, pool, resp)
    {
      var r := new NVListReader(resp);
      var d := new PropsObject();
      var e := d.ParseProps(r);
      if e.Err? { return Err(e.error); }
      var key := (pool, d.objsetid);
      if key in host.files {
        match host.files[key] {
          case None => return Err(Rejected("error reading kstats"));
          case Some(bytes) =>
            var kr := new KStat.KStatReader(bytes);
            var x := KStatProps.ParseKStat(d, kr);
            if x.Err? { return Err(x.error); }
        }
      }
      return Ok(d.Snapshot());
    }

    /** Read the row of a dataset and send it. */
    method HandleRow(pool: seq<Byte>, name: seq<Byte>, resp: seq<Byte>) returns (r: Result<()>)
      modifies `out
      ensures match MetricOf(host, pool, name, RowBytes(host, pool, resp))
              case Err(e) => r == Err(e) && out == old(out)
              case Ok(m) => r == Ok(()) && out == old(out) + [m]
    {
      hide RowBytes;
      var row := ReadRow(pool, resp);
      if row.Err? { return Err(row.error); }
      var m := DatasetValues(Text(pool), Text(name), row.value);
      if !host.accepts(m) { return Err(UNACCEPTED); }
      out := out + [m];
      return Ok(());
    }

    /** One call of the listing: the shared command is filled in from the frame's variables. */
    method ListNext(prefix: seq<Byte>, cookie: nat, cmd: Cmd, resp: Buffer, ghost kids: seq<Dataset>, ghost i: nat)
      returns (errno: nat)
      requires cmd.Valid()
      requires CmdName(prefix) in host.kernel.dirs ==>
        && host.kernel.dirs[CmdName(prefix)] == kids && i <= |kids| && NextChild(kids, cookie) == i
        && (i < |kids| ==> NameOk(kids[i].name))
      modifies cmd, cmd.Name, resp
      ensures match Declined(host.kernel, CmdName(prefix), cookie)
              case Some(e) => errno == e && resp.data == old(resp.data)
              case None =>
                && i <= |kids|
                && (i == |kids| ==> errno == ESRCH && resp.data == old(resp.data))
                && (i < |kids| ==>
                      && errno == 0 && cmd.NameText() == kids[i].name && cmd.Cookie == kids[i].cookie
                      && resp.data == Filled(old(resp.data), Message(host.kernel, kids[i].props)))
    {
      hide Message, Filled;
      cmd.Clear();
      cmd.SetName(prefix);
      ClearedText(prefix);
      cmd.Cookie := cookie;
      ghost var calls;
      errno, calls := Device.Ioctl(host.kernel, DatasetListNext, cmd, resp);
    }

    /** The recursive listing. All frames overwrite the same command and buffer; `prefix` and
        `cookie` belong to the frame. */
    method FindDatasets(pool: seq<Byte>, prefix: seq<Byte>, cmd: Cmd, resp: Buffer, ghost t: Dataset)
      returns (r: Result<()>)
      requires cmd.Valid() && CmdName(prefix) == t.name && Serves(host.kernel, t)
      modifies `out, cmd, cmd.Name, resp
      ensures var w := KidsWalk(host, pool, Frame(t.name, 0), t.children, old(resp.data));
        Did(r, old(out), w.run) && resp.data == w.buf
      decreases t
    {
      hide NodeWalk, KidsWalk, RowBytes, MetricOf, Message, Filled, NextChild, CmdName, Declined, Serves,
           CookiesOk, NameOk;
      var cookie := 0;
      ghost var kids := t.children;
      ghost var i := 0;
      ghost var done: seq<Metric> := [];
      ghost var all := KidsWalk(host, pool, Frame(t.name, 0), kids, resp.data);
      ListingStarts(host, pool, Frame(t.name, 0), kids, resp.data);
      while true
        invariant 0 <= i <= |kids| && NextChild(kids, cookie) == i
        invariant out == old(out) + done
        invariant all == FollowedBy(done, KidsWalk(host, pool, Frame(t.name, cookie), kids[i..], resp.data))
        decreases |kids| - i
      {
        if t.name in host.kernel.dirs { ChildServed(host.kernel, t, i); }
        ghost var (f, before) := (Frame(t.name, cookie), resp.data);
        NoNode(host, pool, f, kids, i, done, before);
        DeclinedIfUnknown(host.kernel, t.name, cookie);
        var errno := ListNext(prefix, cookie, cmd, resp, kids, i);
        if errno == ESRCH { return Ok(()); }
        if errno != 0 { return Err(Errno(errno)); }
        ghost var d := kids[i];
        var name := cmd.GetName();
        cookie := cmd.Cookie;
        NextChildIs(kids, i + 1);
        NextNode(host, pool, f, kids, i, done, before);
        ghost var m := MetricOf(host, pool, d.name, RowBytes(host, pool, resp.data));
        ghost var sub := KidsWalk(host, pool, Frame(d.name, 0), d.children, resp.data).run.metrics;
        var e := HandleRow(pool, name, resp.data);
        if e.Err? { return e; }
        e := FindDatasets(pool, name, cmd, resp, d);
        assert old(out) + done + [m.value] + sub == old(out) + (done + [m.value] + sub);
        if e.Err? { return e; }
        done := done + [m.value] + sub;
        i := i + 1;
      }
      assert false;
    }

    /** The metrics of a pool's statistics. */
    method EmitPool(pool: string, info: PoolInfo) returns (r: Result<()>)
      modifies `out
      ensures Did(r, old(out), InfoRun(host, pool, info))
    {
      hide VdevMetrics, CountMetrics, Send;
      r := EmitCounts(pool, info);
      if r.Err? { return r; }
      if info.vdev.None? { return Err(Fault); }
      r := HandleVdev(pool, "", info.vdev.value);
    }

    /** Ask for the statistics of a pool and decode them. */
    method ReadPool(poolName: seq<Byte>, cmd: Cmd, resp: Buffer) returns (r: Result<PoolInfo>)
      requires cmd.Valid() && cmd.NameText() == CmdName(poolName) && cmd.Cookie == 0
      modifies cmd, cmd.Name, resp
      ensures match Reply(host.kernel, PoolStats, CmdName(poolName), 0)
              case Refused(e) => r == Err(Errno(e))
              case Given(_, _, payload) => resp.data == Filled(old(resp.data), payload) && r == PoolBytes(resp.data)
    {
      hide PoolList, Message, Filled, CmdName;
      ghost var calls;
      var errno;
      errno, calls := Device.Ioctl(host.kernel, PoolStats, cmd, resp);
      if errno != 0 { return Err(Errno(errno)); }
      var reader := new NVListReader(resp.data);
      r := DecodePool(reader);
    }

    method HandlePool(poolName: seq<Byte>) returns (r: Result<()>)
      requires World(host.kernel)
      modifies `out
      ensures Did(r, old(out), PoolWalk(host, poolName))
    {
      hide PoolBytes, KidsWalk, Serves, InfoRun, CmdName, Message, Filled, World, Reply, Root, Kids;
      var cmd := new Cmd();
      cmd.SetName(poolName);
      ClearedText(poolName);
      var resp := new Buffer(RESP_SIZE);
      var info := ReadPool(poolName, cmd, resp);
      if info.Err? { return Err(info.error); }
      r := EmitPool(Text(poolName), info.value);
      if r.Err? { return r; }
      PoolServed(host.kernel, CmdName(poolName));
      r := FindDatasets(poolName, poolName, cmd, resp, Root(host.kernel, CmdName(poolName)));
    }

    method Collect() returns (r: Result<()>)
      requires World(host.kernel)
      modifies `out
      ensures Did(r, old(out), CollectRun(host))
    {
      hide CollectBytes, Message, World, Filled;
      var cmd := new Cmd();
      BufTextUnique(cmd.Name[..], 0);
      var resp := new Buffer(RESP_SIZE);
      ghost var calls;
      var errno;
      errno, calls := Device.Ioctl(host.kernel, PoolConfigs, cmd, resp);
      if errno != 0 { return Err(Errno(errno)); }
      var reader := new NVListReader(resp.data);
      r := HandleConfigs(reader);
    }

    /** The loop over the pool configurations. */
    method HandleConfigs(reader: NVListReader) returns (r: Result<()>)
      requires World(host.kernel) && reader.Valid()
      modifies `out, reader
      ensures Did(r, old(out), CollectBytes(host, reader.Data, old(reader.Here())))
      ensures reader.Frugal(r.Ok?, old(reader.calls), old(reader.pos))
    {
      hide NextAt, PoolWalk, SkipList, World, CollectBytes, Then, Emit;
      ghost var all := CollectBytes(host, reader.Data, reader.Here());
      ghost var done: seq<Metric> := [];
      ThenFirst(all);
      while true
        invariant reader.Valid() && out == old(out) + done
        invariant all == Then(Emit(done), CollectBytes(host, reader.Data, reader.Here()))
        invariant old(reader.pos) <= reader.pos && (reader.pos > old(reader.pos) ==> reader.pos < |reader.Data|)
        invariant reader.Frugal(true, old(reader.calls), old(reader.pos))
        decreases |reader.Data| - reader.pos
      {
        ghost var c := reader.Here();
        NoPool(host, reader.Data, c, done);
        var t := reader.Next();
        match t {
          case EOF => EmitOutcome(done); return Ok(());
          case Error(e) => return Err(e);
          case Token(_) =>
        }
        if t.t != NVLIST { return Err(Rejected("invalid pool configs")); }
        NextPool(host, reader.Data, c, done);
        var poolName := reader.nameBytes;
        ghost var run := PoolWalk(host, poolName);
        var e := HandlePool(poolName);
        if e.Err? { return e; }
        done := done + run.metrics;
        e := reader.Skip();
        if e.Err? { return e; }
      }
      assert false;
    }
  }
}
