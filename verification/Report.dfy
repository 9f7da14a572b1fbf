/**
 What the metrics of a pool say, number by number: each is a number that the kernel's lists
 or the kstat files hold, at a place that is written out here.
 */
module Report {
  import opened Basics
  import opened NvFormat
  import opened NvEncode
  import opened NvRuns
  import opened Vdevs
  import opened Pools
  import opened DatasetProps
  import opened Labels
  import opened Ioctl
  import opened Exporter
  import opened ExporterTheorems
  import States

  // ---- The counts of a pool ---------------------------------------------------

  function NumberUnder(l: NvList, name: string): Option<int> {
    match LastVal(l, name)
    case Some(Int(_, _, n)) => Some(n)
    case _ => None
  }

  /** The first ten metrics of a pool: a gauge for each state, on for the state's number, and the
      error count. Without a state no gauge is on. */
  predicate CountAt(pool: string, l: NvList, i: nat, m: Metric) {
    var n := NumberUnder(l, "state");
    && (i == 0 ==> m == PoolState(pool, "ACTIVE", n == Some(0)))
    && (i == 1 ==> m == PoolState(pool, "EXPORTED", n == Some(1)))
    && (i == 2 ==> m == PoolState(pool, "DESTROYED", n == Some(2)))
    && (i == 3 ==> m == PoolState(pool, "SPARE", n == Some(3)))
    && (i == 4 ==> m == PoolState(pool, "L2CACHE", n == Some(4)))
    && (i == 5 ==> m == PoolState(pool, "UNINITIALIZED", n == Some(5)))
    && (i == 6 ==> m == PoolState(pool, "UNAVAIL", n == Some(6)))
    && (i == 7 ==> m == PoolState(pool, "POTENTIALLY_ACTIVE", n == Some(7)))
    && (i == 8 ==> m == PoolState(pool, "UNKNOWN", n.Some? && !(0 <= n.value < 8)))
    && (i == 9 ==> m == PoolErrors(pool, NumOr(NumberUnder(l, "error_count"), 0)))
  }

  lemma PoolStateOf(l: NvList)
    requires PoolWellTyped(l)
    ensures var (n, s) := (NumberUnder(l, "state"), PoolOverlay(l, NO_POOL).state);
      s == if n.Some? then States.PoolStateString(n.value) else ""
    ensures PoolOverlay(l, NO_POOL).errorCount == NumOr(NumberUnder(l, "error_count"), 0)
  {
    hide PoolWellTyped, LastVal, WellTyped, TreeOr;
    PoolLastTyped(l);
  }

  /** The gauge at place `i` is on for number `i`, and the last one for all other numbers. */
  predicate GaugeOn(i: nat, n: Option<int>) {
    n.Some? && if i < 8 then n.value == i else !(0 <= n.value < 8)
  }

  lemma PoolGauge(i: nat, n: Option<int>)
    requires i < 9
    ensures States.POOL_STATES[i] == (if n.Some? then States.PoolStateString(n.value) else "") <==> GaugeOn(i, n)
  {
    hide States.PoolStateString;
    States.PoolStatesDistinct();
    if n.Some? {
      States.PoolStateAt(n.value);
    } else {
      assert |States.POOL_STATES[i]| > 0;
    }
  }

  lemma CountsByPlace(pool: string, l: NvList)
    requires PoolWellTyped(l)
    ensures var ms := CountMetrics(pool, PoolOverlay(l, NO_POOL));
      && |ms| == 10 && ms[9] == PoolErrors(pool, NumOr(NumberUnder(l, "error_count"), 0))
      && forall i :: 0 <= i < 9 ==> ms[i] == PoolState(pool, States.POOL_STATES[i], GaugeOn(i, NumberUnder(l, "state")))
  {
    PoolStateOf(l);
    hide PoolWellTyped, PoolOverlay, States.PoolStateString, NumberUnder, GaugeOn;
    var ms := CountMetrics(pool, PoolOverlay(l, NO_POOL));
    forall i | 0 <= i < 9
      ensures ms[i] == PoolState(pool, States.POOL_STATES[i], GaugeOn(i, NumberUnder(l, "state")))
    {
      PoolGauge(i, NumberUnder(l, "state"));
    }
  }

  lemma CountsHold(pool: string, l: NvList)
    requires PoolWellTyped(l)
    ensures var ms := CountMetrics(pool, PoolOverlay(l, NO_POOL));
      |ms| == 10 && forall i :: 0 <= i < 10 ==> CountAt(pool, l, i, ms[i])
  {
    CountsByPlace(pool, l);
    States.PoolStateOrder();
    hide CountMetrics, PoolWellTyped, PoolOverlay, NumberUnder;
  }

  // ---- The metrics of a vdev --------------------------------------------------

  /** The statistics of a vdev's list, if it has any. */
  function StatsUnder(l: NvList): Option<seq<int>> {
    match LastVal(l, "vdev_stats")
    case Some(Ints(_, _, ns)) => Some(ns)
    case _ => None
  }

  function Stat(l: NvList, i: nat): int {
    var ns := StatsUnder(l);
    if ns.Some? && i < |ns.value| then ns.value[i] else 0
  }

  /** A gauge for each state, on for its number and reason. Without statistics all are off. */
  predicate StatesAre(pool: string, name: string, l: NvList, ms: seq<Metric>) {
    var (t, has) := (StringOr(LastVal(l, "type"), ""), StatsUnder(l).Some?);
    var (state, aux) := (Stat(l, 1), Stat(l, 2));
    && |ms| == 8
    && ms[0] == VdevState(pool, name, t, "OFFLINE", has && state == 2)
    && ms[1] == VdevState(pool, name, t, "REMOVED", has && state == 3)
    && ms[2] == VdevState(pool, name, t, "FAULTED", has && (state == 5 || (state == 4 && aux in {2, 13})))
    && ms[3] == VdevState(pool, name, t, "SPLIT", has && state == 4 && aux == 15)
    && ms[4] == VdevState(pool, name, t, "UNAVAIL", has && state == 4 && aux !in {2, 13, 15})
    && ms[5] == VdevState(pool, name, t, "DEGRADED", has && state == 6)
    && ms[6] == VdevState(pool, name, t, "ONLINE", has && state == 7)
    && ms[7] == VdevState(pool, name, t, "UNKNOWN", has && !(2 <= state <= 7))
  }

  /** Nine entries of the statistics. Without statistics all are zero. */
  predicate ValuesAre(pool: string, name: string, l: NvList, ms: seq<Metric>) {
    var t := StringOr(LastVal(l, "type"), "");
    && |ms| == 9
    && ms[0] == VdevValue(AllocSpace, pool, name, t, Stat(l, 3))
    && ms[1] == VdevValue(TotalSpace, pool, name, t, Stat(l, 4))
    && ms[2] == VdevValue(ReadOps, pool, name, t, Stat(l, 9))
    && ms[3] == VdevValue(ReadBytes, pool, name, t, Stat(l, 15))
    && ms[4] == VdevValue(ReadErrors, pool, name, t, Stat(l, 21))
    && ms[5] == VdevValue(WriteOps, pool, name, t, Stat(l, 10))
    && ms[6] == VdevValue(WriteBytes, pool, name, t, Stat(l, 16))
    && ms[7] == VdevValue(WriteErrors, pool, name, t, Stat(l, 22))
    && ms[8] == VdevValue(ChecksumErrors, pool, name, t, Stat(l, 23))
  }

  /** The seventeen metrics of a vdev. */
  predicate VdevBlock(pool: string, name: string, l: NvList, b: seq<Metric>) {
    |b| == 17 && StatesAre(pool, name, l, b[..8]) && ValuesAre(pool, name, l, b[8..])
  }

  /** The fields that a vdev's name is made of, with what stands for absent ones. */
  lemma VdevFields(l: NvList)
    requires WellTyped(l)
    ensures var v := VdevFrom(l);
      && v.vdevType == StringOr(LastVal(l, "type"), "") && v.path == StringOr(LastVal(l, "path"), "")
      && v.id == NumOr(NumberUnder(l, "id"), 0) && v.children == KidsIn(l)
    ensures var ns := StatsUnder(l);
      && (ns.Some? ==> |ns.value| > 28 && VdevFrom(l).stats == ParseVdevStats(ns.value).value)
      && (ns.None? ==> VdevFrom(l).stats == VdevStats(0, 0, 0, 0, 0, 0, 0, 0, 0, 0, 0, ""))
  {
    hide WellTyped, LastVal, KidsIn, ParseVdevStats;
    LastValTyped(l);
    assert [] + KidsIn(l) == KidsIn(l);
    if StatsUnder(l).Some? {
      StatsLength(LastVal(l, "vdev_stats").value);
    }
  }

  lemma StatesHold(pool: string, name: string, l: NvList)
    requires WellTyped(l)
    ensures var (v, ms) := (VdevFrom(l), StateMetrics(pool, name, VdevFrom(l)));
      |ms| == 8 && forall i :: 0 <= i < 8 ==>
        ms[i] == VdevState(pool, name, v.vdevType, States.VDEV_STATES[i], States.VDEV_STATES[i] == v.stats.state)
  {
    hide WellTyped, VdevFrom;
  }

  lemma VdevStateOrder()
    ensures var s := States.VDEV_STATES;
      && |s| == 8 && s[0] == "OFFLINE" && s[1] == "REMOVED" && s[2] == "FAULTED" && s[3] == "SPLIT"
      && s[4] == "UNAVAIL" && s[5] == "DEGRADED" && s[6] == "ONLINE" && s[7] == "UNKNOWN"
      && forall i :: 0 <= i < 8 ==> s[i] != ""
  {
    assert forall i :: 0 <= i < 8 ==> |States.VDEV_STATES[i]| > 0;
  }

  lemma VdevGauges(l: NvList)
    requires WellTyped(l)
    ensures var (s, state, aux) := (VdevFrom(l).stats.state, Stat(l, 1), Stat(l, 2));
      var (names, has) := (States.VDEV_STATES, StatsUnder(l).Some?);
      && (names[0] == s <==> has && state == 2)
      && (names[1] == s <==> has && state == 3)
      && (names[2] == s <==> has && (state == 5 || (state == 4 && aux in {2, 13})))
      && (names[3] == s <==> has && state == 4 && aux == 15)
      && (names[4] == s <==> has && state == 4 && aux !in {2, 13, 15})
      && (names[5] == s <==> has && state == 6)
      && (names[6] == s <==> has && state == 7)
      && (names[7] == s <==> has && !(2 <= state <= 7))
  {
    VdevFields(l);
    VdevStateOrder();
    hide WellTyped, VdevFrom, LastVal, KidsIn, ParseVdevStats;
    if StatsUnder(l).Some? {
      StatsState(StatsUnder(l).value);
    }
  }

  lemma VdevStates(pool: string, name: string, l: NvList)
    requires WellTyped(l)
    ensures StatesAre(pool, name, l, StateMetrics(pool, name, VdevFrom(l)))
  {
    VdevFields(l);
    StatesHold(pool, name, l);
    VdevGauges(l);
    VdevStateOrder();
    hide WellTyped, VdevFrom, LastVal, KidsIn, ParseVdevStats, StateMetrics, StringOr, Stat, StatsUnder;
  }

  lemma VdevNumbers(l: NvList)
    requires WellTyped(l)
    ensures var s := VdevFrom(l).stats;
      && s.alloc == Stat(l, 3) && s.size == Stat(l, 4)
      && s.readOperations == Stat(l, 9) && s.bytesRead == Stat(l, 15) && s.readErrors == Stat(l, 21)
      && s.writeOperations == Stat(l, 10) && s.bytesWritten == Stat(l, 16) && s.writeErrors == Stat(l, 22)
      && s.checksumErrors == Stat(l, 23)
  {
    VdevFields(l);
    hide WellTyped, VdevFrom, LastVal, KidsIn, ParseVdevStats;
    if StatsUnder(l).Some? {
      StatsPlaces(StatsUnder(l).value);
    }
  }

  lemma VdevValues(pool: string, name: string, l: NvList)
    requires WellTyped(l)
    ensures ValuesAre(pool, name, l, ValueMetrics(pool, name, VdevFrom(l)))
  {
    VdevFields(l);
    VdevNumbers(l);
    ValuesInOrder(pool, name, VdevFrom(l));
    hide WellTyped, VdevFrom, LastVal, KidsIn, ParseVdevStats, ValueMetrics, StringOr, Stat, StatsUnder;
  }

  /** What a parsed vdev reports. */
  lemma VdevHolds(pool: string, name: string, l: NvList)
    requires WellTyped(l)
    ensures VdevBlock(pool, name, l, StateMetrics(pool, name, VdevFrom(l)) + ValueMetrics(pool, name, VdevFrom(l)))
  {
    var (a, b) := (StateMetrics(pool, name, VdevFrom(l)), ValueMetrics(pool, name, VdevFrom(l)));
    VdevStates(pool, name, l);
    VdevValues(pool, name, l);
    assert |a| == 8 && |b| == 9;
    hide StatesAre, ValuesAre, StateMetrics, ValueMetrics;
    assert (a + b)[..8] == a && (a + b)[8..] == b;
  }

  // ---- The metrics of a vdev tree ---------------------------------------------

  /** The lists of a vdev and of everything below it, in preorder. */
  function TreeLists(l: NvList): seq<NvList>
    decreases l, 1
  {
    [l] + KidLists(l)
  }

  function KidLists(l: NvList): seq<NvList>
    decreases l, 0
  {
    match l
    case Nil => []
    case Entry(name, val, _, rest) =>
      (if Text(name) == "children" && val.Lists? then ForestLists(val.ls) else []) + KidLists(rest)
  }

  function ForestLists(ls: NvLists): seq<NvList>
    decreases ls
  {
    match ls
    case NoLists => []
    case More(l, os) => TreeLists(l) + ForestLists(os)
  }

  /** Block by block, the metrics are those of these lists under these labels. */
  predicate BlocksAre(pool: string, labels: seq<string>, lists: seq<NvList>, ms: seq<Metric>)
    decreases |lists|
  {
    && |labels| == |lists|
    && if lists == [] then ms == [] else
       && |ms| >= 17 && VdevBlock(pool, labels[0], lists[0], ms[..17])
       && BlocksAre(pool, labels[1..], lists[1..], ms[17..])
  }

  lemma {:induction false} BlocksJoin(pool: string, la: seq<string>, xa: seq<NvList>, a: seq<Metric>,
                                      lb: seq<string>, xb: seq<NvList>, b: seq<Metric>)
    requires BlocksAre(pool, la, xa, a) && BlocksAre(pool, lb, xb, b)
    ensures BlocksAre(pool, la + lb, xa + xb, a + b)
    decreases |xa|
  {
    hide VdevBlock;
    if xa == [] {
      assert la + lb == lb && xa + xb == xb && a + b == b;
    } else {
      BlocksJoin(pool, la[1..], xa[1..], a[17..], lb, xb, b);
      assert (la + lb)[1..] == la[1..] + lb && (xa + xb)[1..] == xa[1..] + xb;
      assert (a + b)[17..] == a[17..] + b && (a + b)[..17] == a[..17];
    }
  }

  lemma {:induction false} BlockAt(pool: string, labels: seq<string>, lists: seq<NvList>, ms: seq<Metric>, i: nat)
    requires BlocksAre(pool, labels, lists, ms) && i < |lists|
    ensures |ms| == 17 * |lists| && VdevBlock(pool, labels[i], lists[i], ms[17 * i..17 * i + 17])
    decreases |lists|
  {
    hide VdevBlock;
    var rest := ms[17..];
    BlocksLength(pool, labels, lists, ms);
    if i > 0 {
      BlockAt(pool, labels[1..], lists[1..], rest, i - 1);
      assert rest[17 * (i - 1)..17 * (i - 1) + 17] == ms[17 * i..17 * i + 17];
    }
  }

  lemma {:induction false} BlocksLength(pool: string, labels: seq<string>, lists: seq<NvList>, ms: seq<Metric>)
    requires BlocksAre(pool, labels, lists, ms)
    ensures |ms| == 17 * |lists|
    decreases |lists|
  {
    hide VdevBlock;
    if lists != [] {
      BlocksLength(pool, labels[1..], lists[1..], ms[17..]);
    }
  }

  lemma OneBlock(pool: string, name: string, l: NvList, b: seq<Metric>)
    requires VdevBlock(pool, name, l, b)
    ensures BlocksAre(pool, [name], [l], b)
  {
    assert b[..17] == b && b[17..] == [];
    hide VdevBlock;
    assert [name][1..] == [] && [l][1..] == [];
    assert BlocksAre(pool, [], [], []);
  }

  lemma {:induction false} VdevsJoin(pool: string, prefix: string, a: seq<Vdev>, b: seq<Vdev>)
    ensures VdevsMetrics(pool, prefix, a + b) == VdevsMetrics(pool, prefix, a) + VdevsMetrics(pool, prefix, b)
    ensures VdevsLabels(pool, prefix, a + b) == VdevsLabels(pool, prefix, a) + VdevsLabels(pool, prefix, b)
    decreases |a|
  {
    hide VdevMetrics, VdevLabels;
    if a == [] {
      assert a + b == b;
    } else {
      assert (a + b)[1..] == a[1..] + b;
      VdevsJoin(pool, prefix, a[1..], b);
    }
  }

  /** Every vdev of a parsed tree reports the numbers of its own list, under its own label. */
  lemma {:induction false} TreeHolds(pool: string, prefix: string, l: NvList)
    requires WellTyped(l)
    ensures BlocksAre(pool, VdevLabels(pool, prefix, VdevFrom(l)), TreeLists(l), VdevMetrics(pool, prefix, VdevFrom(l)))
    decreases l, 1
  {
    hide LocalName, StateMetrics, ValueMetrics, WellTyped, VdevFrom, BlocksAre, KidLists, VdevsLabels, VdevsMetrics;
    var v := VdevFrom(l);
    var name := prefix + LocalName(pool, v);
    var own := StateMetrics(pool, name, v) + ValueMetrics(pool, name, v);
    VdevFields(l);
    VdevHolds(pool, name, l);
    OneBlock(pool, name, l, own);
    KidsHold(pool, name + "/", l);
    BlocksJoin(pool, [name], [l], own, VdevsLabels(pool, name + "/", v.children), KidLists(l),
               VdevsMetrics(pool, name + "/", v.children));
  }

  lemma {:induction false} KidsHold(pool: string, prefix: string, l: NvList)
    requires WellTyped(l)
    ensures BlocksAre(pool, VdevsLabels(pool, prefix, KidsIn(l)), KidLists(l), VdevsMetrics(pool, prefix, KidsIn(l)))
    decreases l, 0
  {
    hide VdevsMetrics, VdevsLabels, KidsOf, ForestLists, BlocksAre;
    match l
    case Nil => NoBlocks(pool, prefix);
    case Entry(name, val, _, rest) =>
      KidsHold(pool, prefix, rest);
      if Text(name) == "children" {
        var (a, b) := (KidsOf(val.ls), KidsIn(rest));
        ForestHolds(pool, prefix, val.ls);
        VdevsJoin(pool, prefix, a, b);
        BlocksJoin(pool, VdevsLabels(pool, prefix, a), ForestLists(val.ls), VdevsMetrics(pool, prefix, a),
                   VdevsLabels(pool, prefix, b), KidLists(rest), VdevsMetrics(pool, prefix, b));
      } else {
        assert [] + KidsIn(rest) == KidsIn(rest) && [] + KidLists(rest) == KidLists(rest);
      }
  }

  lemma NoBlocks(pool: string, prefix: string)
    ensures BlocksAre(pool, VdevsLabels(pool, prefix, []), [], VdevsMetrics(pool, prefix, []))
  {
  }

  lemma {:induction false} ForestHolds(pool: string, prefix: string, ls: NvLists)
    requires AllWellTyped(ls)
    ensures BlocksAre(pool, VdevsLabels(pool, prefix, KidsOf(ls)), ForestLists(ls), VdevsMetrics(pool, prefix, KidsOf(ls)))
    decreases ls
  {
    hide VdevMetrics, VdevLabels, VdevFrom, WellTyped, TreeLists, BlocksAre;
    match ls
    case NoLists => NoBlocks(pool, prefix);
    case More(l, os) =>
      var v := VdevFrom(l);
      TreeHolds(pool, prefix, l);
      ForestHolds(pool, prefix, os);
      assert KidsOf(ls)[1..] == KidsOf(os);
      BlocksJoin(pool, VdevLabels(pool, prefix, v), TreeLists(l), VdevMetrics(pool, prefix, v),
                 VdevsLabels(pool, prefix, KidsOf(os)), ForestLists(os), VdevsMetrics(pool, prefix, KidsOf(os)));
  }

  // ---- The metrics of a pool --------------------------------------------------

  /** Whatever error there is later, the first metrics of a pool are its counts. */
  lemma PoolStartsWithCounts(h: Host, name: seq<Byte>)
    requires RepliesInStep(h.kernel) && Reply(h.kernel, PoolStats, CmdName(name), 0).Given?
    ensures var (l, ms) := (h.kernel.stats[CmdName(name)], PoolWalk(h, name).metrics);
      forall i :: 0 <= i < |ms| && i < 10 ==> CountAt(Text(name), l, i, ms[i])
  {
    hide Message, PoolOf, PoolWellTyped, PoolWalk, CmdName, KidsRun, CountMetrics, Encodable, PoolInStep, KidsRegular,
         InfoRun, CountAt, PoolOverlay, PoolBytes, VdevMetrics;
    var (k, n) := (h.kernel, CmdName(name));
    var l := k.stats[n];
    PoolWalkIs(h, name);
    PoolDecodes(k, l, Zeros(RESP_SIZE));
    PoolOfIsOverlay(l, NO_POOL);
    if |Message(k, l)| < RESP_SIZE && PoolWellTyped(l) {
      var info := PoolOverlay(l, NO_POOL);
      CountsHold(Text(name), l);
      var rest := KidsRun(h, name, Frame(n, 0), Kids(k, n));
      CountsComeFirst(h, Text(name), info, rest);
      assert PoolWalk(h, name) == Then(InfoRun(h, Text(name), info), rest);
      var (ms, counts) := (PoolWalk(h, name).metrics, CountMetrics(Text(name), info));
      forall i | 0 <= i < |ms| && i < 10 ensures CountAt(Text(name), l, i, ms[i]) {
        assert ms[i] == counts[i];
      }
    } else {
      assert PoolWalk(h, name).metrics == [];
    }
  }

  lemma CountsComeFirst(h: Host, pool: string, info: PoolInfo, rest: Run)
    ensures var (ms, counts) := (Then(InfoRun(h, pool, info), rest).metrics, CountMetrics(pool, info));
      forall i :: 0 <= i < |ms| && i < |counts| ==> ms[i] == counts[i]
  {
    hide CountMetrics, VdevMetrics, Send;
    SendIff(h, CountMetrics(pool, info));
  }

  /** The list that a pool's vdev tree is parsed from. */
  function TreeOf(l: NvList): NvList {
    match LastVal(l, "vdev_tree")
    case Some(List(t)) => t
    case _ => Nil
  }

  lemma TreeIsTyped(l: NvList)
    requires PoolWellTyped(l) && LastVal(l, "vdev_tree").Some?
    ensures WellTyped(TreeOf(l)) && PoolOverlay(l, NO_POOL).vdev == Some(VdevFrom(TreeOf(l)))
  {
    hide PoolWellTyped, LastVal, WellTyped, VdevFrom;
    PoolLastTyped(l);
  }

  /** The three parts of a pool that is exported without an error. */
  lemma PoolParts(h: Host, name: seq<Byte>)
    requires RepliesInStep(h.kernel) && PoolOk(h, name)
    ensures var (k, n) := (h.kernel, CmdName(name));
      && n in k.stats && PoolWellTyped(k.stats[n]) && WellTyped(TreeOf(k.stats[n]))
      && KidsRegular(Kids(k, n)) && KidsRun(h, name, Frame(n, 0), Kids(k, n)).error.None?
      && PoolWalk(h, name).metrics ==
           CountMetrics(Text(name), PoolOverlay(k.stats[n], NO_POOL))
           + VdevMetrics(Text(name), "", VdevFrom(TreeOf(k.stats[n])))
           + KidsRun(h, name, Frame(n, 0), Kids(k, n)).metrics
  {
    hide Message, PoolOf, PoolWellTyped, LastVal, KidsRun, PoolWalk, Kids, Encodable, PoolInStep, CmdName, RowsOk,
         PoolBytes, CountMetrics, VdevMetrics, WellTyped, VdevFrom, Listable, KidsRegular, AllAccepted, PoolOverlay,
         TreeOf, Send;
    var (k, n) := (h.kernel, CmdName(name));
    var l := k.stats[n];
    PoolSucceedsIff(h, name);
    PoolWalkIs(h, name);
    PoolDecodes(k, l, Zeros(RESP_SIZE));
    PoolOfIsOverlay(l, NO_POOL);
    TreeIsTyped(l);
    var info := PoolOverlay(l, NO_POOL);
    InfoSent(h, Text(name), info);
  }

  lemma InfoSent(h: Host, pool: string, info: PoolInfo)
    requires info.vdev.Some? && AllAccepted(h, InfoMetrics(pool, info))
    ensures InfoRun(h, pool, info) == Emit(CountMetrics(pool, info) + VdevMetrics(pool, "", info.vdev.value))
  {
    hide CountMetrics, VdevMetrics, Send, AllAccepted;
    var (a, b) := (CountMetrics(pool, info), VdevMetrics(pool, "", info.vdev.value));
    SendAppend(h, a, b);
    SendIff(h, a + b);
  }

  lemma RowsHold(h: Host, pool: seq<Byte>, f: Frame, ds: seq<Dataset>)
    requires KidsRegular(ds) && KidsRun(h, pool, f, ds).error.None?
    ensures var ms := KidsRun(h, pool, f, ds).metrics;
      |ms| == |Preorder(ds)| && forall i :: 0 <= i < |ms| ==> RowMetric(h.files, pool, Preorder(ds)[i], ms[i])
  {
    hide KidsRun, RowProps, KidsRegular, RowIs, Encodable, InnersFlat, Preorder;
    RunSendsRows(h, pool, f, ds);
    var ms := KidsRun(h, pool, f, ds).metrics;
    forall i | 0 <= i < |ms| ensures RowMetric(h.files, pool, Preorder(ds)[i], ms[i]) {
      RegularBelow(ds, Preorder(ds)[i]);
      RowHolds(h, pool, Preorder(ds)[i]);
    }
  }

  lemma BlocksSized(pool: string, labels: seq<string>, lists: seq<NvList>, ms: seq<Metric>)
    requires BlocksAre(pool, labels, lists, ms)
    ensures |labels| == |lists| && |ms| == 17 * |lists|
  {
    hide VdevBlock;
    BlocksLength(pool, labels, lists, ms);
  }

  /** The ten counts of a pool. */
  predicate CountsReport(pool: string, l: NvList, ms: seq<Metric>) {
    |ms| == 10 && forall i :: 0 <= i < 10 ==> CountAt(pool, l, i, ms[i])
  }

  /** Seventeen metrics for each vdev of a tree, in preorder, with the numbers of its own list and
      under its full label. */
  predicate TreeReport(pool: string, prefix: string, l: NvList, ms: seq<Metric>) {
    && WellTyped(l)
    && var (labels, lists) := (VdevLabels(pool, prefix, VdevFrom(l)), TreeLists(l));
    && |labels| == |lists| && |ms| == 17 * |lists|
    && forall i :: 0 <= i < |lists| ==> VdevBlock(pool, labels[i], lists[i], ms[17 * i..17 * i + 17])
  }

  /** A row for each dataset, in order, with its own numbers. */
  predicate RowsReport(files: Files, pool: seq<Byte>, ds: seq<Dataset>, ms: seq<Metric>) {
    |ms| == |ds| && forall i :: 0 <= i < |ds| ==> RowMetric(files, pool, ds[i], ms[i])
  }

  lemma TreeReports(pool: string, prefix: string, l: NvList)
    requires WellTyped(l)
    ensures TreeReport(pool, prefix, l, VdevMetrics(pool, prefix, VdevFrom(l)))
  {
    hide WellTyped, VdevFrom, VdevLabels, VdevMetrics, TreeLists, BlocksAre, VdevBlock;
    var (labels, lists) := (VdevLabels(pool, prefix, VdevFrom(l)), TreeLists(l));
    var ms := VdevMetrics(pool, prefix, VdevFrom(l));
    TreeHolds(pool, prefix, l);
    BlocksSized(pool, labels, lists, ms);
    forall i | 0 <= i < |lists| ensures VdevBlock(pool, labels[i], lists[i], ms[17 * i..17 * i + 17]) {
      BlockAt(pool, labels, lists, ms, i);
    }
  }

  /** The three parts of a report in one sequence. */
  predicate PoolReport(files: Files, name: seq<Byte>, l: NvList, ds: seq<Dataset>, ms: seq<Metric>) {
    var m := 10 + 17 * |TreeLists(TreeOf(l))|;
    && |ms| == m + |ds|
    && CountsReport(Text(name), l, ms[..10])
    && TreeReport(Text(name), "", TreeOf(l), ms[10..m])
    && RowsReport(files, name, ds, ms[m..])
  }

  lemma ReportJoins(files: Files, name: seq<Byte>, l: NvList, ds: seq<Dataset>,
                    counts: seq<Metric>, tree: seq<Metric>, rows: seq<Metric>)
    requires CountsReport(Text(name), l, counts) && RowsReport(files, name, ds, rows)
    requires TreeReport(Text(name), "", TreeOf(l), tree) && |tree| == 17 * |TreeLists(TreeOf(l))|
    ensures PoolReport(files, name, l, ds, counts + tree + rows)
  {
    assert |counts| == 10 && |rows| == |ds|;
    hide CountsReport, RowsReport, TreeReport, TreeLists, TreeOf;
    var (ms, m) := (counts + tree + rows, 10 + |tree|);
    assert ms[..10] == counts && ms[10..m] == tree && ms[m..] == rows;
  }

  lemma TreeReportSize(pool: string, prefix: string, l: NvList, ms: seq<Metric>)
    requires TreeReport(pool, prefix, l, ms)
    ensures |ms| == 17 * |TreeLists(l)|
  {
  }

  /** What the kernel's answer holds about a pool, if it gives one. */
  function StatsList(k: Kernel, n: seq<Byte>): NvList {
    if n in k.stats then k.stats[n] else Nil
  }

  /** Everything that a pool reports when it is exported without an error: its counts, then its
      vdevs, then its datasets, each with the numbers of its own list. */
  lemma PoolReports(h: Host, name: seq<Byte>)
    requires RepliesInStep(h.kernel) && PoolOk(h, name)
    ensures var (k, n) := (h.kernel, CmdName(name));
      PoolReport(h.files, name, StatsList(k, n), Preorder(Kids(k, n)), PoolWalk(h, name).metrics)
  {
    PoolParts(h, name);
    hide *;
    var (k, n) := (h.kernel, CmdName(name));
    var l := StatsList(k, n);
    StatsListIs(k, n);
    var counts := CountMetrics(Text(name), PoolOverlay(l, NO_POOL));
    var tree := VdevMetrics(Text(name), "", VdevFrom(TreeOf(l)));
    var rows := KidsRun(h, name, Frame(n, 0), Kids(k, n)).metrics;
    CountsReported(Text(name), l);
    TreeReports(Text(name), "", TreeOf(l));
    TreeReportSize(Text(name), "", TreeOf(l), tree);
    RowsReported(h, name, Frame(n, 0), Kids(k, n));
    ReportJoins(h.files, name, l, Preorder(Kids(k, n)), counts, tree, rows);
  }

  lemma StatsListIs(k: Kernel, n: seq<Byte>)
    ensures n in k.stats ==> StatsList(k, n) == k.stats[n]
  {
  }

  lemma CountsReported(pool: string, l: NvList)
    requires PoolWellTyped(l)
    ensures CountsReport(pool, l, CountMetrics(pool, PoolOverlay(l, NO_POOL)))
  {
    hide CountAt, CountMetrics, PoolOverlay, PoolWellTyped;
    CountsHold(pool, l);
  }

  lemma RowsReported(h: Host, pool: seq<Byte>, f: Frame, ds: seq<Dataset>)
    requires KidsRegular(ds) && KidsRun(h, pool, f, ds).error.None?
    ensures RowsReport(h.files, pool, Preorder(ds), KidsRun(h, pool, f, ds).metrics)
  {
    hide KidsRegular, KidsRun, RowMetric, Preorder;
    RowsHold(h, pool, f, ds);
  }

  /** Of the state gauges of a parsed vdev exactly one is on, the one for its state and reason,
      and none if its list has no statistics. */
  lemma ParsedVdevGauges(pool: string, name: string, l: NvList)
    requires WellTyped(l)
    ensures States.CountOn(OnFlags(StateMetrics(pool, name, VdevFrom(l)))) ==
            if LastVal(l, "vdev_stats").Some? then 1 else 0
    ensures VdevBlock(pool, name, l, StateMetrics(pool, name, VdevFrom(l)) + ValueMetrics(pool, name, VdevFrom(l)))
  {
    VdevHolds(pool, name, l);
    hide KidsIn, WellTyped, States.CountOn, VdevBlock;
    var v := VdevFrom(l);
    GaugeFlags(States.VDEV_STATES, pool, name, v.vdevType, v.stats.state);
    LastValTyped(l);
    if LastVal(l, "vdev_stats").Some? {
      DecodedStateGauge(LastVal(l, "vdev_stats").value.ns);
    } else {
      States.OneVdevGauge(0, 0);
    }
  }

  // ---- A whole scrape ---------------------------------------------------------

  function ConfigNames(l: NvList): seq<seq<Byte>> {
    match l
    case Nil => []
    case Entry(name, _, _, rest) => [name] + ConfigNames(rest)
  }

  /** The report of a pool by its name. */
  predicate NamedReport(h: Host, name: seq<Byte>, ms: seq<Metric>) {
    var (k, n) := (h.kernel, CmdName(name));
    PoolReport(h.files, name, StatsList(k, n), Preorder(Kids(k, n)), ms)
  }

  function ReportSize(h: Host, name: seq<Byte>): nat {
    var (k, n) := (h.kernel, CmdName(name));
    10 + 17 * |TreeLists(TreeOf(StatsList(k, n)))| + |Preorder(Kids(k, n))|
  }

  /** One report after the other, and nothing else. */
  predicate ReportsAre(h: Host, names: seq<seq<Byte>>, ms: seq<Metric>)
    decreases |names|
  {
    if names == [] then ms == [] else
    var n := ReportSize(h, names[0]);
    n <= |ms| && NamedReport(h, names[0], ms[..n]) && ReportsAre(h, names[1..], ms[n..])
  }

  lemma {:induction false} ConfigsReport(h: Host, l: NvList)
    requires RepliesInStep(h.kernel) && CollectOf(h, l).error.None?
    ensures ReportsAre(h, ConfigNames(l), CollectOf(h, l).metrics)
    decreases l
  {
    hide PoolWalk, PoolReport, RepliesInStep, PoolOk, CmdName, Preorder, TreeLists, TreeOf, StatsList, Kids;
    if l.Entry? {
      var (name, rest) := (l.name, CollectOf(h, l.rest).metrics);
      var ms := PoolWalk(h, name).metrics;
      PoolSucceedsIff(h, name);
      PoolReports(h, name);
      ReportSized(h, name, ms);
      ConfigsReport(h, l.rest);
      assert ([name] + ConfigNames(l.rest))[1..] == ConfigNames(l.rest);
      assert (ms + rest)[..|ms|] == ms && (ms + rest)[|ms|..] == rest;
    }
  }

  lemma ReportSized(h: Host, name: seq<Byte>, ms: seq<Metric>)
    requires NamedReport(h, name, ms)
    ensures |ms| == ReportSize(h, name)
  {
  }

  /** A scrape that succeeds sends the reports of the configured pools, in their order. */
  lemma ScrapeReports(h: Host)
    requires RepliesInStep(h.kernel) && Encodable(h.kernel.configs) && CollectRun(h).error.None?
    ensures ReportsAre(h, ConfigNames(h.kernel.configs), CollectRun(h).metrics)
  {
    hide CollectRun, CollectOf, ReportsAre, Message, RepliesInStep, Encodable;
    CollectHandlesEachPool(h);
    ConfigsReport(h, h.kernel.configs);
  }
}
