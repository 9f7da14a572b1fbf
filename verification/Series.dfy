/**
 No scrape sends two metrics of the same series. A registry that is given two fails the
 request, so this is what the names in the kernel's answers have to guarantee.
 */
module Series {
  import opened Basics
  import opened NvFormat
  import opened NvEncode
  import opened NvRuns
  import opened NvRoundTrip
  import opened Vdevs
  import opened Pools
  import opened DatasetProps
  import opened Labels
  import opened Ioctl
  import opened Exporter
  import opened ExporterTheorems
  import States

  // ---- Series -----------------------------------------------------------------

  /** A metric without its value: its name and its labels. */
  function SeriesOf(m: Metric): Metric {
    match m
    case PoolState(pool, state, _) => PoolState(pool, state, false)
    case PoolErrors(pool, _) => PoolErrors(pool, 0)
    case VdevState(pool, vdev, t, state, _) => VdevState(pool, vdev, t, state, false)
    case VdevValue(kind, pool, vdev, t, _) => VdevValue(kind, pool, vdev, t, 0)
    case DatasetValues(pool, name, _) => DatasetValues(pool, name, NO_PROPS)
  }

  /** No two metrics belong to the same series. */
  predicate OncePerSeries(ms: seq<Metric>) {
    forall i, j :: 0 <= i < j < |ms| ==> SeriesOf(ms[i]) != SeriesOf(ms[j])
  }

  predicate Apart(a: seq<Metric>, b: seq<Metric>) {
    forall i, j :: 0 <= i < |a| && 0 <= j < |b| ==> SeriesOf(a[i]) != SeriesOf(b[j])
  }

  lemma OnceJoin(a: seq<Metric>, b: seq<Metric>)
    requires OncePerSeries(a) && OncePerSeries(b) && Apart(a, b)
    ensures OncePerSeries(a + b)
  {
    hide SeriesOf;
    var s := a + b;
    forall i, j | 0 <= i < j < |s| ensures SeriesOf(s[i]) != SeriesOf(s[j]) {
      if j >= |a| && i < |a| {
        assert s[i] == a[i] && s[j] == b[j - |a|];
      }
    }
  }

  lemma OncePrefix(a: seq<Metric>, b: seq<Metric>)
    requires OncePerSeries(b) && a <= b
    ensures OncePerSeries(a)
  {
    hide SeriesOf;
  }

  // ---- Vdevs ------------------------------------------------------------------

  /** The labels that tell vdevs apart: full label and type, in preorder. */
  function VdevKeys(pool: string, prefix: string, v: Vdev): seq<(string, string)>
    decreases v
  {
    var name := prefix + LocalName(pool, v);
    [(name, v.vdevType)] + VdevsKeys(pool, name + "/", v.children)
  }

  function VdevsKeys(pool: string, prefix: string, vs: seq<Vdev>): seq<(string, string)>
    decreases vs
  {
    if vs == [] then [] else VdevKeys(pool, prefix, vs[0]) + VdevsKeys(pool, prefix, vs[1..])
  }

  /** The metrics belong to vdevs of a pool with these keys. */
  predicate OfVdevs(ms: seq<Metric>, pool: string, keys: seq<(string, string)>) {
    forall i :: 0 <= i < |ms| ==>
      (ms[i].VdevState? || ms[i].VdevValue?) && ms[i].pool == pool && (ms[i].vdev, ms[i].vdevType) in keys
  }

  /** Each vdev with one of these keys reports its allocated space. */
  predicate Reports(ms: seq<Metric>, pool: string, keys: seq<(string, string)>) {
    forall k :: k in keys ==> VdevValue(AllocSpace, pool, k.0, k.1, 0) in AllSeries(ms)
  }

  function AllSeries(ms: seq<Metric>): (s: seq<Metric>)
    ensures |s| == |ms| && forall i :: 0 <= i < |ms| ==> s[i] == SeriesOf(ms[i])
  {
    seq(|ms|, i requires 0 <= i < |ms| => SeriesOf(ms[i]))
  }

  lemma OfVdevsJoin(a: seq<Metric>, b: seq<Metric>, pool: string, ka: seq<(string, string)>, kb: seq<(string, string)>)
    requires OfVdevs(a, pool, ka) && OfVdevs(b, pool, kb) && Reports(a, pool, ka) && Reports(b, pool, kb)
    ensures OfVdevs(a + b, pool, ka + kb) && Reports(a + b, pool, ka + kb)
  {
    hide SeriesOf;
    assert Reports(a + b, pool, ka + kb) by {
      hide OfVdevs;
      ReportsJoin(a, b, pool, ka, kb);
    }
    hide Reports;
  }

  lemma ReportsJoin(a: seq<Metric>, b: seq<Metric>, pool: string, ka: seq<(string, string)>, kb: seq<(string, string)>)
    requires Reports(a, pool, ka) && Reports(b, pool, kb)
    ensures Reports(a + b, pool, ka + kb)
  {
    hide SeriesOf;
    var (s, sa, sb) := (AllSeries(a + b), AllSeries(a), AllSeries(b));
    assert s == sa + sb;
    forall k | k in ka + kb ensures VdevValue(AllocSpace, pool, k.0, k.1, 0) in s {
      var m := VdevValue(AllocSpace, pool, k.0, k.1, 0);
      assert k in ka ==> m in sa;
      assert k in kb ==> m in sb;
    }
  }

  lemma OnceSplit(a: seq<Metric>, b: seq<Metric>)
    requires OncePerSeries(a + b)
    ensures OncePerSeries(a) && OncePerSeries(b) && Apart(a, b)
  {
    hide SeriesOf;
    var s := a + b;
    assert forall i :: 0 <= i < |a| ==> s[i] == a[i];
    assert forall i :: 0 <= i < |b| ==> s[|a| + i] == b[i];
    forall i, j | 0 <= i < |a| && 0 <= j < |b| ensures SeriesOf(a[i]) != SeriesOf(b[j]) {
      assert SeriesOf(s[i]) != SeriesOf(s[|a| + j]);
    }
    forall i, j | 0 <= i < j < |b| ensures SeriesOf(b[i]) != SeriesOf(b[j]) {
      assert SeriesOf(s[|a| + i]) != SeriesOf(s[|a| + j]);
    }
  }

  lemma VdevsApart(a: seq<Metric>, b: seq<Metric>, pool: string, ka: seq<(string, string)>, kb: seq<(string, string)>)
    requires OfVdevs(a, pool, ka) && OfVdevs(b, pool, kb)
    ensures (forall k :: k in ka ==> k !in kb) ==> Apart(a, b)
  {
  }

  lemma ApartNeeds(a: seq<Metric>, b: seq<Metric>, pool: string, ka: seq<(string, string)>, kb: seq<(string, string)>)
    requires Reports(a, pool, ka) && Reports(b, pool, kb) && Apart(a, b)
    ensures forall k :: k in ka ==> k !in kb
  {
    hide SeriesOf;
    forall k | k in ka ensures k !in kb {
      var m := VdevValue(AllocSpace, pool, k.0, k.1, 0);
      assert m in AllSeries(a);
      assert m !in AllSeries(b);
    }
  }

  /** Two groups of vdevs together: distinct series exactly when the keys are distinct. */
  lemma JoinIff(a: seq<Metric>, b: seq<Metric>, pool: string, ka: seq<(string, string)>, kb: seq<(string, string)>)
    requires OfVdevs(a, pool, ka) && OfVdevs(b, pool, kb) && Reports(a, pool, ka) && Reports(b, pool, kb)
    requires OncePerSeries(a) <==> States.NoDuplicates(ka)
    requires OncePerSeries(b) <==> States.NoDuplicates(kb)
    ensures OncePerSeries(a + b) <==> States.NoDuplicates(ka + kb)
  {
    hide OncePerSeries, OfVdevs, Reports, Apart, States.NoDuplicates;
    if OncePerSeries(a + b) {
      OnceSplit(a, b);
      ApartNeeds(a, b, pool, ka, kb);
      DistinctJoin(ka, kb);
    }
    if States.NoDuplicates(ka + kb) {
      DistinctParts(ka, kb);
      VdevsApart(a, b, pool, ka, kb);
      OnceJoin(a, b);
    }
  }

  lemma DistinctJoin<T>(a: seq<T>, b: seq<T>)
    requires States.NoDuplicates(a) && States.NoDuplicates(b) && forall x :: x in a ==> x !in b
    ensures States.NoDuplicates(a + b)
  {
    var s := a + b;
    forall i, j | 0 <= i < j < |s| ensures s[i] != s[j] {
      if i < |a| <= j {
        assert s[i] == a[i] && s[j] == b[j - |a|] && a[i] in a;
      }
    }
  }

  lemma OwnOnce(pool: string, name: string, v: Vdev)
    ensures var ms := StateMetrics(pool, name, v) + ValueMetrics(pool, name, v);
      OncePerSeries(ms) && OfVdevs(ms, pool, [(name, v.vdevType)]) && Reports(ms, pool, [(name, v.vdevType)])
  {
    var (a, b) := (StateMetrics(pool, name, v), ValueMetrics(pool, name, v));
    States.VdevStatesDistinct();
    assert OncePerSeries(a) by {
      hide ValueMetrics;
    }
    ValuesOnce(pool, name, v);
    hide ValueMetrics;
    assert Apart(a, b);
    OnceJoin(a, b);
    assert AllSeries(a + b) == AllSeries(a) + AllSeries(b);
  }

  lemma ValuesByPlace(pool: string, name: string, v: Vdev)
    ensures var ms := ValueMetrics(pool, name, v);
      |ms| == 9 && ms[0].kind == AllocSpace && forall i :: 0 <= i < 9 ==>
        && ms[i].VdevValue? && PlaceOf(ms[i].kind) == i
        && ms[i].pool == pool && ms[i].vdev == name && ms[i].vdevType == v.vdevType
  {
  }

  lemma ValuesOnce(pool: string, name: string, v: Vdev)
    ensures var ms := ValueMetrics(pool, name, v);
      && OncePerSeries(ms) && OfVdevs(ms, pool, [(name, v.vdevType)])
      && VdevValue(AllocSpace, pool, name, v.vdevType, 0) in AllSeries(ms)
      && forall i :: 0 <= i < |ms| ==> ms[i].VdevValue?
  {
    hide ValueMetrics, PlaceOf;
    var (ms, k) := (ValueMetrics(pool, name, v), [(name, v.vdevType)]);
    ValuesByPlace(pool, name, v);
    assert AllSeries(ms)[0] == VdevValue(AllocSpace, pool, name, v.vdevType, 0);
    assert k[0] in k;
    forall i, j | 0 <= i < j < |ms| ensures SeriesOf(ms[i]) != SeriesOf(ms[j]) {
      assert PlaceOf(ms[i].kind) != PlaceOf(ms[j].kind);
    }
  }

  /** The metrics of a vdev tree are distinct series exactly when full label and type tell its
      vdevs apart. */
  lemma {:induction false} VdevOnceIff(pool: string, prefix: string, v: Vdev)
    ensures OncePerSeries(VdevMetrics(pool, prefix, v)) <==> States.NoDuplicates(VdevKeys(pool, prefix, v))
    ensures OfVdevs(VdevMetrics(pool, prefix, v), pool, VdevKeys(pool, prefix, v))
    ensures Reports(VdevMetrics(pool, prefix, v), pool, VdevKeys(pool, prefix, v))
    decreases v
  {
    hide LocalName, StateMetrics, ValueMetrics, OncePerSeries, OfVdevs, Reports;
    var name := prefix + LocalName(pool, v);
    var own := StateMetrics(pool, name, v) + ValueMetrics(pool, name, v);
    var (below, keys) := (VdevsMetrics(pool, name + "/", v.children), VdevsKeys(pool, name + "/", v.children));
    OwnOnce(pool, name, v);
    VdevsOnceIff(pool, name + "/", v.children);
    JoinIff(own, below, pool, [(name, v.vdevType)], keys);
    OfVdevsJoin(own, below, pool, [(name, v.vdevType)], keys);
  }

  lemma {:induction false} VdevsOnceIff(pool: string, prefix: string, vs: seq<Vdev>)
    ensures OncePerSeries(VdevsMetrics(pool, prefix, vs)) <==> States.NoDuplicates(VdevsKeys(pool, prefix, vs))
    ensures OfVdevs(VdevsMetrics(pool, prefix, vs), pool, VdevsKeys(pool, prefix, vs))
    ensures Reports(VdevsMetrics(pool, prefix, vs), pool, VdevsKeys(pool, prefix, vs))
    decreases vs
  {
    if vs != [] {
      hide VdevMetrics, VdevKeys, OncePerSeries, OfVdevs, Reports;
      var (a, b) := (VdevMetrics(pool, prefix, vs[0]), VdevsMetrics(pool, prefix, vs[1..]));
      var (ka, kb) := (VdevKeys(pool, prefix, vs[0]), VdevsKeys(pool, prefix, vs[1..]));
      VdevOnceIff(pool, prefix, vs[0]);
      VdevsOnceIff(pool, prefix, vs[1..]);
      JoinIff(a, b, pool, ka, kb);
      OfVdevsJoin(a, b, pool, ka, kb);
    }
  }

  function Firsts(keys: seq<(string, string)>): (s: seq<string>)
    ensures |s| == |keys| && forall i :: 0 <= i < |keys| ==> s[i] == keys[i].0
  {
    seq(|keys|, i requires 0 <= i < |keys| => keys[i].0)
  }

  /** The keys are the full labels with the types. */
  lemma {:induction false} KeysAreLabels(pool: string, prefix: string, v: Vdev)
    ensures Firsts(VdevKeys(pool, prefix, v)) == VdevLabels(pool, prefix, v)
    decreases v
  {
    hide LocalName;
    var name := prefix + LocalName(pool, v);
    SiblingKeysAreLabels(pool, name + "/", v.children);
  }

  lemma {:induction false} SiblingKeysAreLabels(pool: string, prefix: string, vs: seq<Vdev>)
    ensures Firsts(VdevsKeys(pool, prefix, vs)) == VdevsLabels(pool, prefix, vs)
    decreases vs
  {
    hide VdevKeys, VdevLabels;
    if vs != [] {
      KeysAreLabels(pool, prefix, vs[0]);
      SiblingKeysAreLabels(pool, prefix, vs[1..]);
    }
  }

  /** Distinct, slash-free names among siblings are enough. */
  lemma VdevOnce(pool: string, prefix: string, v: Vdev)
    requires SiblingsDistinct(pool, v) && SlashFree(pool, v)
    ensures OncePerSeries(VdevMetrics(pool, prefix, v))
  {
    hide VdevMetrics, VdevLabels, VdevKeys, SiblingsDistinct, SlashFree, OncePerSeries;
    LabelsDistinct(pool, prefix, v);
    KeysAreLabels(pool, prefix, v);
    var (keys, labels) := (VdevKeys(pool, prefix, v), VdevLabels(pool, prefix, v));
    forall i, j | 0 <= i < j < |keys| ensures keys[i] != keys[j] {
      assert labels[i] == keys[i].0 && labels[j] == keys[j].0;
    }
    VdevOnceIff(pool, prefix, v);
  }

  // ---- Pools ------------------------------------------------------------------

  predicate OfPool(ms: seq<Metric>, pool: string) {
    forall i :: 0 <= i < |ms| ==> ms[i].pool == pool
  }

  predicate NoRows(ms: seq<Metric>) {
    forall i :: 0 <= i < |ms| ==> !ms[i].DatasetValues?
  }

  lemma CountsOnce(pool: string, info: PoolInfo)
    ensures var ms := CountMetrics(pool, info);
      && OncePerSeries(ms) && OfPool(ms, pool)
      && forall i :: 0 <= i < |ms| ==> ms[i].PoolState? || ms[i].PoolErrors?
  {
    States.PoolStatesDistinct();
    var (a, b) := (PoolStateMetrics(pool, info.state), [PoolErrors(pool, info.errorCount)]);
    assert OncePerSeries(a);
    OnceJoin(a, b);
  }

  /** The names in the statistics keep the labels of the vdevs apart. */
  predicate TreeApart(pool: string, info: PoolInfo) {
    info.vdev.Some? ==> SiblingsDistinct(pool, info.vdev.value) && SlashFree(pool, info.vdev.value)
  }

  lemma InfoOnce(h: Host, pool: string, info: PoolInfo)
    requires TreeApart(pool, info)
    ensures var ms := InfoRun(h, pool, info).metrics;
      OncePerSeries(ms) && OfPool(ms, pool) && NoRows(ms)
  {
    hide InfoRun, CountMetrics, VdevMetrics, VdevKeys, SiblingsDistinct, SlashFree, Reports;
    var (a, all) := (CountMetrics(pool, info), InfoMetrics(pool, info));
    CountsOnce(pool, info);
    InfoSentIff(h, pool, info);
    match info.vdev {
      case None => assert all == a;
      case Some(t) =>
        VdevOnce(pool, "", t);
        VdevOnceIff(pool, "", t);
        var b := VdevMetrics(pool, "", t);
        assert all == a + b;
        assert Apart(a, b);
        OnceJoin(a, b);
    }
    OncePrefix(InfoRun(h, pool, info).metrics, all);
  }

  lemma RowsOnce(ms: seq<Metric>, pool: seq<Byte>, ds: seq<Dataset>)
    requires RowsFor(ms, pool, ds) && States.NoDuplicates(Names(ds))
    ensures OncePerSeries(ms) && OfPool(ms, Text(pool))
  {
    forall i, j | 0 <= i < j < |ms| ensures SeriesOf(ms[i]) != SeriesOf(ms[j]) {
      assert Names(ds)[i] != Names(ds)[j];
      if Text(ds[i].name) == Text(ds[j].name) {
        TextInjective(ds[i].name, ds[j].name);
      }
    }
  }

  /** What the kernel says of a pool keeps the names of its vdevs and datasets apart. */
  predicate NamesApart(h: Host, name: seq<Byte>) {
    var (k, n) := (h.kernel, CmdName(name));
    && WellNamed(Root(k, n))
    && match Reply(k, PoolStats, n, 0)
       case Refused(_) => true
       case Given(_, _, payload) =>
         var r := PoolBytes(Filled(Zeros(RESP_SIZE), payload));
         r.Ok? ==> TreeApart(Text(name), r.value)
  }

  /** A pool, exported with or without an error, reports each series once. */
  lemma PoolOnce(h: Host, name: seq<Byte>)
    requires NamesApart(h, name)
    ensures OncePerSeries(PoolWalk(h, name).metrics) && OfPool(PoolWalk(h, name).metrics, Text(name))
  {
    hide InfoRun, KidsWalk, PoolBytes, Filled, TreeApart, WellNamed, OncePerSeries, CmdName, Preorder, Message;
    var (k, n) := (h.kernel, CmdName(name));
    OnceEmpty();
    match Reply(k, PoolStats, n, 0) {
      case Refused(_) =>
      case Given(_, _, payload) =>
        var b := Filled(Zeros(RESP_SIZE), payload);
        if PoolBytes(b).Ok? {
          var info := PoolBytes(b).value;
          var kids := Kids(k, n);
          InfoOnce(h, Text(name), info);
          WalkVisits(h, name, Frame(n, 0), kids, b);
          WellNamedSiblings(Root(k, n));
          NamesDistinct(n, kids);
          var (x, y) := (InfoRun(h, Text(name), info).metrics, KidsWalk(h, name, Frame(n, 0), kids, b).run.metrics);
          RowsOnce(y, name, Preorder(kids));
          assert Apart(x, y);
          OnceJoin(x, y);
        }
    }
  }

  lemma OnceEmpty()
    ensures OncePerSeries([])
  {
  }

  // ---- All pools --------------------------------------------------------------

  /** The names of the configurations in a buffer, in order. */
  function PoolNames(D: seq<Byte>, c: Cursor): seq<seq<Byte>>
    decreases |D| - c.pos
  {
    var s := NextAt(D, c);
    if !s.Pair? then [] else
    match SkipList(D, s.next)
    case Err(_) => [s.name]
    case Ok(d) => [s.name] + PoolNames(D, d)
  }

  predicate OfPools(ms: seq<Metric>, names: seq<seq<Byte>>) {
    forall i :: 0 <= i < |ms| ==> ms[i].pool in Texts(names)
  }

  lemma PoolsJoin(a: seq<Metric>, b: seq<Metric>, name: seq<Byte>, names: seq<seq<Byte>>)
    requires OncePerSeries(a) && OfPool(a, Text(name))
    requires OncePerSeries(b) && OfPools(b, names) && name !in names
    ensures OncePerSeries(a + b) && OfPools(a + b, [name] + names)
  {
    hide OncePerSeries;
    var (s, all) := (a + b, [name] + names);
    assert Texts(all) == [Text(name)] + Texts(names);
    if Text(name) in Texts(names) {
      var k :| 0 <= k < |names| && Texts(names)[k] == Text(name);
      TextInjective(name, names[k]);
    }
    assert Apart(a, b);
    OnceJoin(a, b);
  }

  /** Configurations of distinct pools whose names are apart: whatever errors there are, the
      scrape sends no two metrics of one series. */
  lemma {:induction false} CollectOnce(h: Host, D: seq<Byte>, c: Cursor)
    requires States.NoDuplicates(PoolNames(D, c))
    requires forall n :: n in PoolNames(D, c) ==> NamesApart(h, n)
    ensures OncePerSeries(CollectBytes(h, D, c).metrics) && OfPools(CollectBytes(h, D, c).metrics, PoolNames(D, c))
    decreases |D| - c.pos
  {
    hide NextAt, SkipList, PoolWalk, NamesApart, OncePerSeries, OfPool, OfPools;
    var s := NextAt(D, c);
    NothingSent(PoolNames(D, c));
    if s.Pair? && s.tok == NVLIST {
      var (run, skipped) := (PoolWalk(h, s.name), SkipList(D, s.next));
      var names := if skipped.Ok? then PoolNames(D, skipped.value) else [];
      assert PoolNames(D, c) == [s.name] + names;
      DistinctParts([s.name], names);
      assert s.name in PoolNames(D, c);
      PoolOnce(h, s.name);
      NothingSent(names);
      PoolsJoin(run.metrics, [], s.name, names);
      assert run.metrics + [] == run.metrics;
      if run.error.None? && skipped.Ok? {
        CollectOnce(h, D, skipped.value);
        PoolsJoin(run.metrics, CollectBytes(h, D, skipped.value).metrics, s.name, names);
      }
    }
  }

  lemma NothingSent(names: seq<seq<Byte>>)
    ensures OncePerSeries([]) && OfPools([], names)
  {
  }

  /** The same for a whole scrape. */
  lemma ScrapeOnce(h: Host)
    requires var a := Reply(h.kernel, PoolConfigs, [], 0);
      a.Given? ==>
        var names := PoolNames(Filled(Zeros(RESP_SIZE), a.payload), Cursor(Native, 0));
        States.NoDuplicates(names) && forall n :: n in names ==> NamesApart(h, n)
    ensures OncePerSeries(CollectRun(h).metrics)
  {
    hide CollectBytes, OncePerSeries, NamesApart, PoolNames, Filled, Message;
    OnceEmpty();
    match Reply(h.kernel, PoolConfigs, [], 0)
    case Refused(_) =>
    case Given(_, _, payload) => CollectOnce(h, Filled(Zeros(RESP_SIZE), payload), Cursor(Native, 0));
  }
}
