/**
 Names of tree nodes: the slash-separated labels of vdevs, and why they do not clash.
 */
module Labels {
  import opened Decimal
  import opened Vdevs
  import States

  // ---- Paths below a node -----------------------------------------------------

  /** `x` names the node `base` or something below it. */
  predicate Under<T(==)>(base: seq<T>, sep: T, x: seq<T>) {
    x == base || base + [sep] <= x
  }

  lemma UnderChild<T>(base: seq<T>, sep: T, child: seq<T>, x: seq<T>)
    requires Under(base + [sep] + child, sep, x)
    ensures Under(base, sep, x) && x != base
  {
    assert base + [sep] <= base + [sep] + child;
    assert x[|base|] == sep;
  }

  /** A path lies under only one of the siblings whose names do not hold the separator. */
  lemma UnderUnique<T>(prefix: seq<T>, sep: T, a: seq<T>, b: seq<T>, x: seq<T>)
    requires sep !in a && sep !in b
    requires Under(prefix + a, sep, x) && Under(prefix + b, sep, x)
    ensures a == b
  {
    UnderNotLonger(prefix, sep, a, b, x);
    UnderNotLonger(prefix, sep, b, a, x);
    assert x[|prefix|..|prefix| + |a|] == a;
    assert x[|prefix|..|prefix| + |b|] == b;
  }

  lemma BehindBase<T>(base: seq<T>, sep: T, x: seq<T>)
    requires Under(base, sep, x) && |base| < |x|
    ensures x[|base|] == sep
  {
    assert (base + [sep])[|base|] == sep;
  }

  lemma UnderNotLonger<T>(prefix: seq<T>, sep: T, a: seq<T>, b: seq<T>, x: seq<T>)
    requires sep !in b
    requires Under(prefix + a, sep, x) && Under(prefix + b, sep, x)
    ensures |b| <= |a|
  {
    if |a| < |b| {
      BehindBase(prefix + a, sep, x);
    }
  }

  // ---- Local names of vdevs ---------------------------------------------------

  /** Go's `path.Base`, for a path that is not empty. */
  function StripSlashes(s: string): (t: string)
    ensures t <= s && (t != "" ==> t[|t| - 1] != '/')
  {
    if s != "" && s[|s| - 1] == '/' then StripSlashes(s[..|s| - 1]) else s
  }

  function AfterLastSlash(s: string): (t: string)
    ensures '/' !in t && |t| <= |s|
    ensures s != "" && s[|s| - 1] != '/' ==> t != ""
  {
    if s == "" || s[|s| - 1] == '/' then "" else AfterLastSlash(s[..|s| - 1]) + [s[|s| - 1]]
  }

  function PathBase(path: string): string {
    var last := AfterLastSlash(StripSlashes(path));
    if last == "" then "/" else last
  }

  /** The base name is free of slashes unless the path consists of slashes. */
  lemma PathBaseSlashFreeIff(path: string)
    ensures '/' !in PathBase(path) <==> exists i :: 0 <= i < |path| && path[i] != '/'
  {
    var s := StripSlashes(path);
    if s != "" {
      assert path[|s| - 1] != '/';
    } else {
      StripAll(path);
      assert "/"[0] in "/";
    }
  }

  lemma {:induction false} StripAll(path: string)
    requires StripSlashes(path) == ""
    ensures forall i :: 0 <= i < |path| ==> path[i] == '/'
  {
    if path != "" {
      StripAll(path[..|path| - 1]);
    }
  }

  function Slashes(n: nat): string {
    seq(n, _ => '/')
  }

  lemma {:induction false} StripTail(s: string, n: nat)
    requires s == "" || s[|s| - 1] != '/'
    ensures StripSlashes(s + Slashes(n)) == s
    decreases n
  {
    var t := s + Slashes(n);
    if n == 0 {
      assert t == s;
    } else {
      StripTail(s, n - 1);
      assert t[..|t| - 1] == s + Slashes(n - 1);
    }
  }

  lemma {:induction false} LastPart(d: string, b: string)
    requires '/' !in b && (d == "" || d[|d| - 1] == '/')
    ensures AfterLastSlash(d + b) == b
    decreases |b|
  {
    var s := d + b;
    if b == "" {
      assert s == d;
    } else {
      var (init, c) := (b[..|b| - 1], b[|b| - 1]);
      assert c in b;
      LastPart(d, init);
      assert s[..|s| - 1] == d + init;
      assert init + [c] == b;
    }
  }

  /** The base name is the last component, whatever slashes end the path; a path of slashes
      alone is a slash. */
  lemma PathBaseIs(d: string, b: string, n: nat)
    requires b != "" && '/' !in b
    ensures PathBase(d + "/" + b + Slashes(n)) == b
    ensures PathBase(b + Slashes(n)) == b
    ensures PathBase(Slashes(n)) == "/"
  {
    assert b[|b| - 1] in b;
    assert (d + "/")[|d|] == '/';
    StripTail(d + "/" + b, n);
    StripTail(b, n);
    StripTail("", n);
    LastPart(d + "/", b);
    LastPart("", b);
    assert "" + b == b && "" + Slashes(n) == Slashes(n);
  }

  /** Every path is one of these. */
  lemma {:induction false} PathParts(path: string) returns (d: string, b: string, n: nat)
    ensures '/' !in b
    ensures path == d + "/" + b + Slashes(n) || path == b + Slashes(n)
    ensures b == "" ==> path == Slashes(n)
    decreases |path|
  {
    if path == "" {
      d, b, n := "", "", 0;
    } else {
      var (init, c) := (path[..|path| - 1], path[|path| - 1]);
      d, b, n := PathParts(init);
      if c == '/' {
        n := n + 1;
        assert Slashes(n) == Slashes(n - 1) + "/";
      } else if n > 0 {
        assert Slashes(n) == Slashes(n - 1) + "/";
        d := if path[..|path| - 1] == d + "/" + b + Slashes(n) then d + "/" + b + Slashes(n - 1) else b + Slashes(n - 1);
        b, n := [c], 0;
        assert path == d + "/" + b + Slashes(n);
      } else {
        b := b + [c];
      }
      assert path == init + [c];
    }
  }

  function DecInt(n: int): string {
    if n < 0 then "-" + Dec(-n) else Dec(n)
  }

  function LocalName(pool: string, v: Vdev): string {
    if v.path != "" then PathBase(v.path)
    else if v.vdevType == "root" then pool
    else v.vdevType + "-" + DecInt(v.id)
  }

  /** A vdev goes by the last component of its path; without a path, the root goes by the name
      of the pool, and any other by its type, a dash and the digits of its id. */
  lemma LocalNameIs(pool: string, v: Vdev)
    ensures v.path == "" && v.vdevType == "root" ==> LocalName(pool, v) == pool
    ensures v.path == "" && v.vdevType != "root" && v.id >= 0 ==>
      var (s, k) := (LocalName(pool, v), |v.vdevType|);
      && k + 1 < |s| && s[..k] == v.vdevType && s[k] == '-'
      && AllDigits(s[k + 1..]) && NumberOf(s[k + 1..]) == v.id && (s[k + 1] == '0' ==> v.id == 0)
    ensures forall d, b, n: nat :: b != "" && '/' !in b && v.path == d + "/" + b + Slashes(n) ==> LocalName(pool, v) == b
    ensures forall b, n: nat :: b != "" && '/' !in b && v.path == b + Slashes(n) ==> LocalName(pool, v) == b
  {
    if v.path != "" {
      forall d, b, n: nat | b != "" && '/' !in b && v.path == d + "/" + b + Slashes(n) ensures PathBase(v.path) == b {
        PathBaseIs(d, b, n);
      }
      forall b, n: nat | b != "" && '/' !in b && v.path == b + Slashes(n) ensures PathBase(v.path) == b {
        PathBaseIs("", b, n);
      }
    } else if v.vdevType != "root" && v.id >= 0 {
      var (s, k) := (LocalName(pool, v), |v.vdevType|);
      assert s[..k] == v.vdevType && s[k + 1..] == Dec(v.id);
      NumberOfDec(v.id);
      NoLeadingZero(v.id);
    }
  }

  lemma {:induction false} NoLeadingZero(n: nat)
    ensures Dec(n)[0] == '0' ==> n == 0
  {
    if n >= 10 {
      NoLeadingZero(n / 10);
      assert Dec(n)[0] == Dec(n / 10)[0];
    }
  }

  /** The last dash of a type-and-id name is the one in front of the id. */
  lemma TypeIdInjective(t: string, i: nat, u: string, j: nat)
    requires t + "-" + Dec(i) == u + "-" + Dec(j)
    ensures t == u && i == j
  {
    DashNotLater(t, i, u, j);
    DashNotLater(u, j, t, i);
    var x, y := t + "-" + Dec(i), u + "-" + Dec(j);
    assert x[..|t|] == t && y[..|u|] == u;
    assert x[|t| + 1..] == Dec(i) && y[|u| + 1..] == Dec(j);
    DecInjective(i, j);
  }

  lemma DashNotLater(t: string, i: nat, u: string, j: nat)
    requires t + "-" + Dec(i) == u + "-" + Dec(j)
    ensures |u| <= |t|
  {
    if |t| < |u| {
      DigitsBehindDash(t, i, |u|);
    }
  }

  lemma DigitsBehindDash(t: string, i: nat, k: nat)
    requires |t| < k <= |t| + |Dec(i)|
    ensures IsDigit((t + "-" + Dec(i))[k])
  {
    assert (t + "-" + Dec(i))[k] == Dec(i)[k - |t| - 1];
  }

  /** Vdevs without a path that are no roots have the same local name only if they have
      the same type and id; the name is free of slashes if the type is. */
  lemma PathlessNames(pool: string, a: Vdev, b: Vdev)
    requires a.path == "" && b.path == "" && a.vdevType != "root" && b.vdevType != "root"
    requires a.id >= 0 && b.id >= 0
    ensures LocalName(pool, a) == LocalName(pool, b) <==> a.vdevType == b.vdevType && a.id == b.id
    ensures '/' !in LocalName(pool, a) <==> '/' !in a.vdevType
  {
    if LocalName(pool, a) == LocalName(pool, b) {
      TypeIdInjective(a.vdevType, a.id, b.vdevType, b.id);
    }
    var d := Dec(a.id);
    assert '/' !in d by {
      assert forall i :: 0 <= i < |d| ==> IsDigit(d[i]);
    }
    assert '/' !in "-" by {
      assert "-" == ['-'];
    }
  }

  /** For siblings without a path that are no roots, slash-free types and distinct pairs of
      type and id are enough for distinct, slash-free local names. */
  lemma PathlessSiblings(pool: string, vs: seq<Vdev>)
    requires forall v :: v in vs ==> v.path == "" && v.vdevType != "root" && v.id >= 0
    ensures (forall v :: v in vs ==> '/' !in v.vdevType) <==> (forall v :: v in vs ==> '/' !in LocalName(pool, v))
    ensures (forall i, j :: 0 <= i < j < |vs| ==> (vs[i].vdevType, vs[i].id) != (vs[j].vdevType, vs[j].id)) <==>
            (forall i, j :: 0 <= i < j < |vs| ==> LocalName(pool, vs[i]) != LocalName(pool, vs[j]))
  {
    hide LocalName;
    forall v | v in vs ensures '/' !in LocalName(pool, v) <==> '/' !in v.vdevType {
      PathlessNames(pool, v, v);
    }
    forall i, j | 0 <= i < j < |vs|
      ensures LocalName(pool, vs[i]) == LocalName(pool, vs[j])
              <==> (vs[i].vdevType, vs[i].id) == (vs[j].vdevType, vs[j].id)
    {
      assert vs[i] in vs && vs[j] in vs;
      PathlessNames(pool, vs[i], vs[j]);
    }
  }

  // ---- Full labels ------------------------------------------------------------

  /** The labels of a vdev and everything below it, in preorder. */
  function VdevLabels(pool: string, prefix: string, v: Vdev): (ls: seq<string>)
    decreases v
  {
    var name := prefix + LocalName(pool, v);
    [name] + VdevsLabels(pool, name + "/", v.children)
  }

  function VdevsLabels(pool: string, prefix: string, vs: seq<Vdev>): seq<string>
    decreases vs
  {
    if vs == [] then [] else VdevLabels(pool, prefix, vs[0]) + VdevsLabels(pool, prefix, vs[1..])
  }

  /** The local names on the way to each vdev of a tree, in preorder. */
  function VdevChains(pool: string, v: Vdev): seq<seq<string>>
    decreases v
  {
    [[LocalName(pool, v)]] + EachBehind(LocalName(pool, v), VdevsChains(pool, v.children))
  }

  function VdevsChains(pool: string, vs: seq<Vdev>): seq<seq<string>>
    decreases vs
  {
    if vs == [] then [] else VdevChains(pool, vs[0]) + VdevsChains(pool, vs[1..])
  }

  function EachBehind(name: string, cs: seq<seq<string>>): (ds: seq<seq<string>>)
    ensures |ds| == |cs| && forall i :: 0 <= i < |cs| ==> ds[i] == [name] + cs[i]
  {
    seq(|cs|, i requires 0 <= i < |cs| => [name] + cs[i])
  }

  function Join(c: seq<string>): string {
    if c == [] then "" else if |c| == 1 then c[0] else c[0] + "/" + Join(c[1..])
  }

  /** Each full label is the chain of local names from the root, with slashes in between. */
  lemma {:induction false} LabelsAreJoined(pool: string, prefix: string, v: Vdev)
    ensures var (ls, cs) := (VdevLabels(pool, prefix, v), VdevChains(pool, v));
      |ls| == |cs| && forall i :: 0 <= i < |ls| ==> cs[i] != [] && ls[i] == prefix + Join(cs[i])
    decreases v
  {
    hide LocalName, Join;
    var local := LocalName(pool, v);
    var (below, cs) := (VdevsLabels(pool, prefix + local + "/", v.children), VdevsChains(pool, v.children));
    SiblingLabelsAreJoined(pool, prefix + local + "/", v.children);
    JoinOne(local);
    forall i | 0 <= i < |below| ensures below[i] == prefix + Join([local] + cs[i]) {
      JoinMore(local, cs[i]);
      assert prefix + local + "/" + Join(cs[i]) == prefix + (local + "/" + Join(cs[i]));
    }
  }

  lemma {:induction false} SiblingLabelsAreJoined(pool: string, prefix: string, vs: seq<Vdev>)
    ensures var (ls, cs) := (VdevsLabels(pool, prefix, vs), VdevsChains(pool, vs));
      |ls| == |cs| && forall i :: 0 <= i < |ls| ==> cs[i] != [] && ls[i] == prefix + Join(cs[i])
    decreases vs
  {
    hide VdevLabels, VdevChains, Join;
    if vs != [] {
      LabelsAreJoined(pool, prefix, vs[0]);
      SiblingLabelsAreJoined(pool, prefix, vs[1..]);
    }
  }

  lemma JoinOne(name: string)
    ensures Join([name]) == name
  {
  }

  lemma JoinMore(name: string, c: seq<string>)
    requires c != []
    ensures Join([name] + c) == name + "/" + Join(c)
  {
    assert ([name] + c)[1..] == c;
  }

  /** At every level the local names of siblings are distinct. */
  predicate SiblingsDistinct(pool: string, v: Vdev)
    decreases v
  {
    && (forall i, j :: 0 <= i < j < |v.children| ==>
          LocalName(pool, v.children[i]) != LocalName(pool, v.children[j]))
    && (forall c :: c in v.children ==> SiblingsDistinct(pool, c))
  }

  /** Below the root no local name holds a slash. */
  predicate SlashFree(pool: string, v: Vdev)
    decreases v
  {
    forall c :: c in v.children ==> '/' !in LocalName(pool, c) && SlashFree(pool, c)
  }

  lemma {:induction false} LabelsUnder(pool: string, prefix: string, v: Vdev, x: string)
    requires x in VdevLabels(pool, prefix, v)
    ensures Under(prefix + LocalName(pool, v), '/', x)
    decreases v
  {
    hide LocalName;
    var name := prefix + LocalName(pool, v);
    if x != name {
      var i := ChildOf(pool, name + "/", v.children, x);
      assert name + "/" == name + ['/'];
      UnderChild(name, '/', LocalName(pool, v.children[i]), x);
    }
  }

  lemma {:induction false} ChildOf(pool: string, prefix: string, vs: seq<Vdev>, x: string) returns (i: nat)
    requires x in VdevsLabels(pool, prefix, vs)
    ensures i < |vs| && Under(prefix + LocalName(pool, vs[i]), '/', x)
    decreases vs
  {
    hide LocalName;
    if x in VdevLabels(pool, prefix, vs[0]) {
      i := 0;
      LabelsUnder(pool, prefix, vs[0], x);
    } else {
      var k := ChildOf(pool, prefix, vs[1..], x);
      i := k + 1;
    }
  }

  /** Then all full labels of the tree are pairwise distinct. */
  lemma {:induction false} LabelsDistinct(pool: string, prefix: string, v: Vdev)
    requires SiblingsDistinct(pool, v) && SlashFree(pool, v)
    ensures States.NoDuplicates(VdevLabels(pool, prefix, v))
    decreases v
  {
    hide LocalName;
    var name := prefix + LocalName(pool, v);
    var rest := VdevsLabels(pool, name + "/", v.children);
    SiblingLabelsDistinct(pool, name + "/", v.children);
    forall j | 0 <= j < |rest| ensures rest[j] != name {
      var i := ChildOf(pool, name + "/", v.children, rest[j]);
      assert name + "/" == name + ['/'];
      UnderChild(name, '/', LocalName(pool, v.children[i]), rest[j]);
    }
  }

  lemma {:induction false} SiblingLabelsDistinct(pool: string, prefix: string, vs: seq<Vdev>)
    requires forall i, j :: 0 <= i < j < |vs| ==> LocalName(pool, vs[i]) != LocalName(pool, vs[j])
    requires forall c :: c in vs ==> '/' !in LocalName(pool, c) && SlashFree(pool, c) && SiblingsDistinct(pool, c)
    ensures States.NoDuplicates(VdevsLabels(pool, prefix, vs))
    decreases vs
  {
    hide LocalName, Under;
    if vs != [] {
      var (a, b) := (VdevLabels(pool, prefix, vs[0]), VdevsLabels(pool, prefix, vs[1..]));
      LabelsDistinct(pool, prefix, vs[0]);
      SiblingLabelsDistinct(pool, prefix, vs[1..]);
      forall i, j | 0 <= i < |a| && 0 <= j < |b| ensures a[i] != b[j] {
        LabelsUnder(pool, prefix, vs[0], a[i]);
        var k := ChildOf(pool, prefix, vs[1..], b[j]);
        if a[i] == b[j] {
          UnderUnique(prefix, '/', LocalName(pool, vs[0]), LocalName(pool, vs[k + 1]), a[i]);
        }
      }
    }
  }

  lemma {:induction false} OwnLabel(pool: string, prefix: string, vs: seq<Vdev>, i: nat)
    requires i < |vs|
    ensures prefix + LocalName(pool, vs[i]) in VdevsLabels(pool, prefix, vs)
    decreases i
  {
    hide LocalName;
    if i == 0 {
      assert VdevLabels(pool, prefix, vs[0])[0] == prefix + LocalName(pool, vs[0]);
    } else {
      OwnLabel(pool, prefix, vs[1..], i - 1);
    }
  }

  lemma DistinctParts<T>(a: seq<T>, b: seq<T>)
    requires States.NoDuplicates(a + b)
    ensures States.NoDuplicates(a) && States.NoDuplicates(b)
    ensures forall x :: x in a ==> x !in b
  {
    var s := a + b;
    forall i, j | 0 <= i < j < |a| ensures a[i] != a[j] {
      assert s[i] == a[i] && s[j] == a[j];
    }
    forall i, j | 0 <= i < j < |b| ensures b[i] != b[j] {
      assert s[|a| + i] == b[i] && s[|a| + j] == b[j];
    }
    forall i, j | 0 <= i < |a| && 0 <= j < |b| ensures a[i] != b[j] {
      assert s[i] == a[i] && s[|a| + j] == b[j];
    }
  }

  /** Distinct labels need distinct siblings, whatever characters the names hold. */
  lemma {:induction false} DistinctLabelsNeed(pool: string, prefix: string, v: Vdev)
    requires States.NoDuplicates(VdevLabels(pool, prefix, v))
    ensures SiblingsDistinct(pool, v)
    decreases v
  {
    hide LocalName;
    var name := prefix + LocalName(pool, v);
    DistinctParts([name], VdevsLabels(pool, name + "/", v.children));
    DistinctSiblingLabels(pool, name + "/", v.children);
  }

  lemma {:induction false} DistinctSiblingLabels(pool: string, prefix: string, vs: seq<Vdev>)
    requires States.NoDuplicates(VdevsLabels(pool, prefix, vs))
    ensures forall i, j :: 0 <= i < j < |vs| ==> LocalName(pool, vs[i]) != LocalName(pool, vs[j])
    ensures forall c :: c in vs ==> SiblingsDistinct(pool, c)
    decreases vs
  {
    hide LocalName, SiblingsDistinct;
    if vs != [] {
      var a := VdevLabels(pool, prefix, vs[0]);
      DistinctParts(a, VdevsLabels(pool, prefix, vs[1..]));
      DistinctLabelsNeed(pool, prefix, vs[0]);
      DistinctSiblingLabels(pool, prefix, vs[1..]);
      assert a[0] == prefix + LocalName(pool, vs[0]) && a[0] in a;
      forall j | 0 < j < |vs| ensures LocalName(pool, vs[0]) != LocalName(pool, vs[j]) {
        OwnLabel(pool, prefix, vs[1..], j - 1);
      }
      assert forall i :: 0 < i < |vs| ==> vs[i] == vs[1..][i - 1];
    }
  }

  /** For slash-free local names, the labels of a tree are distinct exactly when at every level
      those of the siblings are. */
  lemma LabelsDistinctIff(pool: string, prefix: string, v: Vdev)
    requires SlashFree(pool, v)
    ensures States.NoDuplicates(VdevLabels(pool, prefix, v)) <==> SiblingsDistinct(pool, v)
  {
    hide VdevLabels, SiblingsDistinct, SlashFree;
    if SiblingsDistinct(pool, v) {
      LabelsDistinct(pool, prefix, v);
    }
    if States.NoDuplicates(VdevLabels(pool, prefix, v)) {
      DistinctLabelsNeed(pool, prefix, v);
    }
  }

  /** A vdev whose statistics were decoded turns on exactly one of its state gauges. */
  lemma DecodedStateGauge(ns: seq<int>)
    requires ParseVdevStats(ns).Ok?
    ensures States.CountOn(States.Gauges(States.VDEV_STATES, ParseVdevStats(ns).value.state)) == 1
    ensures States.CountOn(States.Gauges(States.VDEV_STATES, NO_STATS.state)) == 0
  {
    States.OneVdevGauge(ns[VS_STATE], ns[VS_AUX]);
  }
}
