/**
 The command buffer, the retry loop of the ioctl wrapper, and the kernel behind it as an
 oracle that walks a tree of datasets with cookies.
 */
module Ioctl {
  import opened Basics
  import opened NvEncode

  // ---- Delimited names --------------------------------------------------------

  const NAME_SIZE := 4096

  /** The text of a buffer: what stands before its first NUL. */
  function BufText(buf: seq<Byte>): (t: seq<Byte>)
    ensures |t| <= |buf| && t == buf[..|t|] && 0 !in t
    ensures |t| < |buf| ==> buf[|t|] == 0
  {
    if buf == [] || buf[0] == 0 then [] else [buf[0]] + BufText(buf[1..])
  }

  /** The text of a buffer is the only prefix without a NUL that ends at a NUL or at its end. */
  lemma {:induction false} BufTextUnique(buf: seq<Byte>, n: nat)
    requires n <= |buf| && 0 !in buf[..n] && (n < |buf| ==> buf[n] == 0)
    ensures BufText(buf) == buf[..n]
  {
    if n > 0 {
      assert buf[0] == buf[..n][0];
      assert buf[..n] == [buf[0]] + buf[1..][..n - 1];
      BufTextUnique(buf[1..], n - 1);
    }
  }

  method DelimitedBufToString(buf: array<Byte>) returns (s: seq<Byte>)
    ensures s == BufText(buf[..])
  {
    var i := 0;
    while i < buf.Length
      invariant 0 <= i <= buf.Length && 0 !in buf[..i]
    {
      if buf[i] == 0 { break; }
      i := i + 1;
    }
    BufTextUnique(buf[..], i);
    assert buf[..][..i] == buf[..i];
    return buf[..i];
  }

  lemma CopyStep(str: seq<Byte>, before: seq<Byte>, i: nat)
    requires i < |str| < |before|
    ensures (str[..i] + before[i..])[i := str[i]] == str[..i + 1] + before[i + 1..]
  {
  }

  /** No terminator is written. A NUL in the string stops the copy half way. */
  method StringToDelimitedBuf(str: seq<Byte>, buf: array<Byte>) returns (ok: bool)
    modifies buf
    ensures ok <==> |str| < buf.Length && 0 !in str
    ensures |str| >= buf.Length ==> buf[..] == old(buf[..])
    ensures |str| < buf.Length ==> buf[..] == BufText(str) + old(buf[..])[|BufText(str)|..]
  {
    if |str| > buf.Length - 1 { return false; }
    ghost var before := buf[..];
    var i := 0;
    while i < |str|
      invariant 0 <= i <= |str| && 0 !in str[..i]
      invariant buf[..] == str[..i] + before[i..]
    {
      if str[i] == 0 {
        BufTextUnique(str, i);
        return false;
      }
      CopyStep(str, before, i);
      ghost var now := buf[..];
      buf[i] := str[i];
      assert buf[..] == now[i := str[i]];
      SliceSnoc(str, 0, i);
      i := i + 1;
    }
    BufTextUnique(str, |str|);
    assert str[..|str|] == str;
    return true;
  }

  /** After a copy that succeeds, the buffer's text is the string followed by the old text
      from there on. */
  lemma ResidueLaw(s: seq<Byte>, before: seq<Byte>)
    requires |s| < |before| && 0 !in s
    ensures BufText(s + before[|s|..]) == s + BufText(before[|s|..])
  {
    TextAppend(s, before[|s|..]);
  }

  lemma {:induction false} TextAppend(s: seq<Byte>, t: seq<Byte>)
    requires 0 !in s
    ensures BufText(s + t) == s + BufText(t)
  {
    if s == [] {
      assert s + t == t;
    } else {
      assert s == [s[0]] + s[1..];
      assert (s + t)[1..] == s[1..] + t;
      TextAppend(s[1..], t);
    }
  }

  // ---- The command ------------------------------------------------------------

  class Cmd {
    const Name: array<Byte>
    var Cookie: nat
    var DstSize: nat

    ghost predicate Valid() {
      Name.Length == NAME_SIZE
    }

    constructor ()
      ensures Valid() && fresh(this) && fresh(Name)
      ensures Name[..] == Zeros(NAME_SIZE) && Cookie == 0 && DstSize == 0
    {
      Name := new Byte[NAME_SIZE](_ => 0);
      Cookie, DstSize := 0, 0;
    }

    method Clear()
      requires Valid()
      modifies this, Name
      ensures Name[..] == Zeros(NAME_SIZE) && Cookie == 0 && DstSize == 0
    {
      forall i | 0 <= i < Name.Length {
        Name[i] := 0;
      }
      Cookie, DstSize := 0, 0;
    }

    /** The error of the copy is dropped: a name that is too long leaves the buffer alone. */
    method SetName(name: seq<Byte>)
      requires Valid()
      modifies Name
      ensures |name| >= NAME_SIZE ==> Name[..] == old(Name[..])
      ensures |name| < NAME_SIZE ==> Name[..] == BufText(name) + old(Name[..])[|BufText(name)|..]
    {
      var ok := StringToDelimitedBuf(name, Name);
    }

    /** The name that the kernel and `GetName` see. */
    function NameText(): seq<Byte>
      reads this, Name
    {
      BufText(Name[..])
    }

    method GetName() returns (s: seq<Byte>)
      requires Valid()
      ensures s == NameText()
    {
      s := DelimitedBufToString(Name);
    }
  }

  /** The name that a cleared command carries after `SetName`. */
  function CmdName(name: seq<Byte>): (t: seq<Byte>)
    ensures |t| < NAME_SIZE && 0 !in t
  {
    if |name| < NAME_SIZE then BufText(name) else []
  }

  lemma ClearedText(name: seq<Byte>)
    ensures BufText(if |name| < NAME_SIZE then BufText(name) + Zeros(NAME_SIZE)[|BufText(name)|..] else Zeros(NAME_SIZE))
            == CmdName(name)
  {
    var z := Zeros(NAME_SIZE);
    BufTextUnique(z, 0);
    if |name| < NAME_SIZE {
      var t := BufText(name);
      ResidueLaw(t, z);
      assert z[|t|..] == Zeros(NAME_SIZE - |t|);
      BufTextUnique(z[|t|..], 0);
      assert t + [] == t;
    }
  }

  /** A name survives `Clear`, `SetName` and `GetName` exactly when it is NUL-free and shorter
      than the buffer. */
  lemma NameSurvivesIff(name: seq<Byte>)
    ensures CmdName(name) == name <==> |name| < NAME_SIZE && 0 !in name
  {
    if 0 !in name {
      BufTextUnique(name, |name|);
      assert name[..|name|] == name;
    }
  }

  // ---- The kernel as an oracle ------------------------------------------------

  /** A dataset with the cookie that the listing of its parent returns with it. */
  datatype Dataset = Dataset(name: seq<Byte>, cookie: nat, props: NvList, children: seq<Dataset>)

  datatype Request = PoolConfigs | PoolStats | DatasetListNext

  const ENOENT: nat := 2
  const ESRCH: nat := 3
  const ENOMEM: nat := 12

  /** The requests that are turned down, by name and cookie, and with which error. ENOMEM only
      asks for room, and a listing that is turned down with ESRCH is one that ends there. */
  type Refusals = m: map<(Request, seq<Byte>, nat), nat> |
    forall r :: r in m ==> m[r] != 0 && m[r] != ENOMEM && (r.0.DatasetListNext? ==> m[r] != ESRCH)
    witness map[]

  datatype Kernel = Kernel(version: nat, flags: nat, configs: NvList, stats: map<seq<Byte>, NvList>,
                           dirs: map<seq<Byte>, seq<Dataset>>, refusals: Refusals)

  datatype Answer = Refused(errno: nat) | Given(name: seq<Byte>, cookie: nat, payload: seq<Byte>)

  function Message(k: Kernel, l: NvList): seq<Byte> {
    Header(k.version, k.flags) + Enc(l)
  }

  /** The position behind the child that was listed with this cookie; cookie 0 starts. */
  function NextChild(kids: seq<Dataset>, cookie: nat): (i: nat)
    ensures i <= |kids|
  {
    if cookie == 0 || kids == [] then 0
    else if kids[0].cookie == cookie then 1
    else 1 + NextChild(kids[1..], cookie)
  }

  /** What the kernel has to say to a request, whatever room there is for it. */
  function Reply(k: Kernel, req: Request, name: seq<Byte>, cookie: nat): (a: Answer)
    ensures a.Refused? ==> a.errno != ENOMEM && a.errno != 0
  {
    if (req, name, cookie) in k.refusals then Refused(k.refusals[(req, name, cookie)]) else
    match req
    case PoolConfigs => Given(name, cookie, Message(k, k.configs))
    case PoolStats => if name in k.stats then Given(name, cookie, Message(k, k.stats[name])) else Refused(ENOENT)
    case DatasetListNext =>
      if name !in k.dirs then Refused(ENOENT) else
      var kids := k.dirs[name];
      var i := NextChild(kids, cookie);
      if i == |kids| then Refused(ESRCH)
      else Given(kids[i].name, kids[i].cookie, Message(k, kids[i].props))
  }

  /** The error, if any, with which a listing fails here instead of going on or ending. */
  function Declined(k: Kernel, dir: seq<Byte>, cookie: nat): (e: Option<nat>)
    ensures e.Some? ==> e.value != 0 && e.value != ENOMEM && e.value != ESRCH
  {
    if (DatasetListNext, dir, cookie) in k.refusals then Some(k.refusals[(DatasetListNext, dir, cookie)])
    else if dir !in k.dirs then Some(ENOENT)
    else None
  }

  /** The response buffer, which the wrapper may replace by a larger one. */
  class Buffer {
    var data: seq<Byte>

    constructor (n: nat)
      ensures data == Zeros(n)
    {
      data := Zeros(n);
    }
  }

  /** The kernel can write this answer: its name fits. */
  predicate Writable(a: Answer) {
    a.Given? ==> |a.name| < NAME_SIZE && 0 !in a.name
  }

  /** One system call. If the answer does not fit, the kernel reports the size it needs and
      leaves the name and the cookie alone; otherwise it overwrites the front of the buffer. */
  method Syscall(k: Kernel, req: Request, cmd: Cmd, resp: Buffer) returns (errno: nat)
    requires cmd.Valid() && cmd.DstSize == |resp.data|
    requires Writable(Reply(k, req, cmd.NameText(), cmd.Cookie))
    modifies cmd, cmd.Name, resp
    ensures match Reply(k, req, old(cmd.NameText()), old(cmd.Cookie))
            case Refused(e) => errno == e && cmd.NameText() == old(cmd.NameText()) && cmd.Cookie == old(cmd.Cookie)
                               && resp.data == old(resp.data)
            case Given(name, cookie, payload) =>
              if |payload| > |old(resp.data)| then
                && errno == ENOMEM && cmd.DstSize == |payload|
                && cmd.NameText() == old(cmd.NameText()) && cmd.Cookie == old(cmd.Cookie) && resp.data == old(resp.data)
              else
                && errno == 0 && cmd.NameText() == name && cmd.Cookie == cookie
                && resp.data == payload + old(resp.data)[|payload|..]
  {
    match Reply(k, req, cmd.NameText(), cmd.Cookie) {
      case Refused(e) => return e;
      case Given(name, cookie, payload) =>
        if |payload| > |resp.data| {
          cmd.DstSize := |payload|;
          return ENOMEM;
        }
        var named := name + [0];
        forall i | 0 <= i < |named| {
          cmd.Name[i] := named[i];
        }
        assert cmd.Name[..][..|name|] == name;
        BufTextUnique(cmd.Name[..], |name|);
        cmd.Cookie := cookie;
        resp.data := payload + resp.data[|payload|..];
        return 0;
    }
  }

  /** The buffer behind an answer: the answer and what was behind it, or the answer alone in
      a new buffer that is exactly as long. */
  function Filled(before: seq<Byte>, payload: seq<Byte>): seq<Byte> {
    if |payload| <= |before| then payload + before[|payload|..] else payload
  }

  /** The retry loop. `calls` counts the system calls. */
  method Ioctl(k: Kernel, req: Request, cmd: Cmd, resp: Buffer) returns (errno: nat, ghost calls: nat)
    requires cmd.Valid() && Writable(Reply(k, req, cmd.NameText(), cmd.Cookie))
    modifies cmd, cmd.Name, resp
    ensures match Reply(k, req, old(cmd.NameText()), old(cmd.Cookie))
            case Refused(e) =>
              && errno == e && resp.data == old(resp.data) && calls == 1
              && cmd.NameText() == old(cmd.NameText()) && cmd.Cookie == old(cmd.Cookie)
            case Given(name, cookie, payload) =>
              && calls == (if |payload| > |old(resp.data)| then 2 else 1)
              && errno == 0 && cmd.NameText() == name && cmd.Cookie == cookie
              && resp.data == Filled(old(resp.data), payload)
  {
    ghost var a := Reply(k, req, cmd.NameText(), cmd.Cookie);
    ghost var enough := false;
    calls := 0;
    while true
      invariant calls == if enough then 1 else 0
      invariant cmd.NameText() == old(cmd.NameText()) && cmd.Cookie == old(cmd.Cookie)
      invariant !enough ==> resp.data == old(resp.data)
      invariant enough ==> a.Given? && |old(resp.data)| < |a.payload| == |resp.data|
      decreases !enough
    {
      cmd.DstSize := |resp.data|;
      errno := Syscall(k, req, cmd, resp);
      calls := calls + 1;
      if errno == ENOMEM {
        var requiredLength := cmd.DstSize;
        resp.data := Zeros(requiredLength);
        enough := true;
        continue;
      }
      assert enough ==> a.payload + Zeros(|a.payload|)[|a.payload|..] == a.payload;
      return;
    }
  }
}
