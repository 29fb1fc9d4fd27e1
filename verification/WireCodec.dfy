/**
 The wire format between daemon and client (loader/src/common/socket_utils.cpp, zygiskd/src/utils.rs:167-213,
 loader/src/common/daemon.cpp:75-90, zygiskd/src/zygiskd.rs:293-299): native-endian sizes, length-prefixed strings,
 and descriptors sent as ancillary data. Bytes are read through a loop that tolerates short reads and interruptions; a
 descriptor is received by a single call that nothing repeats.
 */
module WireCodec {
  import opened Prelude
  import opened LittleEndian

  /** A byte on a stream socket, and the descriptor that travels with it, if any. */
  datatype Item = Item(byte: Byte, fd: Option<int>)

  /** What the kernel does to one `read` or `write`: interrupt it, serve at most `limit` bytes, or fail. */
  datatype Service = Interrupted | AtMost(limit: nat) | Broken

  /** Interruptions and short transfers are finitely many, every transfer makes progress, and nothing fails. */
  ghost predicate Benign(schedule: seq<Service>)
  {
    forall i :: 0 <= i < |schedule| ==> schedule[i] != Broken && (schedule[i].AtMost? ==> schedule[i].limit > 0)
  }

  /**
   What becomes of one `recvmsg`: it is served, or it is interrupted or fails. Then the message stays queued, and the
   control buffer, which is not initialised, may still hold the header of the reception before.
   */
  datatype Reception = Served | Missed(intact: bool)

  predicate IsMissed(receptions: seq<Reception>, i: nat)
  {
    i < |receptions| && receptions[i].Missed?
  }

  /** The first of the next `n` receptions that is missed, or `n`. */
  function FirstMiss(receptions: seq<Reception>, n: nat): (k: nat)
    ensures k <= n && (k < n ==> IsMissed(receptions, k))
    ensures forall i :: 0 <= i < k ==> !IsMissed(receptions, i)
  {
    if n == 0 then 0
    else
      var k := FirstMiss(receptions, n - 1);
      if k < n - 1 || IsMissed(receptions, n - 1) then k else n
  }

  /** What is left after `n` steps. */
  function Drop<T>(s: seq<T>, n: nat): seq<T>
  {
    if n <= |s| then s[n..] else []
  }

  function Payload(items: seq<Item>): (bytes: Bytes)
    ensures |bytes| == |items|
    ensures forall i :: 0 <= i < |items| ==> bytes[i] == items[i].byte
  {
    seq<Byte>(|items|, i requires 0 <= i < |items| => items[i].byte)
  }

  function AsItems(bytes: Bytes): (items: seq<Item>)
    ensures |items| == |bytes|
    ensures forall i :: 0 <= i < |bytes| ==> items[i] == Item(bytes[i], None)
  {
    seq(|bytes|, i requires 0 <= i < |bytes| => Item(bytes[i], None))
  }

  function Min(a: nat, b: nat): nat
  {
    if a <= b then a else b
  }

  lemma PayloadConcat(a: seq<Item>, b: seq<Item>)
    ensures Payload(a + b) == Payload(a) + Payload(b)
  {
  }

  lemma PayloadOfItems(bytes: Bytes)
    ensures Payload(AsItems(bytes)) == bytes
  {
  }

  lemma SliceTwice<T>(s: seq<T>, m: nat, n: nat)
    requires m + n <= |s|
    ensures s[..m] + s[m..][..n] == s[..m + n] && s[m..][n..] == s[m + n..]
  {
  }

  /** `buf` was taken from the front of `all` and `left` remains. */
  ghost predicate Taken(all: seq<Item>, buf: Bytes, left: seq<Item>)
  {
    |buf| <= |all| && buf == Payload(all[..|buf|]) && left == all[|buf|..]
  }

  lemma TakeMore(all: seq<Item>, buf: Bytes, left: seq<Item>, n: nat)
    requires Taken(all, buf, left) && n <= |left|
    ensures Taken(all, buf + Payload(left[..n]), left[n..])
  {
    SliceTwice(all, |buf|, n);
    PayloadConcat(all[..|buf|], left[..n]);
  }

  /** A C string ends before its first NUL. */
  function CString(bytes: Bytes): Bytes
  {
    if bytes == [] || bytes[0] == 0 then [] else [bytes[0]] + CString(bytes[1..])
  }

  /** A string survives the client's conversion exactly if it contains no NUL. */
  lemma {:induction false} CStringIsWholeIff(bytes: Bytes)
    ensures CString(bytes) == bytes <==> 0 !in bytes
    ensures |CString(bytes)| <= |bytes|
  {
    if bytes == [] || bytes[0] == 0 {
    } else {
      CStringIsWholeIff(bytes[1..]);
      assert bytes == [bytes[0]] + bytes[1..];
      assert CString(bytes) == bytes <==> CString(bytes[1..]) == bytes[1..];
    }
  }

  // ------------------------------------------------------- what a stream holds

  /** The value of the next word, or 0 if the stream ends early, and what follows it. */
  function WordAt(items: seq<Item>, width: nat): nat
  {
    if width <= |items| then Decode(Payload(items[..width])) else 0
  }

  function AfterWord(items: seq<Item>, width: nat): seq<Item>
  {
    items[Min(width, |items|)..]
  }

  /**
   The next string: the bytes that arrive, then what the buffer on the stack held before, up to the first NUL.
   */
  function StringAt(items: seq<Item>, width: nat, stack: nat -> Byte): Bytes
  {
    var body := AfterWord(items, width);
    var len := WordAt(items, width);
    var got := Min(len, |body|);
    CString(Payload(body[..got]) + seq<Byte>(len - got, i requires 0 <= i => stack(got + i)))
  }

  function AfterString(items: seq<Item>, width: nat): seq<Item>
  {
    var body := AfterWord(items, width);
    body[Min(WordAt(items, width), |body|)..]
  }

  /** The first descriptor that travels with one of the items. */
  function Carried(items: seq<Item>): Option<int>
  {
    if items == [] then None else if items[0].fd.Some? then items[0].fd else Carried(items[1..])
  }

  datatype Module = Module(name: Bytes, fd: int)

  /** What the client has not received yet, what becomes of its receptions, and what its control buffer holds. */
  datatype Client = Client(items: seq<Item>, receptions: seq<Reception>, control: int)

  const FILLER: nat := 4

  /** One `recvmsg`. If it is missed, the message stays queued and the answer is what was left behind. */
  function ReceiveFd(c: Client): (int, Client)
  {
    var later := Drop(c.receptions, 1);
    if IsMissed(c.receptions, 0) then (if c.receptions[0].intact then c.control else -1, c.(receptions := later))
    else
      var n := Min(FILLER, |c.items|);
      match Carried(c.items[..n])
      case Some(fd) => (fd, Client(c.items[n..], later, fd))
      case None => (-1, Client(c.items[n..], later, c.control))
  }

  function ReceiveModule(c: Client, width: nat, stack: nat -> Byte): (Module, Client)
  {
    var (fd, after) := ReceiveFd(c.(items := AfterString(c.items, width)));
    (Module(StringAt(c.items, width, stack), fd), after)
  }

  /** One module after the other, `i` to `n`, each taken by `take` from what the one before left. */
  function TakeAll(take: (Client, nat) -> (Module, Client), c: Client, i: nat, n: nat): (r: (seq<Module>, Client))
    requires i <= n
    ensures |r.0| == n - i
    decreases n - i
  {
    if i == n then ([], c)
    else
      var (m, next) := take(c, i);
      var (ms, last) := TakeAll(take, next, i + 1, n);
      ([m] + ms, last)
  }

  /** How the client takes module `i` from whatever the stream holds. */
  function Taker(width: nat, stacks: nat -> (nat -> Byte)): (Client, nat) -> (Module, Client)
  {
    (c: Client, i: nat) => ReceiveModule(c, width, stacks(i))
  }

  /** The count, then that many modules. */
  function ReceiveList(c: Client, width: nat, stacks: nat -> (nat -> Byte)): (seq<Module>, Client)
  {
    TakeAll(Taker(width, stacks), c.(items := AfterWord(c.items, width)), 0, WordAt(c.items, width))
  }

  function EncodeString(width: nat, s: Bytes): seq<Item>
  {
    AsItems(Encode(|s|, width)) + AsItems(s)
  }

  /** A message of one integer with the descriptor attached. */
  function EncodeDescriptor(fd: int): (items: seq<Item>)
    ensures |items| == FILLER
  {
    [Item(0, Some(fd)), Item(0, None), Item(0, None), Item(0, None)]
  }

  function EncodeModule(width: nat, m: Module): seq<Item>
  {
    EncodeString(width, m.name) + EncodeDescriptor(m.fd)
  }

  function EncodeList(width: nat, modules: seq<Module>): seq<Item>
  {
    if modules == [] then [] else EncodeModule(width, modules[0]) + EncodeList(width, modules[1..])
  }

  /** What the daemon writes for ReadModules. */
  function EncodeModules(width: nat, modules: seq<Module>): seq<Item>
  {
    AsItems(Encode(|modules|, width)) + EncodeList(width, modules)
  }

  lemma {:induction false} EncodeListAppend(width: nat, modules: seq<Module>, m: Module)
    ensures EncodeList(width, modules + [m]) == EncodeList(width, modules) + EncodeModule(width, m)
  {
    if modules == [] {
      assert EncodeList(width, [m]) == EncodeModule(width, m) + [];
    } else {
      EncodeListAppend(width, modules[1..], m);
      assert (modules + [m])[1..] == modules[1..] + [m];
    }
  }

  /** All sizes on the wire fit the width. */
  ghost predicate Fits(width: nat, modules: seq<Module>)
  {
    && |modules| < Pow256(width)
    && forall i :: 0 <= i < |modules| ==> |modules[i].name| < Pow256(width)
  }

  /** A sent word is read back, and exactly its bytes are used. */
  lemma SentWord(width: nat, value: nat, rest: seq<Item>)
    requires value < Pow256(width)
    ensures
      var items := AsItems(Encode(value, width)) + rest;
      WordAt(items, width) == value && AfterWord(items, width) == rest
  {
    var head := AsItems(Encode(value, width));
    assert (head + rest)[..width] == head;
    PayloadOfItems(Encode(value, width));
    DecodeEncode(value, width);
  }

  /** A sent string arrives up to its first NUL, and exactly its bytes are used. */
  lemma SentString(width: nat, s: Bytes, rest: seq<Item>, stack: nat -> Byte)
    requires |s| < Pow256(width)
    ensures
      var items := EncodeString(width, s) + rest;
      StringAt(items, width, stack) == CString(s) && AfterString(items, width) == rest
  {
    var body := AsItems(s) + rest;
    assert EncodeString(width, s) + rest == AsItems(Encode(|s|, width)) + body;
    SentWord(width, |s|, body);
    assert body[..|s|] == AsItems(s) && body[|s|..] == rest;
    PayloadOfItems(s);
    assert s + [] == s;
  }

  function Received(modules: seq<Module>): (r: seq<Module>)
    ensures |r| == |modules|
    ensures forall i :: 0 <= i < |modules| ==> r[i] == Module(CString(modules[i].name), modules[i].fd)
  {
    seq(|modules|, i requires 0 <= i < |modules| => Module(CString(modules[i].name), modules[i].fd))
  }

  /** The client ends up with the daemon's own list exactly if no name contains a NUL. */
  lemma ReceivedIsSentIff(modules: seq<Module>)
    ensures Received(modules) == modules <==> forall i :: 0 <= i < |modules| ==> 0 !in modules[i].name
  {
    forall i | 0 <= i < |modules|
      ensures Received(modules)[i] == modules[i] <==> 0 !in modules[i].name
    {
      CStringIsWholeIff(modules[i].name);
    }
    if Received(modules) == modules {
      forall i | 0 <= i < |modules|
        ensures 0 !in modules[i].name
      {
        assert Received(modules)[i] == modules[i];
      }
    }
  }

  // ----------------------------------------------------------------- the client

  class Socket {
    /** sent by the peer and not yet received */
    var incoming: seq<Item>
    /** received by the peer */
    var outgoing: Bytes
    var schedule: seq<Service>
    var receptions: seq<Reception>
    /** the descriptor in the header that was last put into the control buffer, or -1 */
    var control: int

    constructor (incoming: seq<Item>, schedule: seq<Service>, receptions: seq<Reception>)
      ensures this.incoming == incoming && this.schedule == schedule && this.receptions == receptions
      ensures outgoing == [] && control == -1
    {
      this.incoming, this.schedule, this.receptions, outgoing, control := incoming, schedule, receptions, [], -1;
    }

    /** The `read` system call. A descriptor that travels with a byte read this way is dropped. */
    method Read(count: nat) returns (ret: int, interrupted: bool, bytes: Bytes)
      modifies this`incoming, this`schedule
      ensures schedule == Drop(old(schedule), 1) && (Benign(old(schedule)) ==> Benign(schedule))
      ensures ret < 0 ==> incoming == old(incoming) && bytes == [] && old(schedule) != []
      ensures ret < 0 ==> (interrupted <==> old(schedule)[0] == Interrupted)
      ensures ret < 0 && Benign(old(schedule)) ==> interrupted
      ensures ret >= 0 ==>
                && ret == |bytes| && ret <= Min(count, |old(incoming)|)
                && bytes == Payload(old(incoming)[..ret]) && incoming == old(incoming)[ret..]
      ensures ret == 0 && Benign(old(schedule)) ==> Min(count, |old(incoming)|) == 0
    {
      var n := Min(count, |incoming|);
      if schedule != [] {
        var service := schedule[0];
        schedule := schedule[1..];
        match service {
          case Interrupted => return -1, true, [];
          case Broken => return -1, false, [];
          case AtMost(limit) => n := Min(n, limit);
        }
      }
      bytes := Payload(incoming[..n]);
      incoming := incoming[n..];
      return n, false, bytes;
    }

    /** Under every benign schedule the loop delivers exactly the requested bytes, or all there are. */
    method XRead(count: nat) returns (ret: int, buf: Bytes)
      modifies this`incoming, this`schedule
      ensures Benign(old(schedule)) ==>
                var n := Min(count, |old(incoming)|);
                && ret == n == |buf| && buf == Payload(old(incoming)[..n]) && incoming == old(incoming)[n..]
                && Benign(schedule)
      ensures Taken(old(incoming), buf, incoming) && |buf| <= count && (ret == |buf| || ret < 0)
    {
      ghost var all := incoming;
      buf := [];
      while true
        invariant |buf| <= count && Taken(all, buf, incoming)
        invariant Benign(old(schedule)) ==> Benign(schedule)
        decreases |schedule|, count - |buf|
      {
        var interrupted, bytes;
        ghost var before := incoming;
        ret, interrupted, bytes := Read(count - |buf|);
        if ret < 0 {
          if interrupted {
            if |buf| == count {
              break;
            }
            continue;
          }
          return;
        }
        TakeMore(all, buf, before, ret);
        buf := buf + bytes;
        if |buf| == count || ret == 0 {
          break;
        }
      }
      ret := |buf|;
    }

    /** `read_exact_or` with the default 0 of all its callers. */
    method ReadWord(width: nat) returns (value: nat)
      modifies this`incoming, this`schedule
      ensures Benign(old(schedule)) ==>
                value == WordAt(old(incoming), width) && incoming == AfterWord(old(incoming), width) && Benign(schedule)
    {
      var ret, buf := XRead(width);
      return if ret == width then Decode(buf) else 0;
    }

    /** The string the stream holds next, however it arrives; `stack` is what the buffer held before. */
    method ReadString(width: nat, stack: nat -> Byte) returns (s: Bytes)
      modifies this`incoming, this`schedule
      ensures Benign(old(schedule)) ==>
                && s == StringAt(old(incoming), width, stack) && incoming == AfterString(old(incoming), width)
                && Benign(schedule)
    {
      var len := ReadWord(width);
      var _, buf := XRead(len);
      return CString(buf + seq<Byte>(len - |buf|, i requires 0 <= i => stack(|buf| + i)));
    }

    ghost function State(): Client
      reads this
    {
      Client(incoming, receptions, control)
    }

    method RecvFd() returns (fd: int)
      modifies this`incoming, this`receptions, this`control
      ensures (fd, State()) == ReceiveFd(old(State()))
    {
      var reception := if receptions == [] then Served else receptions[0];
      receptions := Drop(receptions, 1);
      if reception.Missed? {
        return if reception.intact then control else -1;
      }
      var n := Min(FILLER, |incoming|);
      var carried := Carried(incoming[..n]);
      incoming := incoming[n..];
      if carried == None {
        return -1;
      }
      control := carried.value;
      return control;
    }

    /** One turn of the loop of `ReadModules`. */
    method ReadModule(width: nat, stack: nat -> Byte) returns (m: Module)
      modifies this`incoming, this`schedule, this`receptions, this`control
      ensures Benign(old(schedule)) ==> (m, State()) == ReceiveModule(old(State()), width, stack) && Benign(schedule)
    {
      ghost var before := State();
      var name := ReadString(width, stack);
      if Benign(old(schedule)) {
        assert State() == before.(items := AfterString(before.items, width));
      }
      var fd := RecvFd();
      return Module(name, fd);
    }

    /**
     Whatever the stream holds and under every benign schedule of reads, the modules are those that `ReceiveList` takes
     from it; `SentList` says what they are when the daemon wrote a list.
     */
    method ReadModules(width: nat, stacks: nat -> (nat -> Byte)) returns (ms: seq<Module>)
      modifies this`incoming, this`schedule, this`receptions, this`control
      ensures Benign(old(schedule)) ==> (ms, State()) == ReceiveList(old(State()), width, stacks)
    {
      ghost var whole := ReceiveList(State(), width, stacks);
      var len := ReadWord(width);
      ms := [];
      if Benign(old(schedule)) {
        assert State() == old(State()).(items := AfterWord(old(incoming), width));
        assert ms + whole.0 == whole.0;
      }
      for i := 0 to len
        invariant Benign(old(schedule)) ==>
                    Benign(schedule) && Continues(whole, ms, Taker(width, stacks), State(), i, len)
      {
        ghost var before := State();
        var m := ReadModule(width, stacks(i));
        if Benign(old(schedule)) {
          ContinuesStep(whole, ms, Taker(width, stacks), before, i, len);
        }
        ms := ms + [m];
      }
      assert ms + [] == ms;
    }

    /** The `write` system call. */
    method Write(bytes: Bytes) returns (ret: int, interrupted: bool)
      modifies this`outgoing, this`schedule
      ensures schedule == Drop(old(schedule), 1) && (Benign(old(schedule)) ==> Benign(schedule))
      ensures ret < 0 ==> outgoing == old(outgoing) && old(schedule) != [] && (Benign(old(schedule)) ==> interrupted)
      ensures ret >= 0 ==> ret <= |bytes| && outgoing == old(outgoing) + bytes[..ret]
      ensures ret == 0 && Benign(old(schedule)) ==> bytes == []
    {
      var n := |bytes|;
      if schedule != [] {
        var service := schedule[0];
        schedule := schedule[1..];
        match service {
          case Interrupted => return -1, true;
          case Broken => return -1, false;
          case AtMost(limit) => n := Min(n, limit);
        }
      }
      outgoing := outgoing + bytes[..n];
      return n, false;
    }

    /** Under every benign schedule all bytes are written, in order and once. */
    method XWrite(bytes: Bytes) returns (written: nat)
      modifies this`outgoing, this`schedule
      ensures Benign(old(schedule)) ==> written == |bytes| && outgoing == old(outgoing) + bytes && Benign(schedule)
      ensures written <= |bytes| && outgoing == old(outgoing) + bytes[..written]
    {
      written := 0;
      while true
        invariant written <= |bytes| && outgoing == old(outgoing) + bytes[..written]
        invariant Benign(old(schedule)) ==> Benign(schedule)
        decreases |schedule|, |bytes| - written
      {
        var ret, interrupted := Write(bytes[written..]);
        if ret < 0 {
          if interrupted {
            if written == |bytes| {
              break;
            }
            continue;
          }
          return;
        }
        SliceTwice(bytes, written, ret);
        written := written + ret;
        if written == |bytes| || ret == 0 {
          break;
        }
      }
      if written == |bytes| {
        assert bytes[..written] == bytes;
      }
    }
  }

  // ------------------------------------------------------------ what is decoded

  /** What the control buffer holds once `i` modules have been received. */
  function LastDescriptor(modules: seq<Module>, i: nat, control: int): int
    requires i <= |modules|
  {
    if i == 0 then control else modules[i - 1].fd
  }

  /** The module whose reception was missed: its own name, with the descriptor before it or none. */
  function MissedModule(modules: seq<Module>, receptions: seq<Reception>, control: int, k: nat): Module
    requires k < |modules| && IsMissed(receptions, k)
  {
    Module(CString(modules[k].name), if receptions[k].intact then LastDescriptor(modules, k, control) else -1)
  }

  /** As many modules as were sent, right up to the first missed reception, and what that one is. */
  ghost predicate Decoded(modules: seq<Module>, receptions: seq<Reception>, control: int, ms: seq<Module>)
  {
    var k := FirstMiss(receptions, |modules|);
    && |ms| == |modules|
    && (forall i :: 0 <= i < k ==> ms[i] == Received(modules)[i])
    && (k < |modules| ==> ms[k] == MissedModule(modules, receptions, control, k))
  }

  /** `whole` is what has been read followed by what is still to be read. */
  ghost predicate Continues(
    whole: (seq<Module>, Client), ms: seq<Module>, take: (Client, nat) -> (Module, Client), c: Client, i: nat, n: nat)
  {
    i <= n &&
    var (later, last) := TakeAll(take, c, i, n);
    whole == (ms + later, last)
  }

  lemma ContinuesStep(
    whole: (seq<Module>, Client), ms: seq<Module>, take: (Client, nat) -> (Module, Client), c: Client, i: nat, n: nat)
    requires i < n && Continues(whole, ms, take, c, i, n)
    ensures
      var (m, next) := take(c, i);
      Continues(whole, ms + [m], take, next, i + 1, n)
  {
    var (m, next) := take(c, i);
    var (later, last) := TakeAll(take, next, i + 1, n);
    assert TakeAll(take, c, i, n) == ([m] + later, last);
    assert ms + ([m] + later) == ms + [m] + later;
  }

  /** A sent module is received, unless its reception is missed. */
  lemma SentModule(width: nat, c: Client, sent: Module, rest: seq<Item>, stack: nat -> Byte)
    requires |sent.name| < Pow256(width) && c.items == EncodeModule(width, sent) + rest
    ensures
      var (m, next) := ReceiveModule(c, width, stack);
      && m.name == CString(sent.name)
      && (if IsMissed(c.receptions, 0) then m.fd == (if c.receptions[0].intact then c.control else -1)
          else m.fd == sent.fd && next == Client(rest, Drop(c.receptions, 1), sent.fd))
  {
    var after := EncodeDescriptor(sent.fd) + rest;
    assert c.items == EncodeString(width, sent.name) + after;
    SentString(width, sent.name, after, stack);
    assert after[..FILLER] == EncodeDescriptor(sent.fd) && after[FILLER..] == rest;
  }

  /**
   The modules from `i` on are as wanted before `k`, the one at `k` is `missed`, and without one only `rest` is left.
   */
  ghost predicate Arrived(
    want: seq<Module>, k: nat, missed: Module, rest: seq<Item>, i: nat, ms: seq<Module>, last: Client)
  {
    && i + |ms| == |want|
    && (forall j :: 0 <= j < |ms| && i + j < k ==> ms[j] == want[i + j])
    && (i <= k < |want| ==> ms[k - i] == missed)
    && (k == |want| ==> last.items == rest)
  }

  lemma ArrivedStep(
    want: seq<Module>, k: nat, missed: Module, rest: seq<Item>, i: nat, m: Module, ms: seq<Module>, last: Client)
    requires i < k && i < |want| && m == want[i] && Arrived(want, k, missed, rest, i + 1, ms, last)
    ensures Arrived(want, k, missed, rest, i, [m] + ms, last)
  {
    var all := [m] + ms;
    forall j | 0 <= j < |all| && i + j < k
      ensures all[j] == want[i + j]
    {
      if j > 0 {
        assert all[j] == ms[j - 1];
      }
    }
    if k < |want| {
      assert all[k - i] == ms[k - i - 1];
    }
  }

  /** At the end, or at the missed module, nothing more is said. */
  lemma ArrivedEnd(
    want: seq<Module>, k: nat, missed: Module, rest: seq<Item>, i: nat, ms: seq<Module>, last: Client)
    requires i + |ms| == |want| && i == k
    requires if i < |want| then ms[0] == missed else last.items == rest
    ensures Arrived(want, k, missed, rest, i, ms, last)
  {
  }

  /** What the client makes of the module whose reception is missed first. */
  function FirstMissed(modules: seq<Module>, receptions: seq<Reception>, control: int): Module
  {
    var k := FirstMiss(receptions, |modules|);
    if k < |modules| then MissedModule(modules, receptions, control, k) else Module([], -1)
  }

  /** The client when the modules from `i` on are still to come. */
  function ClientAt(
    width: nat, modules: seq<Module>, rest: seq<Item>, receptions: seq<Reception>, start: int, i: nat): Client
    requires i <= |modules|
  {
    Client(EncodeList(width, modules[i..]) + rest, Drop(receptions, i), LastDescriptor(modules, i, start))
  }

  lemma SentStep(
    width: nat, modules: seq<Module>, rest: seq<Item>, receptions: seq<Reception>, start: int,
    stack: nat -> Byte, i: nat)
    requires Fits(width, modules) && i < |modules| && i <= FirstMiss(receptions, |modules|)
    ensures
      var (m, next) := ReceiveModule(ClientAt(width, modules, rest, receptions, start, i), width, stack);
      if i == FirstMiss(receptions, |modules|) then m == FirstMissed(modules, receptions, start)
      else m == Received(modules)[i] && next == ClientAt(width, modules, rest, receptions, start, i + 1)
  {
    var c := ClientAt(width, modules, rest, receptions, start, i);
    NextModule(width, modules, rest, i);
    SentModule(width, c, modules[i], EncodeList(width, modules[i + 1..]) + rest, stack);
    assert IsMissed(c.receptions, 0) <==> IsMissed(receptions, i);
    assert Drop(c.receptions, 1) == Drop(receptions, i + 1);
  }

  ghost predicate Takes(cs: seq<Client>, want: seq<Module>, take: (Client, nat) -> (Module, Client), j: nat)
    requires j + 1 < |cs| && j < |want|
  {
    take(cs[j], j) == (want[j], cs[j + 1])
  }

  /** The client goes through `cs`, taking the wanted modules, and then `missed` if there is one more to take. */
  ghost predicate Along(
    cs: seq<Client>, want: seq<Module>, missed: Module, rest: seq<Item>, take: (Client, nat) -> (Module, Client))
  {
    && 0 < |cs| <= |want| + 1
    && (forall j :: 0 <= j < |cs| - 1 ==> Takes(cs, want, take, j))
    && (var k := |cs| - 1;
        if k < |want| then take(cs[k], k).0 == missed else cs[k].items == rest)
  }

  /** Reading on from `cs[i]` the rest arrives. */
  ghost predicate ArrivesFrom(
    cs: seq<Client>, want: seq<Module>, missed: Module, rest: seq<Item>, take: (Client, nat) -> (Module, Client),
    i: nat)
    requires i < |cs| <= |want| + 1
  {
    var r := TakeAll(take, cs[i], i, |want|);
    Arrived(want, |cs| - 1, missed, rest, i, r.0, r.1)
  }

  lemma {:induction false} ReceivedAlong(
    cs: seq<Client>, want: seq<Module>, missed: Module, rest: seq<Item>, take: (Client, nat) -> (Module, Client),
    i: nat)
    requires Along(cs, want, missed, rest, take) && i < |cs|
    ensures ArrivesFrom(cs, want, missed, rest, take, i)
    decreases |cs| - i
  {
    var k := |cs| - 1;
    if i == k {
      var r := TakeAll(take, cs[k], k, |want|);
      ArrivedEnd(want, k, missed, rest, k, r.0, r.1);
    } else {
      assert Takes(cs, want, take, i);
      ReceivedAlong(cs, want, missed, rest, take, i + 1);
      var (ms, last) := TakeAll(take, cs[i + 1], i + 1, |want|);
      assert TakeAll(take, cs[i], i, |want|) == ([want[i]] + ms, last);
      ArrivedStep(want, k, missed, rest, i, want[i], ms, last);
    }
  }

  /** The client before each module, up to the first missed reception. */
  function Clients(
    width: nat, modules: seq<Module>, rest: seq<Item>, receptions: seq<Reception>, start: int): (cs: seq<Client>)
    ensures |cs| == FirstMiss(receptions, |modules|) + 1
    ensures forall i :: 0 <= i < |cs| ==> cs[i] == ClientAt(width, modules, rest, receptions, start, i)
  {
    var k := FirstMiss(receptions, |modules|);
    seq(k + 1, i requires 0 <= i <= k => ClientAt(width, modules, rest, receptions, start, i))
  }

  lemma SentTakes(
    width: nat, modules: seq<Module>, rest: seq<Item>, receptions: seq<Reception>, start: int,
    stacks: nat -> (nat -> Byte), j: nat)
    requires Fits(width, modules) && j < FirstMiss(receptions, |modules|)
    ensures Takes(Clients(width, modules, rest, receptions, start), Received(modules), Taker(width, stacks), j)
  {
    SentStep(width, modules, rest, receptions, start, stacks(j), j);
  }

  lemma SentEnds(
    width: nat, modules: seq<Module>, rest: seq<Item>, receptions: seq<Reception>, start: int,
    stacks: nat -> (nat -> Byte))
    requires Fits(width, modules)
    ensures
      var k := FirstMiss(receptions, |modules|);
      var c := ClientAt(width, modules, rest, receptions, start, k);
      if k < |modules| then Taker(width, stacks)(c, k).0 == FirstMissed(modules, receptions, start) else c.items == rest
  {
    var k := FirstMiss(receptions, |modules|);
    if k < |modules| {
      SentStep(width, modules, rest, receptions, start, stacks(k), k);
    } else {
      assert modules[k..] == [];
    }
  }

  lemma SentModules(
    width: nat, modules: seq<Module>, rest: seq<Item>, receptions: seq<Reception>, start: int,
    stacks: nat -> (nat -> Byte))
    requires Fits(width, modules)
    ensures
      ArrivesFrom(
        Clients(width, modules, rest, receptions, start), Received(modules),
        FirstMissed(modules, receptions, start), rest, Taker(width, stacks), 0)
  {
    var cs := Clients(width, modules, rest, receptions, start);
    forall j | 0 <= j < |cs| - 1
      ensures Takes(cs, Received(modules), Taker(width, stacks), j)
    {
      SentTakes(width, modules, rest, receptions, start, stacks, j);
    }
    SentEnds(width, modules, rest, receptions, start, stacks);
    ReceivedAlong(cs, Received(modules), FirstMissed(modules, receptions, start), rest, Taker(width, stacks), 0);
  }

  lemma NextModule(width: nat, modules: seq<Module>, rest: seq<Item>, i: nat)
    requires i < |modules|
    ensures EncodeList(width, modules[i..]) + rest ==
            EncodeModule(width, modules[i]) + (EncodeList(width, modules[i + 1..]) + rest)
  {
    assert modules[i..][1..] == modules[i + 1..];
  }

  /**
   For every list the daemon writes and every pattern of missed receptions: the modules before the first missed one
   arrive as sent, names up to their first NUL, and if none is missed exactly what was written is used up; the module
   of the first missed reception gets the descriptor before it, or none.
   */
  lemma SentList(
    width: nat, modules: seq<Module>, rest: seq<Item>, receptions: seq<Reception>, control: int,
    stacks: nat -> (nat -> Byte))
    requires Fits(width, modules)
    ensures
      var c := Client(EncodeModules(width, modules) + rest, receptions, control);
      var (ms, last) := ReceiveList(c, width, stacks);
      && Decoded(modules, receptions, control, ms)
      && (FirstMiss(receptions, |modules|) == |modules| ==> last.items == rest)
  {
    var list := EncodeList(width, modules) + rest;
    assert EncodeModules(width, modules) + rest == AsItems(Encode(|modules|, width)) + list;
    SentWord(width, |modules|, list);
    assert modules[0..] == modules && Drop(receptions, 0) == receptions;
    SentModules(width, modules, rest, receptions, control, stacks);
    var ms := TakeAll(Taker(width, stacks), Client(list, receptions, control), 0, |modules|).0;
    forall i | 0 <= i < FirstMiss(receptions, |modules|)
      ensures ms[i] == Received(modules)[i]
    {
      assert ms[i] == Received(modules)[0 + i];
    }
  }

  /** The libraries have descriptors of their own. */
  ghost predicate DistinctDescriptors(modules: seq<Module>)
  {
    && (forall i :: 0 <= i < |modules| ==> modules[i].fd >= 0)
    && (forall i, j :: 0 <= i < j < |modules| ==> modules[i].fd != modules[j].fd)
  }

  /** The client decodes what the daemon sent if and only if no reception of a descriptor is missed. */
  lemma DecodedIsSentIff(modules: seq<Module>, receptions: seq<Reception>, ms: seq<Module>)
    requires DistinctDescriptors(modules) && Decoded(modules, receptions, -1, ms)
    ensures ms == Received(modules) <==> forall i :: 0 <= i < |modules| ==> !IsMissed(receptions, i)
  {
    var k := FirstMiss(receptions, |modules|);
    if k < |modules| {
      assert ms[k].fd != Received(modules)[k].fd;
    } else {
      assert ms == Received(modules);
    }
  }

  /** Up to the first missed reception a module has its own descriptor exactly if its reception was not missed. */
  lemma DecodedDescriptor(modules: seq<Module>, receptions: seq<Reception>, ms: seq<Module>, i: nat)
    requires Decoded(modules, receptions, -1, ms) && i < |modules|
    ensures i < FirstMiss(receptions, |modules|) ==> ms[i].fd == modules[i].fd
    ensures i == FirstMiss(receptions, |modules|) && DistinctDescriptors(modules) ==> ms[i].fd != modules[i].fd
  {
  }

  const TWO_MODULES: seq<Module> := [Module([97], 3), Module([98], 4)]

  /** An interruption on the second `recvmsg`: the second module can end up with the library of the first. */
  method SecondModuleGetsFirstLibrary(schedule: seq<Service>, stacks: nat -> (nat -> Byte)) returns (ms: seq<Module>)
    requires Benign(schedule)
    ensures ms == [Module([97], 3), Module([98], 3)]
  {
    assert Pow256(8) == 256 * Pow256(7);
    var wire := WriteModules(8, TWO_MODULES);
    var client := new Socket(wire, schedule, [Served, Missed(true)]);
    assert wire == wire + [];
    SentList(8, TWO_MODULES, [], [Served, Missed(true)], -1, stacks);
    ms := client.ReadModules(8, stacks);
    SecondIsMissed(ms);
  }

  lemma SecondIsMissed(ms: seq<Module>)
    requires Decoded(TWO_MODULES, [Served, Missed(true)], -1, ms)
    ensures ms == [Module([97], 3), Module([98], 3)]
  {
    assert FirstMiss([Served, Missed(true)], 1) == 1;
    assert FirstMiss([Served, Missed(true)], 2) == 1;
    assert CString([97]) == [97] && CString([98]) == [98];
    assert ms[0] == Module([97], 3) && ms[1] == Module([98], 3);
  }

  /** One NUL byte: the name arrives empty. */
  lemma NulNameArrivesEmpty()
    ensures Received([Module([0], 3)]) == [Module([], 3)]
  {
  }

  // ----------------------------------------------------------------- the daemon

  /** `ReadModules` on the daemon's side: the count, then each name followed by its library descriptor. */
  method WriteModules(width: nat, modules: seq<Module>) returns (out: seq<Item>)
    ensures out == EncodeModules(width, modules)
  {
    var list: seq<Item> := [];
    for i := 0 to |modules|
      invariant list == EncodeList(width, modules[..i])
    {
      EncodeListAppend(width, modules[..i], modules[i]);
      assert modules[..i + 1] == modules[..i] + [modules[i]];
      list := list + EncodeString(width, modules[i].name) + EncodeDescriptor(modules[i].fd);
    }
    assert modules[..|modules|] == modules;
    out := AsItems(Encode(|modules|, width)) + list;
  }

  // ------------------------------------------------------------------ module ids

  datatype Loaded = Loaded(id: nat, fd: int)

  function CountTrue(loads: seq<bool>): nat
  {
    if loads == [] then 0 else CountTrue(loads[..|loads| - 1]) + if loads[|loads| - 1] then 1 else 0
  }

  /** The modules whose library loads keep the index at which they were received as their id. */
  method LoadModules(ms: seq<Module>, loads: seq<bool>) returns (loaded: seq<Loaded>)
    requires |loads| == |ms|
    ensures |loaded| == CountTrue(loads)
    ensures forall j :: 0 <= j < |loaded| ==>
        loaded[j].id < |ms| && loads[loaded[j].id] && loaded[j].fd == ms[loaded[j].id].fd
    ensures forall j, k :: 0 <= j < k < |loaded| ==> loaded[j].id < loaded[k].id
  {
    loaded := [];
    for i := 0 to |ms|
      invariant |loaded| == CountTrue(loads[..i])
      invariant forall j :: 0 <= j < |loaded| ==>
          loaded[j].id < i && loads[loaded[j].id] && loaded[j].fd == ms[loaded[j].id].fd
      invariant forall j, k :: 0 <= j < k < |loaded| ==> loaded[j].id < loaded[k].id
    {
      assert loads[..i + 1][..i] == loads[..i];
      if loads[i] {
        loaded := loaded + [Loaded(i, ms[i].fd)];
      }
    }
    assert loads[..|loads|] == loads;
  }

  /**
   End to end: whatever modules fail to load, whatever the schedules and the missed receptions, the id that the client
   sends back for the `j`-th loaded module selects, as the daemon reads it, the module at that place of the
   daemon's list. Up to the first missed reception the client loaded that module's own library exactly if the
   reception was not missed.
   */
  method IdSelectsSameModule(
    width: nat, stacks: nat -> (nat -> Byte), modules: seq<Module>, loads: seq<bool>, schedule: seq<Service>,
    receptions: seq<Reception>, back: seq<Service>, j: nat)
    returns (loaded: Option<Loaded>, resolved: Option<Module>)
    requires Fits(width, modules) && |loads| == |modules| && Benign(schedule) && Benign(back)
    ensures loaded.Some? <==> j < CountTrue(loads)
    ensures loaded.Some? ==>
              loaded.value.id < |modules| && loads[loaded.value.id] && resolved == Some(modules[loaded.value.id])
    ensures loaded.Some? && loaded.value.id < FirstMiss(receptions, |modules|) ==> resolved.value.fd == loaded.value.fd
    ensures loaded.Some? && loaded.value.id == FirstMiss(receptions, |modules|) && DistinctDescriptors(modules) ==>
              resolved.value.fd != loaded.value.fd
  {
    var wire := WriteModules(width, modules);
    var client := new Socket(wire, schedule, receptions);
    assert wire == wire + [];
    SentList(width, modules, [], receptions, -1, stacks);
    var ms := client.ReadModules(width, stacks);
    var all := LoadModules(ms, loads);
    if j >= |all| {
      return None, None;
    }
    loaded := Some(all[j]);
    var id := all[j].id;
    DecodedDescriptor(modules, receptions, ms, id);
    var toDaemon := new Socket([], back, []);
    var _ := toDaemon.XWrite(Encode(id, width));
    assert toDaemon.outgoing == Encode(id, width);
    DecodeEncode(id, width);
    resolved := Some(modules[Decode(toDaemon.outgoing)]);
  }
}
