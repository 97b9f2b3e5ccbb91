/** The thread that reads the packets of one device and passes the video frames on to its clients:
    the gate before the first key frame, the bounded output queues, the frames that are missed,
    and the removal of clients from the list that is being walked. */
module Dispatch {
  import opened Seqs

  /** LIBEVENT_WRITE_BUF_SIZE */
  const LIMIT := 2097152
  /** sizeof(BOX_CTRL_CMD_OBJ) */
  const HEADER := 32

  const INT_BOUND := 0x8000_0000
  const SIZE_BOUND := 0x1_0000_0000_0000_0000

  // ---------- packets and clients ----------

  datatype Stream = Video | Audio | Other

  datatype Packet = Packet(stream: Stream, flags: int, pts: int, size: nat)

  /** 1 == p_pkt->flags */
  predicate IsKey(p: Packet) {
    p.flags == 1
  }

  /** What the dispatcher knows of a client; output is the length of its output buffer and event
      says that it has a connection. */
  datatype ClientState = ClientState(send: bool, del: bool, miss: bool, event: bool, output: nat)

  /** The conversion of a length to int. */
  function AsInt(n: nat): int {
    var m := n % (2 * INT_BOUND);
    if m < INT_BOUND then m else m - 2 * INT_BOUND
  }

  /** The test for a full buffer: a signed difference that is compared as an unsigned number. */
  predicate Full(output: nat, size: nat) {
    (LIMIT - AsInt(output)) % SIZE_BOUND < size + HEADER
  }

  /** The test means what it should as long as the buffer does not hold more than its limit; beyond
      the limit it would find room for everything. */
  lemma FullExactly(output: nat, size: nat)
    requires output < INT_BOUND && size < INT_BOUND
    ensures (Full(output, size) <==> output + size + HEADER > LIMIT) <==> output <= LIMIT
  {
    assert AsInt(output) == output;
    if output <= LIMIT {
      assert (LIMIT - output) % SIZE_BOUND == LIMIT - output;
    } else {
      assert (LIMIT - output) % SIZE_BOUND == LIMIT - output + SIZE_BOUND;
    }
  }

  /** What the dispatch of a frame does to a client that is served. */
  function Deliver(c: ClientState, p: Packet): ClientState {
    if c.del || !c.send then c
    else if Full(c.output, p.size) then c.(output := 0, miss := true)
    else if c.miss && !IsKey(p) then c
    else c.(miss := false, output := c.output + HEADER + p.size)
  }

  /** A client that is marked for deletion and still holds an event goes. */
  predicate Removed(c: ClientState) {
    c.del && c.event
  }

  /** One pass over the clients from i on. */
  function FanOut(cs: seq<ClientState>, i: nat, p: Packet): (r: seq<ClientState>)
    requires i <= |cs|
    decreases |cs| - i
  {
    if i == |cs| then []
    else if Removed(cs[i]) then FanOut(cs, i + 1, p)
    else [Deliver(cs[i], p)] + FanOut(cs, i + 1, p)
  }

  /** The flag iIFlag after a packet. */
  predicate GateAfter(gate: bool, p: Packet) {
    gate || (p.stream == Video && IsKey(p) && p.pts > 0)
  }

  /** The packet is passed on. */
  predicate Passes(gate: bool, p: Packet) {
    p.stream == Video && GateAfter(gate, p)
  }

  // ---------- the pass in place ----------

  class Client {
    var iSendFrameFlag: bool
    var iDelFlag: bool
    var iMissFrameFlag: bool
    var hasEvent: bool
    var output: nat

    /** A client as connect_to_rtsp_server makes it: all zero. */
    constructor ()
      ensures State() == ClientState(false, false, false, false, 0)
    {
      iSendFrameFlag, iDelFlag, iMissFrameFlag, hasEvent, output := false, false, false, false, 0;
    }

    function State(): ClientState
      reads this
    {
      ClientState(iSendFrameFlag, iDelFlag, iMissFrameFlag, hasEvent, output)
    }

    /** The branch of the pass for a client that is served. */
    method Serve(p: Packet)
      modifies this
      ensures State() == Deliver(old(State()), p)
    {
      if iDelFlag || !iSendFrameFlag {
        return;
      }
      var iWriteBufLen := AsInt(output);
      if (LIMIT - iWriteBufLen) % SIZE_BOUND < p.size + HEADER {
        output := 0;
        iMissFrameFlag := true;
        return;
      } else if iMissFrameFlag && !IsKey(p) {
        return;
      }
      iMissFrameFlag := false;
      output := output + HEADER;
      output := output + p.size;
    }
  }

  ghost predicate AllDistinct(cs: seq<Client>) {
    forall i, j :: 0 <= i < j < |cs| ==> cs[i] != cs[j]
  }

  /** The clients are in the states st. */
  ghost predicate Tracks(cs: seq<Client>, st: seq<ClientState>)
    reads cs
  {
    |st| == |cs| && forall k :: 0 <= k < |cs| ==> cs[k].State() == st[k]
  }

  /** The clients that a pass leaves, from i on. */
  function Kept<T>(cs: seq<T>, st: seq<ClientState>, i: nat): seq<T>
    requires i <= |cs| == |st|
    decreases |cs| - i
  {
    if i == |cs| then [] else if Removed(st[i]) then Kept(cs, st, i + 1) else [cs[i]] + Kept(cs, st, i + 1)
  }

  /** The clients of a device and the gate. */
  class Dispatcher {
    var clients: seq<Client>
    var iIFlag: bool

    constructor ()
      ensures clients == [] && !iIFlag
    {
      clients, iIFlag := [], false;
    }

    /** list_delete without a comparator: the first element that is c. */
    method ListDelete(c: Client, ghost i: nat)
      requires AllDistinct(clients) && i < |clients| && clients[i] == c
      modifies this`clients
      ensures clients == Without(old(clients), i)
    {
      var k := 0;
      while clients[k] != c
        invariant k <= i
        decreases i - k
      {
        k := k + 1;
      }
      clients := clients[..k] + clients[k + 1..];
    }

    /** One turn of the pass: the client at i is removed or served. */
    method Visit(i: nat, p: Packet, ghost st: seq<ClientState>) returns (gone: bool, ghost st': seq<ClientState>)
      requires i < |clients| && AllDistinct(clients) && Tracks(clients, st)
      modifies this`clients, clients[i]
      ensures gone == Removed(st[i]) && Tracks(clients, st') && AllDistinct(clients)
      ensures clients == if gone then Without(old(clients), i) else old(clients)
      ensures st' == if gone then Without(st, i) else st[i := Deliver(st[i], p)]
    {
      var c := clients[i];
      if c.iDelFlag {
        gone := c.hasEvent;
        if c.hasEvent {
          c.hasEvent := false;
          ListDelete(c, i);
          st' := Without(st, i);
        } else {
          st' := st[i := Deliver(st[i], p)];
        }
      } else {
        gone := false;
        hide Deliver;
        c.Serve(p);
        st' := st[i := Deliver(st[i], p)];
      }
    }

    /** The pass over all clients: each is visited once although clients are removed under way,
        those that stay keep their order, and each is served as a client of its own. */
    method Pass(p: Packet, ghost st: seq<ClientState>)
      requires AllDistinct(clients) && Tracks(clients, st)
      modifies this`clients, clients
      ensures clients == Kept(old(clients), st, 0) && Tracks(clients, FanOut(st, 0, p)) && AllDistinct(clients)
    {
      TracksLength(clients, st);
      hide *;
      ghost var cs0, now, j := clients, st, 0;
      var i := 0;
      var iClientNum := |clients|;
      HalfwayStart(cs0, st, p);
      while i < iClientNum
        invariant j <= |cs0| == |st| && 0 <= i <= iClientNum == |clients| == |now| && |clients| - i == |cs0| - j
        invariant AllDistinct(clients) && Tracks(clients, now)
        invariant forall c :: c in clients ==> c in cs0
        invariant Halfway(cs0, st, clients, now, i, j, p)
        decreases |cs0| - j
      {
        ghost var was, before := clients, now;
        var gone;
        gone, now := Visit(i, p, now);
        WithoutIn(was, i);
        HalfwayStep(cs0, st, was, before, i, j, p);
        if gone {
          i := i - 1;
          iClientNum := iClientNum - 1;
        }
        i := i + 1;
        j := j + 1;
      }
      HalfwayEnd(cs0, st, clients, now, p);
    }

    /** One packet that was read: the gate, and the pass if the packet is let through. */
    method OnPacket(p: Packet, ghost st: seq<ClientState>) returns (sent: bool)
      requires AllDistinct(clients) && Tracks(clients, st)
      modifies this`clients, this`iIFlag, clients
      ensures sent == Passes(old(iIFlag), p) && iIFlag == GateAfter(old(iIFlag), p)
      ensures clients == if sent then Kept(old(clients), st, 0) else old(clients)
      ensures Tracks(clients, if sent then FanOut(st, 0, p) else st) && AllDistinct(clients)
    {
      hide Tracks, AllDistinct, Kept, FanOut;
      sent := false;
      if p.stream == Video {
        if IsKey(p) {
          if !iIFlag {
            if p.pts > 0 {
              iIFlag := true;
            } else {
              return;
            }
          }
        } else if !iIFlag {
          return;
        }
      } else {
        return;
      }
      Pass(p, st);
      sent := true;
    }
  }

  lemma TracksLength(cs: seq<Client>, st: seq<ClientState>)
    requires Tracks(cs, st)
    ensures |st| == |cs|
  {
  }

  lemma WithoutIn<T>(s: seq<T>, k: nat)
    requires k < |s|
    ensures |Without(s, k)| == |s| - 1 && forall x :: x in Without(s, k) ==> x in s
  {
  }

  /** A pass has visited the first j elements of the list it started with, and stands at i. */
  ghost predicate Halfway<T>(cs0: seq<T>, st: seq<ClientState>, cs: seq<T>, now: seq<ClientState>, i: nat, j: nat,
      p: Packet)
    requires j <= |cs0| == |st| && i <= |cs| == |now|
  {
    cs[i..] == cs0[j..] && now[i..] == st[j..] &&
    cs[..i] + Kept(cs0, st, j) == Kept(cs0, st, 0) && now[..i] + FanOut(st, j, p) == FanOut(st, 0, p)
  }

  lemma HalfwayStart<T>(cs0: seq<T>, st: seq<ClientState>, p: Packet)
    requires |cs0| == |st|
    ensures Halfway(cs0, st, cs0, st, 0, 0, p)
  {
  }

  lemma HalfwayStep<T>(cs0: seq<T>, st: seq<ClientState>, cs: seq<T>, now: seq<ClientState>, i: nat, j: nat, p: Packet)
    requires j < |cs0| == |st| && i < |cs| == |now| && Halfway(cs0, st, cs, now, i, j, p)
    ensures Removed(now[i]) ==> Halfway(cs0, st, Without(cs, i), Without(now, i), i, j + 1, p)
    ensures !Removed(now[i]) ==> Halfway(cs0, st, cs, now[i := Deliver(now[i], p)], i + 1, j + 1, p)
  {
    hide Removed, Deliver;
    Heads(cs, cs0, i, j);
    Heads(now, st, i, j);
    if !Removed(now[i]) {
      var d := Deliver(now[i], p);
      var kept, out := Kept(cs0, st, j + 1), FanOut(st, j + 1, p);
      assert Kept(cs0, st, j) == [cs0[j]] + kept && FanOut(st, j, p) == [d] + out;
      hide *;
      Slide(cs, i, cs[i], kept);
      Slide(now, i, d, out);
      assert cs[i := cs[i]] == cs;
    }
  }

  lemma Slide<T>(s: seq<T>, i: nat, x: T, rest: seq<T>)
    requires i < |s|
    ensures var t := s[i := x]; t[..i + 1] + rest == s[..i] + ([x] + rest) && t[i + 1..] == s[i + 1..]
  {
    assert s[i := x][..i + 1] == s[..i] + [x];
  }

  lemma HalfwayEnd<T>(cs0: seq<T>, st: seq<ClientState>, cs: seq<T>, now: seq<ClientState>, p: Packet)
    requires |cs0| == |st| && |cs| == |now| && Halfway(cs0, st, cs, now, |cs|, |cs0|, p)
    ensures cs == Kept(cs0, st, 0) && now == FanOut(st, 0, p)
  {
    assert cs[..|cs|] + [] == cs && now[..|now|] + [] == now;
  }

  lemma Heads<T>(a: seq<T>, b: seq<T>, i: nat, j: nat)
    requires i < |a| && j < |b| && a[i..] == b[j..]
    ensures a[i] == b[j] && a[i + 1..] == b[j + 1..] && Without(a, i)[i..] == b[j + 1..] && Without(a, i)[..i] == a[..i]
  {
    assert a[i] == a[i..][0] && b[j] == b[j..][0];
    assert a[i + 1..] == a[i..][1..] && b[j + 1..] == b[j..][1..];
  }

  // ---------- the pass as a whole ----------

  /** Exactly the clients stay that are not removed, one state for each. */
  lemma {:induction false} KeptExactly<T>(cs: seq<T>, st: seq<ClientState>, i: nat, c: T, p: Packet)
    requires i <= |cs| == |st|
    ensures c in Kept(cs, st, i) <==> exists k :: i <= k < |cs| && cs[k] == c && !Removed(st[k])
    ensures |Kept(cs, st, i)| == |FanOut(st, i, p)|
    decreases |cs| - i
  {
    if i < |cs| {
      KeptExactly(cs, st, i + 1, c, p);
    }
  }

  /** Two clients that stay are in the order they were in. */
  lemma {:induction false} KeptOrder<T>(cs: seq<T>, st: seq<ClientState>, i: nat, a: nat, b: nat)
    returns (x: nat, y: nat)
    requires i <= a < b < |cs| == |st| && !Removed(st[a]) && !Removed(st[b])
    ensures x < y < |Kept(cs, st, i)| && Kept(cs, st, i)[x] == cs[a] && Kept(cs, st, i)[y] == cs[b]
    decreases |cs| - i
  {
    if i < a {
      x, y := KeptOrder(cs, st, i + 1, a, b);
      if !Removed(st[i]) {
        x, y := x + 1, y + 1;
      }
    } else {
      x := 0;
      y := KeptAt(cs, st, i + 1, b);
      y := y + 1;
    }
  }

  lemma {:induction false} KeptAt<T>(cs: seq<T>, st: seq<ClientState>, i: nat, b: nat) returns (y: nat)
    requires i <= b < |cs| == |st| && !Removed(st[b])
    ensures y < |Kept(cs, st, i)| && Kept(cs, st, i)[y] == cs[b]
    decreases |cs| - i
  {
    if i < b {
      y := KeptAt(cs, st, i + 1, b);
      y := if Removed(st[i]) then y else y + 1;
    } else {
      y := 0;
    }
  }

  // ---------- runs ----------

  /** What the history of a client says: the number of frames that had been dispatched when it
      was connected; the frames that were written for it, each with the mark that held then; and
      the mark: frames before it were written before the last time its buffer was drained; and what
      came to it in order. */
  datatype Tracked = Tracked(c: ClientState, since: nat, written: map<nat, nat>, mark: nat, log: seq<Turn>)

  /** A frame was dispatched to a client that is connected and not marked, when its output buffer had
      that length, or the network took bytes from it. */
  datatype Turn = Came(f: nat, p: Packet, output: nat) | Took(n: nat)

  /** The device: its clients, the gate, whether the thread still runs, which of the frames that
      were dispatched are key frames, the packets that were read and those that were dispatched. */
  datatype Device = Device(clients: seq<Tracked>, gate: bool, running: bool, keys: seq<bool>, read: seq<Packet>,
    sent: seq<Packet>)

  /** The atomic steps of the program and of its surroundings. */
  datatype Event =
    | Read(p: Packet)                // the thread reads a packet
    | Joined                         // connect_to_rtsp_server appends a client
    | Connected(i: nat)              // a client's connection is made, it is served from now on
    | Refused(i: nat)                // a client's connection is not made, it is deleted
    | Failed(i: nat)                 // a client's connection fails, it is marked
    | Taken(i: nat, n: nat)          // the network takes bytes from the front of an output buffer

  const START := Device([], false, true, [], [], [])

  /** What a frame that is dispatched as the n-th does to a client and its history. */
  function DeliverTracked(t: Tracked, p: Packet, n: nat): Tracked {
    var c := t.c;
    if c.del || !c.send then t
    else
      var t1 := t.(c := Deliver(c, p), log := t.log + [Came(n, p, c.output)]);
      if Full(c.output, p.size) then t1.(mark := n + 1)
      else if c.miss && !IsKey(p) then t1
      else t1.(written := t.written[n := t.mark])
  }

  lemma DeliverTrackedIs(t: Tracked, p: Packet, n: nat)
    ensures DeliverTracked(t, p, n).c == Deliver(t.c, p)
  {
  }

  function FanOutTracked(ts: seq<Tracked>, i: nat, p: Packet, n: nat): (r: seq<Tracked>)
    requires i <= |ts|
    decreases |ts| - i
  {
    if i == |ts| then []
    else if Removed(ts[i].c) then FanOutTracked(ts, i + 1, p, n)
    else [DeliverTracked(ts[i], p, n)] + FanOutTracked(ts, i + 1, p, n)
  }

  function Plain(ts: seq<Tracked>, i: nat): (r: seq<ClientState>)
    requires i <= |ts|
    ensures |r| == |ts| - i && forall k {:trigger r[k]} :: 0 <= k < |r| ==> r[k] == ts[i + k].c
    decreases |ts| - i
  {
    if i == |ts| then [] else [ts[i].c] + Plain(ts, i + 1)
  }

  /** The histories do not change what the pass does. */
  lemma {:induction false} FanOutPlain(ts: seq<Tracked>, i: nat, p: Packet, n: nat)
    requires i <= |ts|
    ensures Plain(FanOutTracked(ts, i, p, n), 0) == FanOut(Plain(ts, 0), i, p)
    decreases |ts| - i
  {
    if i < |ts| {
      FanOutPlain(ts, i + 1, p, n);
      var rest := FanOutTracked(ts, i + 1, p, n);
      if !Removed(ts[i].c) {
        DeliverTrackedIs(ts[i], p, n);
        var r := FanOutTracked(ts, i, p, n);
        assert forall k :: 0 <= k < |rest| ==> r[k + 1] == rest[k];
        assert Plain(r, 0) == [r[0].c] + Plain(rest, 0);
      }
    }
  }

  function OnRead(d: Device, p: Packet): Device {
    if !d.running then d
    else if |d.clients| < 1 then d.(running := false)
    else
      var d1 := d.(gate := GateAfter(d.gate, p), read := d.read + [p]);
      if !Passes(d.gate, p) then d1
      else
        d1.(clients := FanOutTracked(d.clients, 0, p, |d.keys|), keys := d.keys + [IsKey(p)], sent := d.sent + [p])
  }

  function Step(d: Device, e: Event): Device {
    match e
    case Read(p) => OnRead(d, p)
    case Joined => d.(clients := d.clients + [Tracked(ClientState(false, false, false, false, 0), 0, map[], 0, [])])
    case Connected(i) =>
      if i < |d.clients| && !d.clients[i].c.event then
        var t := d.clients[i];
        d.(clients := d.clients[i := t.(c := t.c.(send := true, event := true), since := |d.keys|, mark := |d.keys|)])
      else d
    case Refused(i) =>
      if i < |d.clients| && !d.clients[i].c.event then d.(clients := d.clients[..i] + d.clients[i + 1..]) else d
    case Failed(i) =>
      if i < |d.clients| && d.clients[i].c.event then
        d.(clients := d.clients[i := d.clients[i].(c := d.clients[i].c.(del := true))])
      else d
    case Taken(i, n) =>
      if i < |d.clients| && 0 < n <= d.clients[i].c.output then
        var t := d.clients[i];
        d.(clients := d.clients[i := t.(c := t.c.(output := t.c.output - n), log := t.log + [Took(n)])])
      else d
  }

  function Run(d: Device, es: seq<Event>, k: nat): Device
    requires k <= |es|
  {
    if k == 0 then d else Step(Run(d, es, k - 1), es[k - 1])
  }

  // ---------- groups of pictures ----------

  /** The last key frame at or before i; the very first frame if there is none. */
  function LastKey(keys: seq<bool>, i: nat): (j: nat)
    requires i < |keys|
    ensures j <= i && (j > 0 ==> keys[j]) && forall k :: j < k <= i ==> !keys[k]
  {
    if i == 0 || keys[i] then i else LastKey(keys, i - 1)
  }

  function Max(a: nat, b: nat): nat {
    if a < b then b else a
  }

  /** Where the group of f begins for a client: at the last key frame, or when it was connected. */
  function GroupStart(keys: seq<bool>, since: nat, f: nat): nat
    requires f < |keys|
  {
    Max(LastKey(keys, f), since)
  }

  /** Every frame from one up to f was written, and none of them was drained before the mark. */
  predicate Whole(t: Tracked, start: nat, f: nat, mark: nat) {
    mark <= start && forall j: nat :: start <= j <= f ==> j in t.written
  }

  /** Every frame of the group of f up to f was written. */
  predicate Continuous(t: Tracked, keys: seq<bool>, f: nat, mark: nat)
    requires f < |keys|
  {
    Whole(t, GroupStart(keys, t.since, f), f, mark)
  }

  /** Frame f was written and continues what was written before it. */
  predicate FrameOk(t: Tracked, keys: seq<bool>, f: nat)
    requires f in t.written
  {
    t.since <= f < |keys| && (!keys[f] ==> Continuous(t, keys, f, t.written[f]))
  }

  /** A client that misses nothing has all of the group that is under way. */
  predicate UpToDate(t: Tracked, keys: seq<bool>) {
    t.c.send && !t.c.del && !t.c.miss && t.since < |keys| ==> Continuous(t, keys, |keys| - 1, t.mark)
  }

  /** What holds of every client in every reachable state. */
  predicate ClientOk(t: Tracked, keys: seq<bool>) {
    t.since <= |keys| && t.mark <= |keys| && t.c.output <= LIMIT && (t.c.send ==> t.c.event) &&
    (!t.c.event ==> t.written == map[]) && (forall f :: f in t.written ==> FrameOk(t, keys, f)) && UpToDate(t, keys)
  }

  ghost predicate AllOk(ts: seq<Tracked>, keys: seq<bool>) {
    forall j :: 0 <= j < |ts| ==> ClientOk(ts[j], keys)
  }

  ghost predicate Ok(d: Device) {
    AllOk(d.clients, d.keys) &&
    (d.keys != [] ==> d.keys[0]) && |d.keys| == |d.sent| &&
      (forall i :: 0 <= i < |d.keys| ==> d.keys[i] == IsKey(d.sent[i])) &&
    (d.gate <==> d.keys != [])
  }

  lemma {:induction false} LastKeySame(keys: seq<bool>, k: bool, i: nat)
    requires i < |keys|
    ensures LastKey(keys + [k], i) == LastKey(keys, i)
  {
    if i > 0 && !keys[i] {
      LastKeySame(keys, k, i - 1);
    }
  }

  lemma GroupStartSame(keys: seq<bool>, k: bool, since: nat, f: nat)
    requires f < |keys|
    ensures GroupStart(keys + [k], since, f) == GroupStart(keys, since, f)
  {
    LastKeySame(keys, k, f);
    hide LastKey;
  }

  lemma GroupStartNext(keys: seq<bool>, k: bool, since: nat)
    requires since <= |keys|
    ensures var n := |keys|;
      GroupStart(keys + [k], since, n) == if k || since == n then n else GroupStart(keys, since, n - 1)
  {
    var n := |keys|;
    if !k && n > 0 {
      LastKeySame(keys, k, n - 1);
      assert LastKey(keys + [k], n) == LastKey(keys + [k], n - 1);
    }
  }

  /** What was written stays continuous when frames follow. */
  lemma ContinuousStays(t: Tracked, keys: seq<bool>, k: bool, f: nat, mark: nat)
    requires f < |keys|
    ensures Continuous(t, keys + [k], f, mark) <==> Continuous(t, keys, f, mark)
  {
    GroupStartSame(keys, k, t.since, f);
  }

  lemma FrameStays(t: Tracked, t': Tracked, keys: seq<bool>, k: bool, f: nat)
    requires f in t.written && FrameOk(t, keys, f) && t'.since == t.since
    requires forall j :: j in t.written ==> j in t'.written && t'.written[j] == t.written[j]
    ensures FrameOk(t', keys, f) && FrameOk(t', keys + [k], f)
  {
    if !keys[f] {
      ContinuousMore(t, t', keys, f, t.written[f]);
      ContinuousStays(t', keys, k, f, t.written[f]);
    }
    hide Continuous;
  }

  /** A frame that is written behind frames that were all written goes on with them. */
  lemma ContinuousNext(t: Tracked, keys: seq<bool>, k: bool, mark: nat)
    requires t.since <= |keys| && mark <= |keys| && |keys| in t.written
    requires k || t.since == |keys| || (|keys| > 0 && Continuous(t, keys, |keys| - 1, mark))
    ensures Continuous(t, keys + [k], |keys|, mark)
  {
    var n := |keys|;
    GroupStartNext(keys, k, t.since);
    hide GroupStart;
    if k || t.since == n {
      WholeOne(t, n, mark);
    } else {
      WholeNext(t, GroupStart(keys, t.since, n - 1), n, mark);
    }
  }

  lemma WholeOne(t: Tracked, n: nat, mark: nat)
    requires n in t.written && mark <= n
    ensures Whole(t, n, n, mark)
  {
  }

  lemma WholeNext(t: Tracked, start: nat, n: nat, mark: nat)
    requires n > 0 && Whole(t, start, n - 1, mark) && n in t.written && mark <= n
    ensures Whole(t, start, n, mark)
  {
  }

  lemma WholeMore(t: Tracked, t': Tracked, start: nat, f: nat, mark: nat)
    requires Whole(t, start, f, mark) && forall j :: j in t.written ==> j in t'.written
    ensures Whole(t', start, f, mark)
  {
  }

  /** The test finds room exactly when there is room. */
  lemma FullWithin(output: nat, size: nat)
    requires output <= LIMIT
    ensures Full(output, size) <==> output + size + HEADER > LIMIT
  {
    assert AsInt(output) == output && (LIMIT - output) % SIZE_BOUND == LIMIT - output;
  }

  lemma ContinuousMore(t: Tracked, t': Tracked, keys: seq<bool>, f: nat, mark: nat)
    requires f < |keys| && Continuous(t, keys, f, mark) && t'.since == t.since
    requires forall j :: j in t.written ==> j in t'.written
    ensures Continuous(t', keys, f, mark)
  {
    hide Whole;
    WholeMore(t, t', GroupStart(keys, t.since, f), f, mark);
  }

  /** A client that keeps its history, and of whom no more is claimed. */
  lemma ChangedOk(t: Tracked, t': Tracked, keys: seq<bool>)
    requires ClientOk(t, keys) && t'.since == t.since && t'.written == t.written && t'.mark <= |keys|
    requires t'.c.output <= LIMIT && t'.c.event == t.c.event && t'.c.send == t.c.send
    requires t'.c.del || t'.c.miss || (!t.c.del && !t.c.miss && t'.mark == t.mark)
    ensures ClientOk(t', keys)
  {
    hide FrameOk, Continuous;
    forall f | f in t'.written
      ensures FrameOk(t', keys, f)
    {
      FrameStays(t, t', keys, true, f);
    }
    if t.c.send && !t'.c.del && !t'.c.miss && t.since < |keys| {
      ContinuousMore(t, t', keys, |keys| - 1, t.mark);
    }
  }

  /** A client for whom a frame is not written. */
  lemma PassedOver(t: Tracked, keys: seq<bool>, k: bool)
    requires ClientOk(t, keys) && (t.c.del || !t.c.send || t.c.miss)
    ensures ClientOk(t, keys + [k])
  {
    hide FrameOk, Continuous;
    forall f | f in t.written
      ensures FrameOk(t, keys + [k], f)
    {
      FrameStays(t, t, keys, k, f);
    }
  }

  /** A client for whom a frame is written. */
  lemma WrittenOk(t: Tracked, t': Tracked, keys: seq<bool>, k: bool)
    requires ClientOk(t, keys) && t.c.send && !t.c.del && (!t.c.miss || k) && (keys == [] ==> k)
    requires t'.since == t.since && t'.written == t.written[|keys| := t.mark] && t'.mark == t.mark
    requires t'.c.output <= LIMIT && t'.c.event && t'.c.send
    ensures ClientOk(t', keys + [k])
  {
    var n := |keys|;
    hide FrameOk, Continuous;
    NotYet(t, keys);
    if t.since < n && !k {
      ContinuousMore(t, t', keys, n - 1, t.mark);
    }
    ContinuousNext(t', keys, k, t.mark);
    forall f | f in t'.written
      ensures FrameOk(t', keys + [k], f)
    {
      if f == n {
        FrameIs(t', keys + [k], n);
      } else {
        FrameStays(t, t', keys, k, f);
      }
    }
  }

  lemma NotYet(t: Tracked, keys: seq<bool>)
    requires ClientOk(t, keys)
    ensures |keys| !in t.written
  {
    forall f | f in t.written
      ensures f < |keys|
    {
      assert FrameOk(t, keys, f);
    }
  }

  lemma FrameIs(t: Tracked, keys: seq<bool>, f: nat)
    requires f in t.written && t.since <= f < |keys| && Continuous(t, keys, f, t.written[f])
    ensures FrameOk(t, keys, f)
  {
  }

  /** What is recorded of the frames that came does not matter to what holds. */
  lemma LogFree(t: Tracked, log: seq<Turn>, keys: seq<bool>)
    requires ClientOk(t, keys)
    ensures ClientOk(t.(log := log), keys)
  {
    hide FrameOk, Continuous;
    forall f | f in t.written
      ensures FrameOk(t.(log := log), keys, f)
    {
      FrameStays(t, t.(log := log), keys, true, f);
    }
    if UpToDate(t, keys) && t.since < |keys| {
      MoreLogged(t, log, keys);
    }
  }

  lemma MoreLogged(t: Tracked, log: seq<Turn>, keys: seq<bool>)
    requires t.since < |keys|
    ensures Continuous(t, keys, |keys| - 1, t.mark) ==> Continuous(t.(log := log), keys, |keys| - 1, t.mark)
  {
    hide GroupStart;
  }

  /** The dispatch of a frame keeps what holds of a client. */
  lemma DeliverOk(t: Tracked, p: Packet, keys: seq<bool>)
    requires ClientOk(t, keys) && (keys == [] ==> IsKey(p))
    ensures ClientOk(DeliverTracked(t, p, |keys|), keys + [IsKey(p)])
  {
    var n, k := |keys|, IsKey(p);
    var t' := DeliverTracked(t, p, n);
    FullWithin(t.c.output, p.size);
    LogFree(t, t'.log, keys);
    hide Full, Continuous, ClientOk;
    var t0 := t.(log := t'.log);
    assert t.c.output <= LIMIT && t.mark <= n && (t.c.send ==> t.c.event) by { ClientFacts(t, keys); }
    if t.c.del || !t.c.send {
      PassedOver(t, keys, k);
    } else if Full(t.c.output, p.size) {
      var t1 := t0.(c := t.c.(miss := true));
      ChangedOk(t0, t1, keys);
      PassedOver(t1, keys, k);
      ChangedOk(t1, t', keys + [k]);
    } else if t.c.miss && !k {
      PassedOver(t0, keys, k);
    } else {
      WrittenOk(t0, t', keys, k);
    }
  }

  lemma ClientFacts(t: Tracked, keys: seq<bool>)
    requires ClientOk(t, keys)
    ensures t.c.output <= LIMIT && t.mark <= |keys| && (t.c.send ==> t.c.event)
  {
  }

  lemma {:induction false} FanOutOk(ts: seq<Tracked>, i: nat, p: Packet, keys: seq<bool>)
    requires i <= |ts| && (keys == [] ==> IsKey(p)) && AllOk(ts, keys)
    ensures AllOk(FanOutTracked(ts, i, p, |keys|), keys + [IsKey(p)])
    decreases |ts| - i
  {
    hide ClientOk, DeliverTracked;
    if i < |ts| {
      FanOutOk(ts, i + 1, p, keys);
      DeliverOk(ts[i], p, keys);
    }
  }

  lemma ReadOk(d: Device, p: Packet)
    requires Ok(d)
    ensures Ok(OnRead(d, p))
  {
    hide ClientOk, AllOk, FanOutTracked;
    if d.running && |d.clients| >= 1 && Passes(d.gate, p) {
      FanOutOk(d.clients, 0, p, d.keys);
      SentOk(d, p);
    }
  }

  /** Every step keeps what holds. */
  lemma StepOk(d: Device, e: Event)
    requires Ok(d)
    ensures Ok(Step(d, e))
  {
    hide ClientOk, OnRead;
    match e
    case Read(p) => ReadOk(d, p);
    case Joined => NewOk(d.keys);
    case Connected(i) =>
      if i < |d.clients| && !d.clients[i].c.event {
        ConnectedOk(d.clients[i], d.keys);
      }
    case Refused(i) =>
    case Failed(i) =>
      if i < |d.clients| && d.clients[i].c.event {
        var t := d.clients[i];
        ClientFacts(t, d.keys);
        ChangedOk(t, t.(c := t.c.(del := true)), d.keys);
      }
    case Taken(i, n) =>
      if i < |d.clients| && 0 < n <= d.clients[i].c.output {
        var t := d.clients[i];
        ClientFacts(t, d.keys);
        ChangedOk(t, t.(c := t.c.(output := t.c.output - n), log := t.log + [Took(n)]), d.keys);
      }
  }

  /** The records of what was dispatched agree after a frame was let through. */
  lemma SentOk(d: Device, p: Packet)
    requires Ok(d) && Passes(d.gate, p)
    ensures var keys, sent := d.keys + [IsKey(p)], d.sent + [p];
      keys[0] && |keys| == |sent| && (forall i :: 0 <= i < |keys| ==> keys[i] == IsKey(sent[i])) && GateAfter(d.gate, p)
  {
    hide ClientOk, AllOk;
  }

  lemma NewOk(keys: seq<bool>)
    ensures ClientOk(Tracked(ClientState(false, false, false, false, 0), 0, map[], 0, []), keys)
  {
  }

  lemma ConnectedOk(t: Tracked, keys: seq<bool>)
    requires ClientOk(t, keys) && !t.c.event
    ensures ClientOk(t.(c := t.c.(send := true, event := true), since := |keys|, mark := |keys|), keys)
  {
  }

  lemma {:induction false} RunOk(es: seq<Event>, k: nat)
    requires k <= |es|
    ensures Ok(Run(START, es, k))
  {
    hide Ok;
    if k == 0 {
      StartOk();
    } else {
      RunOk(es, k - 1);
      StepOk(Run(START, es, k - 1), es[k - 1]);
    }
  }

  lemma StartOk()
    ensures Ok(START)
  {
  }

  /** In every run, a frame that is no key frame and was written for a client continues what was
      written for it since the last key frame, or since it was connected, and nothing of that had
      been drained when it was written. */
  lemma GroupsOfPictures(es: seq<Event>, k: nat, i: nat, f: nat, j: nat)
    requires k <= |es| && i < |Run(START, es, k).clients|
    requires var d := Run(START, es, k); var t := d.clients[i];
      f in t.written && f < |d.keys| && !d.keys[f] && GroupStart(d.keys, t.since, f) <= j <= f
    ensures var t := Run(START, es, k).clients[i]; j in t.written && j >= t.written[f]
  {
    RunOk(es, k);
    var d := Run(START, es, k);
    assert ClientOk(d.clients[i], d.keys);
    assert FrameOk(d.clients[i], d.keys, f);
  }

  /** In every run, no output buffer ever holds more than its limit. */
  lemma QueueBound(es: seq<Event>, k: nat, i: nat)
    requires k <= |es| && i < |Run(START, es, k).clients|
    ensures Run(START, es, k).clients[i].c.output <= LIMIT
  {
    RunOk(es, k);
    assert ClientOk(Run(START, es, k).clients[i], Run(START, es, k).keys);
  }

  // ---------- the gate ----------

  predicate Opens(p: Packet) {
    p.stream == Video && IsKey(p) && p.pts > 0
  }

  /** The first packet from i on that opens the gate, or the number of packets. */
  function FirstOpening(ps: seq<Packet>, i: nat): (o: nat)
    requires i <= |ps|
    ensures i <= o <= |ps| && (o < |ps| ==> Opens(ps[o])) && forall j :: i <= j < o ==> !Opens(ps[j])
    decreases |ps| - i
  {
    if i == |ps| || Opens(ps[i]) then i else FirstOpening(ps, i + 1)
  }

  /** The video packets among the first n, from i on. */
  function VideoOnly(ps: seq<Packet>, i: nat, n: nat): seq<Packet>
    requires i <= n <= |ps|
    decreases n
  {
    if i == n then [] else VideoOnly(ps, i, n - 1) + if ps[n - 1].stream == Video then [ps[n - 1]] else []
  }

  /** The packets dispatched are the video packets from the first opening one on. */
  predicate Gated(d: Device) {
    var o := FirstOpening(d.read, 0);
    d.sent == VideoOnly(d.read, o, |d.read|) && (d.gate <==> o < |d.read|)
  }

  lemma {:induction false} FirstOpeningMore(ps: seq<Packet>, p: Packet, i: nat)
    requires i <= |ps|
    ensures FirstOpening(ps + [p], i) ==
      if FirstOpening(ps, i) < |ps| then FirstOpening(ps, i) else if Opens(p) then |ps| else |ps| + 1
    decreases |ps| - i
  {
    if i < |ps| && !Opens(ps[i]) {
      FirstOpeningMore(ps, p, i + 1);
    }
  }

  lemma {:induction false} VideoOnlyMore(ps: seq<Packet>, p: Packet, i: nat, n: nat)
    requires i <= n <= |ps|
    ensures VideoOnly(ps + [p], i, n) == VideoOnly(ps, i, n)
    decreases n
  {
    if i < n {
      VideoOnlyMore(ps, p, i, n - 1);
    }
  }

  lemma GatedStep(d: Device, e: Event)
    requires Gated(d)
    ensures Gated(Step(d, e))
  {
    if e.Read? && d.running && |d.clients| >= 1 {
      FirstOpeningMore(d.read, e.p, 0);
      var o := FirstOpening(d.read, 0);
      VideoOnlyMore(d.read, e.p, o, |d.read|);
    }
  }

  /** In every run, what is dispatched is the video from the first key frame with a positive pts
      on, and nothing before it. */
  lemma {:induction false} GateExactly(es: seq<Event>, k: nat)
    requires k <= |es|
    ensures Gated(Run(START, es, k))
  {
    if k > 0 {
      GateExactly(es, k - 1);
      hide Gated;
      GatedStep(Run(START, es, k - 1), es[k - 1]);
    }
  }
}
