/** The opening of devices: requests for one device share one connection probe. Every callback is
    an atomic step. */
module DeviceOpening {
  import opened Bytes
  import opened Seqs
  import UrlCode

  /** MAX_DEV_ID_LEN */
  const MAX_DEV_ID_LEN := 256

  // ---------- devices, probes and requests ----------

  datatype Key = Key(id: seq<byte>, chnl: int, streamType: int)

  datatype Status = CONNECTED | CONNECTING | DISCONNECT | NONE

  /** A node of the device list; node stands for its address, waiting for the requests in its list
      of waiting clients. */
  datatype Dev = Dev(node: nat, key: Key, status: Status, waiting: seq<nat>)

  /** A connection that is probed, for the device of that key and at that address, and which of the
      two callbacks reads from it. */
  datatype Probe = Probe(node: nat, key: Key, digest: bool)

  /** The device list, the probes in flight, and a record of what became of the requests, which
      are numbered as they come. */
  datatype Box = Box(devs: seq<Dev>, probes: seq<Probe>, nodes: nat, requests: nat,
                     answered: seq<nat>, abandoned: seq<nat>, lost: seq<nat>, ignored: seq<nat>)

  const START := Box([], [], 0, 0, [], [], [], [])

  /** What the device said to a DESCRIBE with basic authentication. */
  datatype Reply = Usable | Unusable | DigestChallenge

  datatype Event =
    | OpenVideo(key: Key, known: bool)  // deal_open_video_cmd; known: the data base has the device
    | ProbeFails(i: nat)                // active_connect_eventcb, without a connection
    | Basic(i: nat, reply: Reply)       // read_dev_sdp_basic_cb
    | Digest(i: nat)                    // read_dev_sdp_digest_cb
    | Removed(i: nat)                   // the device is taken off the list

  // ---------- searching ----------

  /** The id that is looked for: the id of the request, decoded, as a C string. */
  function SeekId(id: seq<byte>): seq<byte> {
    CString(UrlCode.Decoded(UrlCode.Taken(id, |id|), 0, MAX_DEV_ID_LEN).bytes, 0)
  }

  function SeekKey(key: Key): Key {
    key.(id := SeekId(key.id))
  }

  /** list_seek with DevSeeker: the first device with the key, or the length of the list. */
  function Find(devs: seq<Dev>, key: Key, i: nat): (r: nat)
    requires i <= |devs|
    ensures i <= r <= |devs| && (r < |devs| ==> devs[r].key == key) && forall j :: i <= j < r ==> devs[j].key != key
    decreases |devs| - i
  {
    if i == |devs| || devs[i].key == key then i else Find(devs, key, i + 1)
  }

  /** Where in the list a node stands, or the length of the list. */
  function FindNode(devs: seq<Dev>, node: nat, i: nat): (r: nat)
    requires i <= |devs|
    ensures i <= r <= |devs| && (r < |devs| ==> devs[r].node == node) && forall j :: i <= j < r ==> devs[j].node != node
    decreases |devs| - i
  {
    if i == |devs| || devs[i].node == node then i else FindNode(devs, node, i + 1)
  }

  // ---------- steps ----------

  function OnOpen(b: Box, key: Key, known: bool): Box {
    var r := b.requests;
    var b1 := b.(requests := r + 1);
    var i := Find(b.devs, SeekKey(key), 0);
    if i == |b.devs| then
      if known then
        b1.(devs := b.devs + [Dev(b.nodes, key, CONNECTING, [r])], probes := b.probes + [Probe(b.nodes, key, false)],
          nodes := b.nodes + 1)
      else b1.(abandoned := b.abandoned + [r])
    else if b.devs[i].status == CONNECTED then b1.(answered := b.answered + [r])
    else if b.devs[i].status == CONNECTING then
      b1.(devs := b.devs[i := b.devs[i].(waiting := b.devs[i].waiting + [r])])
    else b1.(ignored := b.ignored + [r])
  }

  /** The probe ends without success and the device is removed with all that wait for it. */
  function OnFail(b: Box, i: nat): Box
    requires i < |b.probes|
  {
    var d := FindNode(b.devs, b.probes[i].node, 0);
    var b1 := b.(probes := Without(b.probes, i));
    if d == |b.devs| then b1
    else b1.(devs := Without(b.devs, d), abandoned := b.abandoned + b.devs[d].waiting)
  }

  /** The probe ends, the device is connected and all that wait for it are answered. */
  function OnSuccess(b: Box, i: nat): Box
    requires i < |b.probes|
  {
    var d := FindNode(b.devs, b.probes[i].node, 0);
    var b1 := b.(probes := Without(b.probes, i));
    if d == |b.devs| then b1
    else
      b1.(devs := b.devs[d := b.devs[d].(status := CONNECTED, waiting := [])],
        answered := b.answered + b.devs[d].waiting)
  }

  /** The end of the thread that reads a device deletes the node, and so does the connection of its
      last client if it fails before the thread is marked as started. Neither looks at the status: a
      push command connects clients to any listed device. What waits there is not told. */
  function OnRemove(b: Box, i: nat): Box
    requires i < |b.devs|
  {
    b.(devs := Without(b.devs, i), lost := b.lost + b.devs[i].waiting)
  }

  function Step(b: Box, e: Event): Box {
    match e
    case OpenVideo(key, known) => OnOpen(b, key, known)
    case ProbeFails(i) => if i < |b.probes| then OnFail(b, i) else b
    case Basic(i, reply) =>
      if i >= |b.probes| || b.probes[i].digest then b
      else
        (match reply
         case Usable => OnSuccess(b, i)
         case Unusable => b.(probes := Without(b.probes, i))
         case DigestChallenge => b.(probes := b.probes[i := b.probes[i].(digest := true)]))
    case Digest(i) => if i < |b.probes| && b.probes[i].digest then OnSuccess(b, i) else b
    case Removed(i) => if i < |b.devs| then OnRemove(b, i) else b
  }

  function Run(es: seq<Event>, k: nat): Box
    requires k <= |es|
  {
    if k == 0 then START else Step(Run(es, k - 1), es[k - 1])
  }

  // ---------- the ledger ----------

  function Count(s: seq<nat>, r: nat): nat {
    multiset(s)[r]
  }

  /** How often a request waits for one of the first n devices. */
  function Waits(devs: seq<Dev>, r: nat, n: nat): nat
    requires n <= |devs|
  {
    if n == 0 then 0 else Waits(devs, r, n - 1) + Count(devs[n - 1].waiting, r)
  }

  /** How often a request is accounted for. */
  function Total(b: Box, r: nat): nat {
    Waits(b.devs, r, |b.devs|) + Count(b.answered, r) + Count(b.abandoned, r) + Count(b.lost, r)
  }

  /** Every request is in exactly one place, once, and no other is anywhere. */
  ghost predicate Balanced(b: Box) {
    b.ignored == [] && forall r: nat :: Total(b, r) == if r < b.requests then 1 else 0
  }

  /** The nodes of the list are different; a device is being connected or connected, and nothing
      waits for one that is connected. */
  predicate DevsOk(devs: seq<Dev>, nodes: nat) {
    (forall i :: 0 <= i < |devs| ==> devs[i].node < nodes) &&
    (forall i, j :: 0 <= i < j < |devs| ==> devs[i].node != devs[j].node) &&
    (forall i :: 0 <= i < |devs| ==>
      devs[i].status == CONNECTING || (devs[i].status == CONNECTED && devs[i].waiting == []))
  }

  /** Every probe has a node of its own: a device that is being connected, or one that is gone. */
  predicate ProbesOk(b: Box) {
    (forall i :: 0 <= i < |b.probes| ==>
      b.probes[i].node < b.nodes && (Probed(b.devs, b.probes[i].node) || Deleted(b.devs, b.probes[i].node))) &&
    (forall i, j :: 0 <= i < j < |b.probes| ==> b.probes[i].node != b.probes[j].node)
  }

  predicate Probed(devs: seq<Dev>, node: nat) {
    var d := FindNode(devs, node, 0);
    d < |devs| && devs[d].status == CONNECTING
  }

  predicate Deleted(devs: seq<Dev>, node: nat) {
    FindNode(devs, node, 0) == |devs|
  }

  predicate AllProbed(b: Box) {
    forall i :: 0 <= i < |b.probes| ==> Probed(b.devs, b.probes[i].node)
  }

  /** A probe for the node is in flight. */
  predicate InFlight(b: Box, node: nat) {
    exists j :: 0 <= j < |b.probes| && b.probes[j].node == node
  }

  /** The step removes a device that is being probed. */
  predicate Orphans(b: Box, e: Event) {
    e.Removed? && e.i < |b.devs| && InFlight(b, b.devs[e.i].node)
  }

  // What the steps do to the requests that wait.

  lemma CountConcat(s: seq<nat>, t: seq<nat>, r: nat)
    ensures Count(s + t, r) == Count(s, r) + Count(t, r)
  {
  }

  lemma CountOne(x: nat, r: nat)
    ensures Count([x], r) == (if r == x then 1 else 0) && Count([], r) == 0
  {
  }

  lemma {:induction false} WaitsSame(a: seq<Dev>, b: seq<Dev>, r: nat, n: nat)
    requires n <= |a| && n <= |b| && forall i :: 0 <= i < n ==> a[i].waiting == b[i].waiting
    ensures Waits(a, r, n) == Waits(b, r, n)
  {
    if n > 0 {
      WaitsSame(a, b, r, n - 1);
    }
  }

  lemma {:induction false} WaitsChanged(devs: seq<Dev>, i: nat, d: Dev, r: nat, n: nat)
    requires i < n <= |devs|
    ensures Waits(devs[i := d], r, n) + Count(devs[i].waiting, r) == Waits(devs, r, n) + Count(d.waiting, r)
  {
    hide Count;
    if n - 1 == i {
      WaitsSame(devs, devs[i := d], r, i);
    } else {
      WaitsChanged(devs, i, d, r, n - 1);
    }
  }

  lemma {:induction false} WaitsWithout(devs: seq<Dev>, i: nat, r: nat, n: nat)
    requires i < n <= |devs|
    ensures Waits(Without(devs, i), r, n - 1) + Count(devs[i].waiting, r) == Waits(devs, r, n)
  {
    hide Count, Without;
    if n - 1 == i {
      WaitsSame(devs, Without(devs, i), r, i);
    } else {
      WaitsWithout(devs, i, r, n - 1);
      assert Without(devs, i)[n - 2] == devs[n - 1];
    }
  }

  lemma WaitsMore(devs: seq<Dev>, d: Dev, r: nat)
    ensures Waits(devs + [d], r, |devs| + 1) == Waits(devs, r, |devs|) + Count(d.waiting, r)
  {
    WaitsSame(devs, devs + [d], r, |devs|);
  }

  // ---------- every step keeps the ledger ----------

  lemma TotalOpen(b: Box, key: Key, known: bool, r: nat)
    requires forall i :: 0 <= i < |b.devs| ==> b.devs[i].status == CONNECTED || b.devs[i].status == CONNECTING
    ensures Total(OnOpen(b, key, known), r) == Total(b, r) + if r == b.requests then 1 else 0
    ensures OnOpen(b, key, known).ignored == b.ignored
  {
    var i := Find(b.devs, SeekKey(key), 0);
    hide SeekKey, Count, Waits;
    CountOne(b.requests, r);
    CountConcat(b.answered, [b.requests], r);
    CountConcat(b.abandoned, [b.requests], r);
    if i == |b.devs| {
      WaitsMore(b.devs, Dev(b.nodes, key, CONNECTING, [b.requests]), r);
    } else {
      var w := b.devs[i].waiting;
      CountConcat(w, [b.requests], r);
      WaitsChanged(b.devs, i, b.devs[i].(waiting := w + [b.requests]), r, |b.devs|);
    }
  }

  lemma TotalFail(b: Box, i: nat, r: nat)
    requires i < |b.probes|
    ensures Total(OnFail(b, i), r) == Total(b, r)
  {
    hide Count, Waits, Without;
    var d := FindNode(b.devs, b.probes[i].node, 0);
    if d < |b.devs| {
      CountConcat(b.abandoned, b.devs[d].waiting, r);
      WaitsWithout(b.devs, d, r, |b.devs|);
    }
  }

  lemma TotalSuccess(b: Box, i: nat, r: nat)
    requires i < |b.probes|
    ensures Total(OnSuccess(b, i), r) == Total(b, r)
  {
    hide Count, Waits, Without;
    var d := FindNode(b.devs, b.probes[i].node, 0);
    if d < |b.devs| {
      CountOne(0, r);
      CountConcat(b.answered, b.devs[d].waiting, r);
      WaitsChanged(b.devs, d, b.devs[d].(status := CONNECTED, waiting := []), r, |b.devs|);
    }
  }

  lemma TotalRemove(b: Box, i: nat, r: nat)
    requires i < |b.devs|
    ensures Total(OnRemove(b, i), r) == Total(b, r)
  {
    hide Count, Waits, Without;
    CountConcat(b.lost, b.devs[i].waiting, r);
    WaitsWithout(b.devs, i, r, |b.devs|);
  }

  /** A request is accounted for when it comes, and never again. */
  lemma TotalStep(b: Box, e: Event, r: nat)
    requires DevsOk(b.devs, b.nodes)
    ensures Total(Step(b, e), r) == Total(b, r) + if e.OpenVideo? && r == b.requests then 1 else 0
    ensures Step(b, e).ignored == b.ignored && Step(b, e).requests == b.requests + if e.OpenVideo? then 1 else 0
  {
    hide Total, Find, FindNode, Without;
    match e
    case OpenVideo(key, known) => TotalOpen(b, key, known, r);
    case ProbeFails(i) =>
      if i < |b.probes| {
        TotalFail(b, i, r);
      }
    case Basic(i, reply) =>
      if i < |b.probes| {
        TotalSuccess(b, i, r);
        TotalProbes(b, Without(b.probes, i), r);
        TotalProbes(b, b.probes[i := b.probes[i].(digest := true)], r);
      }
    case Digest(i) =>
      if i < |b.probes| {
        TotalSuccess(b, i, r);
      }
    case Removed(i) =>
      if i < |b.devs| {
        TotalRemove(b, i, r);
      }
  }

  lemma TotalProbes(b: Box, probes: seq<Probe>, r: nat)
    ensures Total(b.(probes := probes), r) == Total(b, r)
  {
  }

  lemma BalancedStep(b: Box, e: Event)
    requires Balanced(b) && DevsOk(b.devs, b.nodes)
    ensures Balanced(Step(b, e))
  {
    hide Total, Step;
    forall r: nat
      ensures Total(Step(b, e), r) == if r < Step(b, e).requests then 1 else 0
    {
      TotalStep(b, e, r);
    }
    TotalStep(b, e, 0);
  }

  // ---------- every step keeps list and probes in order ----------

  lemma FindNodeIs(devs: seq<Dev>, nodes: nat, i: nat)
    requires DevsOk(devs, nodes) && i < |devs|
    ensures FindNode(devs, devs[i].node, 0) == i
  {
    forall j | 0 <= j < |devs| && j != i
      ensures devs[j].node != devs[i].node
    {
    }
    hide FindNode;
  }

  lemma DevsChanged(devs: seq<Dev>, nodes: nat, i: nat, d: Dev)
    requires DevsOk(devs, nodes) && i < |devs| && d.node == devs[i].node
    requires d.status == CONNECTING || (d.status == CONNECTED && d.waiting == [])
    ensures DevsOk(devs[i := d], nodes)
  {
  }

  lemma DevsWithout(devs: seq<Dev>, nodes: nat, i: nat)
    requires DevsOk(devs, nodes) && i < |devs|
    ensures DevsOk(Without(devs, i), nodes)
  {
  }

  lemma DevsMore(devs: seq<Dev>, nodes: nat, d: Dev)
    requires DevsOk(devs, nodes) && d.node == nodes && d.status == CONNECTING
    ensures DevsOk(devs + [d], nodes + 1)
  {
  }

  ghost predicate Orderly(b: Box) {
    DevsOk(b.devs, b.nodes) && ProbesOk(b)
  }

  /** A node's place among the devices, by what they are. */
  lemma NodeAt(devs: seq<Dev>, nodes: nat, node: nat)
    requires DevsOk(devs, nodes)
    ensures Deleted(devs, node) <==> forall j :: 0 <= j < |devs| ==> devs[j].node != node
    ensures forall j :: 0 <= j < |devs| && devs[j].node == node ==>
      (Probed(devs, node) <==> devs[j].status == CONNECTING)
  {
    forall j | 0 <= j < |devs| && devs[j].node == node
      ensures FindNode(devs, node, 0) == j
    {
      FindNodeIs(devs, nodes, j);
    }
    hide DevsOk;
  }

  /** What a step leaves as it is for the node of a probe. */
  ghost predicate Carried(devs: seq<Dev>, devs': seq<Dev>, node: nat) {
    (Probed(devs, node) ==> Probed(devs', node)) && (Deleted(devs, node) ==> Deleted(devs', node))
  }

  lemma OpenCarries(b: Box, key: Key, known: bool, node: nat)
    requires DevsOk(b.devs, b.nodes) && node < b.nodes
    ensures DevsOk(OnOpen(b, key, known).devs, OnOpen(b, key, known).nodes)
    ensures Carried(b.devs, OnOpen(b, key, known).devs, node)
  {
    var i, b' := Find(b.devs, SeekKey(key), 0), OnOpen(b, key, known);
    hide SeekKey, Find;
    OpenDevs(b, key, known);
    NodeAt(b.devs, b.nodes, node);
    NodeAt(b'.devs, b'.nodes, node);
    hide DevsOk, Probed, Deleted;
    var d := FindNode(b.devs, node, 0);
    if d < |b.devs| {
      assert b'.devs[d].node == node && b'.devs[d].status == b.devs[d].status;
    } else {
      assert forall j :: 0 <= j < |b.devs| ==> b'.devs[j].node == b.devs[j].node;
    }
  }

  lemma OpenDevs(b: Box, key: Key, known: bool)
    requires DevsOk(b.devs, b.nodes)
    ensures DevsOk(OnOpen(b, key, known).devs, OnOpen(b, key, known).nodes)
  {
    var i, r := Find(b.devs, SeekKey(key), 0), b.requests;
    hide SeekKey, Find;
    if i == |b.devs| {
      DevsMore(b.devs, b.nodes, Dev(b.nodes, key, CONNECTING, [r]));
    } else if b.devs[i].status == CONNECTING {
      DevsChanged(b.devs, b.nodes, i, b.devs[i].(waiting := b.devs[i].waiting + [r]));
    }
  }

  lemma WithoutCarries(devs: seq<Dev>, nodes: nat, i: nat, node: nat)
    requires DevsOk(devs, nodes) && i < |devs|
    ensures DevsOk(Without(devs, i), nodes)
    ensures devs[i].node != node || devs[i].status != CONNECTING ==> Carried(devs, Without(devs, i), node)
    ensures devs[i].node == node ==> Deleted(Without(devs, i), node)
  {
    var devs' := Without(devs, i);
    DevsWithout(devs, nodes, i);
    NodeAt(devs, nodes, node);
    NodeAt(devs', nodes, node);
    var d := FindNode(devs, node, 0);
    if d < |devs| && d != i {
      assert devs'[if d < i then d else d - 1] == devs[d];
    }
    hide Probed, Deleted;
  }

  lemma ChangeCarries(devs: seq<Dev>, nodes: nat, i: nat, d: Dev, node: nat)
    requires DevsOk(devs, nodes) && i < |devs| && d.node == devs[i].node != node
    requires d.status == CONNECTING || (d.status == CONNECTED && d.waiting == [])
    ensures DevsOk(devs[i := d], nodes) && Carried(devs, devs[i := d], node)
  {
    var devs' := devs[i := d];
    DevsChanged(devs, nodes, i, d);
    NodeAt(devs, nodes, node);
    NodeAt(devs', nodes, node);
    var k := FindNode(devs, node, 0);
    if k < |devs| {
      assert devs'[k] == devs[k];
    } else {
      assert forall j :: 0 <= j < |devs| ==> devs'[j].node == devs[j].node;
    }
    hide DevsOk, Probed;
  }

  /** The probe that ends was the only one for its node, so the others are not touched. */
  lemma EndCarries(b: Box, i: nat, b': Box, node: nat)
    requires Orderly(b) && i < |b.probes| && b' in {OnFail(b, i), OnSuccess(b, i)}
    ensures DevsOk(b'.devs, b'.nodes) && b'.nodes == b.nodes && b'.probes == Without(b.probes, i)
    ensures node != b.probes[i].node ==> Carried(b.devs, b'.devs, node)
  {
    var d := FindNode(b.devs, b.probes[i].node, 0);
    hide ProbesOk, DevsOk, Without, FindNode;
    if d < |b.devs| {
      WithoutCarries(b.devs, b.nodes, d, node);
      var dev := b.devs[d].(status := CONNECTED, waiting := []);
      if node != b.probes[i].node {
        ChangeCarries(b.devs, b.nodes, d, dev, node);
      } else {
        DevsChanged(b.devs, b.nodes, d, dev);
      }
    }
  }

  /** What holds of the probes when each of them was there before, is not touched or deleted. */
  lemma ProbesKept(b: Box, b': Box)
    requires ProbesOk(b) && DevsOk(b'.devs, b'.nodes) && b'.nodes >= b.nodes
    requires forall j :: 0 <= j < |b'.probes| ==>
      exists k :: 0 <= k < |b.probes| && b.probes[k].node == b'.probes[j].node
    requires forall i, j :: 0 <= i < j < |b'.probes| ==> b'.probes[i].node != b'.probes[j].node
    requires forall j :: 0 <= j < |b'.probes| ==> Carried(b.devs, b'.devs, b'.probes[j].node)
    ensures Orderly(b') && (AllProbed(b) ==> AllProbed(b'))
  {
    hide DevsOk, Probed, Deleted;
  }

  lemma OrderlyOpen(b: Box, key: Key, known: bool)
    requires Orderly(b)
    ensures Orderly(OnOpen(b, key, known)) && (AllProbed(b) ==> AllProbed(OnOpen(b, key, known)))
  {
    var b' := OnOpen(b, key, known);
    OpenDevs(b, key, known);
    forall j | 0 <= j < |b.probes|
      ensures Carried(b.devs, b'.devs, b.probes[j].node)
    {
      OpenCarries(b, key, known, b.probes[j].node);
    }
    if Find(b.devs, SeekKey(key), 0) == |b.devs| && known {
      FindNodeIs(b'.devs, b'.nodes, |b.devs|);
      assert Probed(b'.devs, b.nodes);
    }
    hide SeekKey, DevsOk, Find, FindNode, Deleted;
  }

  lemma OrderlyEnd(b: Box, i: nat, b': Box)
    requires Orderly(b) && i < |b.probes| && b' in {OnFail(b, i), OnSuccess(b, i)}
    ensures Orderly(b') && (AllProbed(b) ==> AllProbed(b'))
  {
    EndCarries(b, i, b', 0);
    forall j | 0 <= j < |b'.probes|
      ensures Carried(b.devs, b'.devs, b'.probes[j].node)
      ensures exists k :: 0 <= k < |b.probes| && b.probes[k].node == b'.probes[j].node
    {
      var k := if j < i then j else j + 1;
      assert b'.probes[j] == b.probes[k];
      EndCarries(b, i, b', b.probes[k].node);
    }
    hide OnFail, OnSuccess, DevsOk, Carried, Probed, Deleted;
    ProbesKept(b, b');
  }

  lemma OrderlyRemove(b: Box, i: nat)
    requires Orderly(b) && i < |b.devs|
    ensures Orderly(OnRemove(b, i))
    ensures AllProbed(b) ==> (AllProbed(OnRemove(b, i)) <==> !InFlight(b, b.devs[i].node))
  {
    var b' := OnRemove(b, i);
    DevsWithout(b.devs, b.nodes, i);
    forall j | 0 <= j < |b.probes|
      ensures Probed(b'.devs, b.probes[j].node) || Deleted(b'.devs, b.probes[j].node)
      ensures b.probes[j].node == b.devs[i].node ==> !Probed(b'.devs, b.probes[j].node)
      ensures b.probes[j].node != b.devs[i].node && Probed(b.devs, b.probes[j].node) ==>
        Probed(b'.devs, b.probes[j].node)
    {
      WithoutCarries(b.devs, b.nodes, i, b.probes[j].node);
      ProbedListed(b'.devs, b.probes[j].node);
    }
    hide DevsOk, Probed, Deleted;
  }

  lemma ProbedListed(devs: seq<Dev>, node: nat)
    ensures !(Probed(devs, node) && Deleted(devs, node))
  {
  }

  /** A probe that is given up, or goes on with digest authentication. */
  lemma OrderlyProbe(b: Box, i: nat)
    requires Orderly(b) && i < |b.probes|
    ensures var b1 := b.(probes := Without(b.probes, i)); Orderly(b1) && (AllProbed(b) ==> AllProbed(b1))
    ensures var b2 := b.(probes := b.probes[i := b.probes[i].(digest := true)]);
      Orderly(b2) && (AllProbed(b) ==> AllProbed(b2))
  {
    hide DevsOk, Probed, Deleted;
  }

  lemma OrderlyStep(b: Box, e: Event)
    requires Orderly(b)
    ensures Orderly(Step(b, e))
    ensures AllProbed(b) ==> (AllProbed(Step(b, e)) <==> !Orphans(b, e))
  {
    hide Orderly, AllProbed, InFlight, Without, OnOpen, OnFail, OnSuccess, OnRemove;
    match e
    case OpenVideo(key, known) => OrderlyOpen(b, key, known);
    case ProbeFails(i) =>
      if i < |b.probes| {
        OrderlyEnd(b, i, OnFail(b, i));
      }
    case Basic(i, reply) =>
      if i < |b.probes| {
        OrderlyEnd(b, i, OnSuccess(b, i));
        OrderlyProbe(b, i);
      }
    case Digest(i) =>
      if i < |b.probes| {
        OrderlyEnd(b, i, OnSuccess(b, i));
      }
    case Removed(i) =>
      if i < |b.devs| {
        OrderlyRemove(b, i);
      }
  }

  lemma {:induction false} RunOk(es: seq<Event>, k: nat)
    requires k <= |es|
    ensures Orderly(Run(es, k)) && Balanced(Run(es, k))
  {
    if k > 0 {
      RunOk(es, k - 1);
      hide Balanced, Step, ProbesOk, DevsOk;
      BalancedStep(Run(es, k - 1), es[k - 1]);
      OrderlyStep(Run(es, k - 1), es[k - 1]);
    }
  }

  // ---------- what holds in every run ----------

  /** Every request that came was answered once, or waits in one device, or was abandoned by a
      failed lookup or probe, or was lost with its device, and only one of these. */
  lemma Ledger(es: seq<Event>, k: nat, r: nat)
    requires k <= |es|
    ensures var b := Run(es, k);
      Waits(b.devs, r, |b.devs|) + Count(b.answered, r) + Count(b.abandoned, r) + Count(b.lost, r) ==
        if r < b.requests then 1 else 0
  {
    RunOk(es, k);
    assert Total(Run(es, k), r) == if r < Run(es, k).requests then 1 else 0;
  }

  /** The step removes a device that requests wait for. */
  predicate Loses(b: Box, e: Event) {
    e.Removed? && e.i < |b.devs| && b.devs[e.i].waiting != []
  }

  predicate LosesAt(es: seq<Event>, j: nat)
    requires j < |es|
  {
    Loses(Run(es, j), es[j])
  }

  lemma LostStep(b: Box, e: Event)
    ensures |Step(b, e).lost| >= |b.lost|
    ensures Step(b, e).lost == b.lost <==> !Loses(b, e)
  {
    hide Without, OnOpen;
    if e.OpenVideo? {
      OpenKeepsLost(b, e.key, e.known);
    }
  }

  lemma OpenKeepsLost(b: Box, key: Key, known: bool)
    ensures OnOpen(b, key, known).lost == b.lost
  {
    hide SeekKey;
  }

  lemma LostNext(es: seq<Event>, k: nat)
    requires 0 < k <= |es|
    ensures Run(es, k).lost == [] <==> Run(es, k - 1).lost == [] && !LosesAt(es, k - 1)
  {
    hide Step, Loses;
    LostStep(Run(es, k - 1), es[k - 1]);
  }

  /** No request is lost if and only if no device is removed while requests wait for it. */
  lemma {:induction false} LostExactly(es: seq<Event>, k: nat)
    requires k <= |es|
    ensures Run(es, k).lost == [] <==> forall j :: 0 <= j < k ==> !LosesAt(es, j)
  {
    hide LosesAt, Run;
    if k > 0 {
      LostExactly(es, k - 1);
      LostNext(es, k);
    } else {
      RunStart(es);
    }
  }

  /** The step removes a device that the request waits for. */
  predicate LosesOne(b: Box, e: Event, r: nat) {
    e.Removed? && e.i < |b.devs| && r in b.devs[e.i].waiting
  }

  predicate LosesOneAt(es: seq<Event>, j: nat, r: nat)
    requires j < |es|
  {
    LosesOne(Run(es, j), es[j], r)
  }

  lemma LosesOneStep(b: Box, e: Event, r: nat)
    ensures r in Step(b, e).lost <==> r in b.lost || LosesOne(b, e, r)
  {
    hide Without, SeekKey, Find, FindNode;
  }

  lemma LosesOneNext(es: seq<Event>, k: nat, r: nat)
    requires 0 < k <= |es|
    ensures r in Run(es, k).lost <==> r in Run(es, k - 1).lost || LosesOneAt(es, k - 1, r)
  {
    hide Step, LosesOne;
    LosesOneStep(Run(es, k - 1), es[k - 1], r);
  }

  /** The requests that are lost are exactly those that waited for a device when it was removed. */
  lemma {:induction false} LostWhich(es: seq<Event>, k: nat, r: nat)
    requires k <= |es|
    ensures r in Run(es, k).lost <==> exists j :: 0 <= j < k && LosesOneAt(es, j, r)
  {
    hide LosesOneAt, Run;
    if k > 0 {
      LostWhich(es, k - 1, r);
      LosesOneNext(es, k, r);
    } else {
      RunStart(es);
    }
  }

  lemma RunStart(es: seq<Event>)
    ensures Run(es, 0) == START
  {
  }

  predicate OrphansAt(es: seq<Event>, j: nat)
    requires j < |es|
  {
    Orphans(Run(es, j), es[j])
  }

  predicate ProbedAt(es: seq<Event>, j: nat)
    requires j <= |es|
  {
    AllProbed(Run(es, j))
  }

  lemma ProbedNext(es: seq<Event>, k: nat)
    requires 0 < k <= |es| && ProbedAt(es, k - 1)
    ensures ProbedAt(es, k) <==> !OrphansAt(es, k - 1)
  {
    hide AllProbed, Orderly, Step, Orphans;
    RunOk(es, k - 1);
    OrderlyStep(Run(es, k - 1), es[k - 1]);
  }

  /** In all states of a run every probe is for a listed device that is being connected, if and only
      if no step removes a device that is being probed. */
  lemma {:induction false} ProbedExactly(es: seq<Event>, k: nat)
    requires k <= |es|
    ensures (forall j :: 0 <= j <= k ==> ProbedAt(es, j)) <==> forall j :: 0 <= j < k ==> !OrphansAt(es, j)
  {
    if k > 0 {
      hide ProbedAt, OrphansAt;
      ProbedExactly(es, k - 1);
      if ProbedAt(es, k - 1) {
        ProbedNext(es, k);
      }
    } else {
      hide OrphansAt;
      RunStart(es);
    }
  }

  lemma RunNext(es: seq<Event>, k: nat)
    requires 0 < k <= |es|
    ensures Run(es, k) == Step(Run(es, k - 1), es[k - 1])
  {
  }

  /** A run in which a request is lost, and a device is probed twice at a time. */
  lemma RemovedEarly(key: Key)
    requires |key.id| < MAX_DEV_ID_LEN && Plain(key.id)
    ensures var es := [OpenVideo(key, true), Removed(0), OpenVideo(key, true)];
      && Run(es, 2).lost == [0] && Run(es, 3).probes == [Probe(0, key, false), Probe(1, key, false)]
      && Run(es, 1).devs[..] == [Dev(0, key, CONNECTING, [0])] && Run(es, 3).devs == [Dev(1, key, CONNECTING, [1])]
  {
    var es := [OpenVideo(key, true), Removed(0), OpenVideo(key, true)];
    hide SeekKey, Plain;
    RunNext(es, 1);
    RunNext(es, 2);
    RunNext(es, 3);
    RunStart(es);
  }

  // ---------- which requests are answered and which are abandoned ----------

  /** The first device with the key is listed and has this status. */
  predicate FirstHas(devs: seq<Dev>, key: Key, status: Status) {
    exists i :: 0 <= i < |devs| && devs[i].key == key && devs[i].status == status &&
      forall j :: 0 <= j < i ==> devs[j].key != key
  }

  predicate Unlisted(devs: seq<Dev>, key: Key) {
    forall i :: 0 <= i < |devs| ==> devs[i].key != key
  }

  /** The request waits at the device of this node. */
  predicate WaitsAt(devs: seq<Dev>, node: nat, r: nat) {
    exists d :: 0 <= d < |devs| && devs[d].node == node && r in devs[d].waiting
  }

  /** A probe for the node succeeds: the device describes itself to the callback that reads. */
  predicate Succeeds(b: Box, e: Event, node: nat) {
    match e
    case Basic(i, reply) => reply.Usable? && i < |b.probes| && !b.probes[i].digest && b.probes[i].node == node
    case Digest(i) => i < |b.probes| && b.probes[i].digest && b.probes[i].node == node
    case _ => false
  }

  predicate Fails(b: Box, e: Event, node: nat) {
    e.ProbeFails? && e.i < |b.probes| && b.probes[e.i].node == node
  }

  /** The event is the request r. */
  predicate Asks(b: Box, e: Event, r: nat) {
    e.OpenVideo? && r == b.requests
  }

  /** The request comes while its device is connected, or waits at a device whose probe succeeds. */
  ghost predicate Answers(b: Box, e: Event, r: nat) {
    (Asks(b, e, r) && FirstHas(b.devs, SeekKey(e.key), CONNECTED)) ||
    exists node :: Succeeds(b, e, node) && WaitsAt(b.devs, node, r)
  }

  /** The request asks for a device that neither the list nor the data base has, or waits at a device
      whose probe fails. */
  ghost predicate Abandons(b: Box, e: Event, r: nat) {
    (Asks(b, e, r) && Unlisted(b.devs, SeekKey(e.key)) && !e.known) ||
    exists node :: Fails(b, e, node) && WaitsAt(b.devs, node, r)
  }

  lemma OpenAnswers(b: Box, key: Key, known: bool, r: nat)
    requires Orderly(b)
    ensures var e, b' := OpenVideo(key, known), OnOpen(b, key, known);
      && (r in b'.answered <==> r in b.answered || (Asks(b, e, r) && FirstHas(b.devs, SeekKey(key), CONNECTED)))
      && (r in b'.abandoned <==> r in b.abandoned || (Asks(b, e, r) && Unlisted(b.devs, SeekKey(key)) && !known))
  {
    hide SeekKey, ProbesOk;
    var i := Find(b.devs, SeekKey(key), 0);
    hide Find;
    if i < |b.devs| && b.devs[i].status == CONNECTED {
      assert FirstHas(b.devs, SeekKey(key), CONNECTED);
    }
  }

  /** The node of a probe that ends is where those wait whom its end concerns. */
  lemma WaitsAtNode(b: Box, i: nat, r: nat)
    requires Orderly(b) && i < |b.probes|
    ensures var d := FindNode(b.devs, b.probes[i].node, 0);
      WaitsAt(b.devs, b.probes[i].node, r) <==> d < |b.devs| && r in b.devs[d].waiting
  {
    hide ProbesOk, FindNode;
  }

  lemma AnswersStep(b: Box, e: Event, r: nat)
    requires Orderly(b)
    ensures r in Step(b, e).answered <==> r in b.answered || Answers(b, e, r)
    ensures r in Step(b, e).abandoned <==> r in b.abandoned || Abandons(b, e, r)
  {
    match e
    case OpenVideo(key, known) =>
      OpenAnswers(b, key, known, r);
      hide OnOpen, FirstHas, Unlisted, SeekKey, Orderly;
    case Removed(i) =>
    case Basic(i, reply) =>
      if i < |b.probes| {
        WaitsAtNode(b, i, r);
        assert Succeeds(b, e, b.probes[i].node) <==> reply.Usable? && !b.probes[i].digest;
      }
      hide WaitsAt, Orderly, Without, FindNode;
    case Digest(i) =>
      if i < |b.probes| {
        WaitsAtNode(b, i, r);
        assert Succeeds(b, e, b.probes[i].node) <==> b.probes[i].digest;
      }
      hide WaitsAt, Orderly, Without, FindNode;
    case ProbeFails(i) =>
      if i < |b.probes| {
        WaitsAtNode(b, i, r);
        assert Fails(b, e, b.probes[i].node);
      }
      hide WaitsAt, Orderly, Without, FindNode;
  }

  ghost predicate AnswersAt(es: seq<Event>, j: nat, r: nat)
    requires j < |es|
  {
    Answers(Run(es, j), es[j], r)
  }

  ghost predicate AbandonsAt(es: seq<Event>, j: nat, r: nat)
    requires j < |es|
  {
    Abandons(Run(es, j), es[j], r)
  }

  lemma AnswersNext(es: seq<Event>, k: nat, r: nat)
    requires 0 < k <= |es|
    ensures r in Run(es, k).answered <==> r in Run(es, k - 1).answered || AnswersAt(es, k - 1, r)
    ensures r in Run(es, k).abandoned <==> r in Run(es, k - 1).abandoned || AbandonsAt(es, k - 1, r)
  {
    hide Orderly, Answers, Abandons, Step;
    RunOk(es, k - 1);
    AnswersStep(Run(es, k - 1), es[k - 1], r);
  }

  /** In every run the requests that are answered are exactly those that came while the first device
      with their key was connected, or waited at a device when a probe for it succeeded. */
  lemma {:induction false} AnsweredExactly(es: seq<Event>, k: nat, r: nat)
    requires k <= |es|
    ensures r in Run(es, k).answered <==> exists j :: 0 <= j < k && AnswersAt(es, j, r)
  {
    hide AnswersAt, Run;
    if k > 0 {
      AnsweredExactly(es, k - 1, r);
      AnswersNext(es, k, r);
    } else {
      RunStart(es);
    }
  }

  /** In every run the requests that are abandoned are exactly those that asked for a device that
      neither the list nor the data base had, or waited at a device when a probe for it failed. */
  lemma {:induction false} AbandonedExactly(es: seq<Event>, k: nat, r: nat)
    requires k <= |es|
    ensures r in Run(es, k).abandoned <==> exists j :: 0 <= j < k && AbandonsAt(es, j, r)
  {
    hide AbandonsAt, Run;
    if k > 0 {
      AbandonedExactly(es, k - 1, r);
      AnswersNext(es, k, r);
    } else {
      RunStart(es);
    }
  }

  /** The event is a digest challenge on a probe for the node that began with basic authentication. */
  predicate Challenges(b: Box, e: Event, node: nat) {
    e.Basic? && e.reply.DigestChallenge? && e.i < |b.probes| && b.probes[e.i].node == node
  }

  predicate ChallengedAt(es: seq<Event>, j: nat, node: nat)
    requires j < |es|
  {
    Challenges(Run(es, j), es[j], node)
  }

  /** Where a probe stood before one of the others ended. */
  lemma WithoutBefore(probes: seq<Probe>, n: nat, i: nat) returns (j: nat)
    requires n < |probes| && i < |probes| - 1
    ensures j < |probes| && Without(probes, n)[i] == probes[j]
  {
    j := if i < n then i else i + 1;
  }

  /** A probe after a step was there before, with the same callback unless it was challenged, or it
      is new and begins with basic authentication. */
  lemma ProbeBefore(b: Box, e: Event, i: nat) returns (j: nat)
    requires Orderly(b) && i < |Step(b, e).probes|
    ensures var p := Step(b, e).probes[i];
      if j < |b.probes| then
        b.probes[j].node == p.node && (p.digest <==> b.probes[j].digest || Challenges(b, e, p.node))
      else p.node == b.nodes && !p.digest
  {
    hide SeekKey, Find, FindNode, Without, Probed, Deleted, DevsOk;
    j := i;
    var b' := Step(b, e);
    if e.ProbeFails? && e.i < |b.probes| {
      assert b'.probes == Without(b.probes, e.i);
      j := WithoutBefore(b.probes, e.i, i);
    } else if e.Basic? && !e.reply.DigestChallenge? && e.i < |b.probes| && !b.probes[e.i].digest {
      assert b'.probes == Without(b.probes, e.i);
      j := WithoutBefore(b.probes, e.i, i);
    } else if e.Digest? && e.i < |b.probes| && b.probes[e.i].digest {
      assert b'.probes == Without(b.probes, e.i);
      j := WithoutBefore(b.probes, e.i, i);
    }
  }

  lemma NodesMore(b: Box, e: Event)
    ensures b.nodes <= Step(b, e).nodes
  {
    hide SeekKey, Find, FindNode, Without;
  }

  lemma {:induction false} NodesGrow(es: seq<Event>, j: nat, k: nat)
    requires j <= k <= |es|
    ensures Run(es, j).nodes <= Run(es, k).nodes
    decreases k
  {
    hide *;
    if j < k {
      RunNext(es, k);
      NodesGrow(es, j, k - 1);
      NodesMore(Run(es, k - 1), es[k - 1]);
    }
  }

  /** Only a node that was given out can be challenged. */
  lemma ChallengedNode(es: seq<Event>, j: nat, node: nat)
    requires j < |es|
    ensures ChallengedAt(es, j, node) ==> node < Run(es, j).nodes
  {
    hide Run, DevsOk;
    RunOk(es, j);
  }

  /** A probe for the node was challenged before step k. */
  predicate Challenged(es: seq<Event>, k: nat, node: nat)
    requires k <= |es|
  {
    exists j :: 0 <= j < k && ChallengedAt(es, j, node)
  }

  lemma ChallengedNext(es: seq<Event>, k: nat, node: nat)
    requires 0 < k <= |es|
    ensures Challenged(es, k, node) <==> Challenged(es, k - 1, node) || Challenges(Run(es, k - 1), es[k - 1], node)
  {
    hide Challenges, Run;
    assert ChallengedAt(es, k - 1, node) <==> Challenges(Run(es, k - 1), es[k - 1], node);
  }

  lemma NewUnchallenged(es: seq<Event>, k: nat)
    requires 0 < k <= |es|
    ensures !Challenged(es, k, Run(es, k - 1).nodes)
  {
    hide ChallengedAt, Run;
    var node := Run(es, k - 1).nodes;
    forall j | 0 <= j < k
      ensures !ChallengedAt(es, j, node)
    {
      ChallengedNode(es, j, node);
      NodesGrow(es, j, k - 1);
    }
  }

  /** In every run the digest callback reads from a probe if and only if the device answered the
      probe with a challenge. */
  lemma {:induction false} DigestExactly(es: seq<Event>, k: nat, i: nat)
    requires k <= |es| && i < |Run(es, k).probes|
    ensures Run(es, k).probes[i].digest <==> Challenged(es, k, Run(es, k).probes[i].node)
  {
    if k > 0 {
      hide *;
      RunNext(es, k);
      RunOk(es, k - 1);
      var j := ProbeBefore(Run(es, k - 1), es[k - 1], i);
      ChallengedNext(es, k, Run(es, k).probes[i].node);
      if j < |Run(es, k - 1).probes| {
        DigestExactly(es, k - 1, j);
      } else {
        NewUnchallenged(es, k);
      }
    } else {
      RunStart(es);
    }
  }

  /** A device after a step was listed before, under the same key and connected then or by the
      success of a probe for it, or it is new and being connected. */
  lemma DevBefore(b: Box, e: Event, i: nat) returns (j: nat)
    requires Orderly(b) && i < |Step(b, e).devs|
    ensures var d := Step(b, e).devs[i];
      if j < |b.devs| then
        b.devs[j].node == d.node && b.devs[j].key == d.key &&
        (d.status == CONNECTED <==> b.devs[j].status == CONNECTED || Succeeds(b, e, d.node))
      else d.node == b.nodes && e.OpenVideo? && d.key == e.key && d.status == CONNECTING
  {
    hide SeekKey, Find, ProbesOk, Without;
    j := i;
    if e.ProbeFails? && e.i < |b.probes| && FindNode(b.devs, b.probes[e.i].node, 0) < |b.devs| {
      j := DevWithoutBefore(b.devs, FindNode(b.devs, b.probes[e.i].node, 0), i);
    } else if e.Removed? && e.i < |b.devs| {
      j := DevWithoutBefore(b.devs, e.i, i);
    } else if (e.Basic? && e.i < |b.probes|) || (e.Digest? && e.i < |b.probes|) {
      NodeIs(b.devs, b.probes[e.i].node, i);
      hide FindNode;
    }
  }

  lemma DevWithoutBefore(devs: seq<Dev>, n: nat, i: nat) returns (j: nat)
    requires n < |devs| && i < |devs| - 1
    ensures j < |devs| && Without(devs, n)[i] == devs[j]
  {
    j := if i < n then i else i + 1;
  }

  lemma NodeIs(devs: seq<Dev>, node: nat, i: nat)
    requires i < |devs| && forall i, j :: 0 <= i < j < |devs| ==> devs[i].node != devs[j].node
    ensures FindNode(devs, node, 0) == i <==> devs[i].node == node
  {
  }

  predicate SucceedsAt(es: seq<Event>, j: nat, node: nat)
    requires j < |es|
  {
    Succeeds(Run(es, j), es[j], node)
  }

  /** A probe for the node succeeded before step k. */
  predicate Succeeded(es: seq<Event>, k: nat, node: nat)
    requires k <= |es|
  {
    exists j :: 0 <= j < k && SucceedsAt(es, j, node)
  }

  lemma SucceededNext(es: seq<Event>, k: nat, node: nat)
    requires 0 < k <= |es|
    ensures Succeeded(es, k, node) <==> Succeeded(es, k - 1, node) || Succeeds(Run(es, k - 1), es[k - 1], node)
  {
    hide Succeeds, Run;
    assert SucceedsAt(es, k - 1, node) <==> Succeeds(Run(es, k - 1), es[k - 1], node);
  }

  lemma SucceedsNode(es: seq<Event>, j: nat, node: nat)
    requires j < |es|
    ensures SucceedsAt(es, j, node) ==> node < Run(es, j).nodes
  {
    hide Run, DevsOk;
    RunOk(es, j);
  }

  lemma NewNotSucceeded(es: seq<Event>, k: nat)
    requires 0 < k <= |es|
    ensures !Succeeded(es, k, Run(es, k - 1).nodes)
  {
    hide SucceedsAt, Run;
    var node := Run(es, k - 1).nodes;
    forall j | 0 <= j < k
      ensures !SucceedsAt(es, j, node)
    {
      SucceedsNode(es, j, node);
      NodesGrow(es, j, k - 1);
    }
  }

  /** In every run a listed device is connected if and only if a probe for it succeeded. */
  lemma {:induction false} ConnectedExactly(es: seq<Event>, k: nat, i: nat)
    requires k <= |es| && i < |Run(es, k).devs|
    ensures Run(es, k).devs[i].status == CONNECTED <==> Succeeded(es, k, Run(es, k).devs[i].node)
  {
    if k > 0 {
      hide *;
      RunNext(es, k);
      RunOk(es, k - 1);
      var j := DevBefore(Run(es, k - 1), es[k - 1], i);
      SucceededNext(es, k, Run(es, k).devs[i].node);
      if j < |Run(es, k - 1).devs| {
        ConnectedExactly(es, k - 1, j);
      } else {
        NewNotSucceeded(es, k);
      }
    } else {
      RunStart(es);
    }
  }

  /** A request that waits, waits for one device that is being connected. */
  lemma WaitsForOne(es: seq<Event>, k: nat, r: nat) returns (i: nat)
    requires k <= |es| && r < Run(es, k).requests && r !in Run(es, k).answered && r !in Run(es, k).abandoned &&
      r !in Run(es, k).lost
    ensures var devs := Run(es, k).devs;
      i < |devs| && r in devs[i].waiting && devs[i].status == CONNECTING &&
      forall j :: 0 <= j < |devs| && j != i ==> r !in devs[j].waiting
  {
    Ledger(es, k, r);
    RunOk(es, k);
    var devs := Run(es, k).devs;
    assert Waits(devs, r, |devs|) == 1;
    hide Run;
    i := TheOne(devs, r, |devs|);
  }

  lemma {:induction false} TheOne(devs: seq<Dev>, r: nat, n: nat) returns (i: nat)
    requires n <= |devs| && Waits(devs, r, n) == 1
    ensures i < n && r in devs[i].waiting && forall j :: 0 <= j < n && j != i ==> r !in devs[j].waiting
  {
    if r in devs[n - 1].waiting {
      i := n - 1;
      WaitsNowhere(devs, r, n - 1);
    } else {
      i := TheOne(devs, r, n - 1);
    }
  }

  lemma {:induction false} WaitsNowhere(devs: seq<Dev>, r: nat, n: nat)
    requires n <= |devs| && Waits(devs, r, n) == 0
    ensures forall j :: 0 <= j < n ==> r !in devs[j].waiting
  {
    if n > 0 {
      WaitsNowhere(devs, r, n - 1);
    }
  }

  // ---------- one device, one probe ----------

  /** An id that decoding does not change. */
  predicate Plain(id: seq<byte>) {
    |id| < MAX_DEV_ID_LEN && forall j :: 0 <= j < |id| ==> id[j] != 0 && id[j] != UrlCode.PERCENT && id[j] != PLUS
  }

  /** An id of a C string in the buffer is what is looked for if and only if it holds neither a
      percent nor a plus sign. */
  lemma SeekIdExactly(id: seq<byte>)
    requires |id| < MAX_DEV_ID_LEN && forall j :: 0 <= j < |id| ==> id[j] != 0
    ensures SeekId(id) == id <==> Plain(id)
  {
    assert UrlCode.Taken(id, |id|) == id;
    UrlCode.DecodedSame(id, 0, MAX_DEV_ID_LEN);
    var bytes := UrlCode.Decoded(id, 0, MAX_DEV_ID_LEN).bytes;
    assert id[0..] == id;
    CStringShorter(bytes, 0);
    if bytes == id {
      CStringWhole(id, 0);
    }
  }

  lemma {:induction false} CStringShorter(raw: seq<byte>, p: nat)
    requires p <= |raw|
    ensures |CString(raw, p)| <= |raw| - p && (|CString(raw, p)| == |raw| - p ==> CString(raw, p) == raw[p..])
    decreases |raw| - p
  {
    if p < |raw| && raw[p] != 0 {
      CStringShorter(raw, p + 1);
      assert raw[p..] == [raw[p]] + raw[p + 1..];
    }
  }

  lemma {:induction false} CStringWhole(raw: seq<byte>, p: nat)
    requires p <= |raw| && forall j :: p <= j < |raw| ==> raw[j] != 0
    ensures CString(raw, p) == raw[p..]
    decreases |raw| - p
  {
    if p < |raw| {
      CStringWhole(raw, p + 1);
      assert raw[p..] == [raw[p]] + raw[p + 1..];
    }
  }

  /** A second request for a device that the first one entered finds it if and only if its id is
      plain; otherwise the device is entered a second time, with a second probe. */
  lemma SecondOpen(b: Box, key: Key)
    requires |key.id| < MAX_DEV_ID_LEN && forall j :: 0 <= j < |key.id| ==> key.id[j] != 0
    requires Find(b.devs, SeekKey(key), 0) == |b.devs|
    ensures var b1 := OnOpen(b, key, true); var b2 := OnOpen(b1, key, true);
      if Plain(key.id) then
        |b2.devs| == |b1.devs| && b2.probes == b1.probes &&
        b2.devs[|b.devs|].waiting == [b.requests, b.requests + 1]
      else
        |b2.devs| == |b1.devs| + 1 && b2.devs[|b.devs|].key == b2.devs[|b.devs| + 1].key == key &&
        |b2.probes| == |b1.probes| + 1
  {
    SeekIdExactly(key.id);
    var k := SeekKey(key);
    var b1 := OnOpen(b, key, true);
    hide SeekKey, SeekId, Plain;
    FindMore(b.devs, b1.devs[|b.devs|], k, 0);
    assert k == key <==> Plain(key.id) by { SeekKeyIs(key); }
  }

  lemma SeekKeyIs(key: Key)
    requires |key.id| < MAX_DEV_ID_LEN && forall j :: 0 <= j < |key.id| ==> key.id[j] != 0
    ensures SeekKey(key) == key <==> Plain(key.id)
  {
    SeekIdExactly(key.id);
    hide SeekId, Plain;
  }

  lemma {:induction false} FindMore(devs: seq<Dev>, d: Dev, key: Key, i: nat)
    requires i <= |devs| && Find(devs, key, i) == |devs|
    ensures Find(devs + [d], key, i) == if d.key == key then |devs| else |devs| + 1
    decreases |devs| - i
  {
    if i < |devs| {
      FindMore(devs, d, key, i + 1);
    }
  }

  /** All requests are for plain ids. */
  predicate PlainRun(es: seq<Event>, k: nat)
    requires k <= |es|
  {
    forall i :: 0 <= i < k && es[i].OpenVideo? ==> Plain(es[i].key.id)
  }

  predicate KeysUnique(devs: seq<Dev>) {
    (forall i :: 0 <= i < |devs| ==> Plain(devs[i].key.id)) &&
    forall i, j :: 0 <= i < j < |devs| ==> devs[i].key != devs[j].key
  }

  lemma KeysStep(b: Box, e: Event)
    requires KeysUnique(b.devs) && (e.OpenVideo? ==> Plain(e.key.id))
    ensures KeysUnique(Step(b, e).devs)
  {
    hide Plain, SeekKey, KeysUnique, OnOpen, OnFail, OnSuccess;
    match e
    case OpenVideo(key, known) =>
      SeekPlain(key);
      KeysOpen(b, key, known);
    case ProbeFails(i) =>
      if i < |b.probes| {
        KeysEnd(b, i);
      }
    case Basic(i, reply) =>
      if i < |b.probes| {
        KeysEnd(b, i);
      }
    case Digest(i) =>
      if i < |b.probes| {
        KeysEnd(b, i);
      }
    case Removed(i) =>
      if i < |b.devs| {
        KeysWithout(b.devs, i);
      }
  }

  lemma KeysOpen(b: Box, key: Key, known: bool)
    requires KeysUnique(b.devs) && Plain(key.id) && SeekKey(key) == key
    ensures KeysUnique(OnOpen(b, key, known).devs)
  {
    hide Plain, SeekKey;
  }

  lemma KeysWithout(devs: seq<Dev>, i: nat)
    requires KeysUnique(devs) && i < |devs|
    ensures KeysUnique(Without(devs, i))
  {
    hide Plain;
  }

  lemma KeysEnd(b: Box, i: nat)
    requires KeysUnique(b.devs) && i < |b.probes|
    ensures KeysUnique(OnFail(b, i).devs) && KeysUnique(OnSuccess(b, i).devs)
  {
    hide Plain, Without;
    var d := FindNode(b.devs, b.probes[i].node, 0);
    if d < |b.devs| {
      KeysWithout(b.devs, d);
    }
  }

  lemma SeekPlain(key: Key)
    requires Plain(key.id)
    ensures SeekKey(key) == key
  {
    SeekIdExactly(key.id);
  }

  /** In every run with plain ids no two devices of the list have the same key. */
  lemma {:induction false} RunKeys(es: seq<Event>, k: nat)
    requires k <= |es| && PlainRun(es, k)
    ensures KeysUnique(Run(es, k).devs)
  {
    if k > 0 {
      hide KeysUnique, Step, Plain;
      RunKeys(es, k - 1);
      KeysStep(Run(es, k - 1), es[k - 1]);
    } else {
      hide Plain;
    }
  }

  // ---------- when a key has one probe ----------

  /** Probe and device of a node have the same key. */
  predicate KeysMatch(b: Box) {
    forall p, d :: 0 <= p < |b.probes| && 0 <= d < |b.devs| && b.probes[p].node == b.devs[d].node ==>
      b.probes[p].key == b.devs[d].key
  }

  predicate HasDev(devs: seq<Dev>, node: nat, key: Key) {
    exists i :: 0 <= i < |devs| && devs[i].node == node && devs[i].key == key
  }

  predicate HasProbe(probes: seq<Probe>, node: nat, key: Key) {
    exists i :: 0 <= i < |probes| && probes[i].node == node && probes[i].key == key
  }

  /** Every device stood in the list before, under the same key. */
  predicate OldDevs(devs: seq<Dev>, devs': seq<Dev>) {
    forall j :: 0 <= j < |devs'| ==> HasDev(devs, devs'[j].node, devs'[j].key)
  }

  /** Every probe was in flight before, for the same key. */
  predicate OldProbes(probes: seq<Probe>, probes': seq<Probe>) {
    forall j :: 0 <= j < |probes'| ==> HasProbe(probes, probes'[j].node, probes'[j].key)
  }

  lemma MatchKept(b: Box, b': Box)
    requires KeysMatch(b) && OldDevs(b.devs, b'.devs) && OldProbes(b.probes, b'.probes)
    ensures KeysMatch(b')
  {
    forall p, d | 0 <= p < |b'.probes| && 0 <= d < |b'.devs| && b'.probes[p].node == b'.devs[d].node
      ensures b'.probes[p].key == b'.devs[d].key
    {
      assert HasProbe(b.probes, b'.probes[p].node, b'.probes[p].key) && HasDev(b.devs, b'.devs[d].node, b'.devs[d].key);
    }
  }

  lemma OldSame(devs: seq<Dev>, probes: seq<Probe>)
    ensures OldDevs(devs, devs) && OldProbes(probes, probes)
  {
  }

  lemma OldDevsWithout(devs: seq<Dev>, i: nat)
    requires i < |devs|
    ensures OldDevs(devs, Without(devs, i))
  {
    forall k | 0 <= k < |devs| - 1
      ensures HasDev(devs, Without(devs, i)[k].node, Without(devs, i)[k].key)
    {
      assert Without(devs, i)[k] == devs[if k < i then k else k + 1];
    }
  }

  lemma OldProbesWithout(probes: seq<Probe>, i: nat)
    requires i < |probes|
    ensures OldProbes(probes, Without(probes, i))
  {
    forall k | 0 <= k < |probes| - 1
      ensures HasProbe(probes, Without(probes, i)[k].node, Without(probes, i)[k].key)
    {
      assert Without(probes, i)[k] == probes[if k < i then k else k + 1];
    }
  }

  lemma OldChanged(devs: seq<Dev>, i: nat, d: Dev)
    requires i < |devs| && d.node == devs[i].node && d.key == devs[i].key
    ensures OldDevs(devs, devs[i := d])
  {
    var devs' := devs[i := d];
    forall k | 0 <= k < |devs'|
      ensures HasDev(devs, devs'[k].node, devs'[k].key)
    {
      assert devs[k].node == devs'[k].node;
    }
  }

  lemma OldDigest(probes: seq<Probe>, i: nat)
    requires i < |probes|
    ensures OldProbes(probes, probes[i := probes[i].(digest := true)])
  {
    var probes' := probes[i := probes[i].(digest := true)];
    forall k | 0 <= k < |probes'|
      ensures HasProbe(probes, probes'[k].node, probes'[k].key)
    {
      assert probes[k].node == probes'[k].node;
    }
  }

  lemma MatchOpen(b: Box, key: Key, known: bool)
    requires Orderly(b) && KeysMatch(b)
    ensures KeysMatch(OnOpen(b, key, known))
  {
    hide SeekKey, Find, Orderly, KeysMatch, OldDevs, OldProbes;
    var i := Find(b.devs, SeekKey(key), 0);
    OldSame(b.devs, b.probes);
    if i == |b.devs| {
      if known {
        MatchNew(b, OnOpen(b, key, known), key);
      } else {
        MatchKept(b, OnOpen(b, key, known));
      }
    } else {
      OldChanged(b.devs, i, b.devs[i].(waiting := b.devs[i].waiting + [b.requests]));
      MatchKept(b, OnOpen(b, key, known));
    }
  }

  /** A new device has an address of its own. */
  lemma MatchNew(b: Box, b': Box, key: Key)
    requires Orderly(b) && KeysMatch(b)
    requires b'.devs == b.devs + [Dev(b.nodes, key, CONNECTING, [b.requests])] &&
      b'.probes == b.probes + [Probe(b.nodes, key, false)]
    ensures KeysMatch(b')
  {
    hide Probed, Deleted;
  }

  lemma MatchEnd(b: Box, i: nat)
    requires KeysMatch(b) && i < |b.probes|
    ensures KeysMatch(OnFail(b, i)) && KeysMatch(OnSuccess(b, i))
  {
    hide KeysMatch, OldDevs, OldProbes, Without, FindNode;
    var d := FindNode(b.devs, b.probes[i].node, 0);
    OldSame(b.devs, b.probes);
    OldProbesWithout(b.probes, i);
    if d < |b.devs| {
      OldDevsWithout(b.devs, d);
      OldChanged(b.devs, d, b.devs[d].(status := CONNECTED, waiting := []));
    }
    MatchKept(b, OnFail(b, i));
    MatchKept(b, OnSuccess(b, i));
  }

  lemma MatchStep(b: Box, e: Event)
    requires Orderly(b) && KeysMatch(b)
    ensures KeysMatch(Step(b, e))
  {
    hide Orderly, KeysMatch, OldDevs, OldProbes, Without, OnOpen, OnFail, OnSuccess;
    match e
    case OpenVideo(key, known) => MatchOpen(b, key, known);
    case ProbeFails(i) =>
      if i < |b.probes| {
        MatchEnd(b, i);
      }
    case Basic(i, reply) =>
      if i < |b.probes| {
        MatchEnd(b, i);
        OldSame(b.devs, b.probes);
        OldProbesWithout(b.probes, i);
        OldDigest(b.probes, i);
        MatchKept(b, b.(probes := Without(b.probes, i)));
        MatchKept(b, b.(probes := b.probes[i := b.probes[i].(digest := true)]));
      }
    case Digest(i) =>
      if i < |b.probes| {
        MatchEnd(b, i);
      }
    case Removed(i) =>
      if i < |b.devs| {
        OldSame(b.devs, b.probes);
        OldDevsWithout(b.devs, i);
        MatchKept(b, OnRemove(b, i));
      }
  }

  lemma MatchNext(es: seq<Event>, k: nat)
    requires 0 < k <= |es| && KeysMatch(Run(es, k - 1))
    ensures KeysMatch(Run(es, k))
  {
    hide KeysMatch, Step, Orderly, Balanced;
    RunOk(es, k - 1);
    MatchStep(Run(es, k - 1), es[k - 1]);
  }

  lemma {:induction false} RunMatch(es: seq<Event>, k: nat)
    requires k <= |es|
    ensures KeysMatch(Run(es, k))
  {
    hide Run;
    if k > 0 {
      RunMatch(es, k - 1);
      MatchNext(es, k);
    } else {
      RunStart(es);
    }
  }

  /** No key has more than one probe in flight. */
  predicate Alone(b: Box) {
    forall i, j :: 0 <= i < j < |b.probes| ==> b.probes[i].key != b.probes[j].key
  }

  /** A probe for the key is in flight, for whatever node. */
  predicate KeyInFlight(b: Box, key: Key) {
    exists j :: 0 <= j < |b.probes| && b.probes[j].key == key
  }

  /** The command starts a probe for a key that has one. */
  predicate Doubles(b: Box, e: Event) {
    e.OpenVideo? && e.known && Find(b.devs, SeekKey(e.key), 0) == |b.devs| && KeyInFlight(b, e.key)
  }

  lemma AloneStep(b: Box, e: Event)
    requires Alone(b)
    ensures Alone(Step(b, e)) <==> !Doubles(b, e)
  {
    hide Alone, Doubles, Without, OnOpen, FindNode;
    assert !e.OpenVideo? ==> !Doubles(b, e) by { NotDoubles(b, e); }
    match e
    case OpenVideo(key, known) => AloneOpen(b, key, known);
    case ProbeFails(i) =>
      if i < |b.probes| {
        AloneFewer(b, OnFail(b, i), i);
      }
    case Basic(i, reply) =>
      if i < |b.probes| {
        AloneFewer(b, OnSuccess(b, i), i);
        AloneFewer(b, b.(probes := Without(b.probes, i)), i);
        AloneDigest(b, i);
      }
    case Digest(i) =>
      if i < |b.probes| {
        AloneFewer(b, OnSuccess(b, i), i);
      }
    case Removed(i) =>
      if i < |b.devs| {
        AloneSame(b, OnRemove(b, i));
      }
  }

  lemma NotDoubles(b: Box, e: Event)
    ensures !e.OpenVideo? ==> !Doubles(b, e)
  {
  }

  lemma AloneSame(b: Box, b': Box)
    requires Alone(b) && b'.probes == b.probes
    ensures Alone(b')
  {
  }

  lemma AloneFewer(b: Box, b': Box, i: nat)
    requires Alone(b) && i < |b.probes| && b'.probes == Without(b.probes, i)
    ensures Alone(b')
  {
  }

  lemma AloneDigest(b: Box, i: nat)
    requires Alone(b) && i < |b.probes|
    ensures Alone(b.(probes := b.probes[i := b.probes[i].(digest := true)]))
  {
  }

  lemma AloneOpen(b: Box, key: Key, known: bool)
    requires Alone(b)
    ensures Alone(OnOpen(b, key, known)) <==> !Doubles(b, OpenVideo(key, known))
  {
    hide SeekKey, Find;
    var b' := OnOpen(b, key, known);
    if Doubles(b, OpenVideo(key, known)) {
      var j :| 0 <= j < |b.probes| && b.probes[j].key == key;
      assert b'.probes[j].key == b'.probes[|b.probes|].key;
    }
  }

  predicate DoublesAt(es: seq<Event>, j: nat)
    requires j < |es|
  {
    Doubles(Run(es, j), es[j])
  }

  predicate AloneAt(es: seq<Event>, j: nat)
    requires j <= |es|
  {
    Alone(Run(es, j))
  }

  lemma AloneNext(es: seq<Event>, k: nat)
    requires 0 < k <= |es| && AloneAt(es, k - 1)
    ensures AloneAt(es, k) <==> !DoublesAt(es, k - 1)
  {
    hide Alone, Step, Doubles;
    AloneStep(Run(es, k - 1), es[k - 1]);
  }

  /** In all states of a run no key has more than one probe in flight, if and only if no known key
      that is not listed is asked for while a probe for it is in flight. */
  lemma {:induction false} AloneExactly(es: seq<Event>, k: nat)
    requires k <= |es|
    ensures (forall j :: 0 <= j <= k ==> AloneAt(es, j)) <==> forall j :: 0 <= j < k ==> !DoublesAt(es, j)
  {
    if k > 0 {
      hide AloneAt, DoublesAt;
      AloneExactly(es, k - 1);
      if AloneAt(es, k - 1) {
        AloneNext(es, k);
      }
    } else {
      hide DoublesAt;
      RunStart(es);
    }
  }

  /** A probe that is for a listed device has the key of that device. */
  lemma ProbedKey(b: Box, j: nat)
    requires KeysMatch(b) && j < |b.probes| && Probed(b.devs, b.probes[j].node)
    ensures var d := FindNode(b.devs, b.probes[j].node, 0);
      d < |b.devs| && b.devs[d].key == b.probes[j].key && b.devs[d].status == CONNECTING
  {
  }

  /** In every run with plain ids that removes no device while it is being probed, no key has more
      than one probe in flight, and all of them are for devices that are being connected. */
  lemma OneProbe(es: seq<Event>, k: nat)
    requires k <= |es| && PlainRun(es, k) && forall j :: 0 <= j < k ==> !OrphansAt(es, j)
    ensures AloneAt(es, k) && ProbedAt(es, k)
  {
    hide Run, PlainRun, OrphansAt, Balanced, KeysMatch, Probed, FindNode;
    RunOk(es, k);
    RunKeys(es, k);
    RunMatch(es, k);
    ProbedExactly(es, k);
    var b := Run(es, k);
    assert ProbedAt(es, k);
    hide Plain;
    forall i, j | 0 <= i < j < |b.probes|
      ensures b.probes[i].key != b.probes[j].key
    {
      ProbedKey(b, i);
      ProbedKey(b, j);
    }
  }

  /** A request for a device that has just been removed starts a new probe, so that two are in
      flight for its key if and only if one was in flight when it was removed. While every probe is
      for a listed device, that is one for the device. */
  lemma OpenAfterRemoval(b: Box, i: nat)
    requires Orderly(b) && KeysUnique(b.devs) && KeysMatch(b) && i < |b.devs|
    ensures var d := b.devs[i]; var b2 := OnOpen(OnRemove(b, i), d.key, true);
      && b2.devs == Without(b.devs, i) + [Dev(b.nodes, d.key, CONNECTING, [b.requests])]
      && b2.probes == b.probes + [Probe(b.nodes, d.key, false)]
      && (TwoProbes(b2, d.key) <==> KeyInFlight(b, d.key))
      && (AllProbed(b) ==> (TwoProbes(b2, d.key) <==> InFlight(b, d.node)))
  {
    var key, b1 := b.devs[i].key, OnRemove(b, i);
    SeekPlain(key);
    hide Plain, SeekKey, Orderly, AllProbed, InFlight;
    assert forall j :: 0 <= j < |b1.devs| ==> b1.devs[j].key != key;
    assert Find(b1.devs, key, 0) == |b1.devs|;
    hide KeysUnique, KeysMatch, Find, Without;
    NewProbe(b, OnOpen(b1, key, true), key);
    if AllProbed(b) {
      KeyOfNode(b, i);
    }
  }

  ghost predicate TwoProbes(b: Box, key: Key) {
    exists i, j :: 0 <= i < j < |b.probes| && b.probes[i].key == key && b.probes[j].key == key
  }

  lemma NewProbe(b: Box, b2: Box, key: Key)
    requires b2.probes == b.probes + [Probe(b.nodes, key, false)]
    ensures TwoProbes(b2, key) <==> KeyInFlight(b, key)
  {
    if KeyInFlight(b, key) {
      var j :| 0 <= j < |b.probes| && b.probes[j].key == key;
      assert b2.probes[j].key == key && b2.probes[|b.probes|].key == key;
    }
  }

  /** While every probe is for a listed device, a key is probed exactly when its device is. */
  lemma KeyOfNode(b: Box, i: nat)
    requires Orderly(b) && KeysUnique(b.devs) && KeysMatch(b) && AllProbed(b) && i < |b.devs|
    ensures KeyInFlight(b, b.devs[i].key) <==> InFlight(b, b.devs[i].node)
  {
    hide Plain;
    forall j | 0 <= j < |b.probes|
      ensures b.probes[j].key == b.devs[i].key <==> b.probes[j].node == b.devs[i].node
    {
      ProbedKey(b, j);
    }
  }

  // ---------- the callbacks at work on the list ----------

  class DeviceNode {
    const node: nat
    const key: Key
    var status: Status
    var waiting: seq<nat>

    constructor (node: nat, key: Key, request: nat)
      ensures Value() == Dev(node, key, CONNECTING, [request])
    {
      this.node, this.key := node, key;
      status, waiting := CONNECTING, [request];
    }

    function Value(): Dev
      reads this
    {
      Dev(node, key, status, waiting)
    }
  }

  /** The device list and what the callbacks do to it; view is its value. */
  class Server {
    var devList: seq<DeviceNode>
    var probes: seq<Probe>
    var nodes: nat
    var requests: nat
    var answered: seq<nat>
    ghost var view: Box

    ghost predicate Valid()
      reads this, devList
    {
      Listed(devList, view.devs) && probes == view.probes && nodes == view.nodes && requests == view.requests &&
      answered == view.answered && Orderly(view)
    }

    constructor ()
      ensures Valid() && view == START
    {
      devList, probes, nodes, requests, answered, view := [], [], 0, 0, [], START;
    }

    /** list_seek. */
    method Seek(key: Key) returns (i: nat)
      requires Valid()
      ensures i == Find(view.devs, key, 0)
    {
      hide Orderly;
      i := 0;
      while i < |devList| && devList[i].key != key
        invariant i <= |devList| && Find(view.devs, key, 0) == Find(view.devs, key, i)
      {
        i := i + 1;
      }
    }

    /** Where the node of a probe stands. */
    method Locate(node: nat) returns (i: nat)
      requires Valid()
      ensures i == FindNode(view.devs, node, 0) && |devList| == |view.devs|
    {
      hide Orderly;
      i := 0;
      while i < |devList| && devList[i].node != node
        invariant i <= |devList| && FindNode(view.devs, node, 0) == FindNode(view.devs, node, i)
      {
        i := i + 1;
      }
    }

    /** deal_open_video_cmd. */
    method OpenVideo(key: Key, known: bool)
      requires Valid()
      modifies this, devList
      ensures Valid() && view == Step(old(view), Event.OpenVideo(key, known))
    {
      var i := Seek(SeekKey(key));
      OrderlyOpen(view, key, known);
      assert |devList| == |view.devs|;
      hide Orderly, SeekKey, Find;
      if i == |devList| {
        OpenNew(key, known);
      } else {
        OpenListed(key, known, i);
      }
    }

    /** The branch of deal_open_video_cmd for a device that is not in the list. */
    method OpenNew(key: Key, known: bool)
      requires Valid() && Find(view.devs, SeekKey(key), 0) == |view.devs| && Orderly(OnOpen(view, key, known))
      modifies this
      ensures Valid() && view == OnOpen(old(view), key, known)
    {
      hide Orderly, SeekKey, Find;
      ghost var was := view;
      var r := requests;
      requests := requests + 1;
      if known {
        var d := new DeviceNode(nodes, key, r);
        devList := devList + [d];
        probes := probes + [Probe(nodes, key, false)];
        nodes := nodes + 1;
      }
      view := OnOpen(was, key, known);
    }

    /** The branch for the device at i. */
    method OpenListed(key: Key, known: bool, i: nat)
      requires Valid() && i < |devList| && Find(view.devs, SeekKey(key), 0) == i && Orderly(OnOpen(view, key, known))
      modifies this, devList[i]
      ensures Valid() && view == OnOpen(old(view), key, known)
    {
      hide Orderly, SeekKey, Find;
      ghost var was := view;
      var r := requests;
      requests := requests + 1;
      var d := devList[i];
      if d.status == CONNECTED {
        answered := answered + [r];
      } else if d.status == CONNECTING {
        d.waiting := d.waiting + [r];
      }
      view := OnOpen(was, key, known);
    }

    /** The node at d is emptied and taken off the list. */
    method Remove(d: nat, ghost devs: seq<Dev>)
      requires d < |devList| && Listed(devList, devs)
      modifies this`devList, devList[d]
      ensures d < |devs| && Listed(devList, Without(devs, d))
    {
      ListedWithout(devList, devs, d);
      hide Without;
      devList[d].status := DISCONNECT;
      devList[d].waiting := [];
      devList := Without(devList, d);
    }

    /** The device at d is connected and all that wait for it are answered. */
    method Connect(d: nat, ghost devs: seq<Dev>)
      requires d < |devList| && Listed(devList, devs)
      modifies this`answered, devList[d]
      ensures d < |devs| && Listed(devList, devs[d := devs[d].(status := CONNECTED, waiting := [])])
      ensures answered == old(answered) + devs[d].waiting
    {
      assert devList[d].Value() == devs[d];
      devList[d].status := CONNECTED;
      AnswerAll(devList[d]);
    }

    /** active_connect_eventcb without a connection. */
    method ProbeFails(i: nat)
      requires Valid() && i < |probes|
      modifies this, devList
      ensures Valid() && view == Step(old(view), Event.ProbeFails(i))
    {
      hide Orderly, FindNode, Without, Listed;
      ghost var was := view;
      var d := Locate(probes[i].node);
      OrderlyEnd(was, i, OnFail(was, i));
      if d < |devList| {
        Remove(d, was.devs);
      }
      probes := Without(probes, i);
      view := OnFail(was, i);
    }

    /** The clients that wait for a device are told about it, in order. */
    method AnswerAll(dev: DeviceNode)
      modifies this`answered, dev`waiting
      ensures answered == old(answered) + old(dev.waiting) && dev.waiting == []
    {
      var k := 0;
      while k < |dev.waiting|
        modifies this`answered
        invariant k <= |dev.waiting| && answered == old(answered) + dev.waiting[..k]
      {
        answered := answered + [dev.waiting[k]];
        k := k + 1;
      }
      assert dev.waiting[..k] == dev.waiting;
      dev.waiting := [];
    }

    /** The end of both callbacks that read a description: all that wait are answered. */
    method Succeed(i: nat)
      requires Valid() && i < |probes|
      modifies this, devList
      ensures Valid() && view == OnSuccess(old(view), i)
    {
      hide Orderly, FindNode, Without, Listed;
      ghost var was := view;
      var d := Locate(probes[i].node);
      OrderlyEnd(was, i, OnSuccess(was, i));
      if d < |devList| {
        Connect(d, was.devs);
      }
      probes := Without(probes, i);
      view := OnSuccess(was, i);
    }

    /** read_dev_sdp_basic_cb. */
    method ReadBasic(i: nat, reply: Reply)
      requires Valid() && i < |probes| && !probes[i].digest
      modifies this, devList
      ensures Valid() && view == Step(old(view), Basic(i, reply))
    {
      OrderlyStep(view, Basic(i, reply));
      hide Orderly;
      match reply
      case Usable => Succeed(i);
      case Unusable =>
        probes := Without(probes, i);
        view := view.(probes := probes);
      case DigestChallenge =>
        probes := probes[i := probes[i].(digest := true)];
        view := view.(probes := probes);
    }

    /** The end of read_video_data_from_dev_task, and the error callback of a last client. */
    method Unlist(i: nat)
      requires Valid() && i < |devList|
      modifies this
      ensures Valid() && view == Step(old(view), Removed(i))
    {
      ghost var was := view;
      OrderlyRemove(view, i);
      hide Orderly, Without;
      ListedWithout(devList, was.devs, i);
      devList := Without(devList, i);
      view := OnRemove(was, i);
    }

    /** read_dev_sdp_digest_cb. */
    method ReadDigest(i: nat)
      requires Valid() && i < |probes| && probes[i].digest
      modifies this, devList
      ensures Valid() && view == Step(old(view), Digest(i))
    {
      Succeed(i);
    }
  }

  /** Listed without one node, which is not among the others. */
  lemma ListedWithout(nodes: seq<DeviceNode>, devs: seq<Dev>, d: nat)
    requires Listed(nodes, devs) && d < |nodes|
    ensures Listed(Without(nodes, d), Without(devs, d)) && nodes[d] !in Without(nodes, d)
  {
  }

  /** The nodes of a list and their values. */
  ghost predicate Listed(nodes: seq<DeviceNode>, devs: seq<Dev>)
    reads nodes
  {
    |nodes| == |devs| && (forall k :: 0 <= k < |nodes| ==> nodes[k].Value() == devs[k]) &&
    forall i, j :: 0 <= i < j < |nodes| ==> nodes[i] != nodes[j]
  }
}
