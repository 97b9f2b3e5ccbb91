/** Which of the frames that are dispatched to a client are written for it, and what its output
    buffer holds, from the frames, their sizes and the room there was for them. */
module DispatchFrames {
  import opened Dispatch

  /** A frame came for which there was no room. */
  predicate NoRoom(e: Turn) {
    e.Came? && e.output + e.p.size + HEADER > LIMIT
  }

  predicate KeyWritten(e: Turn, written: map<nat, nat>) {
    e.Came? && IsKey(e.p) && e.f in written
  }

  /** A key frame was written since the last frame for which there was no room. */
  predicate Resumed(log: seq<Turn>, written: map<nat, nat>, j: nat)
    requires j <= |log|
  {
    forall i :: 0 <= i < j && NoRoom(log[i]) ==> exists m :: i < m < j && KeyWritten(log[m], written)
  }

  /** What a turn adds to the output buffer. */
  function Amount(e: Turn, written: map<nat, nat>): int {
    if e.Took? then 0 - e.n else if e.f in written then HEADER + e.p.size else 0
  }

  /** Header and size of the frames that were written from turn i to turn j, less what was taken. */
  function Sum(log: seq<Turn>, written: map<nat, nat>, i: nat, j: nat): int
    requires i <= j <= |log|
  {
    if i == j then 0 else Sum(log, written, i, j - 1) + Amount(log[j - 1], written)
  }

  /** Turn i is the first one, or the one behind a frame without room, and there was room since. */
  predicate SinceOverflow(log: seq<Turn>, i: nat, j: nat)
    requires i <= j <= |log|
  {
    (i > 0 ==> NoRoom(log[i - 1])) && forall m :: i <= m < j ==> !NoRoom(log[m])
  }

  /** Where the turns since the last overflow begin. */
  function Start(log: seq<Turn>, j: nat): (i: nat)
    requires j <= |log|
    ensures i <= j && SinceOverflow(log, i, j)
  {
    if j == 0 || NoRoom(log[j - 1]) then j else Start(log, j - 1)
  }

  /** What the buffer holds before turn j. */
  function Held(log: seq<Turn>, written: map<nat, nat>, j: nat): int
    requires j <= |log|
  {
    Sum(log, written, Start(log, j), j)
  }

  lemma {:induction false} StartOnly(log: seq<Turn>, i: nat, j: nat)
    requires i <= j <= |log| && SinceOverflow(log, i, j)
    ensures Start(log, j) == i
    decreases j
  {
    hide NoRoom;
    if i < j {
      StartOnly(log, i, j - 1);
    }
  }

  // ---------- what holds of a client's history ----------

  /** The turn of a frame: the frame is the one that was dispatched under that number; it was written
      if and only if there was room for it and it is a key frame or the client had resumed; and the
      buffer held what was written since the last overflow. */
  predicate TurnOk(t: Tracked, sent: seq<Packet>, j: nat)
    requires j < |t.log|
  {
    var e := t.log[j];
    e.Came? ==>
      e.f < |sent| && e.p == sent[e.f] && e.output == Held(t.log, t.written, j) &&
      (e.f in t.written <==> !NoRoom(e) && (IsKey(e.p) || Resumed(t.log, t.written, j)))
  }

  predicate CameAt(log: seq<Turn>, j: nat, f: nat) {
    j < |log| && log[j].Came? && log[j].f == f
  }

  predicate HasCome(log: seq<Turn>, f: nat) {
    exists j :: 0 <= j < |log| && CameAt(log, j, f)
  }

  /** The frames came in order, and only they are written. */
  predicate InOrder(t: Tracked) {
    (forall i, j :: 0 <= i < j < |t.log| && t.log[i].Came? && t.log[j].Came? ==> t.log[i].f < t.log[j].f) &&
    forall f :: f in t.written ==> HasCome(t.log, f)
  }

  /** The client's state is what its history says. */
  predicate StateOk(t: Tracked, sent: seq<Packet>) {
    t.c.output == Held(t.log, t.written, |t.log|) && (t.c.miss <==> !Resumed(t.log, t.written, |t.log|)) &&
    (!t.c.send ==> t.log == []) &&
    (t.c.send && !t.c.del ==> forall f :: t.since <= f < |sent| ==> HasCome(t.log, f))
  }

  ghost predicate LogOk(t: Tracked, sent: seq<Packet>) {
    (forall j :: 0 <= j < |t.log| ==> TurnOk(t, sent, j)) && InOrder(t) && StateOk(t, sent)
  }

  // ---------- one turn more ----------

  /** Two records of what was written agree on the frames that came. */
  predicate Agree(log: seq<Turn>, written: map<nat, nat>, written': map<nat, nat>) {
    forall j :: 0 <= j < |log| && log[j].Came? ==> (log[j].f in written <==> log[j].f in written')
  }

  lemma {:induction false} StartMore(log: seq<Turn>, e: Turn, j: nat)
    requires j <= |log|
    ensures Start(log + [e], j) == Start(log, j)
    decreases j
  {
    hide NoRoom;
    if j > 0 && !NoRoom(log[j - 1]) {
      StartMore(log, e, j - 1);
    }
  }

  lemma {:induction false} SumMore(log: seq<Turn>, e: Turn, w: map<nat, nat>, w': map<nat, nat>, i: nat, j: nat)
    requires i <= j <= |log| && Agree(log, w, w')
    ensures Sum(log + [e], w', i, j) == Sum(log, w, i, j)
    decreases j
  {
    if i < j {
      SumMore(log, e, w, w', i, j - 1);
    }
  }

  lemma HeldMore(log: seq<Turn>, e: Turn, w: map<nat, nat>, w': map<nat, nat>, j: nat)
    requires j <= |log| && Agree(log, w, w')
    ensures Held(log + [e], w', j) == Held(log, w, j)
  {
    StartMore(log, e, j);
    SumMore(log, e, w, w', Start(log, j), j);
  }

  lemma HeldNext(log: seq<Turn>, e: Turn, w: map<nat, nat>, w': map<nat, nat>)
    requires Agree(log, w, w')
    ensures Held(log + [e], w', |log| + 1) == if NoRoom(e) then 0 else Held(log, w, |log|) + Amount(e, w')
  {
    HeldMore(log, e, w, w', |log|);
  }

  lemma ResumedMore(log: seq<Turn>, e: Turn, w: map<nat, nat>, w': map<nat, nat>, j: nat)
    requires j <= |log| && Agree(log, w, w')
    ensures Resumed(log + [e], w', j) <==> Resumed(log, w, j)
  {
    hide NoRoom;
    var l := log + [e];
    assert forall m :: 0 <= m < |log| ==> (KeyWritten(l[m], w') <==> KeyWritten(log[m], w));
    assert forall m :: 0 <= m < |log| ==> l[m] == log[m];
    hide KeyWritten;
  }

  /** After a frame without room the client has not resumed; after a key frame it has. */
  lemma ResumedNext(log: seq<Turn>, e: Turn, w: map<nat, nat>, w': map<nat, nat>)
    requires Agree(log, w, w')
    ensures Resumed(log + [e], w', |log| + 1) <==>
      !NoRoom(e) && (KeyWritten(e, w') || Resumed(log, w, |log|))
  {
    ResumedMore(log, e, w, w', |log|);
    hide NoRoom, KeyWritten;
    var l := log + [e];
    assert l[|log|] == e;
    if !NoRoom(e) && KeyWritten(e, w') {
      assert KeyWritten(l[|log|], w');
    } else if !NoRoom(e) && Resumed(l, w', |log|) {
      ResumedLonger(l, w', |log|);
    } else if !NoRoom(e) {
      NotResumedLonger(l, w', |log|);
    }
  }

  lemma ResumedLonger(log: seq<Turn>, w: map<nat, nat>, n: nat)
    requires n < |log| && Resumed(log, w, n) && !NoRoom(log[n])
    ensures Resumed(log, w, n + 1)
  {
    hide NoRoom, KeyWritten;
    forall i | 0 <= i < n + 1 && NoRoom(log[i])
      ensures exists m :: i < m < n + 1 && KeyWritten(log[m], w)
    {
      assert i < n;
      var m :| i < m < n && KeyWritten(log[m], w);
    }
  }

  lemma NotResumedLonger(log: seq<Turn>, w: map<nat, nat>, n: nat)
    requires n < |log| && !Resumed(log, w, n) && !KeyWritten(log[n], w)
    ensures !Resumed(log, w, n + 1)
  {
    hide NoRoom, KeyWritten;
    var i :| 0 <= i < n && NoRoom(log[i]) && forall m :: i < m < n ==> !KeyWritten(log[m], w);
    assert forall m :: i < m < n + 1 ==> !KeyWritten(log[m], w);
  }

  // ---------- the steps ----------

  /** Earlier turns stay as they are when one more comes. */
  lemma TurnStays(t: Tracked, t': Tracked, e: Turn, sent: seq<Packet>, sent': seq<Packet>, j: nat)
    requires j < |t.log| && TurnOk(t, sent, j) && t'.log == t.log + [e] && Agree(t.log, t.written, t'.written)
    requires |sent| <= |sent'| && sent'[..|sent|] == sent
    ensures TurnOk(t', sent', j)
  {
    HeldMore(t.log, e, t.written, t'.written, j);
    ResumedMore(t.log, e, t.written, t'.written, j);
    hide Held, Resumed, NoRoom;
    assert t'.log[j] == t.log[j];
    var f := t.log[j];
    if f.Came? {
      assert sent'[..|sent|][f.f] == sent'[f.f];
    }
  }

  lemma TurnsStay(t: Tracked, t': Tracked, e: Turn, sent: seq<Packet>, sent': seq<Packet>)
    requires LogOk(t, sent) && t'.log == t.log + [e] && Agree(t.log, t.written, t'.written)
    requires |sent| <= |sent'| && sent'[..|sent|] == sent
    ensures forall j :: 0 <= j < |t.log| ==> TurnOk(t', sent', j)
  {
    hide TurnOk, Agree, InOrder, StateOk;
    forall j | 0 <= j < |t.log|
      ensures TurnOk(t', sent', j)
    {
      TurnStays(t, t', e, sent, sent', j);
    }
  }

  lemma {:induction false} SameTurn(t: Tracked, t': Tracked, sent: seq<Packet>, sent': seq<Packet>, j: nat)
    requires j < |t.log| && TurnOk(t, sent, j) && t'.log == t.log && t'.written == t.written
    requires |sent| <= |sent'| && sent'[..|sent|] == sent
    ensures TurnOk(t', sent', j)
  {
    hide Held, Resumed, NoRoom;
    var e := t.log[j];
    if e.Came? {
      assert sent'[..|sent|][e.f] == sent'[e.f];
    }
  }

  /** A client that has no turn. */
  lemma SameLog(t: Tracked, t': Tracked, sent: seq<Packet>, sent': seq<Packet>)
    requires LogOk(t, sent) && t'.log == t.log && t'.written == t.written
    requires |sent| <= |sent'| && sent'[..|sent|] == sent && StateOk(t', sent')
    ensures LogOk(t', sent')
  {
    hide TurnOk, StateOk;
    forall j | 0 <= j < |t'.log|
      ensures TurnOk(t', sent', j)
    {
      SameTurn(t, t', sent, sent', j);
    }
  }

  lemma ComeMore(log: seq<Turn>, e: Turn, f: nat)
    ensures HasCome(log, f) ==> HasCome(log + [e], f)
    ensures e.Came? && e.f == f ==> HasCome(log + [e], f)
  {
    var l := log + [e];
    if HasCome(log, f) {
      var j :| 0 <= j < |log| && CameAt(log, j, f);
      assert CameAt(l, j, f);
    }
    if e.Came? && e.f == f {
      assert CameAt(l, |log|, f);
    }
  }

  lemma NothingHeld(written: map<nat, nat>)
    ensures Held([], written, 0) == 0
  {
  }

  /** The network takes bytes. */
  lemma TookOk(t: Tracked, n: nat, sent: seq<Packet>)
    requires LogOk(t, sent) && 0 < n <= t.c.output
    ensures LogOk(t.(c := t.c.(output := t.c.output - n), log := t.log + [Took(n)]), sent)
  {
    var e := Took(n);
    var t' := t.(c := t.c.(output := t.c.output - n), log := t.log + [e]);
    assert sent[..|sent|] == sent;
    TurnsStay(t, t', e, sent, sent);
    HeldNext(t.log, e, t.written, t.written);
    ResumedNext(t.log, e, t.written, t.written);
    NothingHeld(t.written);
    forall f
      ensures HasCome(t.log, f) ==> HasCome(t'.log, f)
    {
      ComeMore(t.log, e, f);
    }
    hide TurnOk, Held, Resumed, HasCome;
  }

  /** The dispatch of a frame. */
  lemma CameOk(t: Tracked, p: Packet, sent: seq<Packet>, keys: seq<bool>)
    requires ClientOk(t, keys) && |keys| == |sent| && LogOk(t, sent)
    ensures LogOk(DeliverTracked(t, p, |sent|), sent + [p])
  {
    var n, t' := |sent|, DeliverTracked(t, p, |sent|);
    assert (sent + [p])[..n] == sent;
    if t.c.del || !t.c.send {
      hide TurnOk, Held, Resumed, HasCome, ClientOk, InOrder;
      SameLog(t, t, sent, sent + [p]);
    } else {
      ServedOk(t, p, sent, keys);
    }
  }

  lemma ServedOk(t: Tracked, p: Packet, sent: seq<Packet>, keys: seq<bool>)
    requires ClientOk(t, keys) && |keys| == |sent| && LogOk(t, sent) && t.c.send && !t.c.del
    ensures LogOk(DeliverTracked(t, p, |sent|), sent + [p])
  {
    var n, t', e := |sent|, DeliverTracked(t, p, |sent|), Came(|sent|, p, t.c.output);
    ServedAs(t, p, sent, keys);
    hide DeliverTracked, ClientOk;
    assert (sent + [p])[..n] == sent;
    NewFrame(t, sent);
    AgreeMore(t, t', p, sent);
    TurnsStay(t, t', e, sent, sent + [p]);
    NewTurn(t, t', p, sent);
    NewOrder(t, t', p, sent);
    NewState(t, t', p, sent);
    hide TurnOk, InOrder, StateOk;
  }

  /** What the dispatch does, in terms of room, key frames and the mark for missed frames. */
  ghost predicate Served(t: Tracked, t': Tracked, p: Packet, n: nat) {
    var e, room := Came(n, p, t.c.output), t.c.output + p.size + HEADER <= LIMIT;
    var wrote := room && (IsKey(p) || !t.c.miss);
    t'.log == t.log + [e] && t'.since == t.since && t'.c.send && !t'.c.del &&
    (forall f :: f in t'.written <==> f in t.written || (f == n && wrote)) &&
    t'.c.output == (if !room then 0 else if wrote then t.c.output + HEADER + p.size else t.c.output) &&
    (t'.c.miss <==> !room || (t.c.miss && !wrote))
  }

  lemma ServedAs(t: Tracked, p: Packet, sent: seq<Packet>, keys: seq<bool>)
    requires ClientOk(t, keys) && |keys| == |sent| && t.c.send && !t.c.del
    ensures Served(t, DeliverTracked(t, p, |sent|), p, |sent|)
  {
    ClientFacts(t, keys);
    FullWithin(t.c.output, p.size);
    hide Full, ClientOk;
  }

  /** The number of a new frame is that of no frame that came. */
  lemma NewFrame(t: Tracked, sent: seq<Packet>)
    requires LogOk(t, sent)
    ensures |sent| !in t.written && forall j :: 0 <= j < |t.log| && t.log[j].Came? ==> t.log[j].f < |sent|
  {
    hide Held, Resumed;
    forall j | 0 <= j < |t.log| && t.log[j].Came?
      ensures t.log[j].f < |sent|
    {
      assert TurnOk(t, sent, j);
    }
    forall f | f in t.written
      ensures f < |sent|
    {
      assert HasCome(t.log, f);
      var j :| 0 <= j < |t.log| && CameAt(t.log, j, f);
    }
  }

  lemma AgreeMore(t: Tracked, t': Tracked, p: Packet, sent: seq<Packet>)
    requires forall j :: 0 <= j < |t.log| && t.log[j].Came? ==> t.log[j].f < |sent|
    requires Served(t, t', p, |sent|)
    ensures Agree(t.log, t.written, t'.written)
  {
  }

  lemma NewTurn(t: Tracked, t': Tracked, p: Packet, sent: seq<Packet>)
    requires LogOk(t, sent) && Served(t, t', p, |sent|) && Agree(t.log, t.written, t'.written) && |sent| !in t.written
    ensures TurnOk(t', sent + [p], |t.log|)
  {
    var e := Came(|sent|, p, t.c.output);
    HeldMore(t.log, e, t.written, t'.written, |t.log|);
    ResumedMore(t.log, e, t.written, t'.written, |t.log|);
    hide Held, Resumed, InOrder, HasCome;
  }

  lemma NewOrder(t: Tracked, t': Tracked, p: Packet, sent: seq<Packet>)
    requires LogOk(t, sent) && Served(t, t', p, |sent|)
    requires forall j :: 0 <= j < |t.log| && t.log[j].Came? ==> t.log[j].f < |sent|
    ensures InOrder(t')
  {
    var e := Came(|sent|, p, t.c.output);
    forall f
      ensures HasCome(t.log, f) || f == |sent| ==> HasCome(t'.log, f)
    {
      ComeMore(t.log, e, f);
    }
    hide TurnOk, StateOk, HasCome;
  }

  lemma NewState(t: Tracked, t': Tracked, p: Packet, sent: seq<Packet>)
    requires LogOk(t, sent) && Served(t, t', p, |sent|) && Agree(t.log, t.written, t'.written) && |sent| !in t.written
    requires t.c.send && !t.c.del
    ensures StateOk(t', sent + [p])
  {
    hide TurnOk, HasCome, Held, Resumed, InOrder, Agree;
    NewOutput(t, t', p, sent);
    NewCome(t, t', p, sent);
  }

  lemma NewOutput(t: Tracked, t': Tracked, p: Packet, sent: seq<Packet>)
    requires StateOk(t, sent) && Served(t, t', p, |sent|) && Agree(t.log, t.written, t'.written)
    requires |sent| !in t.written
    ensures t'.c.output == Held(t'.log, t'.written, |t'.log|)
    ensures t'.c.miss <==> !Resumed(t'.log, t'.written, |t'.log|)
  {
    var e := Came(|sent|, p, t.c.output);
    HeldNext(t.log, e, t.written, t'.written);
    ResumedNext(t.log, e, t.written, t'.written);
    hide HasCome, Held, Resumed, Agree;
  }

  lemma NewCome(t: Tracked, t': Tracked, p: Packet, sent: seq<Packet>)
    requires StateOk(t, sent) && Served(t, t', p, |sent|) && t.c.send && !t.c.del
    ensures forall f :: t'.since <= f < |sent + [p]| ==> HasCome(t'.log, f)
  {
    hide HasCome, Held, Resumed;
    var e := Came(|sent|, p, t.c.output);
    forall f
      ensures HasCome(t.log, f) || f == |sent| ==> HasCome(t'.log, f)
    {
      ComeMore(t.log, e, f);
    }
  }

  // ---------- runs ----------

  ghost predicate AllLogs(ts: seq<Tracked>, sent: seq<Packet>) {
    forall i :: 0 <= i < |ts| ==> LogOk(ts[i], sent)
  }

  lemma {:induction false} FanOutLogs(ts: seq<Tracked>, i: nat, p: Packet, sent: seq<Packet>, keys: seq<bool>)
    requires i <= |ts| && AllOk(ts, keys) && |keys| == |sent| && AllLogs(ts, sent)
    ensures AllLogs(FanOutTracked(ts, i, p, |sent|), sent + [p])
    decreases |ts| - i
  {
    hide ClientOk, LogOk, DeliverTracked;
    if i < |ts| {
      FanOutLogs(ts, i + 1, p, sent, keys);
      CameOk(ts[i], p, sent, keys);
    }
  }

  lemma NewLog(sent: seq<Packet>)
    ensures LogOk(Tracked(ClientState(false, false, false, false, 0), 0, map[], 0, []), sent)
  {
  }

  lemma ConnectedLog(t: Tracked, sent: seq<Packet>)
    requires LogOk(t, sent) && !t.c.send
    ensures LogOk(t.(c := t.c.(send := true, event := true), since := |sent|, mark := |sent|), sent)
  {
    assert sent[..|sent|] == sent;
    SameLog(t, t.(c := t.c.(send := true, event := true), since := |sent|, mark := |sent|), sent, sent);
  }

  lemma MarkedLog(t: Tracked, sent: seq<Packet>)
    requires LogOk(t, sent)
    ensures LogOk(t.(c := t.c.(del := true)), sent)
  {
    assert sent[..|sent|] == sent;
    SameLog(t, t.(c := t.c.(del := true)), sent, sent);
  }

  lemma StepLogs(d: Device, e: Event)
    requires Ok(d) && AllLogs(d.clients, d.sent)
    ensures AllLogs(Step(d, e).clients, Step(d, e).sent)
  {
    hide ClientOk, LogOk, FanOutTracked;
    match e
    case Read(p) => FanOutLogs(d.clients, 0, p, d.sent, d.keys);
    case Joined => NewLog(d.sent);
    case Connected(i) =>
      if i < |d.clients| && !d.clients[i].c.event {
        ClientFacts(d.clients[i], d.keys);
        ConnectedLog(d.clients[i], d.sent);
      }
    case Refused(i) =>
    case Failed(i) =>
      if i < |d.clients| {
        MarkedLog(d.clients[i], d.sent);
      }
    case Taken(i, n) =>
      if i < |d.clients| && 0 < n <= d.clients[i].c.output {
        TookOk(d.clients[i], n, d.sent);
      }
  }

  lemma {:induction false} RunLogs(es: seq<Event>, k: nat)
    requires k <= |es|
    ensures AllLogs(Run(START, es, k).clients, Run(START, es, k).sent)
  {
    if k > 0 {
      RunLogs(es, k - 1);
      RunOk(es, k - 1);
      hide Ok, AllLogs, Step;
      StepLogs(Run(START, es, k - 1), es[k - 1]);
    }
  }

  /** In every run, every frame that was dispatched since a client was connected came to it, as long
      as it is not marked, and nothing else is written for it. */
  lemma EveryFrameCame(es: seq<Event>, k: nat, i: nat, f: nat)
    requires k <= |es| && i < |Run(START, es, k).clients|
    ensures var d := Run(START, es, k); var t := d.clients[i];
      && (t.c.send && !t.c.del && t.since <= f < |d.sent| ==> HasCome(t.log, f))
      && (f in t.written ==> HasCome(t.log, f))
  {
    RunLogs(es, k);
    hide TurnOk, Held, Resumed, HasCome, Run;
    assert LogOk(Run(START, es, k).clients[i], Run(START, es, k).sent);
  }

  /** In every run, a frame that came to a client was written for it if and only if there was room
      for it then, and it is a key frame or a key frame was written since the last frame for which
      there was no room. */
  lemma WrittenExactly(es: seq<Event>, k: nat, i: nat, j: nat)
    requires k <= |es| && i < |Run(START, es, k).clients|
    requires var t := Run(START, es, k).clients[i]; j < |t.log| && t.log[j].Came?
    ensures var d := Run(START, es, k); var t := d.clients[i]; var e := t.log[j];
      && e.f < |d.sent| && e.p == d.sent[e.f]
      && (e.f in t.written <==>
          e.output + e.p.size + HEADER <= LIMIT && (IsKey(e.p) || Resumed(t.log, t.written, j)))
  {
    RunLogs(es, k);
    hide Held, Resumed, InOrder, StateOk, Run;
    assert TurnOk(Run(START, es, k).clients[i], Run(START, es, k).sent, j);
  }

  /** In every run, what a client's output buffer holds, now and when a frame came, is the sum of
      header and size over the frames written since the last overflow, less what was taken. */
  lemma OutputExactly(es: seq<Event>, k: nat, i: nat, from: nat, j: nat)
    requires k <= |es| && i < |Run(START, es, k).clients|
    requires var t := Run(START, es, k).clients[i];
      from <= j <= |t.log| && SinceOverflow(t.log, from, j)
    ensures var t := Run(START, es, k).clients[i];
      && (j == |t.log| ==> t.c.output == Sum(t.log, t.written, from, j))
      && (j < |t.log| && t.log[j].Came? ==> t.log[j].output == Sum(t.log, t.written, from, j))
  {
    RunLogs(es, k);
    var t, sent := Run(START, es, k).clients[i], Run(START, es, k).sent;
    StartOnly(t.log, from, j);
    hide Resumed, InOrder, Run, Sum, SinceOverflow;
    if j < |t.log| {
      assert TurnOk(t, sent, j);
    } else {
      assert StateOk(t, sent);
    }
  }
}
