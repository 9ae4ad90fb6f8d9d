/**
  What a drained request does to the channel table and to the kernel's interest set
  (utils/event_loop.c, utils/event_dispatcher.c, utils/channel.c), as functions on values.
*/
module Requests {
  import opened Basics
  import opened Capacities

  /** A channel's identity: which object it is, and the descriptor it was created for. */
  datatype Chan = Chan(id: nat, fd: int)

  datatype Kind = Add | Remove | Update
  datatype Request = Request(kind: Kind, chan: Chan)

  /** A request together with the channel's event bits at the moment the request is handled. */
  datatype Work = Work(req: Request, events: bv8)

  const EVENT_READ: bv8 := 0x02
  const EVENT_WRITE: bv8 := 0x04
  const EPOLLIN: bv8 := 0x001
  const EPOLLOUT: bv8 := 0x004

  function Translated(events: bv8): bv8 {
    (if events & EVENT_READ != 0 then EPOLLIN else 0) | (if events & EVENT_WRITE != 0 then EPOLLOUT else 0)
  }

  /** epoll_update starts from the constant 1 instead of 0. */
  function UpdateMask(events: bv8): bv8 {
    1 | Translated(events)
  }

  predicate Reads(events: bv8) { events & EVENT_READ != 0 }
  predicate Writes(events: bv8) { events & EVENT_WRITE != 0 }

  function WithWrite(events: bv8): bv8 { events | EVENT_WRITE }
  function WithoutWrite(events: bv8): bv8 { events & !EVENT_WRITE }

  /** The stray 1 is EPOLLIN: it is harmless exactly for channels that keep their read bit. */
  lemma UpdateMaskIsSound(events: bv8)
    ensures UpdateMask(events) == Translated(events) <==> Reads(events)
  {
  }

  /** Whatever the bits: EPOLLIN is watched for exactly if the channel reads, EPOLLOUT exactly if it writes, nothing else is. */
  lemma MaskBits(events: bv8)
    ensures Translated(events) & EPOLLIN != 0 <==> Reads(events)
    ensures Translated(events) & EPOLLOUT != 0 <==> Writes(events)
    ensures Translated(events) & !(EPOLLIN | EPOLLOUT) == 0
    ensures UpdateMask(events) & EPOLLIN != 0 && (UpdateMask(events) & EPOLLOUT != 0 <==> Writes(events))
    ensures UpdateMask(events) & !(EPOLLIN | EPOLLOUT) == 0
  {
  }

  /** Enabling and disabling writes leave the read bit alone and undo each other. */
  lemma WriteBit(events: bv8)
    ensures Writes(WithWrite(events)) && !Writes(WithoutWrite(events))
    ensures Reads(WithWrite(events)) == Reads(events) == Reads(WithoutWrite(events))
    ensures !Writes(events) ==> WithoutWrite(WithWrite(events)) == events
    ensures WithWrite(events) & !EVENT_WRITE == WithoutWrite(events) == events & !EVENT_WRITE
    ensures Translated(WithWrite(events)) & EPOLLOUT != 0 && Translated(WithoutWrite(events)) & EPOLLOUT == 0
    ensures Reads(events) ==> Translated(events) & EPOLLIN != 0
  {
  }

  /** A kernel registration: its mask, and the channel whose bits were written last. */
  datatype Registration = Registration(mask: bv8, writer: Chan)

  datatype Table = Table(number: nat, entries: map<int, Chan>, kernel: map<int, Registration>)

  /** `Fault`: the process dies (failed assertion, null or out-of-range access, failed epoll_ctl). */
  datatype Outcome = Ok(table: Table) | Fault

  const EmptyTable := Table(0, map[], map[])

  function HandleAdd(t: Table, c: Chan, events: bv8): Outcome {
    if c.fd < 0 then Ok(t)
    else
      var t' := t.(number := Grown(t.number, c.fd));
      if c.fd in t'.entries then Ok(t')
      else if c.fd in t'.kernel then Fault
      else Ok(t'.(entries := t'.entries[c.fd := c],
                  kernel := t'.kernel[c.fd := Registration(Translated(events), c)]))
  }

  function HandleRemove(t: Table, c: Chan): Outcome {
    if c.fd < 0 || c.fd >= t.number then Ok(t)
    else if c.fd !in t.entries then Fault
    else
      var stored := t.entries[c.fd];
      if stored.fd !in t.kernel then Fault
      else Ok(t.(entries := t.entries - {c.fd}, kernel := t.kernel - {stored.fd}))
  }

  function HandleUpdate(t: Table, c: Chan, events: bv8): Outcome {
    if c.fd < 0 then Ok(t)
    else if c.fd >= t.number then Fault
    else if c.fd !in t.entries then Ok(t)
    else if c.fd !in t.kernel then Fault
    else Ok(t.(kernel := t.kernel[c.fd := Registration(UpdateMask(events), c)]))
  }

  function Handle(t: Table, w: Work): Outcome {
    match w.req.kind
    case Add => HandleAdd(t, w.req.chan, w.events)
    case Remove => HandleRemove(t, w.req.chan)
    case Update => HandleUpdate(t, w.req.chan, w.events)
  }

  function Then(o: Outcome, w: Work): Outcome {
    match o
    case Ok(t) => Handle(t, w)
    case Fault => Fault
  }

  function HandleAll(o: Outcome, ws: seq<Work>): Outcome
    decreases |ws|
  {
    if ws == [] then o else HandleAll(Then(o, ws[0]), ws[1..])
  }

  lemma {:induction false} HandleAllConcat(o: Outcome, a: seq<Work>, b: seq<Work>)
    ensures HandleAll(o, a + b) == HandleAll(HandleAll(o, a), b)
    decreases |a|
  {
    if a == [] {
      assert a + b == b;
    } else {
      assert (a + b)[1..] == a[1..] + b;
      HandleAllConcat(Then(o, a[0]), a[1..], b);
    }
  }

  lemma HandleOne(o: Outcome, w: Work)
    ensures HandleAll(o, [w]) == Then(o, w)
  {
    assert [w][1..] == [];
  }

  lemma HandleLast(ws: seq<Work>)
    requires ws != []
    ensures HandleAll(Ok(EmptyTable), ws) == Then(HandleAll(Ok(EmptyTable), ws[..|ws| - 1]), ws[|ws| - 1])
  {
    var n := |ws| - 1;
    assert ws == ws[..n] + [ws[n]];
    HandleAllConcat(Ok(EmptyTable), ws[..n], [ws[n]]);
    HandleOne(HandleAll(Ok(EmptyTable), ws[..n]), ws[n]);
  }

  /** The table and its copy in the kernel describe the same descriptors. */
  ghost predicate Consistent(t: Table) {
    && t.entries.Keys == t.kernel.Keys
    && (forall fd :: fd in t.entries ==> 0 <= fd < t.number && t.entries[fd].fd == fd)
    && (forall fd :: fd in t.kernel ==> t.kernel[fd].writer.fd == fd)
  }

  /** Exactly which requests kill the process on a consistent table; none of them is an epoll_ctl failure. */
  ghost predicate Fatal(t: Table, r: Request) {
    match r.kind
    case Add => false
    case Remove => 0 <= r.chan.fd < t.number && r.chan.fd !in t.entries
    case Update => t.number <= r.chan.fd
  }

  lemma GrownKeeps(number: nat, slot: int)
    ensures Grown(number, slot) >= number && Grown(number, slot) > slot
  {
    if number <= slot {
      DoubledCovers(if number == 0 then FIRST_CAPACITY else number, slot);
    }
  }

  lemma {:induction false} DoubledCovers(n: nat, slot: int)
    requires n > 0
    ensures Doubled(n, slot) >= n && Doubled(n, slot) > slot
    decreases slot - n
  {
    if n <= slot {
      DoubledCovers(2 * n, slot);
    }
  }

  lemma HandleKeepsConsistent(t: Table, w: Work)
    requires Consistent(t)
    ensures Handle(t, w).Fault? <==> Fatal(t, w.req)
    ensures Handle(t, w).Ok? ==> Consistent(Handle(t, w).table)
  {
    GrownKeeps(t.number, w.req.chan.fd);
  }

  lemma {:induction false} HandleAllKeepsConsistent(o: Outcome, ws: seq<Work>)
    requires o.Ok? ==> Consistent(o.table)
    ensures HandleAll(o, ws).Ok? ==> Consistent(HandleAll(o, ws).table)
    decreases |ws|
  {
    if ws != [] {
      if o.Ok? { HandleKeepsConsistent(o.table, ws[0]); }
      HandleAllKeepsConsistent(Then(o, ws[0]), ws[1..]);
    }
  }

  /** The descriptors that adds were asked for, in order. */
  function AddedSlots(ws: seq<Work>): seq<int> {
    if ws == [] then []
    else AddedSlots(ws[..|ws| - 1]) + if ws[|ws| - 1].req.kind.Add? then [ws[|ws| - 1].req.chan.fd] else []
  }

  /** Whatever was handled, the table has the size that the adds alone have given it. */
  lemma {:induction false} NumberFollowsAdds(ws: seq<Work>)
    requires HandleAll(Ok(EmptyTable), ws).Ok?
    ensures HandleAll(Ok(EmptyTable), ws).table.number == NumberAfter(AddedSlots(ws))
    decreases |ws|
  {
    if ws != [] {
      var n := |ws| - 1;
      HandleLast(ws);
      NumberFollowsAdds(ws[..n]);
      NumberStep(HandleAll(Ok(EmptyTable), ws[..n]).table, ws[n]);
      NumberAfterSnoc(AddedSlots(ws[..n]), ws[n].req.chan.fd);
    }
  }

  lemma NumberStep(t: Table, w: Work)
    requires Handle(t, w).Ok?
    ensures Handle(t, w).table.number == if w.req.kind.Add? then Grown(t.number, w.req.chan.fd) else t.number
  {
  }

  lemma NumberAfterSnoc(slots: seq<int>, slot: int)
    ensures NumberAfter(slots + [slot]) == Grown(NumberAfter(slots), slot) && slots + [] == slots
  {
    assert (slots + [slot])[..|slots|] == slots;
  }

  /** `top` is the largest descriptor of an add. */
  ghost predicate IsLargestAdd(rs: seq<Request>, top: int) {
    && (exists i :: 0 <= i < |rs| && rs[i].kind.Add? && rs[i].chan.fd == top)
    && forall i :: 0 <= i < |rs| && rs[i].kind.Add? ==> rs[i].chan.fd <= top
  }

  lemma {:induction false} LargestAddIs(ws: seq<Work>, rs: seq<Request>, top: int)
    requires |ws| == |rs| && (forall i :: 0 <= i < |ws| ==> ws[i].req == rs[i])
    requires top >= 0 && IsLargestAdd(rs, top)
    ensures MaxSlot(AddedSlots(ws)) == top
  {
    MaxOfAdds(ws);
    var i :| 0 <= i < |rs| && rs[i].kind.Add? && rs[i].chan.fd == top;
    assert ws[i].req == rs[i];
  }

  lemma {:induction false} MaxOfAdds(ws: seq<Work>)
    ensures IsMaxAdd(ws, MaxSlot(AddedSlots(ws)))
    decreases |ws|
  {
    if ws != [] {
      var n := |ws| - 1;
      MaxOfAdds(ws[..n]);
      MaxSlotSnoc(AddedSlots(ws[..n]), ws[n].req.chan.fd);
      assert forall i :: 0 <= i < n ==> ws[..n][i] == ws[i];
    }
  }

  /** No add is for a larger descriptor than `top`, and one is for `top` unless that is -1. */
  ghost predicate IsMaxAdd(ws: seq<Work>, top: int) {
    && (forall i :: 0 <= i < |ws| && ws[i].req.kind.Add? ==> ws[i].req.chan.fd <= top)
    && (top == -1 || exists i :: 0 <= i < |ws| && ws[i].req.kind.Add? && ws[i].req.chan.fd == top)
  }

  lemma MaxSlotSnoc(slots: seq<int>, slot: int)
    ensures MaxSlot(slots + [slot]) == Max(MaxSlot(slots), slot) && slots + [] == slots
  {
    assert (slots + [slot])[..|slots|] == slots;
  }

  /**
    After handling any requests the table has no slots if no descriptor was added, and otherwise the least capacity
    above the largest added one.
  */
  lemma {:induction false} TableHasLeastCapacity(ws: seq<Work>, rs: seq<Request>)
    requires |ws| == |rs| && (forall i :: 0 <= i < |ws| ==> ws[i].req == rs[i]) && HandleAll(Ok(EmptyTable), ws).Ok?
    ensures var number := HandleAll(Ok(EmptyTable), ws).table.number;
      && ((forall i :: 0 <= i < |rs| && rs[i].kind.Add? ==> rs[i].chan.fd < 0) ==> number == 0)
      && forall top :: top >= 0 && IsLargestAdd(rs, top) ==> IsLeastCapacity(number, top)
  {
    NumberFollowsAdds(ws);
    NumberIsLeastCapacity(AddedSlots(ws));
    MaxOfAdds(ws);
    forall top | top >= 0 && IsLargestAdd(rs, top) ensures MaxSlot(AddedSlots(ws)) == top {
      LargestAddIs(ws, rs, top);
    }
  }

  // ----- event bits may change between asking and handling

  /** The current event bits; a channel not in the map still has the bits it was created with. */
  type Events = map<Chan, bv8>

  function EventsOf(ev: Events, c: Chan): bv8 { if c in ev then ev[c] else EVENT_READ }

  ghost predicate ReadForever(ev: Events) { forall c :: c in ev ==> Reads(ev[c]) }

  /** The requests as they would be handled with the current bits. */
  function Load(rs: seq<Request>, ev: Events): (ws: seq<Work>)
    ensures |ws| == |rs|
  {
    seq(|rs|, i requires 0 <= i < |rs| => Work(rs[i], EventsOf(ev, rs[i].chan)))
  }

  ghost predicate Fresh(t: Table, ev: Events) {
    forall fd :: fd in t.kernel ==> t.kernel[fd].mask == Translated(EventsOf(ev, t.kernel[fd].writer))
  }

  /** Every mask is current, or an update that will repair it is among `cover`. */
  ghost predicate StaleCovered(t: Table, cover: set<Request>, ev: Events) {
    forall fd :: fd in t.kernel && t.kernel[fd].mask != Translated(EventsOf(ev, t.kernel[fd].writer)) ==>
      Request(Update, t.kernel[fd].writer) in cover
  }

  /** Handling a request with the current bits repairs whatever that request was needed for. */
  lemma HandlingKeepsCovered(t: Table, w: Work, cover: set<Request>, ev: Events)
    requires Consistent(t) && ReadForever(ev) && w.events == EventsOf(ev, w.req.chan)
    requires StaleCovered(t, cover + {w.req}, ev)
    ensures Handle(t, w).Ok? ==> StaleCovered(Handle(t, w).table, cover, ev)
  {
    UpdateMaskIsSound(w.events);
  }

  /** Handling requests with the current bits leaves stale only what the updates in `extra` are still to repair. */
  lemma {:induction false} HandlingFreshensBut(t: Table, rs: seq<Request>, extra: set<Request>, ev: Events)
    requires Consistent(t) && StaleCovered(t, (set r | r in rs) + extra, ev) && ReadForever(ev)
    ensures HandleAll(Ok(t), Load(rs, ev)).Ok? ==> StaleCovered(HandleAll(Ok(t), Load(rs, ev)).table, extra, ev)
    decreases |rs|
  {
    if rs != [] {
      var w := Load(rs, ev)[0];
      var rest := set r | r in rs[1..];
      assert Load(rs, ev)[1..] == Load(rs[1..], ev);
      assert rest + extra + {w.req} == (set r | r in rs) + extra;
      if Handle(t, w).Ok? {
        HandleKeepsConsistent(t, w);
        HandlingKeepsCovered(t, w, rest + extra, ev);
        HandlingFreshensBut(Handle(t, w).table, rs[1..], extra, ev);
      } else {
        FaultStays(Load(rs[1..], ev));
      }
    } else {
      assert (set r | r in rs) + extra == extra;
    }
  }

  lemma HandlingFreshens(t: Table, rs: seq<Request>, ev: Events)
    requires Consistent(t) && StaleCovered(t, (set r | r in rs), ev) && ReadForever(ev)
    ensures HandleAll(Ok(t), Load(rs, ev)).Ok? ==> Fresh(HandleAll(Ok(t), Load(rs, ev)).table, ev)
  {
    HandlingFreshensBut(t, rs, {}, ev);
  }

  lemma {:induction false} FaultStays(ws: seq<Work>)
    ensures HandleAll(Fault, ws) == Fault
  {
    if ws != [] { FaultStays(ws[1..]); }
  }

  /** Handling the requests from the i-th on leads from `t` to `result`. */
  ghost predicate Leads(t: Table, ws: seq<Work>, i: nat, result: Outcome) {
    i <= |ws| && HandleAll(Ok(t), ws[i..]) == result
  }

  lemma LeadsWhole(t: Table, ws: seq<Work>, result: Outcome)
    ensures Leads(t, ws, 0, result) <==> HandleAll(Ok(t), ws) == result
    ensures Leads(t, ws, |ws|, result) <==> Ok(t) == result
  {
    assert ws[0..] == ws;
  }

  lemma TakeFirst(t: Table, ws: seq<Work>, i: nat, result: Outcome)
    requires i < |ws| && result.Ok? && Leads(t, ws, i, result)
    ensures Handle(t, ws[i]).Ok? && Leads(Handle(t, ws[i]).table, ws, i + 1, result)
  {
    assert ws[i..][1..] == ws[i + 1..];
    FaultStays(ws[i + 1..]);
  }

  /** Tables that agree on everything except the masks. */
  ghost predicate SameShape(a: Outcome, b: Outcome) {
    && a.Ok? == b.Ok?
    && (a.Ok? ==>
          && a.table.number == b.table.number && a.table.entries == b.table.entries
          && a.table.kernel.Keys == b.table.kernel.Keys
          && forall fd :: fd in a.table.kernel ==> a.table.kernel[fd].writer == b.table.kernel[fd].writer)
  }

  lemma {:induction false} ShapeIgnoresEvents(a: Outcome, b: Outcome, va: seq<Work>, vb: seq<Work>)
    requires SameShape(a, b) && |va| == |vb| && forall i :: 0 <= i < |va| ==> va[i].req == vb[i].req
    ensures SameShape(HandleAll(a, va), HandleAll(b, vb))
    decreases |va|
  {
    if va != [] {
      ShapeIgnoresEvents(Then(a, va[0]), Then(b, vb[0]), va[1..], vb[1..]);
    }
  }

  // ----- well-behaved clients

  /**
    The descriptors open after a sequence of requests in which every descriptor goes through sessions of
    one add, any updates by the same channel, and at most one remove; None when the sequence breaks that rule.
  */
  datatype Sessions = Open(chans: map<int, Chan>) | Broken

  function AfterRequest(s: Sessions, r: Request): Sessions {
    if s.Broken? || r.chan.fd < 0 then Broken
    else match r.kind
      case Add => if r.chan.fd in s.chans then Broken else Open(s.chans[r.chan.fd := r.chan])
      case Remove =>
        if r.chan.fd in s.chans && s.chans[r.chan.fd] == r.chan then Open(s.chans - {r.chan.fd}) else Broken
      case Update =>
        if r.chan.fd in s.chans && s.chans[r.chan.fd] == r.chan then s else Broken
  }

  function SessionsAfter(rs: seq<Request>): Sessions {
    if rs == [] then Open(map[]) else AfterRequest(SessionsAfter(rs[..|rs| - 1]), rs[|rs| - 1])
  }

  /** Request j added `c`, and nothing since, up to request i, was anything but an update for its descriptor. */
  ghost predicate OpenedBy(rs: seq<Request>, j: int, i: int, c: Chan) {
    && 0 <= j < i <= |rs| && rs[j] == Request(Add, c)
    && forall k :: j < k < i && rs[k].chan.fd == c.fd ==> rs[k].kind.Update?
  }

  ghost predicate OpenAt(rs: seq<Request>, i: int, c: Chan) { exists j :: OpenedBy(rs, j, i, c) }

  /** The rule, request by request: adds meet no open channel of the descriptor, updates and removes meet their own. */
  ghost predicate Obeys(rs: seq<Request>, i: int)
    requires 0 <= i < |rs|
  {
    && rs[i].chan.fd >= 0
    && match rs[i].kind
       case Add => forall c: Chan :: c.fd == rs[i].chan.fd ==> !OpenAt(rs, i, c)
       case _ => OpenAt(rs, i, rs[i].chan)
  }

  lemma OpenAtPrefix(rs: seq<Request>, n: nat, i: int, c: Chan)
    requires i <= n <= |rs|
    ensures OpenAt(rs[..n], i, c) <==> OpenAt(rs, i, c)
  {
    if j :| OpenedBy(rs[..n], j, i, c) { assert OpenedBy(rs, j, i, c); }
    if j :| OpenedBy(rs, j, i, c) { assert OpenedBy(rs[..n], j, i, c); }
  }

  /** What one more request does to what is open. */
  lemma OpenAtNext(rs: seq<Request>, c: Chan)
    requires rs != []
    ensures var n, r := |rs| - 1, rs[|rs| - 1];
      OpenAt(rs, n + 1, c) <==>
        r == Request(Add, c) || (OpenAt(rs, n, c) && (r.chan.fd == c.fd ==> r.kind.Update?))
  {
    var n, m := |rs| - 1, |rs|;
    if rs[n] == Request(Add, c) { assert OpenedBy(rs, n, m, c); }
    if j :| OpenedBy(rs, j, m, c) && j < n { assert OpenedBy(rs, j, n, c); }
    if OpenAt(rs, n, c) && (rs[n].chan.fd == c.fd ==> rs[n].kind.Update?) {
      var j :| OpenedBy(rs, j, n, c);
      assert OpenedBy(rs, j, m, c);
    }
  }

  /** `Open` says exactly that every request obeys the rule, and names exactly the channels that are open. */
  lemma {:induction false} SessionsMean(rs: seq<Request>)
    ensures SessionsAfter(rs).Open? <==> forall i :: 0 <= i < |rs| ==> Obeys(rs, i)
    ensures SessionsAfter(rs).Open? ==> NamesOpen(rs, SessionsAfter(rs).chans)
  {
    if rs == [] {
      forall c ensures !OpenAt(rs, 0, c) {}
    } else {
      var n := |rs| - 1;
      var front := rs[..n];
      SessionsMean(front);
      forall i | 0 <= i < n ensures Obeys(front, i) <==> Obeys(rs, i) {
        forall c ensures OpenAt(front, i, c) <==> OpenAt(rs, i, c) { OpenAtPrefix(rs, n, i, c); }
      }
      forall c ensures OpenAt(front, n, c) <==> OpenAt(rs, n, c) { OpenAtPrefix(rs, n, n, c); }
      forall c ensures OpenAt(rs, n + 1, c) <==>
        rs[n] == Request(Add, c) || (OpenAt(rs, n, c) && (rs[n].chan.fd == c.fd ==> rs[n].kind.Update?)) { OpenAtNext(rs, c); }
      if SessionsAfter(front).Open? { SessionsStep(rs, front, SessionsAfter(front).chans); }
    }
  }

  ghost predicate NamesOpen(rs: seq<Request>, chans: map<int, Chan>) {
    && (forall fd :: fd in chans ==> chans[fd].fd == fd)
    && forall c :: Names(chans, c) <==> OpenAt(rs, |rs|, c)
  }

  ghost predicate Names(chans: map<int, Chan>, c: Chan) { c.fd in chans && chans[c.fd] == c }

  lemma SessionsStep(rs: seq<Request>, front: seq<Request>, chans: map<int, Chan>)
    requires rs != [] && front == rs[..|rs| - 1] && SessionsAfter(front) == Open(chans) && NamesOpen(front, chans)
    requires forall c :: OpenAt(front, |front|, c) <==> OpenAt(rs, |front|, c)
    ensures SessionsAfter(rs).Open? <==> Obeys(rs, |front|)
    ensures SessionsAfter(rs).Open? ==> NamesOpen(rs, SessionsAfter(rs).chans)
  {
    forall c ensures Names(chans, c) <==> OpenAt(rs, |front|, c) {}
    ObeysMeans(rs, |front|, chans);
    if SessionsAfter(rs).Open? { NamesStay(rs, chans, SessionsAfter(rs).chans); }
  }

  lemma ObeysMeans(rs: seq<Request>, n: nat, chans: map<int, Chan>)
    requires n < |rs| && (forall fd :: fd in chans ==> chans[fd].fd == fd)
    requires forall c :: Names(chans, c) <==> OpenAt(rs, n, c)
    ensures AfterRequest(Open(chans), rs[n]).Open? <==> Obeys(rs, n)
  {
    var r := rs[n];
    assert Names(chans, r.chan) <==> OpenAt(rs, n, r.chan);
    if r.chan.fd in chans {
      var c := chans[r.chan.fd];
      assert Names(chans, c) && OpenAt(rs, n, c);
    }
  }

  lemma NamesStay(rs: seq<Request>, chans: map<int, Chan>, after: map<int, Chan>)
    requires rs != [] && (forall fd :: fd in chans ==> chans[fd].fd == fd)
    requires forall c :: Names(chans, c) <==> OpenAt(rs, |rs| - 1, c)
    requires AfterRequest(Open(chans), rs[|rs| - 1]) == Open(after)
    ensures NamesOpen(rs, after)
  {
    forall c ensures Names(after, c) <==> OpenAt(rs, |rs|, c) {
      OpenAtNext(rs, c);
      NamesNext(chans, rs[|rs| - 1], after, c);
    }
  }

  lemma NamesNext(chans: map<int, Chan>, r: Request, after: map<int, Chan>, c: Chan)
    requires AfterRequest(Open(chans), r) == Open(after)
    ensures Names(after, c) <==> r == Request(Add, c) || (Names(chans, c) && (r.chan.fd == c.fd ==> r.kind.Update?))
  {
  }

  /**
    With well-behaved clients no request is ever fatal: no update or remove meets an index outside the
    table or an empty slot, and the table holds exactly the open descriptors.
  */
  lemma {:induction false} SessionsNeverFault(rs: seq<Request>, ws: seq<Work>)
    requires SessionsAfter(rs).Open? && |ws| == |rs| && forall i :: 0 <= i < |rs| ==> ws[i].req == rs[i]
    ensures var o := HandleAll(Ok(EmptyTable), ws);
      && o.Ok? && Consistent(o.table) && o.table.entries == SessionsAfter(rs).chans
      && forall fd :: fd in o.table.kernel ==> o.table.kernel[fd].writer == o.table.entries[fd]
    decreases |rs|
  {
    if rs != [] {
      var n := |rs| - 1;
      SessionsNeverFault(rs[..n], ws[..n]);
      HandleAllConcat(Ok(EmptyTable), ws[..n], [ws[n]]);
      assert ws == ws[..n] + [ws[n]];
      HandleKeepsConsistent(HandleAll(Ok(EmptyTable), ws[..n]).table, ws[n]);
    }
  }

  lemma {:induction false} SessionsPrefix(a: seq<Request>, b: seq<Request>)
    requires SessionsAfter(a + b).Open?
    ensures SessionsAfter(a).Open?
    decreases |b|
  {
    if b == [] {
      assert a + b == a;
    } else {
      var n := |b| - 1;
      assert (a + b)[..|a + b| - 1] == a + b[..n];
      SessionsPrefix(a, b[..n]);
    }
  }
}
