/**
  What the reactor protocol guarantees in every state of every run: no lost wake-up, no failed assertion,
  and a deferred queue that means the same as handling every request at once.
*/
module ReactorTheorems {
  import opened Capacities
  import opened Requests
  import opened ReactorProtocol

  // ----- safety

  lemma WakeByteIsDeliverable(s: State)
    requires MaskInv(s) && WakeChannelInv(s) && s.bytes > 0
    ensures WakeReady(s)
  {
    assert Request(Update, s.wake) !in Unhandled(s) + InHand(s);
    WriteBit(EVENT_READ);
  }

  /**
    No lost wake-up: if the owner sleeps in epoll_wait while requests are queued, then either the kernel
    can wake it right now or another thread has appended and is still to write its byte.
  */
  lemma NoLostWakeup(states: seq<State>, steps: seq<Step>, k: nat)
    requires Run(states, steps) && k < |states|
    ensures states[k].owner.Blocked? && states[k].pending != [] ==> WakeReady(states[k]) || WakeComing(states[k])
  {
    RunKeepsInv(states, steps, k);
    if states[k].bytes > 0 {
      WakeByteIsDeliverable(states[k]);
    }
  }

  /** assert(is_handle_pending == 0) never fails, and at most one thread is inside the mutex. */
  lemma AssertionNeverFails(states: seq<State>, steps: seq<Step>, k: nat)
    requires Run(states, steps) && k < |states|
    ensures states[k].status != AssertionFailed
    ensures forall i, j :: 0 <= i < j < |states[k].producers| ==>
      !(InCriticalSection(states[k].producers[i]) && InCriticalSection(states[k].producers[j]))
    ensures forall i :: 0 <= i < |states[k].producers| ==>
      !(InCriticalSection(states[k].producers[i]) && OwnerInCriticalSection(states[k].owner))
  {
    RunKeepsInv(states, steps, k);
  }

  // ----- the deferred queue refines immediate handling

  /** The request that a step appends to the queue, with its channel's event bits at that moment. */
  function Appending(s: State, step: Step): seq<Work>
    requires Enabled(s, step)
  {
    if s.handling then []
    else if step.ProducerAppends? then [Now(s, s.producers[step.i].req)]
    else if step.OwnerAppends? then [Now(s, s.owner.req)]
    else []
  }

  function Now(s: State, r: Request): Work { Work(r, EventsOf(s.ev, r.chan)) }

  /** All requests, in mutex order, each with the bits its channel had when it was appended. */
  ghost function Queued(states: seq<State>, steps: seq<Step>, k: nat): seq<Work>
    requires Run(states, steps) && k < |states|
  {
    if k == 0 then [Work(Request(Add, states[0].wake), EVENT_READ)]
    else Queued(states, steps, k - 1) + Appending(states[k - 1], steps[k - 1])
  }

  /** What the table and the interest set would be if every request were handled the moment it is appended. */
  ghost function AtOnce(states: seq<State>, steps: seq<Step>, k: nat): Outcome
    requires Run(states, steps) && k < |states|
  {
    HandleAll(Ok(EmptyTable), Queued(states, steps, k))
  }

  /** What they are once the rest of the queue has been handled. */
  ghost function Deferred(s: State): Outcome { HandleAll(Ok(s.table), Load(Remaining(s), s.ev)) }

  /** Two outcomes are the same except for the masks of channels whose update is in `inHand`. */
  ghost predicate SameBut(a: Outcome, b: Outcome, inHand: set<Request>) {
    && SameShape(a, b)
    && (a.Ok? ==> forall fd :: fd in a.table.kernel && Request(Update, a.table.kernel[fd].writer) !in inHand ==>
          a.table.kernel[fd].mask == b.table.kernel[fd].mask)
  }

  /** Handled at once, only masks whose update a thread is about to append can be stale. */
  ghost predicate StaleInHand(o: Outcome, s: State) {
    o.Ok? ==> Consistent(o.table) && StaleCovered(o.table, InHand(s), s.ev)
  }

  lemma StepKeepsInHand(s: State, step: Step, o: Outcome)
    requires Inv(s) && Enabled(s, step) && StaleInHand(o, s)
    ensures StaleInHand(HandleAll(o, Appending(s, step)), Do(s, step))
  {
    InHandKept(s, step);
    if o.Fault? {
      FaultStays(Appending(s, step));
    } else if step.ProducerAppends? || step.OwnerAppends? {
      var r := if step.ProducerAppends? then s.producers[step.i].req else s.owner.req;
      AppendKeepsInHand(s, Do(s, step), r, o.table);
    } else {
      OtherStepsKeepInHand(s, step, Do(s, step), o.table);
    }
  }

  lemma OtherStepsKeepInHand(s: State, step: Step, s': State, t: Table)
    requires MaskInv(s) && Enabled(s, step) && s' == Do(s, step) && !step.ProducerAppends? && !step.OwnerAppends?
    requires StaleCovered(t, InHand(s), s.ev) && InHand(s) <= InHand(s')
    requires step.ProducerStarts? || step.OwnerRequests? ==> step.req in InHand(s')
    ensures StaleCovered(t, InHand(s'), s'.ev)
  {
    if step.ProducerStarts? || step.OwnerRequests? {
      ChangeStaysCovered(t, InHand(s), s.ev, step.req, step.write);
      WidenCover(t, InHand(s) + {step.req}, InHand(s'), s'.ev);
    } else {
      WidenCover(t, InHand(s), InHand(s'), s.ev);
    }
  }

  /** Only appending takes a request out of a thread's hand. */
  lemma InHandKept(s: State, step: Step)
    requires Enabled(s, step)
    ensures forall r :: r in InHand(s) && !AppendsRequest(s, step, r) ==> r in InHand(Do(s, step))
    ensures step.ProducerStarts? || step.OwnerRequests? ==> step.req in InHand(Do(s, step))
  {
    if IsProducerStep(step) {
      ProducerKeepsInHand(s, step);
    } else {
      assert Do(s, step).producers == s.producers;
    }
  }

  lemma ProducerKeepsInHand(s: State, step: Step)
    requires Enabled(s, step) && IsProducerStep(step)
    ensures forall r :: r in InHand(s) && !AppendsRequest(s, step, r) ==> r in InHand(Do(s, step))
    ensures step.ProducerStarts? ==> step.req in InHand(Do(s, step))
  {
    var s', i := Do(s, step), step.i;
    assert s'.owner == s.owner && s'.producers == s.producers[i := s'.producers[i]];
    if step.ProducerStarts? || step.ProducerLocks? {
      assert s'.producers[i].Wants? || s'.producers[i].Holds?;
    }
    forall r | r in InHand(s) && !AppendsRequest(s, step, r) ensures r in InHand(s') {
      if j :| 0 <= j < |s.producers| && (s.producers[j].Wants? || s.producers[j].Holds?) && s.producers[j].req == r {
        if j != i { assert s'.producers[j] == s.producers[j]; }
      }
    }
  }

  predicate AppendsRequest(s: State, step: Step, r: Request)
    requires Enabled(s, step)
  {
    (step.ProducerAppends? && r == s.producers[step.i].req) || (step.OwnerAppends? && r == s.owner.req)
  }

  lemma AppendKeepsInHand(s: State, s': State, r: Request, t: Table)
    requires Consistent(t) && StaleCovered(t, InHand(s), s.ev) && ReadForever(s.ev)
    requires s'.ev == s.ev && forall q :: q in InHand(s) && q != r ==> q in InHand(s')
    ensures StaleInHand(HandleAll(Ok(t), [Now(s, r)]), s')
  {
    HandleOne(Ok(t), Now(s, r));
    WidenCover(t, InHand(s), InHand(s') + {r}, s.ev);
    HandlingKeepsCovered(t, Now(s, r), InHand(s'), s.ev);
    HandleKeepsConsistent(t, Now(s, r));
  }

  /** The requests of two lists are the same, whatever the bits. */
  ghost predicate SameRequests(ws: seq<Work>, rs: seq<Request>) {
    |ws| == |rs| && forall i :: 0 <= i < |ws| ==> ws[i].req == rs[i]
  }

  lemma StepQueues(s: State, step: Step, qs: seq<Work>)
    requires LockInv(s) && Enabled(s, step) && SameRequests(qs, s.history)
    ensures SameRequests(qs + Appending(s, step), Do(s, step).history)
  {
    if !step.ProducerAppends? && !step.OwnerAppends? && !step.DrainTakes? {
      QuietStep(s, step);
      assert qs + [] == qs;
    }
  }

  /** `qs` are the requests appended up to `s`, and handled at once they leave stale only what is in hand. */
  ghost predicate QueuedUpTo(qs: seq<Work>, s: State) {
    SameRequests(qs, s.history) && StaleInHand(HandleAll(Ok(EmptyTable), qs), s)
  }

  lemma StepKeepsQueued(s: State, step: Step, qs: seq<Work>)
    requires Inv(s) && Enabled(s, step) && QueuedUpTo(qs, s)
    ensures QueuedUpTo(qs + Appending(s, step), Do(s, step))
  {
    StepQueues(s, step, qs);
    StepKeepsInHand(s, step, HandleAll(Ok(EmptyTable), qs));
    HandleAllConcat(Ok(EmptyTable), qs, Appending(s, step));
  }

  lemma {:induction false} RunQueues(states: seq<State>, steps: seq<Step>, k: nat)
    requires Run(states, steps) && k < |states|
    ensures QueuedUpTo(Queued(states, steps, k), states[k])
  {
    if k == 0 {
      HandleOne(Ok(EmptyTable), Queued(states, steps, 0)[0]);
      InitialInv(states[0]);
    } else {
      RunQueues(states, steps, k - 1);
      RunKeepsInv(states, steps, k - 1);
      StepKeepsQueued(states[k - 1], steps[k - 1], Queued(states, steps, k - 1));
    }
  }

  /**
    In every state of every run, handling what is left of the queue gives the table and the kernel interest set
    that handling each request the moment it was appended would have given; only the mask of a channel whose
    bits a thread has changed without having appended the update yet may differ.
  */
  lemma QueueRefinesImmediate(states: seq<State>, steps: seq<Step>, k: nat)
    requires Run(states, steps) && k < |states|
    ensures SameBut(Deferred(states[k]), AtOnce(states, steps, k), InHand(states[k]))
  {
    var s, qs := states[k], Queued(states, steps, k);
    RunKeepsInv(states, steps, k);
    RunQueues(states, steps, k);
    DeferredShape(s, qs);
    HandlingFreshensBut(s.table, Remaining(s), InHand(s), s.ev);
  }

  lemma DeferredShape(s: State, qs: seq<Work>)
    requires QueueInv(s) && SameRequests(qs, s.history)
    ensures SameShape(Deferred(s), HandleAll(Ok(EmptyTable), qs))
  {
    var done, rest := Load(Done(s), map[]), Load(Remaining(s), s.ev);
    HandleAllConcat(Ok(EmptyTable), done, rest);
    ShapeIgnoresEvents(Ok(s.table), HandleAll(Ok(EmptyTable), done), rest, rest);
    JoinRequests(done, Done(s), rest, Remaining(s));
    ShapeOfSameRequests(done + rest, qs, s.history);
  }

  lemma JoinRequests(a: seq<Work>, ra: seq<Request>, b: seq<Work>, rb: seq<Request>)
    requires SameRequests(a, ra) && SameRequests(b, rb)
    ensures SameRequests(a + b, ra + rb)
  {
  }

  lemma ShapeOfSameRequests(va: seq<Work>, vb: seq<Work>, rs: seq<Request>)
    requires SameRequests(va, rs) && SameRequests(vb, rs)
    ensures SameShape(HandleAll(Ok(EmptyTable), va), HandleAll(Ok(EmptyTable), vb))
  {
    ShapeIgnoresEvents(Ok(EmptyTable), Ok(EmptyTable), va, vb);
  }

  /** Some thread is between changing a channel's event bits and appending the update for it. */
  ghost predicate ChangingEvents(s: State) { exists r :: r in InHand(s) && r.kind.Update? }

  /** Outside the calls that change event bits there is no difference at all. */
  lemma QueueEqualsImmediate(states: seq<State>, steps: seq<Step>, k: nat)
    requires Run(states, steps) && k < |states| && !ChangingEvents(states[k])
    ensures Deferred(states[k]) == AtOnce(states, steps, k)
  {
    QueueRefinesImmediate(states, steps, k);
    SameButNothing(Deferred(states[k]), AtOnce(states, steps, k), InHand(states[k]));
  }

  lemma SameButNothing(a: Outcome, b: Outcome, inHand: set<Request>)
    requires SameBut(a, b, inHand) && forall r :: r in inHand ==> !r.kind.Update?
    ensures a == b
  {
    if a.Ok? {
      forall fd | fd in a.table.kernel ensures a.table.kernel[fd] == b.table.kernel[fd] {}
      assert a.table.kernel == b.table.kernel;
    }
  }

  // ----- exactly when there is no difference

  /** The requests handled so far, each with the bits its channel had when it was handled. */
  ghost function Handled(states: seq<State>, steps: seq<Step>, k: nat): seq<Work>
    requires Run(states, steps) && k < |states|
  {
    if k == 0 then [Work(Request(Add, states[0].wake), EVENT_READ)]
    else Handled(states, steps, k - 1) + Taking(states[k - 1], steps[k - 1])
  }

  /** The request that a step takes from the queue, unless it faults. */
  function Taking(s: State, step: Step): seq<Work>
    requires Enabled(s, step)
  {
    if step == DrainTakes && Handle(s.table, Now(s, s.pending[s.owner.next])).Ok? then [Now(s, s.pending[s.owner.next])] else []
  }

  /** All requests, the ones still queued with the bits they would be handled with now. */
  ghost function HandledInTheEnd(states: seq<State>, steps: seq<Step>, k: nat): seq<Work>
    requires Run(states, steps) && k < |states|
  {
    Handled(states, steps, k) + Load(Remaining(states[k]), states[k].ev)
  }

  /** `hs` are the requests handled up to `s`, and the table is what they have made. */
  ghost predicate HandledUpTo(hs: seq<Work>, s: State) {
    SameRequests(hs, Done(s)) && HandleAll(Ok(EmptyTable), hs) == Ok(s.table)
  }

  lemma {:induction false} RunHandles(states: seq<State>, steps: seq<Step>, k: nat)
    requires Run(states, steps) && k < |states|
    ensures HandledUpTo(Handled(states, steps, k), states[k])
  {
    if k == 0 {
      HandleOne(Ok(EmptyTable), Handled(states, steps, 0)[0]);
      assert Done(states[0]) == states[0].history;
    } else {
      RunHandles(states, steps, k - 1);
      RunKeepsInv(states, steps, k - 1);
      StepHandles(states[k - 1], steps[k - 1], Handled(states, steps, k - 1));
    }
  }

  lemma StepHandles(s: State, step: Step, hs: seq<Work>)
    requires LockInv(s) && QueueInv(s) && Enabled(s, step) && HandledUpTo(hs, s)
    ensures HandledUpTo(hs + Taking(s, step), Do(s, step))
  {
    if step == DrainTakes {
      TakeHandles(s, hs, Now(s, s.pending[s.owner.next]), Do(s, step));
    } else {
      OtherStepsKeepDone(s, step);
      assert hs + [] == hs;
    }
  }

  lemma OtherStepsKeepDone(s: State, step: Step)
    requires LockInv(s) && QueueInv(s) && Enabled(s, step) && step != DrainTakes
    ensures Done(Do(s, step)) == Done(s) && Do(s, step).table == s.table
  {
    var s' := Do(s, step);
    if step.ProducerAppends? {
      AppendKeepsDone(s, s', s.producers[step.i].req);
    } else if step.OwnerAppends? {
      AppendKeepsDone(s, s', s.owner.req);
    } else {
      QuietStep(s, step);
    }
  }

  lemma TakeHandles(s: State, hs: seq<Work>, w: Work, s': State)
    requires QueueInv(s) && Enabled(s, DrainTakes) && w == Now(s, s.pending[s.owner.next]) && s' == Do(s, DrainTakes)
    requires HandledUpTo(hs, s)
    ensures HandledUpTo(hs + Taking(s, DrainTakes), s')
  {
    TakeShortens(s, s', Done(s));
    if Handle(s.table, w).Ok? {
      HandledOneMore(hs, s, w, s');
    } else {
      assert hs + [] == hs;
    }
  }

  lemma HandledOneMore(hs: seq<Work>, s: State, w: Work, s': State)
    requires HandledUpTo(hs, s) && Done(s') == Done(s) + [w.req] && Handle(s.table, w) == Ok(s'.table)
    ensures HandledUpTo(hs + [w], s')
  {
    JoinRequests(hs, Done(s), [w], [w.req]);
    HandleOneMore(hs, s.table, w);
  }

  lemma HandleOneMore(hs: seq<Work>, t: Table, w: Work)
    requires HandleAll(Ok(EmptyTable), hs) == Ok(t)
    ensures HandleAll(Ok(EmptyTable), hs + [w]) == Handle(t, w)
  {
    HandleAllConcat(Ok(EmptyTable), hs, [w]);
    HandleOne(Ok(t), w);
  }

  lemma AppendKeepsDone(s: State, s': State, r: Request)
    requires s.history == Done(s) + Remaining(s) && !s.owner.Draining? && !s'.owner.Draining?
    requires s'.pending == s.pending + [r] && s'.history == s.history + [r]
    ensures Done(s') == Done(s)
  {
    assert Remaining(s') == Remaining(s) + [r];
    DoneIs(s', Done(s));
  }

  /** The mask that an add or an update registers. */
  function MaskOf(w: Work): bv8 { if w.req.kind.Update? then UpdateMask(w.events) else Translated(w.events) }

  ghost predicate SetsMask(o: Outcome, w: Work, fd: int) {
    && o.Ok? && w.req.chan.fd == fd
    && match w.req.kind
       case Add => fd !in o.table.entries
       case Remove => false
       case Update => fd in o.table.entries
  }

  /** The place of the last request that sets the mask of `fd`; it depends on the requests, not on the bits. */
  ghost function LastSetter(ws: seq<Work>, fd: int): (i: int)
    ensures -1 <= i < |ws|
  {
    if ws == [] then -1
    else
      var n := |ws| - 1;
      if SetsMask(HandleAll(Ok(EmptyTable), ws[..n]), ws[n], fd) then n else LastSetter(ws[..n], fd)
  }

  lemma {:induction false} LastSetterSets(ws: seq<Work>, fd: int)
    requires HandleAll(Ok(EmptyTable), ws).Ok? && fd in HandleAll(Ok(EmptyTable), ws).table.kernel
    ensures var i := LastSetter(ws, fd);
      i >= 0 && HandleAll(Ok(EmptyTable), ws).table.kernel[fd].mask == MaskOf(ws[i])
    decreases |ws|
  {
    if ws != [] {
      var n := |ws| - 1;
      HandleLast(ws);
      var before := HandleAll(Ok(EmptyTable), ws[..n]);
      HandleAllKeepsConsistent(Ok(EmptyTable), ws[..n]);
      if !SetsMask(before, ws[n], fd) {
        OnlySettersSet(before.table, ws[n], fd);
        LastSetterSets(ws[..n], fd);
      }
    }
  }

  lemma OnlySettersSet(t: Table, w: Work, fd: int)
    requires Consistent(t) && Handle(t, w).Ok? && !SetsMask(Ok(t), w, fd) && fd in Handle(t, w).table.kernel
    ensures fd in t.kernel && Handle(t, w).table.kernel[fd] == t.kernel[fd]
  {
  }

  lemma {:induction false} LastSetterIgnoresBits(va: seq<Work>, vb: seq<Work>, fd: int)
    requires |va| == |vb| && forall i :: 0 <= i < |va| ==> va[i].req == vb[i].req
    ensures LastSetter(va, fd) == LastSetter(vb, fd)
    decreases |va|
  {
    if va != [] {
      var n := |va| - 1;
      LastSetterIgnoresBits(va[..n], vb[..n], fd);
      ShapeIgnoresEvents(Ok(EmptyTable), Ok(EmptyTable), va[..n], vb[..n]);
    }
  }

  /** The last request that set the mask of `fd` set the same mask both times. */
  ghost predicate LastMaskSame(qs: seq<Work>, hs: seq<Work>, fd: int)
    requires |hs| == |qs|
  {
    var i := LastSetter(qs, fd);
    i >= 0 ==> MaskOf(hs[i]) == MaskOf(qs[i])
  }

  /** Handling the same requests with other bits makes no difference exactly if it makes none to the last setters. */
  lemma MasksDecide(hs: seq<Work>, qs: seq<Work>)
    requires |hs| == |qs| && forall i :: 0 <= i < |hs| ==> hs[i].req == qs[i].req
    ensures var a, b := HandleAll(Ok(EmptyTable), hs), HandleAll(Ok(EmptyTable), qs);
      a == b <==> b.Fault? || forall fd :: fd in b.table.kernel ==> LastMaskSame(qs, hs, fd)
  {
    var a, b := HandleAll(Ok(EmptyTable), hs), HandleAll(Ok(EmptyTable), qs);
    ShapeIgnoresEvents(Ok(EmptyTable), Ok(EmptyTable), hs, qs);
    if b.Ok? {
      forall fd | fd in b.table.kernel ensures a.table.kernel[fd] == b.table.kernel[fd] <==> LastMaskSame(qs, hs, fd) {
        LastSetterSets(hs, fd);
        LastSetterSets(qs, fd);
        LastSetterIgnoresBits(hs, qs, fd);
      }
      if forall fd :: fd in b.table.kernel ==> LastMaskSame(qs, hs, fd) {
        forall fd | fd in b.table.kernel ensures a.table.kernel[fd] == b.table.kernel[fd] { assert LastMaskSame(qs, hs, fd); }
        assert a.table.kernel == b.table.kernel;
      }
    }
  }

  /**
    Exactly when deferring makes no difference: some request faults either way, or for every registered descriptor
    the last request that sets its mask is handled with bits that give the mask they gave when it was appended.
  */
  lemma NoDifferenceExactly(states: seq<State>, steps: seq<Step>, k: nat)
    requires Run(states, steps) && k < |states|
    ensures NoDifferenceIff(Queued(states, steps, k), HandledInTheEnd(states, steps, k), Deferred(states[k]), AtOnce(states, steps, k))
  {
    RunKeepsInv(states, steps, k);
    RunQueues(states, steps, k);
    RunHandles(states, steps, k);
    NoDifferenceIn(states[k], Queued(states, steps, k), Handled(states, steps, k), HandledInTheEnd(states, steps, k));
  }

  ghost predicate NoDifferenceIff(qs: seq<Work>, hs: seq<Work>, deferred: Outcome, once: Outcome) {
    && |hs| == |qs|
    && (deferred == once <==> once.Fault? || forall fd :: fd in once.table.kernel ==> LastMaskSame(qs, hs, fd))
  }

  lemma NoDifferenceIn(s: State, qs: seq<Work>, done: seq<Work>, hs: seq<Work>)
    requires s.history == Done(s) + Remaining(s) && SameRequests(qs, s.history) && HandledUpTo(done, s)
    requires hs == done + Load(Remaining(s), s.ev)
    ensures NoDifferenceIff(qs, hs, Deferred(s), HandleAll(Ok(EmptyTable), qs))
  {
    HandleAllConcat(Ok(EmptyTable), done, Load(Remaining(s), s.ev));
    JoinRequests(done, Done(s), Load(Remaining(s), s.ev), Remaining(s));
    MasksDecide(hs, qs);
  }

  // ----- a run in which there is a difference

  const WAKE := Chan(0, 0)
  const CHANNEL := Chan(1, 1)
  const ADD := Request(Add, CHANNEL)
  const UPDATE := Request(Update, CHANNEL)
  const FIRST_TWO := [Work(Request(Add, WAKE), EVENT_READ), Work(ADD, EVENT_READ)]

  function FirstTable(): Table {
    Table(32, map[0 := WAKE], map[0 := Registration(EPOLLIN, WAKE)])
  }

  function SecondTable(mask: bv8): Table {
    Table(32, map[0 := WAKE, 1 := CHANNEL], map[0 := Registration(EPOLLIN, WAKE), 1 := Registration(mask, CHANNEL)])
  }

  lemma TablesAre(events: bv8, mask: bv8)
    ensures HandleAdd(EmptyTable, WAKE, EVENT_READ) == Ok(FirstTable())
    ensures HandleAdd(FirstTable(), CHANNEL, EVENT_READ) == Ok(SecondTable(EPOLLIN))
    ensures HandleUpdate(SecondTable(mask), CHANNEL, events) == Ok(SecondTable(UpdateMask(events)))
  {
  }

  lemma {:induction false} QueuedPrefix(states: seq<State>, steps: seq<Step>, s: State, step: Step, k: nat)
    requires Run(states, steps) && Run(states + [s], steps + [step]) && k < |states|
    ensures Queued(states + [s], steps + [step], k) == Queued(states, steps, k)
  {
    if k > 0 { QueuedPrefix(states, steps, s, step, k - 1); }
  }

  /** A run to `s`, in which the requests `qs` were appended. */
  ghost predicate RunTo(states: seq<State>, steps: seq<Step>, s: State, qs: seq<Work>) {
    Run(states, steps) && states[|steps|] == s && Queued(states, steps, |steps|) == qs
  }

  ghost predicate Reachable(s: State, qs: seq<Work>) { exists states, steps :: RunTo(states, steps, s, qs) }

  lemma OneMoreStep(s: State, qs: seq<Work>, step: Step, s': State, qs': seq<Work>)
    requires Reachable(s, qs) && Enabled(s, step) && s' == Do(s, step) && qs' == qs + Appending(s, step)
    ensures Reachable(s', qs')
  {
    var states, steps :| RunTo(states, steps, s, qs);
    ExtendRun(states, steps, s, qs, step);
  }

  lemma ExtendRun(states: seq<State>, steps: seq<Step>, s: State, qs: seq<Work>, step: Step)
    requires RunTo(states, steps, s, qs) && Enabled(s, step)
    ensures RunTo(states + [Do(s, step)], steps + [step], Do(s, step), qs + Appending(s, step))
  {
    var states', steps', n := states + [Do(s, step)], steps + [step], |steps|;
    assert states'[..n + 1] == states && states'[n] == s;
    QueuedPrefix(states, steps, Do(s, step), step, n);
  }

  lemma StartRun(s: State)
    requires Initial(s)
    ensures Reachable(s, [Work(Request(Add, s.wake), EVENT_READ)])
  {
    assert RunTo([s], [], s, [Work(Request(Add, s.wake), EVENT_READ)]);
  }

  /** A loop before it runs, idle or with the owner somewhere on its way through a request, and one other thread. */
  function Busy(history: seq<Request>, table: Table, ev: Events, owner: Owner, mutex: Holder, pending: seq<Request>): State {
    State([Idle], owner, mutex, owner.Draining?, pending, 0, 1, false, table, ev, WAKE, history, Running)
  }

  function Resting(history: seq<Request>, table: Table, ev: Events): State {
    Busy(history, table, ev, Setup, Free, [])
  }

  function Asked(history: seq<Request>, table: Table, ev: Events, r: Request): State {
    Busy(history + [r], table, ev, OwnAppended(ToSetup), HeldBy(OwnerThread), [r])
  }

  /** Two steps that append nothing. */
  lemma TwoQuietSteps(s: State, qs: seq<Work>, step1: Step, s1: State, step2: Step, s2: State)
    requires Reachable(s, qs) && StepsTo(s, step1, s1, []) && StepsTo(s1, step2, s2, [])
    ensures Reachable(s2, qs)
  {
    assert qs + [] == qs;
    OneMoreStep(s, qs, step1, s1, qs);
    OneMoreStep(s1, qs, step2, s2, qs);
  }

  predicate StepsTo(s: State, step: Step, s': State, appended: seq<Work>) {
    Enabled(s, step) && s' == Do(s, step) && appended == Appending(s, step)
  }

  /** The owner asks for something. */
  lemma OwnerAsks(h: seq<Request>, t: Table, ev: Events, qs: seq<Work>, r: Request, write: bool, ev': Events)
    requires Reachable(Resting(h, t, ev), qs) && r.chan.fd != 0 && ev' == ChangedEvents(ev, r, write)
    ensures Reachable(Asked(h, t, ev', r), qs + [Work(r, EventsOf(ev', r.chan))])
  {
    var s1 := Busy(h, t, ev', OwnWants(r, ToSetup), Free, []);
    var s2 := Busy(h, t, ev', OwnHolds(r, ToSetup), HeldBy(OwnerThread), []);
    OwnerLocksIt(h, t, ev, r, write, ev', s1, s2);
    TwoQuietSteps(Resting(h, t, ev), qs, OwnerRequests(r, write), s1, OwnerLocks, s2);
    OwnerAppendsIt(h, t, ev', r);
    OneMoreStep(s2, qs, OwnerAppends, Asked(h, t, ev', r), qs + [Work(r, EventsOf(ev', r.chan))]);
  }

  lemma OwnerLocksIt(h: seq<Request>, t: Table, ev: Events, r: Request, write: bool, ev': Events, s1: State, s2: State)
    requires r.chan.fd != 0 && ev' == ChangedEvents(ev, r, write)
    requires s1 == Busy(h, t, ev', OwnWants(r, ToSetup), Free, [])
    requires s2 == Busy(h, t, ev', OwnHolds(r, ToSetup), HeldBy(OwnerThread), [])
    ensures StepsTo(Resting(h, t, ev), OwnerRequests(r, write), s1, []) && StepsTo(s1, OwnerLocks, s2, [])
  {
  }

  lemma OwnerAppendsIt(h: seq<Request>, t: Table, ev: Events, r: Request)
    ensures StepsTo(Busy(h, t, ev, OwnHolds(r, ToSetup), HeldBy(OwnerThread), []), OwnerAppends, Asked(h, t, ev, r),
                  [Work(r, EventsOf(ev, r.chan))])
  {
  }

  /** And handles it. */
  lemma OwnerDrains(h: seq<Request>, t: Table, ev: Events, qs: seq<Work>, r: Request, t': Table)
    requires Reachable(Asked(h, t, ev, r), qs) && Handle(t, Work(r, EventsOf(ev, r.chan))) == Ok(t')
    ensures Reachable(Resting(h + [r], t', ev), qs)
  {
    var s2 := OwnerStartsDraining(h, t, ev, qs, r);
    var s4 := OwnerEmptiesQueue(h, t, ev, qs, r, t', s2);
    OwnerUnlocksIt(h, ev, r, t', s4);
    assert qs + [] == qs;
    OneMoreStep(s4, qs, DrainUnlocks, Resting(h + [r], t', ev), qs);
  }

  lemma OwnerEmptiesQueue(h: seq<Request>, t: Table, ev: Events, qs: seq<Work>, r: Request, t': Table, s2: State)
    returns (s4: State)
    requires s2 == Busy(h + [r], t, ev, Draining(ToSetup, 0), HeldBy(OwnerThread), [r]) && Reachable(s2, qs)
    requires Handle(t, Work(r, EventsOf(ev, r.chan))) == Ok(t')
    ensures s4 == Busy(h + [r], t', ev, Drained(ToSetup), HeldBy(OwnerThread), []) && Reachable(s4, qs)
  {
    var s3 := Busy(h + [r], t', ev, Draining(ToSetup, 1), HeldBy(OwnerThread), [r]);
    s4 := Busy(h + [r], t', ev, Drained(ToSetup), HeldBy(OwnerThread), []);
    DrainTakesAll(h, t, ev, r, t', s2, s3, s4);
    TwoQuietSteps(s2, qs, DrainTakes, s3, DrainClears, s4);
  }

  lemma OwnerStartsDraining(h: seq<Request>, t: Table, ev: Events, qs: seq<Work>, r: Request) returns (s2: State)
    requires Reachable(Asked(h, t, ev, r), qs)
    ensures s2 == Busy(h + [r], t, ev, Draining(ToSetup, 0), HeldBy(OwnerThread), [r]) && Reachable(s2, qs)
  {
    var s1 := Busy(h + [r], t, ev, DrainWants(ToSetup), Free, [r]);
    s2 := Busy(h + [r], t, ev, Draining(ToSetup, 0), HeldBy(OwnerThread), [r]);
    DrainBegins(h, t, ev, r, s1, s2);
    TwoQuietSteps(Asked(h, t, ev, r), qs, OwnerUnlocks, s1, DrainLocks, s2);
  }

  lemma DrainBegins(h: seq<Request>, t: Table, ev: Events, r: Request, s1: State, s2: State)
    requires s1 == Busy(h + [r], t, ev, DrainWants(ToSetup), Free, [r])
    requires s2 == Busy(h + [r], t, ev, Draining(ToSetup, 0), HeldBy(OwnerThread), [r])
    ensures StepsTo(Asked(h, t, ev, r), OwnerUnlocks, s1, []) && StepsTo(s1, DrainLocks, s2, [])
  {
  }

  lemma DrainTakesAll(h: seq<Request>, t: Table, ev: Events, r: Request, t': Table, s2: State, s3: State, s4: State)
    requires Handle(t, Work(r, EventsOf(ev, r.chan))) == Ok(t')
    requires s2 == Busy(h + [r], t, ev, Draining(ToSetup, 0), HeldBy(OwnerThread), [r])
    requires s3 == Busy(h + [r], t', ev, Draining(ToSetup, 1), HeldBy(OwnerThread), [r])
    requires s4 == Busy(h + [r], t', ev, Drained(ToSetup), HeldBy(OwnerThread), [])
    ensures StepsTo(s2, DrainTakes, s3, []) && StepsTo(s3, DrainClears, s4, [])
  {
  }

  lemma OwnerUnlocksIt(h: seq<Request>, ev: Events, r: Request, t': Table, s4: State)
    requires s4 == Busy(h + [r], t', ev, Drained(ToSetup), HeldBy(OwnerThread), [])
    ensures StepsTo(s4, DrainUnlocks, Resting(h + [r], t', ev), [])
  {
  }

  /** The owner asks to add a channel. */
  lemma AddAskedRun()
    ensures Reachable(Asked([Request(Add, WAKE)], FirstTable(), map[], ADD), FIRST_TWO)
  {
    TablesAre(EVENT_READ, EPOLLIN);
    var first := [Work(Request(Add, WAKE), EVENT_READ)];
    StartRun(Resting([Request(Add, WAKE)], FirstTable(), map[]));
    OwnerAsks([Request(Add, WAKE)], FirstTable(), map[], first, ADD, false, map[]);
    assert first + [Work(ADD, EVENT_READ)] == FIRST_TWO;
  }

  /** It is added. */
  lemma AddingRun()
    ensures Reachable(Resting([Request(Add, WAKE), ADD], SecondTable(EPOLLIN), map[]), FIRST_TWO)
  {
    TablesAre(EVENT_READ, EPOLLIN);
    AddAskedRun();
    OwnerDrains([Request(Add, WAKE)], FirstTable(), map[], FIRST_TWO, ADD, SecondTable(EPOLLIN));
    assert [Request(Add, WAKE)] + [ADD] == [Request(Add, WAKE), ADD];
  }

  /** The owner enables its writes and appends the update. */
  lemma AskingRun()
    ensures Reachable(Asked([Request(Add, WAKE), ADD], SecondTable(EPOLLIN), map[CHANNEL := WithWrite(EVENT_READ)], UPDATE),
                      FIRST_TWO + [Work(UPDATE, WithWrite(EVENT_READ))])
  {
    AddingRun();
    var ev := map[CHANNEL := WithWrite(EVENT_READ)];
    assert ChangedEvents(map[], UPDATE, true) == ev;
    OwnerAsks([Request(Add, WAKE), ADD], SecondTable(EPOLLIN), map[], FIRST_TWO, UPDATE, true, ev);
  }

  /** Before it drains the queue, another thread disables the writes. */
  lemma ChangingRun() returns (s: State)
    ensures Reachable(s, FIRST_TWO + [Work(UPDATE, WithWrite(EVENT_READ))])
    ensures s.table == SecondTable(EPOLLIN) && Remaining(s) == [UPDATE] && s.ev == map[CHANNEL := EVENT_READ]
  {
    AskingRun();
    WriteBit(EVENT_READ);
    var before, qs := map[CHANNEL := WithWrite(EVENT_READ)], FIRST_TWO + [Work(UPDATE, WithWrite(EVENT_READ))];
    var asked := Asked([Request(Add, WAKE), ADD], SecondTable(EPOLLIN), before, UPDATE);
    assert before[CHANNEL := EVENT_READ] == map[CHANNEL := EVENT_READ];
    s := asked.(producers := [Wants(UPDATE)], ev := map[CHANNEL := EVENT_READ]);
    OneMoreStep(asked, qs, ProducerStarts(0, UPDATE, false), s, qs);
  }

  /** The exception is real: the queued update would be handled with bits that were changed after it was appended. */
  lemma DifferenceIsReal() returns (states: seq<State>, steps: seq<Step>)
    ensures Run(states, steps) && Deferred(states[|steps|]) != AtOnce(states, steps, |steps|)
  {
    var s := ChangingRun();
    states, steps :| RunTo(states, steps, s, FIRST_TWO + [Work(UPDATE, WithWrite(EVENT_READ))]);
    TablesAre(EVENT_READ, EPOLLIN);
    TablesAre(WithWrite(EVENT_READ), EPOLLIN);
    assert Load(Remaining(s), s.ev) == [Work(UPDATE, EVENT_READ)];
    HandleOne(Ok(SecondTable(EPOLLIN)), Work(UPDATE, EVENT_READ));
    FirstTwoHandled();
    HandleAllConcat(Ok(EmptyTable), FIRST_TWO, [Work(UPDATE, WithWrite(EVENT_READ))]);
    HandleOne(Ok(SecondTable(EPOLLIN)), Work(UPDATE, WithWrite(EVENT_READ)));
    assert SecondTable(UpdateMask(EVENT_READ)).kernel[1] != SecondTable(UpdateMask(WithWrite(EVENT_READ))).kernel[1];
  }

  lemma FirstTwoHandled()
    ensures HandleAll(Ok(EmptyTable), FIRST_TWO) == Ok(SecondTable(EPOLLIN))
  {
    TablesAre(EVENT_READ, EPOLLIN);
    HandleOne(Ok(EmptyTable), FIRST_TWO[0]);
    HandleLast(FIRST_TWO);
    assert FIRST_TWO[..1] == [FIRST_TWO[0]];
  }

  /** With well-behaved clients the process never dies while draining. */
  lemma WellBehavedNeverCrash(states: seq<State>, steps: seq<Step>, k: nat)
    requires Run(states, steps) && k < |states|
    requires SessionsAfter(states[k].history).Open?
    ensures states[k].status == Running
  {
    var s := states[k];
    RunKeepsInv(states, steps, k);
    CrashBreaksSessions(s);
  }

  lemma CrashBreaksSessions(s: State)
    requires Inv(s) && SessionsAfter(s.history).Open?
    ensures s.status == Running
  {
    if s.status == Crashed {
      var upTo := Done(s) + [Remaining(s)[0]];
      assert s.history == upTo + Remaining(s)[1..];
      SessionsPrefix(upTo, Remaining(s)[1..]);
      SessionsNeverFault(upTo, Load(upTo, map[]));
    }
  }

  /** In every state, whatever the clients ask for, a slot is filled if and only if its descriptor is watched. */
  lemma TableAndKernelAgree(states: seq<State>, steps: seq<Step>, k: nat)
    requires Run(states, steps) && k < |states|
    ensures var t := states[k].table;
      t.entries.Keys == t.kernel.Keys && forall fd :: fd in t.entries ==> 0 <= fd < t.number && t.entries[fd].fd == fd
  {
    RunKeepsInv(states, steps, k);
  }

  /**
    With well-behaved clients the slots hold exactly the channels open after the requests handled so far, and each
    mask is the translation of the stored channel's current bits, unless an update for it is queued or about to be.
  */
  lemma MasksFollowEvents(states: seq<State>, steps: seq<Step>, k: nat)
    requires Run(states, steps) && k < |states| && SessionsAfter(states[k].history).Open?
    ensures var s := states[k]; var t := s.table;
      && SessionsAfter(Done(s)) == Open(t.entries) && t.entries.Keys == t.kernel.Keys
      && forall fd :: fd in t.entries && Request(Update, t.entries[fd]) !in Unhandled(s) + InHand(s) ==>
           t.kernel[fd].mask == Translated(EventsOf(s.ev, t.entries[fd]))
  {
    var s := states[k];
    RunKeepsInv(states, steps, k);
    SessionsPrefix(Done(s), Remaining(s));
    SessionsNeverFault(Done(s), Load(Done(s), map[]));
  }

  /**
    In every state the table has the least capacity above the largest descriptor whose add has been handled; the
    wake-up channel's is one of them.
  */
  lemma TableIsAsLargeAsNeeded(states: seq<State>, steps: seq<Step>, k: nat, top: int)
    requires Run(states, steps) && k < |states| && IsLargestAdd(Done(states[k]), top)
    ensures top >= 0 ==> IsLeastCapacity(states[k].table.number, top)
    ensures top < 0 ==> states[k].table.number == 0
  {
    RunHandles(states, steps, k);
    TableHasLeastCapacity(Handled(states, steps, k), Done(states[k]));
  }

  // ----- liveness

  /** Steps of the owner and of threads already inside event_loop_do_channel_event. */
  predicate Progress(step: Step) { !step.ProducerStarts? }

  function Weight(p: Producer): nat {
    match p
    case Idle => 0
    case Wants(_) => 4
    case Holds(_) => 3
    case Appended => 2
    case Released => 1
  }

  function TotalWeight(ps: seq<Producer>): nat {
    if ps == [] then 0 else Weight(ps[0]) + TotalWeight(ps[1..])
  }

  lemma {:induction false} WeightOfUpdate(ps: seq<Producer>, i: nat, p: Producer)
    requires i < |ps|
    ensures TotalWeight(ps[i := p]) == TotalWeight(ps) - Weight(ps[i]) + Weight(p)
    decreases |ps|
  {
    if i == 0 {
      assert ps[0 := p][1..] == ps[1..];
    } else {
      assert ps[i := p][1..] == ps[1..][i - 1 := p];
      WeightOfUpdate(ps[1..], i - 1, p);
    }
  }

  function Stage(o: Owner): nat {
    match o
    case Setup => 2
    case Blocked => 1
    case _ => 0
  }

  function OwnerRank(o: Owner): nat {
    match o
    case Callbacks(left, wake) => 10 + left + if wake then 1 else 0
    case OwnWants(_, _) => 9
    case OwnHolds(_, _) => 8
    case OwnAppended(_) => 7
    case DrainWants(_) => 6
    case Draining(_, _) => 5
    case _ => 0
  }

  function LeftToTake(s: State): nat {
    if s.owner.Draining? && s.owner.next <= |s.pending| then |s.pending| - s.owner.next else 0
  }

  /** `s'` comes before `s` in the lexicographic order of stage, weight, rank and requests left to take. */
  ghost predicate Closer(s': State, s: State) {
    || Stage(s'.owner) < Stage(s.owner)
    || (&& Stage(s'.owner) == Stage(s.owner)
        && (|| TotalWeight(s'.producers) < TotalWeight(s.producers)
            || (&& TotalWeight(s'.producers) == TotalWeight(s.producers)
                && (|| OwnerRank(s'.owner) < OwnerRank(s.owner)
                    || (OwnerRank(s'.owner) == OwnerRank(s.owner) && LeftToTake(s') < LeftToTake(s))))))
  }

  /** Each progress step comes closer to an empty queue, whoever takes it. */
  lemma ProgressDecreases(s: State, step: Step)
    requires LockInv(s) && Enabled(s, step) && Progress(step)
    requires Do(s, step).pending != [] && Do(s, step).status == Running
    ensures Closer(Do(s, step), s)
  {
    if IsProducerStep(step) {
      ProducerComesCloser(s, step);
    } else {
      OwnerComesCloser(s, step);
    }
  }

  lemma ProducerComesCloser(s: State, step: Step)
    requires Enabled(s, step) && Progress(step) && IsProducerStep(step)
    ensures Closer(Do(s, step), s)
  {
    var s', i := Do(s, step), step.i;
    assert s'.owner == s.owner;
    assert s'.producers == s.producers[i := s'.producers[i]];
    assert Weight(s'.producers[i]) < Weight(s.producers[i]);
    WeightOfUpdate(s.producers, i, s'.producers[i]);
  }

  lemma OwnerComesCloser(s: State, step: Step)
    requires LockInv(s) && Enabled(s, step) && !IsProducerStep(step)
    requires Do(s, step).pending != [] && Do(s, step).status == Running
    ensures Closer(Do(s, step), s)
  {
    assert Do(s, step).producers == s.producers;
  }

  /** As long as requests are queued, some progress step can be taken. */
  lemma ProgressPossible(s: State) returns (step: Step)
    requires Inv(s) && s.status == Running && !s.owner.Returned? && s.pending != []
    ensures Progress(step) && Enabled(s, step)
  {
    if s.mutex.HeldBy? && s.mutex.thread.ProducerThread? {
      var i := s.mutex.thread.index;
      assert InCriticalSection(s.producers[i]);
      return if s.producers[i].Holds? then ProducerAppends(i) else ProducerUnlocks(i);
    }
    match s.owner
    case Setup => return OwnerRuns;
    case Blocked =>
      if s.bytes > 0 {
        WakeByteIsDeliverable(s);
        return OwnerWakes(0, true);
      }
      var i :| 0 <= i < |s.producers| && (s.producers[i].Appended? || s.producers[i].Released?);
      return if s.producers[i].Appended? then ProducerUnlocks(i) else ProducerWakes(i);
    case Callbacks(left, wake) =>
      return if wake then OwnerReadsByte else if left > 0 then OwnerServes else OwnerEndsBatch;
    case OwnWants(_, _) => return OwnerLocks;
    case OwnHolds(_, _) => return OwnerAppends;
    case OwnAppended(_) => return OwnerUnlocks;
    case DrainWants(_) => return DrainLocks;
    case Draining(_, next) => return if next < |s.pending| then DrainTakes else DrainClears;
  }

  /** A scheduler that keeps choosing steps of the owner and the in-flight threads while there are any. */
  ghost predicate Diligent(schedule: (nat, State) -> Step) {
    forall t: nat, s: State, step: Step :: Progress(step) && Enabled(s, step) ==>
      Progress(schedule(t, s)) && Enabled(s, schedule(t, s))
  }

  function After(s: State, schedule: (nat, State) -> Step, t: nat, n: nat): State
    decreases n
  {
    if n == 0 || !Enabled(s, schedule(t, s)) then s else After(Do(s, schedule(t, s)), schedule, t + 1, n - 1)
  }

  lemma StillRunning(s: State, step: Step)
    requires LockInv(s) && WakeInv(s) && Enabled(s, step) && !s.owner.Returned? && Do(s, step).pending != []
    ensures !Do(s, step).owner.Returned? && Do(s, step).status != AssertionFailed
  {
  }

  ghost predicate Settled(s: State) { s.pending == [] || s.status == Crashed }

  /** The next step of a diligent schedule settles the queue or comes closer to doing so. */
  lemma Advance(s: State, schedule: (nat, State) -> Step, t: nat) returns (s': State)
    requires Inv(s) && !s.owner.Returned? && Diligent(schedule) && !Settled(s)
    ensures Inv(s')
    ensures !Settled(s') ==> !s'.owner.Returned? && Closer(s', s)
    ensures Enabled(s, schedule(t, s)) && s' == Do(s, schedule(t, s))
  {
    var possible := ProgressPossible(s);
    var step := schedule(t, s);
    assert Progress(step) && Enabled(s, step);
    s' := Do(s, step);
    StepKeepsInv(s, step);
    if !Settled(s') {
      StillRunning(s, step);
      ProgressDecreases(s, step);
    }
  }

  ghost predicate DrainsFrom(s: State, schedule: (nat, State) -> Step, t: nat) {
    exists n: nat :: Inv(After(s, schedule, t, n)) && Settled(After(s, schedule, t, n))
  }

  lemma DrainsOneEarlier(s: State, schedule: (nat, State) -> Step, t: nat, s': State)
    requires Enabled(s, schedule(t, s)) && s' == Do(s, schedule(t, s)) && DrainsFrom(s', schedule, t + 1)
    ensures DrainsFrom(s, schedule, t)
  {
    var n: nat :| Inv(After(s', schedule, t + 1, n)) && Settled(After(s', schedule, t + 1, n));
    assert After(s, schedule, t, n + 1) == After(s', schedule, t + 1, n);
  }

  lemma {:induction false} DrainsUnderEverySchedule(s: State, schedule: (nat, State) -> Step, t: nat)
    requires Inv(s) && !s.owner.Returned? && Diligent(schedule)
    ensures DrainsFrom(s, schedule, t)
    decreases Stage(s.owner), TotalWeight(s.producers), OwnerRank(s.owner), LeftToTake(s)
  {
    if Settled(s) {
      assert After(s, schedule, t, 0) == s;
    } else {
      var s' := Advance(s, schedule, t);
      if Settled(s') {
        assert After(s', schedule, t + 1, 0) == s';
      } else {
        DrainsUnderEverySchedule(s', schedule, t + 1);
      }
      DrainsOneEarlier(s, schedule, t, s');
    }
  }

  /**
    From every reachable state of a running loop, finitely many steps of the owner and of the threads already
    in flight, in any order, empty the queue; unless the process dies of a request that breaks the session rule.
  */
  lemma QueueIsAlwaysDrained(states: seq<State>, steps: seq<Step>, k: nat, schedule: (nat, State) -> Step, t: nat)
    requires Run(states, steps) && k < |states| && !states[k].owner.Returned? && Diligent(schedule)
    ensures exists n: nat ::
      var s := After(states[k], schedule, t, n);
      s.pending == [] || (s.status == Crashed && SessionsAfter(s.history).Broken?)
  {
    RunKeepsInv(states, steps, k);
    DrainsUnderEverySchedule(states[k], schedule, t);
    var n: nat :| Inv(After(states[k], schedule, t, n)) && Settled(After(states[k], schedule, t, n));
    var s := After(states[k], schedule, t, n);
    if s.status == Crashed && SessionsAfter(s.history).Open? {
      CrashBreaksSessions(s);
    }
  }
}
