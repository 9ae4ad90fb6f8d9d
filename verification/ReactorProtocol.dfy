/**
  The protocol between the thread that owns an event loop and any number of other threads that ask it to
  add, remove or update channels (utils/event_loop.c). Every access to shared memory is one step, and
  steps of different threads interleave arbitrarily.
*/
module ReactorProtocol {
  import opened Requests

  /** Where a non-owner thread is inside event_loop_do_channel_event. */
  datatype Producer =
    | Idle
    | Wants(req: Request)    // before Lock
    | Holds(req: Request)    // owns the mutex, has not appended yet
    | Appended               // has appended, still owns the mutex
    | Released               // after Unlock, before the wake-up byte is written

  /** What the owner goes back to after draining the queue. */
  datatype After = ToSetup | ToCallbacks(left: nat, wake: bool) | ToDispatch

  datatype Owner =
    | Setup                               // between event_loop_init and event_loop_run
    | Blocked                             // in epoll_wait
    | Callbacks(left: nat, wake: bool)    // serving a batch; `wake`: the wake-up event is still in it
    | OwnWants(req: Request, k: After)    // event_loop_do_channel_event called by the owner itself
    | OwnHolds(req: Request, k: After)
    | OwnAppended(k: After)
    | DrainWants(k: After)                // event_loop_handle_pending_channel, before Lock
    | Draining(k: After, next: nat)
    | Drained(k: After)                   // list cleared and flag reset, still owns the mutex
    | Returned                            // event_loop_run has returned

  datatype Thread = OwnerThread | ProducerThread(index: nat)
  datatype Holder = Free | HeldBy(thread: Thread)
  datatype Status = Running | AssertionFailed | Crashed

  datatype State = State(
    producers: seq<Producer>,
    owner: Owner,
    mutex: Holder,
    handling: bool,             // is_handle_pending
    pending: seq<Request>,
    bytes: nat,                 // wake-up bytes in the socket pair
    capacity: nat,              // how many it can hold before write blocks
    quit: bool,
    table: Table,
    ev: Events,
    wake: Chan,                 // the channel of the socket pair's reading end
    history: seq<Request>,      // all requests, in the order their threads took the mutex
    status: Status)

  datatype Step =
    | ProducerStarts(i: nat, req: Request, write: bool)
    | ProducerLocks(i: nat)
    | ProducerAppends(i: nat)
    | ProducerUnlocks(i: nat)
    | ProducerWakes(i: nat)
    | OwnerRuns
    | OwnerWakes(left: nat, wake: bool)
    | OwnerReadsByte
    | OwnerServes
    | OwnerQuits
    | OwnerRequests(req: Request, write: bool)
    | OwnerLocks
    | OwnerAppends
    | OwnerUnlocks
    | OwnerEndsBatch
    | DrainLocks
    | DrainTakes
    | DrainClears
    | DrainUnlocks

  // ----- the step relation

  ghost predicate Initial(s: State) {
    && (forall i :: 0 <= i < |s.producers| ==> s.producers[i] == Idle)
    && s.owner == Setup && s.mutex == Free && !s.handling && s.pending == [] && s.bytes == 0
    && s.capacity > 0 && !s.quit && s.ev == map[] && s.status == Running
    && s.wake.fd >= 0
    && s.history == [Request(Add, s.wake)]
    && Ok(s.table) == HandleAdd(EmptyTable, s.wake, EVENT_READ)
  }

  /** The wake-up event can be delivered: a byte is waiting and the kernel watches the descriptor for reading. */
  predicate WakeReady(s: State) {
    s.bytes > 0 && s.wake.fd in s.table.kernel && s.table.kernel[s.wake.fd].mask & EPOLLIN != 0
  }

  /** The socket pair is private to the loop: clients never name its descriptor. */
  predicate ClientRequest(s: State, r: Request) { r.chan.fd != s.wake.fd }

  predicate Enabled(s: State, step: Step) {
    s.status == Running &&
    match step
    case ProducerStarts(i, r, _) => i < |s.producers| && s.producers[i].Idle? && ClientRequest(s, r)
    case ProducerLocks(i) => i < |s.producers| && s.producers[i].Wants? && s.mutex == Free
    case ProducerAppends(i) => i < |s.producers| && s.producers[i].Holds?
    case ProducerUnlocks(i) => i < |s.producers| && s.producers[i].Appended?
    case ProducerWakes(i) => i < |s.producers| && s.producers[i].Released? && s.bytes < s.capacity
    case OwnerRuns => s.owner.Setup?
    case OwnerWakes(left, wake) => s.owner.Blocked? && (left > 0 || wake) && (wake ==> WakeReady(s))
    case OwnerReadsByte => s.owner.Callbacks? && s.owner.wake && s.bytes > 0
    case OwnerServes => s.owner.Callbacks? && s.owner.left > 0
    case OwnerQuits => s.owner.Callbacks? && s.owner.left > 0
    case OwnerRequests(r, _) => (s.owner.Setup? || (s.owner.Callbacks? && s.owner.left > 0)) && ClientRequest(s, r)
    case OwnerLocks => s.owner.OwnWants? && s.mutex == Free
    case OwnerAppends => s.owner.OwnHolds?
    case OwnerUnlocks => s.owner.OwnAppended?
    case OwnerEndsBatch => s.owner.Callbacks? && s.owner.left == 0 && !s.owner.wake
    case DrainLocks => s.owner.DrainWants? && s.mutex == Free
    case DrainTakes => s.owner.Draining? && s.owner.next < |s.pending|
    case DrainClears => s.owner.Draining? && s.owner.next >= |s.pending|
    case DrainUnlocks => s.owner.Drained?
  }

  /** channel_write_event_enable/disable change the event bits before they ask for an update. */
  function ChangedEvents(ev: Events, r: Request, write: bool): Events {
    if !r.kind.Update? then ev
    else ev[r.chan := if write then WithWrite(EventsOf(ev, r.chan)) else WithoutWrite(EventsOf(ev, r.chan))]
  }

  /** assert(is_handle_pending == 0), then append at the tail. */
  function Append(s: State, r: Request): State {
    if s.handling then s.(status := AssertionFailed)
    else s.(pending := s.pending + [r], history := s.history + [r])
  }

  function Resumed(k: After, quit: bool): Owner {
    match k
    case ToSetup => Setup
    case ToCallbacks(left, wake) => Callbacks(left, wake)
    case ToDispatch => if quit then Returned else Blocked
  }

  function Do(s: State, step: Step): State
    requires Enabled(s, step)
  {
    match step
    case ProducerStarts(i, r, write) =>
      s.(producers := s.producers[i := Wants(r)], ev := ChangedEvents(s.ev, r, write))
    case ProducerLocks(i) =>
      s.(producers := s.producers[i := Holds(s.producers[i].req)], mutex := HeldBy(ProducerThread(i)))
    case ProducerAppends(i) =>
      Append(s, s.producers[i].req).(producers := s.producers[i := Appended])
    case ProducerUnlocks(i) => s.(producers := s.producers[i := Released], mutex := Free)
    case ProducerWakes(i) => s.(producers := s.producers[i := Idle], bytes := s.bytes + 1)
    case OwnerRuns => s.(owner := if s.quit then Returned else Blocked)
    case OwnerWakes(left, wake) => s.(owner := Callbacks(left, wake))
    case OwnerReadsByte => s.(owner := Callbacks(s.owner.left, false), bytes := s.bytes - 1)
    case OwnerServes => s.(owner := Callbacks(s.owner.left - 1, s.owner.wake))
    case OwnerQuits => s.(owner := Callbacks(s.owner.left - 1, s.owner.wake), quit := true)
    case OwnerRequests(r, write) =>
      s.(owner := OwnWants(r, if s.owner.Setup? then ToSetup else ToCallbacks(s.owner.left, s.owner.wake)),
         ev := ChangedEvents(s.ev, r, write))
    case OwnerLocks => s.(owner := OwnHolds(s.owner.req, s.owner.k), mutex := HeldBy(OwnerThread))
    case OwnerAppends => Append(s, s.owner.req).(owner := OwnAppended(s.owner.k))
    case OwnerUnlocks => s.(owner := DrainWants(s.owner.k), mutex := Free)
    case OwnerEndsBatch => s.(owner := DrainWants(ToDispatch))
    case DrainLocks => s.(owner := Draining(s.owner.k, 0), mutex := HeldBy(OwnerThread), handling := true)
    case DrainTakes =>
      var r := s.pending[s.owner.next];
      var o := Handle(s.table, Work(r, EventsOf(s.ev, r.chan)));
      if o.Fault? then s.(status := Crashed)
      else s.(table := o.table, owner := Draining(s.owner.k, s.owner.next + 1))
    case DrainClears => s.(pending := [], handling := false, owner := Drained(s.owner.k))
    case DrainUnlocks => s.(owner := Resumed(s.owner.k, s.quit), mutex := Free)
  }

  /** A finite run: `states[0]` is initial and each state follows from the one before by `steps`. */
  ghost predicate Run(states: seq<State>, steps: seq<Step>) {
    && |states| == |steps| + 1
    && Initial(states[0])
    && forall k :: 0 <= k < |steps| ==> Enabled(states[k], steps[k]) && states[k + 1] == Do(states[k], steps[k])
  }

  // ----- the invariant

  ghost predicate InCriticalSection(p: Producer) { p.Holds? || p.Appended? }

  ghost predicate OwnerInCriticalSection(o: Owner) { o.OwnHolds? || o.OwnAppended? || o.Draining? || o.Drained? }

  ghost predicate LockInv(s: State) {
    && s.capacity > 0
    && (forall i :: 0 <= i < |s.producers| ==>
          (InCriticalSection(s.producers[i]) <==> s.mutex == HeldBy(ProducerThread(i))))
    && (OwnerInCriticalSection(s.owner) <==> s.mutex == HeldBy(OwnerThread))
    && (s.mutex.HeldBy? && s.mutex.thread.ProducerThread? ==> s.mutex.thread.index < |s.producers|)
    && (s.handling <==> s.owner.Draining?)
    && (s.owner.Draining? ==> s.owner.next <= |s.pending|)
    && (s.owner.Drained? ==> s.pending == [])
    && s.status != AssertionFailed
    && (s.status == Crashed ==> s.owner.Draining?)
  }

  /** Some thread has appended its request and has yet to write its byte. */
  ghost predicate WakeComing(s: State) {
    exists i :: 0 <= i < |s.producers| && (s.producers[i].Appended? || s.producers[i].Released?)
  }

  ghost predicate WakeInv(s: State) {
    && (s.owner.Blocked? || s.owner.Setup? ==> s.pending == [] || s.bytes > 0 || WakeComing(s))
    && (s.owner.Callbacks? && s.owner.wake ==> s.bytes > 0)
    && (forall k :: OwnerAfter(s.owner) == Yes(k) && k.ToCallbacks? && k.wake ==> s.bytes > 0)
    && (s.owner.Blocked? || s.owner.Setup? || OwnerAfter(s.owner) == Yes(ToSetup) ==> !s.quit)
  }

  datatype MaybeAfter = No | Yes(k: After)

  ghost function OwnerAfter(o: Owner): MaybeAfter {
    match o
    case OwnWants(_, k) => Yes(k)
    case OwnHolds(_, k) => Yes(k)
    case OwnAppended(k) => Yes(k)
    case DrainWants(k) => Yes(k)
    case Draining(k, _) => Yes(k)
    case Drained(k) => Yes(k)
    case _ => No
  }

  /** The requests that are in the queue and not handled yet. */
  function Remaining(s: State): seq<Request> {
    if s.owner.Draining? && s.owner.next <= |s.pending| then s.pending[s.owner.next..] else s.pending
  }

  /** The requests that have been handled. */
  ghost function Done(s: State): seq<Request> {
    if |Remaining(s)| <= |s.history| then s.history[..|s.history| - |Remaining(s)|] else []
  }

  ghost predicate QueueInv(s: State) {
    && s.history == Done(s) + Remaining(s)
    && SameShape(HandleAll(Ok(EmptyTable), Load(Done(s), map[])), Ok(s.table))
    && Consistent(s.table)
    && (s.status == Crashed ==>
          && Remaining(s) != []
          && HandleAll(Ok(EmptyTable), Load(Done(s) + [Remaining(s)[0]], map[])).Fault?)
  }

  /** Requests named by a thread that has not appended them yet. */
  ghost function InHand(s: State): set<Request> {
    (set i | 0 <= i < |s.producers| && (s.producers[i].Wants? || s.producers[i].Holds?) :: s.producers[i].req)
    + (if s.owner.OwnWants? || s.owner.OwnHolds? then {s.owner.req} else {})
  }

  ghost function Unhandled(s: State): set<Request> { set r | r in Remaining(s) }

  ghost predicate MaskInv(s: State) {
    && ReadForever(s.ev)
    && StaleCovered(s.table, Unhandled(s) + InHand(s), s.ev)
  }

  /** The loop's own wake-up channel stays registered. */
  ghost predicate WakeChannelInv(s: State) {
    && (forall r :: r in Unhandled(s) + InHand(s) ==> ClientRequest(s, r))
    && s.wake !in s.ev
    && s.wake.fd in s.table.kernel && s.table.kernel[s.wake.fd].writer == s.wake
  }

  ghost predicate Inv(s: State) {
    LockInv(s) && WakeInv(s) && QueueInv(s) && MaskInv(s) && WakeChannelInv(s)
  }

  lemma InitialInv(s: State)
    requires Initial(s)
    ensures Inv(s)
  {
    HandleKeepsConsistent(EmptyTable, Work(Request(Add, s.wake), EVENT_READ));
    var ws := Load(s.history, map[]);
    assert ws == [Work(Request(Add, s.wake), EVENT_READ)];
    assert Done(s) == s.history;
    assert HandleAll(Ok(EmptyTable), ws) == HandleAll(Ok(s.table), ws[1..]);
  }

  predicate IsProducerStep(step: Step) {
    step.ProducerStarts? || step.ProducerLocks? || step.ProducerAppends? || step.ProducerUnlocks? || step.ProducerWakes?
  }

  lemma ProducerStepKeepsLockInv(s: State, step: Step)
    requires LockInv(s) && Enabled(s, step) && IsProducerStep(step)
    ensures LockInv(Do(s, step))
  {
  }

  lemma OwnerStepKeepsLockInv(s: State, step: Step)
    requires LockInv(s) && Enabled(s, step) && !IsProducerStep(step)
    ensures LockInv(Do(s, step))
  {
    assert Do(s, step).producers == s.producers;
  }

  lemma ProducerStepKeepsWakeInv(s: State, step: Step)
    requires LockInv(s) && WakeInv(s) && Enabled(s, step) && IsProducerStep(step)
    ensures WakeInv(Do(s, step))
  {
    var s', i := Do(s, step), step.i;
    assert s'.owner == s.owner && s'.bytes >= s.bytes;
    if step.ProducerAppends? || step.ProducerUnlocks? {
      assert s'.producers[i].Appended? || s'.producers[i].Released?;
    } else if WakeComing(s) && !step.ProducerWakes? {
      var j :| 0 <= j < |s.producers| && (s.producers[j].Appended? || s.producers[j].Released?);
      assert s'.producers[j] == s.producers[j];
    }
  }

  lemma OwnerStepKeepsWakeInv(s: State, step: Step)
    requires LockInv(s) && WakeInv(s) && Enabled(s, step) && !IsProducerStep(step)
    ensures WakeInv(Do(s, step))
  {
    assert WakeComing(s) ==> WakeComing(Do(s, step));
  }

  lemma StepKeepsQueueInv(s: State, step: Step)
    requires LockInv(s) && QueueInv(s) && Enabled(s, step)
    ensures QueueInv(Do(s, step))
  {
    var s' := Do(s, step);
    if step.ProducerAppends? {
      AppendKeepsQueueInv(s, s', s.producers[step.i].req);
    } else if step.OwnerAppends? {
      AppendKeepsQueueInv(s, s', s.owner.req);
    } else if step.DrainTakes? {
      TakeKeepsQueueInv(s);
    } else {
      QuietStep(s, step);
      assert Done(s') == Done(s);
    }
  }

  /** Every other step leaves the queue, the history and the table alone. */
  lemma QuietStep(s: State, step: Step)
    requires LockInv(s) && Enabled(s, step) && !step.ProducerAppends? && !step.OwnerAppends? && !step.DrainTakes?
    ensures var s' := Do(s, step);
      Remaining(s') == Remaining(s) && s'.history == s.history && s'.table == s.table && s'.status == Running
  {
    var s' := Do(s, step);
    if IsProducerStep(step) {
      assert s'.owner == s.owner && s'.pending == s.pending;
    } else if step == DrainClears {
      assert s.pending[s.owner.next..] == [];
    } else if step == DrainLocks {
      assert s.pending[0..] == s.pending;
    }
  }

  lemma AppendKeepsQueueInv(s: State, s': State, r: Request)
    requires QueueInv(s) && !s.owner.Draining? && !s'.owner.Draining?
    requires s'.pending == s.pending + [r] && s'.history == s.history + [r]
    requires s'.table == s.table && s'.status == s.status == Running
    ensures QueueInv(s')
  {
    assert Remaining(s') == Remaining(s) + [r];
    assert Done(s') == Done(s);
  }

  lemma TakeKeepsQueueInv(s: State)
    requires LockInv(s) && QueueInv(s) && Enabled(s, DrainTakes)
    ensures QueueInv(Do(s, DrainTakes))
  {
    var r, done := s.pending[s.owner.next], Done(s);
    TakeKeepsShape(done, r, s.table, Work(r, EventsOf(s.ev, r.chan)));
    TakeShortens(s, Do(s, DrainTakes), done);
  }

  lemma TakeShortens(s: State, s': State, done: seq<Request>)
    requires s.owner.Draining? && s.owner.next < |s.pending| && s.history == done + Remaining(s)
    requires s'.pending == s.pending && s'.history == s.history
    requires s'.owner == s.owner || s'.owner == Draining(s.owner.k, s.owner.next + 1)
    ensures Remaining(s)[0] == s.pending[s.owner.next]
    ensures s'.owner == s.owner ==> Remaining(s') == Remaining(s) && Done(s') == done
    ensures s'.owner != s.owner ==>
      Done(s') == done + [s.pending[s.owner.next]] && s'.history == Done(s') + Remaining(s')
  {
    if s'.owner != s.owner {
      assert Remaining(s) == [s.pending[s.owner.next]] + Remaining(s');
      assert s'.history == (done + [s.pending[s.owner.next]]) + Remaining(s');
      DoneIs(s', done + [s.pending[s.owner.next]]);
    } else {
      DoneIs(s', done);
    }
  }

  lemma DoneIs(s: State, done: seq<Request>)
    requires s.history == done + Remaining(s)
    ensures Done(s) == done
  {
  }

  lemma TakeKeepsShape(done: seq<Request>, r: Request, t: Table, w: Work)
    requires SameShape(HandleAll(Ok(EmptyTable), Load(done, map[])), Ok(t)) && Consistent(t) && w.req == r
    ensures SameShape(HandleAll(Ok(EmptyTable), Load(done + [r], map[])), Handle(t, w))
    ensures Handle(t, w).Ok? ==> Consistent(Handle(t, w).table)
  {
    var before, w0 := Load(done, map[]), Work(r, EventsOf(map[], r.chan));
    assert Load(done + [r], map[]) == before + [w0];
    HandleAllConcat(Ok(EmptyTable), before, [w0]);
    ShapeIgnoresEvents(HandleAll(Ok(EmptyTable), before), Ok(t), [w0], [w]);
    HandleOne(HandleAll(Ok(EmptyTable), before), w0);
    HandleOne(Ok(t), w);
    HandleKeepsConsistent(t, w);
  }

  /** Bits only change for a channel whose update is then in hand. */
  lemma ChangeStaysCovered(t: Table, cover: set<Request>, ev: Events, r: Request, write: bool)
    requires StaleCovered(t, cover, ev) && ReadForever(ev)
    ensures ReadForever(ChangedEvents(ev, r, write))
    ensures StaleCovered(t, cover + {r}, ChangedEvents(ev, r, write))
  {
    WriteBit(EventsOf(ev, r.chan));
  }

  lemma WidenCover(t: Table, small: set<Request>, large: set<Request>, ev: Events)
    requires StaleCovered(t, small, ev) && small <= large
    ensures StaleCovered(t, large, ev)
  {
  }

  /** What each step does to the requests that are named but not handled. */
  lemma CoverGrows(s: State, step: Step)
    requires LockInv(s) && Enabled(s, step) && step != DrainTakes
    ensures var s' := Do(s, step);
      && Unhandled(s) + InHand(s) <= Unhandled(s') + InHand(s')
      && (step.ProducerStarts? || step.OwnerRequests? ==> step.req in InHand(s'))
      && (forall r :: r in Unhandled(s') + InHand(s') ==>
            r in Unhandled(s) + InHand(s) || ((step.ProducerStarts? || step.OwnerRequests?) && r == step.req))
  {
    if IsProducerStep(step) {
      ProducerCover(s, step);
    } else {
      OwnerCover(s, step);
    }
  }

  lemma ProducerCover(s: State, step: Step)
    requires LockInv(s) && Enabled(s, step) && IsProducerStep(step)
    ensures var s' := Do(s, step);
      && Unhandled(s) + InHand(s) <= Unhandled(s') + InHand(s')
      && (step.ProducerStarts? ==> step.req in InHand(s'))
      && (forall r :: r in Unhandled(s') + InHand(s') ==>
            r in Unhandled(s) + InHand(s) || (step.ProducerStarts? && r == step.req))
  {
    var s' := Do(s, step);
    var i := step.i;
    if step.ProducerAppends? {
      assert Remaining(s') == Remaining(s) + [s.producers[i].req];
    }
    if step.ProducerStarts? || step.ProducerLocks? {
      assert s'.producers[i].Wants? || s'.producers[i].Holds?;
    }
    forall r | r in InHand(s) ensures r in Unhandled(s') + InHand(s') {
      if j :| 0 <= j < |s.producers| && (s.producers[j].Wants? || s.producers[j].Holds?) && s.producers[j].req == r {
        if j != i { assert s'.producers[j] == s.producers[j]; }
      }
    }
    forall r | r in InHand(s') ensures r in Unhandled(s) + InHand(s) || (step.ProducerStarts? && r == step.req) {
      if j :| 0 <= j < |s'.producers| && (s'.producers[j].Wants? || s'.producers[j].Holds?) && s'.producers[j].req == r {
        if j != i { assert s'.producers[j] == s.producers[j]; }
      }
    }
  }

  lemma OwnerCover(s: State, step: Step)
    requires LockInv(s) && Enabled(s, step) && step != DrainTakes && !IsProducerStep(step)
    ensures var s' := Do(s, step);
      && Unhandled(s) + InHand(s) <= Unhandled(s') + InHand(s')
      && (step.OwnerRequests? ==> step.req in InHand(s'))
      && (forall r :: r in Unhandled(s') + InHand(s') ==>
            r in Unhandled(s) + InHand(s) || (step.OwnerRequests? && r == step.req))
  {
    var s' := Do(s, step);
    assert s'.producers == s.producers;
    if step.OwnerAppends? {
      assert Remaining(s') == Remaining(s) + [s.owner.req];
    } else if step.DrainClears? {
      assert Remaining(s) == [];
    } else {
      assert Remaining(s') == Remaining(s);
    }
  }

  lemma StepKeepsMaskInv(s: State, step: Step)
    requires LockInv(s) && MaskInv(s) && WakeChannelInv(s) && Enabled(s, step) && step != DrainTakes
    ensures MaskInv(Do(s, step)) && WakeChannelInv(Do(s, step))
  {
    var s' := Do(s, step);
    var cover := Unhandled(s) + InHand(s);
    CoverGrows(s, step);
    assert s'.table == s.table && s'.wake == s.wake;
    if step.ProducerStarts? || step.OwnerRequests? {
      ChangeStaysCovered(s.table, cover, s.ev, step.req, step.write);
      WidenCover(s'.table, cover + {step.req}, Unhandled(s') + InHand(s'), s'.ev);
    } else {
      WidenCover(s'.table, cover, Unhandled(s') + InHand(s'), s'.ev);
    }
  }

  lemma TakeKeepsMaskInv(s: State)
    requires LockInv(s) && Consistent(s.table) && MaskInv(s) && WakeChannelInv(s) && Enabled(s, DrainTakes)
    ensures MaskInv(Do(s, DrainTakes)) && WakeChannelInv(Do(s, DrainTakes))
  {
    var s', r := Do(s, DrainTakes), s.pending[s.owner.next];
    if s'.status != Crashed {
      var w, cover := Work(r, EventsOf(s.ev, r.chan)), Unhandled(s') + InHand(s');
      assert Remaining(s) == [r] + Remaining(s');
      assert InHand(s') == InHand(s);
      assert Unhandled(s) + InHand(s) == cover + {r};
      HandlingKeepsCovered(s.table, w, cover, s.ev);
      OthersKeep(s.table, w, s.wake.fd);
    }
  }

  /** A request does not touch any descriptor but its own. */
  lemma OthersKeep(t: Table, w: Work, fd: int)
    requires Consistent(t) && Handle(t, w).Ok? && w.req.chan.fd != fd
    ensures var t' := Handle(t, w).table;
      && (fd in t'.entries <==> fd in t.entries) && (fd in t.entries ==> t'.entries[fd] == t.entries[fd])
      && (fd in t'.kernel <==> fd in t.kernel) && (fd in t.kernel ==> t'.kernel[fd] == t.kernel[fd])
  {
  }

  lemma StepKeepsInv(s: State, step: Step)
    requires Inv(s) && Enabled(s, step)
    ensures Inv(Do(s, step))
  {
    if IsProducerStep(step) {
      ProducerStepKeepsLockInv(s, step);
      ProducerStepKeepsWakeInv(s, step);
    } else {
      OwnerStepKeepsLockInv(s, step);
      OwnerStepKeepsWakeInv(s, step);
    }
    StepKeepsQueueInv(s, step);
    if step == DrainTakes { TakeKeepsMaskInv(s); } else { StepKeepsMaskInv(s, step); }
  }

  lemma {:induction false} RunKeepsInv(states: seq<State>, steps: seq<Step>, k: nat)
    requires Run(states, steps) && k < |states|
    ensures Inv(states[k])
  {
    if k == 0 {
      InitialInv(states[0]);
    } else {
      RunKeepsInv(states, steps, k - 1);
      StepKeepsInv(states[k - 1], steps[k - 1]);
    }
  }
}
