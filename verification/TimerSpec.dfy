/**
  Idle timers as a sequence of (timer, expiry) pairs: what the operations of utils/timer.c do to it, and what
  that amounts to over whole runs of a server.
*/
module TimerSpec {
  const TIMESLOT := 5
  const TIMEOUT := 3
  const IDLE_LIMIT := TIMEOUT * TIMESLOT

  datatype Entry<T> = Entry(timer: T, expires: int)

  /** add_timer: before the first entry that expires later. */
  function Added<T>(es: seq<Entry<T>>, e: Entry<T>): (r: seq<Entry<T>>)
    ensures |r| == |es| + 1
  {
    if es == [] || es[0].expires > e.expires then [e] + es else [es[0]] + Added(es[1..], e)
  }

  function Position<T(==)>(es: seq<Entry<T>>, t: T): (i: nat)
    ensures i <= |es|
    ensures i < |es| ==> es[i].timer == t
    ensures forall j :: 0 <= j < i ==> es[j].timer != t
  {
    if es == [] || es[0].timer == t then 0 else 1 + Position(es[1..], t)
  }

  /** Entry p taken out and `e` put at the tail. */
  function MoveToTail<T>(es: seq<Entry<T>>, p: nat, e: Entry<T>): (r: seq<Entry<T>>)
    requires p < |es|
    ensures |r| == |es| && r[|es| - 1] == e
    ensures forall i {:trigger r[i]} :: 0 <= i < p ==> r[i] == es[i]
    ensures forall i {:trigger r[i]} :: p <= i < |es| - 1 ==> r[i] == es[i + 1]
  {
    es[..p] + es[p + 1..] + [e]
  }

  /** update_timer and reset_timer: a new expiry, and to the tail. */
  function Refreshed<T(==)>(es: seq<Entry<T>>, t: T, expires: int): seq<Entry<T>> {
    var p := Position(es, t);
    if p == |es| then es else MoveToTail(es, p, Entry(t, expires))
  }

  /** How many entries at the front have expired. */
  function DueCount<T>(es: seq<Entry<T>>, now: int): (n: nat)
    ensures n <= |es|
    ensures forall i :: 0 <= i < n ==> es[i].expires <= now
    ensures n < |es| ==> es[n].expires > now
  {
    if es == [] || now < es[0].expires then 0 else 1 + DueCount(es[1..], now)
  }

  ghost predicate Ascending<T>(es: seq<Entry<T>>) {
    forall i, j :: 0 <= i < j < |es| ==> es[i].expires <= es[j].expires
  }

  ghost predicate DistinctTimers<T>(es: seq<Entry<T>>) {
    forall i, j :: 0 <= i < j < |es| ==> es[i].timer != es[j].timer
  }

  predicate Has<T(==)>(es: seq<Entry<T>>, t: T) { Position(es, t) < |es| }

  // ----- runs

  /** A connection is accepted, receives data, or the timers are checked; `at` is the clock. */
  datatype Event<T> = Accept(timer: T, at: int) | Activity(timer: T, at: int) | Tick(at: int)

  function After<T(==)>(es: seq<Entry<T>>, ev: Event<T>): seq<Entry<T>> {
    match ev
    case Accept(t, at) => Added(es, Entry(t, at + IDLE_LIMIT))
    case Activity(t, at) => Refreshed(es, t, at + IDLE_LIMIT)
    case Tick(at) => es[DueCount(es, at)..]
  }

  function Run<T(==)>(evs: seq<Event<T>>): seq<Entry<T>> {
    if evs == [] then [] else After(Run(evs[..|evs| - 1]), evs[|evs| - 1])
  }

  /** When `t` was last heard of. */
  function LastActivity<T(==)>(evs: seq<Event<T>>, t: T): int {
    if evs == [] then 0
    else
      var ev := evs[|evs| - 1];
      if !ev.Tick? && ev.timer == t then ev.at else LastActivity(evs[..|evs| - 1], t)
  }

  /** Accepted, and at no tick since had it been idle for as long as the limit. */
  predicate Live<T(==)>(evs: seq<Event<T>>, t: T) {
    evs != [] &&
    var before, ev := evs[..|evs| - 1], evs[|evs| - 1];
    match ev
    case Accept(t', _) => t' == t || Live(before, t)
    case Activity(_, _) => Live(before, t)
    case Tick(at) => Live(before, t) && LastActivity(before, t) > at - IDLE_LIMIT
  }

  /** The clock never goes back, every accept brings a new timer, and only live connections receive data. */
  predicate Proper<T(==)>(evs: seq<Event<T>>) {
    evs == [] ||
    var before, ev := evs[..|evs| - 1], evs[|evs| - 1];
    && Proper(before)
    && (before != [] ==> before[|before| - 1].at <= ev.at)
    && (ev.Accept? ==> !Live(before, ev.timer))
    && (ev.Activity? ==> Live(before, ev.timer))
  }

  /** In order, and nothing expires later than a connection that is active right now. */
  ghost predicate OrderInv<T>(es: seq<Entry<T>>, now: int) {
    && Ascending(es)
    && DistinctTimers(es)
    && (forall i :: 0 <= i < |es| ==> es[i].expires <= now + IDLE_LIMIT)
  }

  /** The list knows about `t` what the events say. */
  predicate Tracks<T(==)>(es: seq<Entry<T>>, evs: seq<Event<T>>, t: T) {
    && (Has(es, t) <==> Live(evs, t))
    && (Has(es, t) ==> es[Position(es, t)].expires == LastActivity(evs, t) + IDLE_LIMIT)
  }

  lemma {:induction false} PositionIs<T>(es: seq<Entry<T>>, i: nat, t: T)
    requires DistinctTimers(es) && i < |es| && es[i].timer == t
    ensures Position(es, t) == i
  {
  }

  /** What one more event does to Live and LastActivity. */
  lemma OneMore<T>(evs: seq<Event<T>>, ev: Event<T>, t: T)
    ensures LastActivity(evs + [ev], t) == if !ev.Tick? && ev.timer == t then ev.at else LastActivity(evs, t)
    ensures Live(evs + [ev], t) <==>
      match ev
      case Accept(t', _) => t' == t || Live(evs, t)
      case Activity(_, _) => Live(evs, t)
      case Tick(at) => Live(evs, t) && LastActivity(evs, t) > at - IDLE_LIMIT
    ensures Run(evs + [ev]) == After(Run(evs), ev)
  {
    assert (evs + [ev])[..|evs|] == evs;
  }

  /** An entry that expires no earlier than all others goes to the tail. */
  lemma {:induction false} AddedAtTail<T>(es: seq<Entry<T>>, e: Entry<T>)
    requires forall i :: 0 <= i < |es| ==> es[i].expires <= e.expires
    ensures Added(es, e) == es + [e]
  {
    if es != [] {
      AddedAtTail(es[1..], e);
    }
  }

  /** es' is es with entry p taken out and e put at the tail. */
  ghost predicate Moved<T>(es: seq<Entry<T>>, p: nat, e: Entry<T>, es': seq<Entry<T>>) {
    && p < |es| == |es'| && es[p].timer == e.timer
    && (forall i {:trigger es'[i]} :: 0 <= i < p ==> es'[i] == es[i])
    && (forall i {:trigger es'[i]} :: p <= i < |es| - 1 ==> es'[i] == es[i + 1])
    && es'[|es| - 1] == e
  }

  lemma RefreshedMoves<T>(es: seq<Entry<T>>, t: T, expires: int)
    requires Has(es, t)
    ensures Moved(es, Position(es, t), Entry(t, expires), Refreshed(es, t, expires))
  {
  }

  /** Moving an entry to the tail with the latest expiry of all keeps the list in order. */
  lemma MovedInOrder<T>(es: seq<Entry<T>>, p: nat, e: Entry<T>, es': seq<Entry<T>>)
    requires Ascending(es) && DistinctTimers(es) && Moved(es, p, e, es')
    requires forall i :: 0 <= i < |es| ==> es[i].expires <= e.expires
    ensures Ascending(es') && DistinctTimers(es') && forall i :: 0 <= i < |es'| ==> es'[i].expires <= e.expires
  {
    forall i, j | 0 <= i < j < |es'| ensures es'[i].expires <= es'[j].expires && es'[i].timer != es'[j].timer {
      var i', j' := if i < p then i else i + 1, if j < p then j else if j < |es| - 1 then j + 1 else p;
      assert es'[i] == es[i'] && (j < |es| - 1 ==> es'[j] == es[j']);
      assert es[i'].timer != es[j'].timer;
      assert j < |es| - 1 ==> es[i'].expires <= es[j'].expires;
    }
  }

  /** For a tick, being due is having been idle too long: it splits the list by position. */
  lemma AfterDue<T>(es: seq<Entry<T>>, now: int, i: nat)
    requires Ascending(es) && i < |es|
    ensures es[i].expires <= now <==> i < DueCount(es, now)
  {
    var n := DueCount(es, now);
    if n < i { assert es[n].expires <= es[i].expires; }
  }

  lemma AcceptKeepsOrder<T>(es: seq<Entry<T>>, ev: Event<T>)
    requires ev.Accept? && OrderInv(es, ev.at) && !Has(es, ev.timer)
    ensures After(es, ev) == es + [Entry(ev.timer, ev.at + IDLE_LIMIT)]
    ensures OrderInv(After(es, ev), ev.at)
  {
    AddedAtTail(es, Entry(ev.timer, ev.at + IDLE_LIMIT));
  }

  lemma AcceptTracks<T>(es: seq<Entry<T>>, evs: seq<Event<T>>, ev: Event<T>, t: T)
    requires ev.Accept? && OrderInv(es, ev.at) && Tracks(es, evs, t) && !Has(es, ev.timer)
    ensures Tracks(After(es, ev), evs + [ev], t)
  {
    OneMore(evs, ev, t);
    AcceptKeepsOrder(es, ev);
    var es' := After(es, ev);
    if Has(es, t) { PositionIs(es', Position(es, t), t); } else if t == ev.timer { PositionIs(es', |es|, t); }
  }

  lemma ActivityKeepsOrder<T>(es: seq<Entry<T>>, ev: Event<T>)
    requires ev.Activity? && OrderInv(es, ev.at) && Has(es, ev.timer)
    ensures OrderInv(After(es, ev), ev.at)
  {
    var e := Entry(ev.timer, ev.at + IDLE_LIMIT);
    RefreshedMoves(es, ev.timer, e.expires);
    MovedInOrder(es, Position(es, ev.timer), e, After(es, ev));
  }

  lemma ActivityTracks<T>(es: seq<Entry<T>>, evs: seq<Event<T>>, ev: Event<T>, t: T)
    requires ev.Activity? && OrderInv(es, ev.at) && Tracks(es, evs, t) && Has(es, ev.timer)
    ensures Tracks(After(es, ev), evs + [ev], t)
  {
    RefreshedMoves(es, ev.timer, ev.at + IDLE_LIMIT);
    OneMore(evs, ev, t);
    ActivityKeepsOrder(es, ev);
    FindMoved(es, Position(es, ev.timer), Entry(ev.timer, ev.at + IDLE_LIMIT), After(es, ev), t);
  }

  lemma FindMoved<T>(es: seq<Entry<T>>, p: nat, e: Entry<T>, es': seq<Entry<T>>, t: T)
    requires Moved(es, p, e, es') && p == Position(es, e.timer) && DistinctTimers(es')
    ensures Has(es', t) <==> Has(es, t)
    ensures Has(es, t) ==> es'[Position(es', t)] == if t == e.timer then e else es[Position(es, t)]
  {
    var i := Position(es, t);
    if t == e.timer {
      PositionIs(es', |es| - 1, t);
    } else if i < |es| {
      var i' := if i < p then i else i - 1;
      assert es'[i'] == es[i];
      PositionIs(es', i', t);
    } else {
      forall j | 0 <= j < |es'| ensures es'[j].timer != t {
        assert j < |es| - 1 ==> es'[j] == es[if j < p then j else j + 1];
      }
    }
  }

  lemma TickTracks<T>(es: seq<Entry<T>>, evs: seq<Event<T>>, ev: Event<T>, t: T)
    requires ev.Tick? && OrderInv(es, ev.at) && Tracks(es, evs, t)
    ensures Tracks(After(es, ev), evs + [ev], t)
    ensures Has(es[..DueCount(es, ev.at)], t) <==> Live(evs, t) && LastActivity(evs, t) <= ev.at - IDLE_LIMIT
  {
    OneMore(evs, ev, t);
    if Has(es, t) { AfterDue(es, ev.at, Position(es, t)); }
    FindSplit(es, DueCount(es, ev.at), t);
  }

  lemma FindSplit<T>(es: seq<Entry<T>>, n: nat, t: T)
    requires n <= |es| && DistinctTimers(es)
    ensures Has(es[..n], t) <==> Position(es, t) < n
    ensures Has(es[n..], t) <==> n <= Position(es, t) < |es|
    ensures Has(es[n..], t) ==> es[n..][Position(es[n..], t)] == es[Position(es, t)]
  {
    if Position(es, t) < n {
      PositionIs(es[..n], Position(es, t), t);
      NotBoth(es, n, Position(es, t), t);
    } else {
      FindBehind(es, es[n..], n, t);
    }
  }

  lemma FindBehind<T>(es: seq<Entry<T>>, kept: seq<Entry<T>>, n: nat, t: T)
    requires n <= |es| && kept == es[n..] && DistinctTimers(es) && n <= Position(es, t)
    ensures Has(kept, t) <==> Position(es, t) < |es|
    ensures Has(kept, t) ==> kept[Position(kept, t)] == es[Position(es, t)]
  {
    var i := Position(es, t);
    if i < |es| {
      assert kept[i - n] == es[i];
      PositionIs(kept, i - n, t);
    } else {
      forall j | 0 <= j < |kept| ensures kept[j].timer != t { assert kept[j] == es[n + j]; }
    }
  }

  lemma NotBoth<T>(es: seq<Entry<T>>, n: nat, i: nat, t: T)
    requires DistinctTimers(es) && i < n <= |es| && es[i].timer == t
    ensures !Has(es[n..], t)
  {
    forall j | 0 <= j < |es| - n ensures es[n..][j].timer != t { assert es[n..][j] == es[n + j]; }
  }

  lemma StepKeepsOrder<T>(es: seq<Entry<T>>, evs: seq<Event<T>>, ev: Event<T>)
    requires OrderInv(es, ev.at)
    requires !ev.Tick? ==> Tracks(es, evs, ev.timer) && (ev.Accept? <==> !Live(evs, ev.timer))
    ensures OrderInv(After(es, ev), ev.at)
  {
    match ev {
      case Accept(_, _) => AcceptKeepsOrder(es, ev);
      case Activity(_, _) => ActivityKeepsOrder(es, ev);
      case Tick(_) =>
    }
  }

  lemma StepTracks<T>(es: seq<Entry<T>>, evs: seq<Event<T>>, ev: Event<T>, t: T)
    requires OrderInv(es, ev.at) && Tracks(es, evs, t)
    requires !ev.Tick? ==> Tracks(es, evs, ev.timer) && (ev.Accept? <==> !Live(evs, ev.timer))
    ensures Tracks(After(es, ev), evs + [ev], t)
  {
    match ev {
      case Accept(_, _) => AcceptTracks(es, evs, ev, t);
      case Activity(_, _) => ActivityTracks(es, evs, ev, t);
      case Tick(_) => TickTracks(es, evs, ev, t);
    }
  }

  lemma {:induction false} RunKeepsInv<T(!new)>(evs: seq<Event<T>>, now: int)
    requires Proper(evs) && (evs != [] ==> evs[|evs| - 1].at <= now)
    ensures OrderInv(Run(evs), now) && forall t :: Tracks(Run(evs), evs, t)
  {
    if evs != [] {
      var before, ev := evs[..|evs| - 1], evs[|evs| - 1];
      assert evs == before + [ev];
      RunKeepsInv(before, ev.at);
      var es := Run(before);
      forall t: T ensures Tracks(After(es, ev), evs, t) {
        assert Tracks(es, before, t) && (!ev.Tick? ==> Tracks(es, before, ev.timer));
        StepTracks(es, before, ev, t);
      }
      if !ev.Tick? { assert Tracks(es, before, ev.timer); }
      StepKeepsOrder(es, before, ev);
    }
  }

  /**
    Over every proper run the list is ascending and holds exactly the live timers, each once, each expiring
    IDLE_LIMIT after its last activity.
  */
  lemma ListFollowsActivity<T(!new)>(evs: seq<Event<T>>)
    requires Proper(evs)
    ensures Ascending(Run(evs)) && DistinctTimers(Run(evs))
    ensures forall t :: Tracks(Run(evs), evs, t)
  {
    RunKeepsInv(evs, if evs == [] then 0 else evs[|evs| - 1].at);
  }

  /** `t` fires at `now` if and only if it is live and has been idle for the limit; it stays if and only if live and not. */
  predicate FiresWhenIdle<T(==)>(fired: seq<Entry<T>>, kept: seq<Entry<T>>, evs: seq<Event<T>>, now: int, t: T) {
    && (Has(fired, t) <==> Live(evs, t) && LastActivity(evs, t) <= now - IDLE_LIMIT)
    && (Has(kept, t) <==> Live(evs, t) && LastActivity(evs, t) > now - IDLE_LIMIT)
  }

  /**
    The exact idle timeout: a tick at time `now` fires the timers whose last activity was at or before
    now - IDLE_LIMIT and no others, each once and in expiry order, and leaves the rest linked in their old order.
  */
  lemma TickFiresExactlyTheIdle<T(!new)>(evs: seq<Event<T>>, now: int)
    requires Proper(evs + [Tick(now)])
    ensures var es := Run(evs); var fired, kept := es[..DueCount(es, now)], Run(evs + [Tick(now)]);
      && es == fired + kept && Ascending(fired) && DistinctTimers(fired)
      && forall t :: FiresWhenIdle(fired, kept, evs, now, t)
  {
    var es, tick := Run(evs), Tick(now);
    assert (evs + [tick])[..|evs|] == evs;
    RunKeepsInv(evs, now);
    var fired, kept := es[..DueCount(es, now)], es[DueCount(es, now)..];
    assert Run(evs + [tick]) == kept;
    PrefixInOrder(es, DueCount(es, now));
    forall t ensures FiresWhenIdle(fired, kept, evs, now, t) {
      assert Tracks(es, evs, t);
      FiresOne(es, evs, now, fired, kept, t);
    }
  }

  lemma PrefixInOrder<T>(es: seq<Entry<T>>, n: nat)
    requires n <= |es| && Ascending(es) && DistinctTimers(es)
    ensures es == es[..n] + es[n..] && Ascending(es[..n]) && DistinctTimers(es[..n])
  {
  }

  lemma FiresOne<T>(es: seq<Entry<T>>, evs: seq<Event<T>>, now: int, fired: seq<Entry<T>>, kept: seq<Entry<T>>, t: T)
    requires OrderInv(es, now) && Tracks(es, evs, t)
    requires fired == es[..DueCount(es, now)] && kept == es[DueCount(es, now)..]
    ensures FiresWhenIdle(fired, kept, evs, now, t)
  {
    TickTracks(es, evs, Tick(now), t);
    OneMore(evs, Tick(now), t);
  }
}
