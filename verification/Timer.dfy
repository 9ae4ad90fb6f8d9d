/** The sorted circular list of idle timers (utils/timer.c), as objects linked both ways. */
module Timers {
  import opened TimerSpec

  class Timer {
    const id: nat          // names the connection the callback would close
    var expireTime: int
    var next: Timer?
    var prev: Timer?

    /** generate_timer */
    constructor (id: nat, now: int)
      ensures this.id == id && expireTime == now + IDLE_LIMIT && next == null && prev == null
    {
      this.id := id;
      expireTime := now + TIMEOUT * TIMESLOT;
      next, prev := null, null;
    }

    method UpdateTimer(timeout: int, now: int)
      modifies this`expireTime
      ensures expireTime == now + timeout * TIMESLOT
    {
      expireTime := now + timeout * TIMESLOT;
    }
  }

  ghost function EntriesOf(ts: seq<Timer>): (es: seq<Entry<nat>>)
    reads ts
    ensures |es| == |ts|
    ensures forall i {:trigger es[i]} :: 0 <= i < |ts| ==> es[i] == Entry(ts[i].id, ts[i].expireTime)
  {
    seq(|ts|, i requires 0 <= i < |ts| reads ts => Entry(ts[i].id, ts[i].expireTime))
  }

  lemma InsertedMembers<T>(s: seq<T>, p: nat, x: T)
    requires p <= |s|
    ensures forall t :: t in s[..p] + [x] + s[p..] <==> t in s || t == x
  {
    assert s == s[..p] + s[p..];
  }

  lemma RemovedMembers<T>(s: seq<T>, p: nat)
    requires p < |s| && forall i :: 0 <= i < |s| && i != p ==> s[i] != s[p]
    ensures forall t :: t in s[..p] + s[p + 1..] <==> t in s && t != s[p]
  {
    assert s == s[..p] + [s[p]] + s[p + 1..];
  }

  lemma EntriesInsert(ts: seq<Timer>, k: nat, t: Timer)
    requires k <= |ts|
    ensures EntriesOf(ts[..k] + [t] + ts[k..]) == EntriesOf(ts)[..k] + [Entry(t.id, t.expireTime)] + EntriesOf(ts)[k..]
  {
  }

  /** Where the search stops is where the specification adds the entry. */
  lemma AddedInRing(ring: seq<Timer>, es: seq<Entry<nat>>, e: Entry<nat>, p: nat)
    requires 1 <= p < |ring| && EntriesOf(ring[1..|ring| - 1]) == es
    requires forall i :: 1 <= i < p ==> ring[i].expireTime <= e.expires
    requires p < |ring| - 1 ==> ring[p].expireTime > e.expires
    ensures Added(es, e) == es[..p - 1] + [e] + es[p - 1..]
  {
    var ts := ring[1..|ring| - 1];
    assert forall i :: 0 <= i < |ts| ==> ts[i] == ring[i + 1];
    AddedAt(es, e, p - 1);
  }

  lemma EntriesInserted(before: seq<Timer>, ring: seq<Timer>, p: nat, t: Timer)
    requires 1 <= p < |before| && ring == before[..p] + [t] + before[p..]
    ensures var es := EntriesOf(before[1..|before| - 1]);
      EntriesOf(ring[1..|ring| - 1]) == es[..p - 1] + [Entry(t.id, t.expireTime)] + es[p - 1..]
  {
    var ts := before[1..|before| - 1];
    assert ring[1..|ring| - 1] == ts[..p - 1] + [t] + ts[p - 1..];
    EntriesInsert(ts, p - 1, t);
  }

  lemma MovedToTail(before: seq<Timer>, ring: seq<Timer>, p: nat)
    requires 0 < p < |before| - 1 == |ring| - 1 && ring[0] == before[0]
    requires var rest := before[..p] + before[p + 1..];
      ring == rest[..|rest| - 1] + [before[p]] + rest[|rest| - 1..] || (ring == before && p == |before| - 2)
    ensures ring[1..|ring| - 1] == before[1..|before| - 1][..p - 1] + before[1..|before| - 1][p..] + [before[p]]
  {
  }

  lemma EntriesMoved(es: seq<Entry<nat>>, ts: seq<Timer>, k: nat, ts': seq<Timer>)
    requires k < |ts| == |es| && ts' == ts[..k] + ts[k + 1..] + [ts[k]]
    requires forall i :: 0 <= i < |ts| && i != k ==> es[i] == Entry(ts[i].id, ts[i].expireTime)
    ensures EntriesOf(ts') == MoveToTail(es, k, Entry(ts[k].id, ts[k].expireTime))
  {
    var r := MoveToTail(es, k, Entry(ts[k].id, ts[k].expireTime));
    forall i | 0 <= i < |es| ensures EntriesOf(ts')[i] == r[i] {
      assert ts'[i] == if i < k then ts[i] else if i < |es| - 1 then ts[i + 1] else ts[k];
    }
  }

  lemma EntriesDrop(ts: seq<Timer>, k: nat)
    requires k <= |ts|
    ensures EntriesOf(ts[k..]) == EntriesOf(ts)[k..]
  {
  }

  class SortTimerList {
    const head: Timer
    var size: nat
    /** The nodes in the order they are linked, the head at both ends. */
    ghost var ring: seq<Timer>

    ghost predicate Linked() reads this, ring {
      && |ring| >= 2 && ring[0] == head && ring[|ring| - 1] == head
      && (forall i, j :: 0 <= i < j < |ring| - 1 ==> ring[i] != ring[j])
      && (forall i {:trigger ring[i].next} :: 0 <= i < |ring| - 1 ==> ring[i].next == ring[i + 1])
      && (forall i {:trigger ring[i].prev} :: 0 < i < |ring| ==> ring[i].prev == ring[i - 1])
    }

    ghost function Order(): seq<Timer>
      requires |ring| >= 2
      reads this
    {
      ring[1..|ring| - 1]
    }

    ghost predicate Valid() reads this, ring {
      Linked() && size == |ring| - 2
    }

    ghost function Entries(): seq<Entry<nat>>
      requires |ring| >= 2
      reads this, ring
    {
      EntriesOf(Order())
    }

    /** A well-formed ring: the links run both ways, through the head back to it, and `size` counts the other nodes. */
    lemma RingBothWays()
      requires Valid()
      ensures |ring| == size + 2 && ring[0] == ring[|ring| - 1] == head
      ensures forall i {:trigger ring[i].next} :: 0 <= i <= size ==> ring[i].next == ring[i + 1]
      ensures forall i {:trigger ring[i].next} :: 0 <= i <= size ==> ring[i].next != null && ring[i].next.prev == ring[i]
      ensures forall i, j :: 0 <= i < j <= size ==> ring[i] != ring[j]
      ensures |Entries()| == size && forall i :: 0 <= i < size ==> Entries()[i] == Entry(ring[i + 1].id, ring[i + 1].expireTime)
    {
      forall i | 0 <= i <= size ensures ring[i].next == ring[i + 1] && ring[i + 1].prev == ring[i] {}
    }

    constructor ()
      ensures Valid() && fresh(ring) && Entries() == []
    {
      var h := new Timer(0, 0);
      head := h;
      size := 0;
      ring := [h, h];
      new;
      head.prev := head;
      head.next := head;
    }

    // ----- splicing

    method TailInsert(node: Timer)
      requires Linked() && node !in ring
      modifies this`ring, ring, node
      ensures Linked() && ring == old(ring)[..|old(ring)| - 1] + [node] + old(ring)[|old(ring)| - 1..]
      ensures forall t :: t in ring <==> t in old(ring) || t == node
      ensures forall t :: t in old(ring) || t == node ==> t.expireTime == old(t.expireTime)
    {
      ghost var n := |ring|;
      assert ring[n - 1].prev == ring[n - 2];
      head.prev.next := node;
      node.prev := head.prev;
      head.prev := node;
      node.next := head;
      ring := ring[..n - 1] + [node] + ring[n - 1..];
      InsertedMembers(old(ring), n - 1, node);
    }
  
    /** Links `node` in before `position`, the p-th node of the ring. */
    method Insert(position: Timer, node: Timer, ghost p: nat)
      requires Linked() && 0 < p < |ring| - 1 && ring[p] == position && node !in ring
      modifies this`ring, ring, node
      ensures Linked() && ring == old(ring)[..p] + [node] + old(ring)[p..]
      ensures forall t :: t in ring <==> t in old(ring) || t == node
      ensures forall t :: t in old(ring) || t == node ==> t.expireTime == old(t.expireTime)
    {
      assert ring[p].prev == ring[p - 1];
      position.prev.next := node;
      node.prev := position.prev;
      node.next := position;
      position.prev := node;
      ring := ring[..p] + [node] + ring[p..];
      InsertedMembers(old(ring), p, node);
    }

    /** Unlinks the p-th node of the ring; its own links stay as they were. */
    method Remove(node: Timer, ghost p: nat)
      requires Linked() && 0 < p < |ring| - 1 && ring[p] == node
      modifies this`ring, ring
      ensures Linked() && ring == old(ring)[..p] + old(ring)[p + 1..]
      ensures node.next == old(node.next)
      ensures forall t :: t in ring <==> t in old(ring) && t != node
      ensures forall t :: t in old(ring) ==> t.expireTime == old(t.expireTime)
    {
      assert ring[p].next == ring[p + 1] && ring[p].prev == ring[p - 1];
      node.next.prev := node.prev;
      node.prev.next := node.next;
      ring := ring[..p] + ring[p + 1..];
      RemovedMembers(old(ring), p);
    }

    // ----- the operations

    method AddTimer(timer: Timer)
      requires Valid() && timer !in ring
      modifies this, ring, timer
      ensures Valid()
      ensures Entries() == Added(old(Entries()), Entry(timer.id, timer.expireTime))
      ensures timer.expireTime == old(timer.expireTime)
      ensures forall t :: t in ring <==> t in old(ring) || t == timer
    {
      ghost var es := Entries();
      var tmp, p := FindLater(timer.expireTime);
      AddedInRing(ring, es, Entry(timer.id, timer.expireTime), p);
      InsertBefore(tmp, timer, p, es);
      size := size + 1;
    }

    /** The loop of add_timer up to its insertion: the first timer that expires later, or the head. */
    method FindLater(expireTime: int) returns (tmp: Timer, ghost p: nat)
      requires Linked()
      ensures 1 <= p < |ring| && tmp == ring[p] && (tmp == head || tmp.expireTime > expireTime)
      ensures forall i :: 1 <= i < p ==> ring[i].expireTime <= expireTime
      ensures p < |ring| - 1 ==> ring[p].expireTime > expireTime
    {
      assert ring[0].next == ring[1];
      tmp, p := head.next, 1;
      while tmp != head
        invariant 1 <= p < |ring| && tmp == ring[p]
        invariant forall i :: 1 <= i < p ==> ring[i].expireTime <= expireTime
        decreases |ring| - p
      {
        if tmp.expireTime > expireTime { break; }
        assert ring[p].next == ring[p + 1];
        tmp, p := tmp.next, p + 1;
      }
    }

    /** The two insertions of add_timer: before a timer, or at the tail. */
    method InsertBefore(tmp: Timer, timer: Timer, ghost p: nat, ghost es: seq<Entry<nat>>)
      requires Linked() && 1 <= p < |ring| && tmp == ring[p] && timer !in ring && Entries() == es
      modifies this`ring, ring, timer
      ensures Linked() && |ring| == |old(ring)| + 1 && timer.expireTime == old(timer.expireTime)
      ensures Entries() == es[..p - 1] + [Entry(timer.id, timer.expireTime)] + es[p - 1..]
      ensures forall t :: t in ring <==> t in old(ring) || t == timer
    {
      ghost var before := ring;
      if tmp == head {
        TailInsert(timer);
      } else {
        Insert(tmp, timer, p);
      }
      assert EntriesOf(before[1..|before| - 1]) == es;
      EntriesInserted(before, ring, p, timer);
    }

    method ResetTimer(timer: Timer, ghost p: nat)
      requires Valid() && 0 < p < |ring| - 1 && ring[p] == timer
      modifies this`ring, ring
      ensures Valid() && Order() == old(Order())[..p - 1] + old(Order())[p..] + [timer]
      ensures forall t :: t in old(ring) ==> t.expireTime == old(t.expireTime)
      ensures forall t :: t in ring <==> t in old(ring)
    {
      assert ring[|ring| - 1].prev == ring[|ring| - 2];
      if timer == head.prev {
        assert p == |ring| - 2;
        MovedToTail(ring, ring, p);
        return;
      }
      Relink(timer, p);
    }

    /** Takes the timer out and puts it at the tail. */
    method Relink(timer: Timer, ghost p: nat)
      requires Valid() && 0 < p < |ring| - 1 && ring[p] == timer
      modifies this`ring, ring
      ensures Linked() && |ring| == |old(ring)|
      ensures ring[1..|ring| - 1] == old(ring)[1..|old(ring)| - 1][..p - 1] + old(ring)[1..|old(ring)| - 1][p..] + [timer]
      ensures forall t :: t in old(ring) ==> t.expireTime == old(t.expireTime)
      ensures forall t :: t in ring <==> t in old(ring)
    {
      ghost var before := ring;
      Remove(timer, p);
      TailInsert(timer);
      MovedToTail(before, ring, p);
    }

    /** What handle_read does to the connection's timer when data has arrived. */
    method Refresh(timer: Timer, now: int, ghost p: nat)
      requires Valid() && 0 < p < |ring| - 1 && ring[p] == timer && DistinctTimers(Entries())
      modifies this`ring, ring
      ensures Valid() && Entries() == Refreshed(old(Entries()), timer.id, now + IDLE_LIMIT)
      ensures forall t :: t in ring <==> t in old(ring)
    {
      ghost var ts, es := Order(), Entries();
      PositionIs(es, p - 1, timer.id);
      timer.UpdateTimer(TIMEOUT, now);
      ResetTimer(timer, p);
      forall i | 0 <= i < |ts| && i != p - 1 ensures es[i] == Entry(ts[i].id, ts[i].expireTime) {
        assert ts[i] == old(ring)[i + 1];
      }
      EntriesMoved(es, ts, p - 1, Order());
    }

    /** One step of tick: the first timer leaves the list, and its own `next` leads on. */
    method RemoveFirst(tmp: Timer)
      requires Valid() && |ring| > 2 && tmp == ring[1]
      modifies this`ring, this`size, ring
      ensures Valid() && Entries() == old(Entries())[1..] && tmp.next == ring[1]
      ensures forall t :: t in ring ==> t in old(ring)
    {
      ghost var ts := Order();
      Remove(tmp, 1);
      size := size - 1;
      assert Order() == ts[1..];
      EntriesDrop(ts, 1);
      assert EntriesOf(ts) == old(Entries());
    }

    /** Fires and unlinks the expired timers; `fired` names the connections in the order of their callbacks. */
    method Tick(now: int) returns (fired: seq<nat>)
      requires Valid()
      modifies this`ring, this`size, ring
      ensures Valid()
      ensures var n := DueCount(old(Entries()), now);
        && Entries() == old(Entries())[n..]
        && |fired| == n && forall i :: 0 <= i < n ==> fired[i] == old(Entries())[i].timer
    {
      fired := [];
      var tmp := head.next;
      ghost var es := Entries();
      assert ring[0].next == ring[1];
      while head != tmp
        invariant Valid() && AreFired(es, fired, now) && Entries() == es[|fired|..] && tmp == ring[1]
        invariant forall t :: t in ring ==> t in old(ring)
        decreases |ring|
      {
        assert Entries()[0] == es[|fired|] == Entry(tmp.id, tmp.expireTime);
        if now < tmp.expireTime { break; }
        fired := fired + [tmp.id];
        assert forall k :: 0 <= k < |ring| ==> ring[k] in old(ring);
        RemoveFirst(tmp);
        tmp := tmp.next;
      }
      DueCountIs(es, now, |fired|);
    }
  }

  /** The first entries of the list are due, and `fired` names them. */
  ghost predicate AreFired(es: seq<Entry<nat>>, fired: seq<nat>, now: int) {
    && |fired| <= |es|
    && (forall k :: 0 <= k < |fired| ==> fired[k] == es[k].timer && es[k].expires <= now)
  }

  lemma {:induction false} AddedAt(es: seq<Entry<nat>>, e: Entry<nat>, k: nat)
    requires k <= |es| && (k < |es| ==> es[k].expires > e.expires)
    requires forall i :: 0 <= i < k ==> es[i].expires <= e.expires
    ensures Added(es, e) == es[..k] + [e] + es[k..]
  {
    if k > 0 {
      AddedAt(es[1..], e, k - 1);
    }
  }

  lemma {:induction false} DueCountIs(es: seq<Entry<nat>>, now: int, n: nat)
    requires n <= |es| && (n < |es| ==> es[n].expires > now)
    requires forall i :: 0 <= i < n ==> es[i].expires <= now
    ensures DueCount(es, now) == n
  {
    if n > 0 {
      DueCountIs(es[1..], now, n - 1);
    }
  }
}
