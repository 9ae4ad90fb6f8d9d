/**
  The event loop's data and the operations its owner performs under the mutex: the channel table
  (utils/channel_map.c), the pending list and its draining (utils/event_loop.c), and the epoll instance
  (utils/event_dispatcher.c).
*/
module EventLoops {
  import opened Basics
  import opened Capacities
  import opened Requests

  class Channel {
    const self: Chan
    var events: bv8
    var data: object?    // the callback argument; briefly an event loop while the write switch is used

    constructor (id: nat, fd: int, events: bv8, data: object?)
      ensures self == Chan(id, fd) && this.events == events && this.data == data
    {
      self := Chan(id, fd);
      this.events := events;
      this.data := data;
    }
  }

  /** Contents after growing to `number` slots. */
  ghost function Padded(contents: seq<Channel?>, number: nat): seq<Channel?> {
    if number <= |contents| then contents else contents + seq(number - |contents|, _ => null)
  }

  class ChannelMap {
    var entries: array?<Channel?>
    var number: nat

    ghost predicate Valid() reads this {
      if entries == null then number == 0 else entries.Length == number
    }

    ghost function Contents(): seq<Channel?>
      requires Valid()
      reads this, entries
    {
      if entries == null then [] else entries[..]
    }

    constructor ()
      ensures Valid() && Contents() == []
    {
      entries := null;
      number := 0;
    }

    /** Grow until `slot` fits; old entries survive, new ones are null. */
    method MakeSpace(slot: int)
      requires Valid()
      modifies this
      ensures Valid()
      ensures number == Grown(old(number), slot)
      ensures Contents() == Padded(old(Contents()), number)
      ensures forall fd :: 0 <= fd < old(number) ==> Contents()[fd] == old(Contents())[fd]
      ensures forall fd :: old(number) <= fd < number ==> Contents()[fd] == null
      ensures number == old(number) ==> entries == old(entries)
      ensures number != old(number) ==> entries != null && fresh(entries)
    {
      GrownKeeps(number, slot);
      if number <= slot {
        var n: nat := if number != 0 then number else FIRST_CAPACITY;
        while n <= slot
          invariant n > 0 && Doubled(n, slot) == Grown(number, slot)
          decreases slot - n
        {
          n := 2 * n;
        }
        var grown := new Channel?[n];
        if entries != null {
          forall i | 0 <= i < number { grown[i] := entries[i]; }
        }
        forall i | number <= i < n { grown[i] := null; }
        assert grown[..] == Padded(Contents(), n);
        number := n;
        entries := grown;
      }
    }
  }

  /** What handling one request does to the slots, down to the stored objects. */
  ghost function Place(contents: seq<Channel?>, kind: Kind, channel: Channel): seq<Channel?> {
    var fd := channel.self.fd;
    match kind
    case Add =>
      if fd < 0 then contents
      else
        var padded := Padded(contents, Grown(|contents|, fd));
        if fd < |padded| && padded[fd] == null then padded[fd := channel] else padded
    case Remove => if 0 <= fd < |contents| then contents[fd := null] else contents
    case Update => contents
  }

  class ChannelList {
    const kind: Kind
    const channel: Channel
    var next: ChannelList?

    constructor (kind: Kind, channel: Channel)
      ensures this.kind == kind && this.channel == channel && next == null
    {
      this.kind := kind;
      this.channel := channel;
      next := null;
    }
  }

  /** The slots after the first `n` requests of a list. */
  ghost function PlaceAll(contents: seq<Channel?>, nodes: seq<ChannelList>, n: nat): seq<Channel?>
    requires n <= |nodes|
  {
    if n == 0 then contents else Place(PlaceAll(contents, nodes, n - 1), nodes[n - 1].kind, nodes[n - 1].channel)
  }

  ghost function WorkOf(kind: Kind, channel: Channel): Work
    reads channel
  {
    Work(Request(kind, channel.self), channel.events)
  }

  ghost function QueueOf(nodes: seq<ChannelList>): (q: seq<Work>)
    reads set n | n in nodes :: n.channel
    ensures |q| == |nodes|
    ensures forall i {:trigger q[i]} :: 0 <= i < |nodes| ==> q[i] == WorkOf(nodes[i].kind, nodes[i].channel)
  {
    seq(|nodes|, i requires 0 <= i < |nodes| reads if 0 <= i < |nodes| then {nodes[i].channel} else {} => WorkOf(nodes[i].kind, nodes[i].channel))
  }

  ghost predicate Linked(nodes: seq<ChannelList>, head: ChannelList?, tail: ChannelList?)
    reads nodes
  {
    && (forall i, j :: 0 <= i < j < |nodes| ==> nodes[i] != nodes[j])
    && (forall i {:trigger nodes[i].next} :: 0 <= i < |nodes| - 1 ==> nodes[i].next == nodes[i + 1])
    && (if nodes == [] then head == null && tail == null
        else head == nodes[0] && tail == nodes[|nodes| - 1] && nodes[|nodes| - 1].next == null)
  }

  ghost function Slots(contents: seq<Channel?>): map<int, Chan> {
    map fd | 0 <= fd < |contents| && contents[fd] != null :: contents[fd].self
  }

  lemma SlotsPadded(contents: seq<Channel?>, number: nat)
    ensures Slots(Padded(contents, number)) == Slots(contents)
  {
  }

  lemma SlotsUpdated(contents: seq<Channel?>, fd: nat, c: Channel?)
    requires fd < |contents|
    ensures c != null ==> Slots(contents[fd := c]) == Slots(contents)[fd := c.self]
    ensures c == null ==> Slots(contents[fd := c]) == Slots(contents) - {fd}
  {
  }

  class EventLoop {
    const channelMap: ChannelMap
    var epoll: map<int, Registration>
    var isHandlePending: bool
    var pendingHead: ChannelList?
    var pendingTail: ChannelList?
    var wakeBytes: nat
    ghost var nodes: seq<ChannelList>

    ghost predicate Valid()
      reads this, channelMap, nodes
    {
      channelMap.Valid() && Linked(nodes, pendingHead, pendingTail)
    }

    ghost function TableNow(): Table
      requires channelMap.Valid()
      reads this, channelMap, channelMap.entries
    {
      Table(channelMap.number, Slots(channelMap.Contents()), epoll)
    }

    ghost function Queue(): seq<Work>
      reads this, set n | n in nodes :: n.channel
    {
      QueueOf(nodes)
    }

    /** The slots and the kernel agree, down to the bits of the stored channel objects. */
    ghost predicate Agreed()
      requires channelMap.Valid()
      reads this, channelMap, channelMap.entries, channelMap.Contents()
    {
      && epoll.Keys == Slots(channelMap.Contents()).Keys
      && forall fd :: fd in epoll ==>
           var c := channelMap.Contents()[fd];
           c.self.fd == fd && epoll[fd] == Registration(Translated(c.events), c.self)
    }

    constructor ()
      ensures Valid() && fresh(channelMap) && TableNow() == EmptyTable && Queue() == []
      ensures !isHandlePending && wakeBytes == 0
    {
      channelMap := new ChannelMap();
      epoll := map[];
      isHandlePending := false;
      pendingHead, pendingTail := null, null;
      wakeBytes := 0;
      nodes := [];
    }

    // ----- epoll_add, epoll_del, epoll_update: epoll_ctl fails, and the process exits, on a wrong descriptor

    method EpollAdd(channel: Channel)
      requires channel.self.fd !in epoll
      modifies this`epoll
      ensures epoll == old(epoll)[channel.self.fd := Registration(Translated(channel.events), channel.self)]
      ensures epoll[channel.self.fd].mask & EPOLLIN != 0 <==> channel.events & EVENT_READ != 0
      ensures epoll[channel.self.fd].mask & EPOLLOUT != 0 <==> channel.events & EVENT_WRITE != 0
      ensures epoll[channel.self.fd].mask & !(EPOLLIN | EPOLLOUT) == 0
    {
      MaskBits(channel.events);
      var events: bv8 := 0;
      if channel.events & EVENT_READ != 0 { events := events | EPOLLIN; }
      if channel.events & EVENT_WRITE != 0 { events := events | EPOLLOUT; }
      epoll := epoll[channel.self.fd := Registration(events, channel.self)];
    }

    method EpollDel(channel: Channel)
      requires channel.self.fd in epoll
      modifies this`epoll
      ensures epoll == old(epoll) - {channel.self.fd}
    {
      epoll := epoll - {channel.self.fd};
    }

    method EpollUpdate(channel: Channel)
      requires channel.self.fd in epoll
      modifies this`epoll
      ensures epoll == old(epoll)[channel.self.fd := Registration(UpdateMask(channel.events), channel.self)]
      ensures epoll[channel.self.fd].mask & EPOLLIN != 0
      ensures epoll[channel.self.fd].mask & EPOLLOUT != 0 <==> channel.events & EVENT_WRITE != 0
      ensures epoll[channel.self.fd].mask & !(EPOLLIN | EPOLLOUT) == 0
    {
      MaskBits(channel.events);
      var events: bv8 := 1;
      if channel.events & EVENT_READ != 0 { events := events | EPOLLIN; }
      if channel.events & EVENT_WRITE != 0 { events := events | EPOLLOUT; }
      epoll := epoll[channel.self.fd := Registration(events, channel.self)];
    }

    // ----- handling one request

    /** Returns 1 when the channel was registered, 0 when the request was ignored. */
    method HandlePendingAdd(channel: Channel) returns (ret: int)
      requires Valid() && HandleAdd(TableNow(), channel.self, channel.events).Ok?
      modifies channelMap, channelMap.entries, this`epoll
      ensures Valid() && (channelMap.entries == old(channelMap.entries) || fresh(channelMap.entries))
      ensures Ok(TableNow()) == HandleAdd(old(TableNow()), channel.self, channel.events)
      ensures ret == if channel.self.fd >= 0 && channel.self.fd !in old(TableNow()).entries then 1 else 0
      ensures channelMap.Contents() == Place(old(channelMap.Contents()), Add, channel)
      ensures ret == 0 ==> epoll == old(epoll) && forall i :: 0 <= i < old(channelMap.number) ==> channelMap.Contents()[i] == old(channelMap.Contents())[i]
      ensures ret == 1 ==>
        && old(channel.self.fd >= channelMap.number || channelMap.Contents()[channel.self.fd] == null)
        && epoll == old(epoll)[channel.self.fd := Registration(Translated(channel.events), channel.self)]
        && 0 <= channel.self.fd < channelMap.number && channelMap.Contents()[channel.self.fd] == channel
        && forall i :: 0 <= i < old(channelMap.number) && i != channel.self.fd ==> channelMap.Contents()[i] == old(channelMap.Contents())[i]
    {
      var fd := channel.self.fd;
      if fd < 0 { return 0; }
      GrownKeeps(channelMap.number, fd);
      if fd >= channelMap.number {
        channelMap.MakeSpace(fd);
      }
      ghost var padded := channelMap.Contents();
      SlotsPadded(old(channelMap.Contents()), channelMap.number);
      assert channelMap.entries[fd] == padded[fd];
      if channelMap.entries[fd] == null {
        FillSlot(channel, padded);
        return 1;
      }
      return 0;
    }

    /** Stores the channel in its empty slot and registers it. */
    method FillSlot(channel: Channel, ghost before: seq<Channel?>)
      requires Valid() && channelMap.Contents() == before && 0 <= channel.self.fd < |before| && before[channel.self.fd] == null
      requires channel.self.fd !in epoll
      modifies channelMap.entries, this`epoll
      ensures Valid() && channelMap.Contents() == before[channel.self.fd := channel]
      ensures Slots(channelMap.Contents()) == Slots(before)[channel.self.fd := channel.self]
      ensures epoll == old(epoll)[channel.self.fd := Registration(Translated(channel.events), channel.self)]
    {
      channelMap.entries[channel.self.fd] := channel;
      assert channelMap.Contents() == before[channel.self.fd := channel];
      SlotsUpdated(before, channel.self.fd, channel);
      EpollAdd(channel);
    }

    /** Returns 1 when the slot was emptied, 0 for a negative descriptor, -1 outside the table. */
    method HandlePendingRemove(channel: Channel) returns (ret: int)
      requires Valid() && HandleRemove(TableNow(), channel.self).Ok?
      modifies channelMap.entries, this`epoll
      ensures Valid() && Ok(TableNow()) == HandleRemove(old(TableNow()), channel.self)
      ensures ret == if channel.self.fd < 0 then 0 else if channel.self.fd >= channelMap.number then -1 else 1
      ensures channelMap.Contents() ==
        if ret == 1 then old(channelMap.Contents())[channel.self.fd := null] else old(channelMap.Contents())
      ensures ret == 1 ==> epoll == old(epoll) - {old(channelMap.Contents())[channel.self.fd].self.fd}
      ensures ret != 1 ==> epoll == old(epoll)
    {
      var fd := channel.self.fd;
      if fd < 0 { return 0; }
      if fd >= channelMap.number { return -1; }
      assert channelMap.entries[fd] == channelMap.Contents()[fd];
      var chann := channelMap.entries[fd];
      EpollDel(chann);
      channelMap.entries[fd] := null;
      assert channelMap.Contents() == old(channelMap.Contents())[fd := null];
      SlotsUpdated(old(channelMap.Contents()), fd, null);
      return 1;
    }

    /** Returns 0 for a negative descriptor and -1 for an empty slot; on its main path the code returns no value. */
    method HandlePendingUpdate(channel: Channel) returns (ret: Option<int>)
      requires Valid() && HandleUpdate(TableNow(), channel.self, channel.events).Ok?
      modifies this`epoll
      ensures Valid() && Ok(TableNow()) == HandleUpdate(old(TableNow()), channel.self, channel.events)
      ensures ret == if channel.self.fd < 0 then Some(0) else if channel.self.fd !in old(TableNow()).entries then Some(-1) else None
      ensures epoll ==
        if ret == None then old(epoll)[channel.self.fd := Registration(UpdateMask(channel.events), channel.self)] else old(epoll)
    {
      var fd := channel.self.fd;
      assert channelMap.number >= fd;
      if fd < 0 { return Some(0); }
      assert channelMap.entries[fd] == channelMap.Contents()[fd];
      if channelMap.entries[fd] == null { return Some(-1); }
      EpollUpdate(channel);
      return None;
    }

    /** Handles work[i], the request in `element`. */
    method HandleElement(element: ChannelList, ghost work: seq<Work>, ghost i: nat, ghost result: Outcome)
      requires Valid() && i < |work| && work[i] == WorkOf(element.kind, element.channel)
      requires result.Ok? && Leads(TableNow(), work, i, result)
      modifies channelMap, channelMap.entries, this`epoll
      ensures Valid() && (channelMap.entries == old(channelMap.entries) || fresh(channelMap.entries))
      ensures Leads(TableNow(), work, i + 1, result)
      ensures channelMap.Contents() == Place(old(channelMap.Contents()), element.kind, element.channel)
    {
      TakeFirst(TableNow(), work, i, result);
      var channel := element.channel;
      match element.kind {
        case Add => var _ := HandlePendingAdd(channel);
        case Remove => var _ := HandlePendingRemove(channel);
        case Update => var _ := HandlePendingUpdate(channel);
      }
    }

    // ----- the pending list

    method ChannelBufferNoblock(channel: Channel, kind: Kind)
      requires Valid()
      modifies this`pendingHead, this`pendingTail, this`nodes, nodes
      ensures Valid()
      ensures |nodes| == |old(nodes)| + 1 && nodes[..|old(nodes)|] == old(nodes) && fresh(nodes[|old(nodes)|])
      ensures nodes[|old(nodes)|].kind == kind && nodes[|old(nodes)|].channel == channel
      ensures Queue() == old(Queue()) + [WorkOf(kind, channel)]
    {
      var element := new ChannelList(kind, channel);
      if pendingHead == null {
        pendingHead, pendingTail := element, element;
      } else {
        pendingTail.next := element;
        pendingTail := element;
      }
      nodes := nodes + [element];
      assert nodes[..|nodes| - 1] == old(nodes);
    }

    /** The loop of event_loop_handle_pending_channel: walk the list, leaving it in place. */
    method HandleElements(ghost work: seq<Work>, ghost result: Outcome)
      requires Valid() && |work| == |nodes| && result.Ok? && Leads(TableNow(), work, 0, result)
      requires forall i {:trigger work[i]} :: 0 <= i < |nodes| ==> work[i] == WorkOf(nodes[i].kind, nodes[i].channel)
      modifies this`epoll, channelMap, channelMap.entries
      ensures Valid() && Leads(TableNow(), work, |work|, result)
      ensures channelMap.entries == old(channelMap.entries) || fresh(channelMap.entries)
      ensures channelMap.Contents() == PlaceAll(old(channelMap.Contents()), nodes, |nodes|)
    {
      ghost var before := channelMap.Contents();
      var element := pendingHead;
      ghost var i := 0;
      while element != null
        invariant Valid()
        invariant 0 <= i <= |nodes| == |work|
        invariant i < |nodes| ==> element == nodes[i]
        invariant i == |nodes| ==> element == null
        invariant forall j {:trigger work[j]} :: 0 <= j < |nodes| ==> work[j] == WorkOf(nodes[j].kind, nodes[j].channel)
        invariant Leads(TableNow(), work, i, result)
        invariant channelMap.entries == old(channelMap.entries) || fresh(channelMap.entries)
        invariant channelMap.Contents() == PlaceAll(before, nodes, i)
        decreases |nodes| - i
      {
        ghost var next := element.next;
        assert if i + 1 < |nodes| then next == nodes[i + 1] else next == null;
        HandleElement(element, work, i, result);
        element := element.next;
        i := i + 1;
      }
    }

    /** Take the mutex, handle every pending request in order, and empty the list. */
    method HandlePendingChannel()
      requires Valid() && !isHandlePending
      requires HandleAll(Ok(TableNow()), Queue()).Ok?
      modifies this, channelMap, channelMap.entries
      ensures Valid() && !isHandlePending && nodes == [] && Queue() == []
      ensures Ok(TableNow()) == HandleAll(Ok(old(TableNow())), old(Queue()))
      ensures channelMap.entries == old(channelMap.entries) || fresh(channelMap.entries)
      ensures channelMap.Contents() == PlaceAll(old(channelMap.Contents()), old(nodes), |old(nodes)|)
      ensures wakeBytes == old(wakeBytes)
    {
      ghost var work := Queue();
      ghost var result := HandleAll(Ok(TableNow()), work);
      LeadsWhole(TableNow(), work, result);
      isHandlePending := true;
      HandleElements(work, result);
      LeadsWhole(TableNow(), work, result);
      nodes := [];
      pendingHead, pendingTail := null, null;
      isHandlePending := false;
    }

    method Wakeup()
      modifies this`wakeBytes
      ensures wakeBytes == old(wakeBytes) + 1
    {
      wakeBytes := wakeBytes + 1;
    }

    /** Called by the owner, a request takes effect at once; called by another thread, it is queued and signalled. */
    method DoChannelEvent(channel: Channel, kind: Kind, byOwner: bool)
      requires Valid() && !isHandlePending
      requires byOwner ==> HandleAll(Ok(TableNow()), Queue() + [WorkOf(kind, channel)]).Ok?
      modifies this, nodes, channelMap, channelMap.entries
      ensures Valid() && !isHandlePending
      ensures !byOwner ==>
        && Queue() == old(Queue()) + [WorkOf(kind, channel)]
        && TableNow() == old(TableNow()) && wakeBytes == old(wakeBytes) + 1
      ensures byOwner ==>
        && nodes == [] && wakeBytes == old(wakeBytes)
        && Ok(TableNow()) == HandleAll(Ok(old(TableNow())), old(Queue()) + [WorkOf(kind, channel)])
      ensures channelMap.entries == old(channelMap.entries) || fresh(channelMap.entries)
      ensures byOwner && old(nodes) == [] ==> channelMap.Contents() == Place(old(channelMap.Contents()), kind, channel)
    {
      assert !isHandlePending;
      ChannelBufferNoblock(channel, kind);
      if !byOwner {
        Wakeup();
      } else {
        HandlePendingChannel();
      }
    }
  }
}
