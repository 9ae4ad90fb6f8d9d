/**
  Sending responses (utils/http_server.c, utils/tcp_connection.c) with the write switch of the connection's
  channel (utils/channel.c) and its effect on epoll.
*/
module HttpServers {
  import opened Basics
  import opened Buffers
  import opened HttpMessages
  import opened HttpResponses
  import opened Capacities
  import opened Requests
  import opened EventLoops

  /** The channel sits in the slot of its descriptor, and keeps its read bit. */
  ghost predicate Stored(loop: EventLoop, channel: Channel)
    requires loop.channelMap.Valid()
    reads loop, loop.channelMap, loop.channelMap.entries, channel
  {
    && 0 <= channel.self.fd < loop.channelMap.number && loop.channelMap.Contents()[channel.self.fd] == channel
    && Reads(channel.events)
  }

  /** Slots and kernel agree, except that this channel's bits may be newer than its mask. */
  ghost predicate AgreedBut(loop: EventLoop, channel: Channel)
    requires loop.channelMap.Valid()
    reads loop, loop.channelMap, loop.channelMap.entries, loop.channelMap.Contents()
  {
    && loop.epoll.Keys == Slots(loop.channelMap.Contents()).Keys
    && forall fd :: fd in loop.epoll ==>
         var c := loop.channelMap.Contents()[fd];
         c.self.fd == fd && (c == channel || loop.epoll[fd] == Registration(Translated(c.events), c.self))
  }

  /** The loop between two callbacks, with this channel in its place. */
  ghost predicate Settled(loop: EventLoop, channel: Channel)
    reads loop, loop.nodes, loop.channelMap, loop.channelMap.entries, channel
    reads if loop.channelMap.Valid() then loop.channelMap.Contents() else []
  {
    loop.Valid() && !loop.isHandlePending && loop.nodes == [] && Stored(loop, channel) && loop.Agreed()
  }

  /** On an empty queue a request is handled by itself. */
  lemma Alone(o: Outcome, queue: seq<Work>, work: Work)
    requires queue == []
    ensures HandleAll(o, queue + [work]) == Then(o, work)
  {
    assert queue + [work] == [work];
    assert [work][1..] == [];
    assert HandleAll(Then(o, work), []) == Then(o, work);
  }

  /** event_loop_add_channel_event for a new descriptor, called by the owner with nothing else pending. */
  method AddChannelEvent(loop: EventLoop, channel: Channel)
    requires loop.Valid() && !loop.isHandlePending && loop.nodes == [] && loop.Agreed()
    requires channel.self.fd >= 0 && channel.self.fd !in loop.epoll && Reads(channel.events)
    modifies loop, loop.channelMap, loop.channelMap.entries
    ensures Settled(loop, channel)
    ensures loop.channelMap.entries == old(loop.channelMap.entries) || fresh(loop.channelMap.entries)
    ensures loop.epoll == old(loop.epoll)[channel.self.fd := Registration(Translated(channel.events), channel.self)]
    ensures loop.channelMap.Contents() == Place(old(loop.channelMap.Contents()), Add, channel)
  {
    ghost var before, work, contents := loop.TableNow(), WorkOf(Add, channel), loop.channelMap.Contents();
    ghost var fd := channel.self.fd;
    GrownKeeps(before.number, fd);
    Alone(Ok(before), loop.Queue(), work);
    loop.DoChannelEvent(channel, Add, true);
    ghost var padded := Padded(contents, Grown(|contents|, fd));
    SlotsPadded(contents, Grown(|contents|, fd));
    assert fd !in Slots(padded);
    SlotsUpdated(padded, fd, channel);
  }

  /** event_loop_update_channel_event, called by the owner with nothing else pending. */
  method UpdateChannelEvent(loop: EventLoop, channel: Channel)
    requires loop.Valid() && !loop.isHandlePending && loop.nodes == [] && Stored(loop, channel) && AgreedBut(loop, channel)
    modifies loop, loop.channelMap, loop.channelMap.entries
    ensures Settled(loop, channel)
    ensures loop.channelMap.entries == old(loop.channelMap.entries) || fresh(loop.channelMap.entries)
    ensures loop.epoll == old(loop.epoll)[channel.self.fd := Registration(Translated(channel.events), channel.self)]
    ensures loop.channelMap.Contents() == old(loop.channelMap.Contents())
  {
    ghost var before, work := loop.TableNow(), WorkOf(Update, channel);
    ghost var fd := channel.self.fd;
    assert fd in Slots(loop.channelMap.Contents());
    UpdateMaskIsSound(channel.events);
    Alone(Ok(before), loop.Queue(), work);
    loop.DoChannelEvent(channel, Update, true);
  }

  /** channel_write_event_enable: the callback argument must be the event loop for the duration of the call. */
  method WriteEventEnable(loop: EventLoop, channel: Channel)
    requires channel.data == loop
    requires Settled(loop, channel)
    modifies channel`events, loop, loop.channelMap, loop.channelMap.entries
    ensures Settled(loop, channel)
    ensures loop.channelMap.entries == old(loop.channelMap.entries) || fresh(loop.channelMap.entries)
    ensures channel.events == WithWrite(old(channel.events))
    ensures loop.epoll == old(loop.epoll)[channel.self.fd := Registration(Translated(channel.events), channel.self)]
    ensures loop.channelMap.Contents() == old(loop.channelMap.Contents())
  {
    var el := channel.data as EventLoop;
    channel.events := channel.events | EVENT_WRITE;
    WriteBit(old(channel.events));
    UpdateChannelEvent(el, channel);
  }

  method WriteEventDisable(loop: EventLoop, channel: Channel)
    requires channel.data == loop
    requires Settled(loop, channel)
    modifies channel`events, loop, loop.channelMap, loop.channelMap.entries
    ensures Settled(loop, channel)
    ensures loop.channelMap.entries == old(loop.channelMap.entries) || fresh(loop.channelMap.entries)
    ensures channel.events == WithoutWrite(old(channel.events))
    ensures loop.epoll == old(loop.epoll)[channel.self.fd := Registration(Translated(channel.events), channel.self)]
    ensures loop.channelMap.Contents() == old(loop.channelMap.Contents())
  {
    var el := channel.data as EventLoop;
    channel.events := channel.events & !EVENT_WRITE;
    WriteBit(old(channel.events));
    UpdateChannelEvent(el, channel);
  }

  lemma OthersKept(before: map<int, Registration>, fd: int, after: map<int, Registration>)
    requires fd in after && after == before[fd := after[fd]]
    ensures after - {fd} == before - {fd}
  {
  }

  /** What writev or its failure brings: bytes taken, or an error that is neither EAGAIN nor a lost peer. */
  datatype WriteResult = Wrote(n: nat) | Failed

  datatype MappedFile = MappedFile(content: seq<char>, offset: nat)

  /**
    The sending side of a connection: what the socket has taken, the unsent bytes of the buffer, the mapped file with
    its offset, and whether epoll watches for room to write.
  */
  datatype Output = Output(wire: seq<char>, header: seq<char>, file: Option<MappedFile>, watched: bool) {
    ghost predicate WellFormed() { file.Some? ==> file.value.offset <= |file.value.content| }

    ghost function FileLeft(): seq<char>
      requires WellFormed()
    {
      if file.None? then [] else file.value.content[file.value.offset..]
    }

    ghost function Unsent(): seq<char>
      requires WellFormed()
    {
      header + FileLeft()
    }

    /** No stall: while bytes remain, room to write is watched for. */
    ghost predicate Awake() { WellFormed() && (Unsent() != [] ==> watched) }

    /** No idle polling and no file kept either, once the bytes are gone. */
    ghost predicate Steady() { Awake() && (Unsent() == [] ==> !watched && file == None) }
  }

  /** `n` bytes went out, in order, header first; nothing else changed but what completion frees. */
  ghost predicate Sends(o: Output, n: nat, o': Output)
    requires o.WellFormed()
  {
    && o'.Steady() && n <= |o.Unsent()|
    && o'.wire == o.wire + o.Unsent()[..n] && o'.Unsent() == o.Unsent()[n..]
    && |o'.header| == (if n < |o.header| then |o.header| - n else 0)
    && (o'.Unsent() != [] ==> o'.file.None? == o.file.None?)
    && (o'.Unsent() != [] && o.file.Some? ==> o'.file.value.content == o.file.value.content)
  }

  /** Past `n` bytes, before the question whether anything is left. */
  ghost function Advanced(o: Output, n: nat): Output
    requires o.WellFormed() && n <= |o.Unsent()|
  {
    var past := if n < |o.header| then n else |o.header|;
    o.(wire := o.wire + o.Unsent()[..n], header := o.header[past..],
       file := if o.file.None? then None else Some(o.file.value.(offset := o.file.value.offset + (n - past))))
  }

  ghost function Finished(o: Output): Output
    requires o.WellFormed()
  {
    if o.Unsent() == [] then o.(file := None, watched := false) else o
  }

  /** Moving two cursors by the split of `n` moves through the concatenation by `n`. */
  lemma AdvancedThenFinished(o: Output, n: nat)
    requires o.Awake() && n <= |o.Unsent()|
    ensures Advanced(o, n).WellFormed() && Sends(o, n, Finished(Advanced(o, n)))
  {
    var o' := Advanced(o, n);
    if n < |o.header| {
      assert o.Unsent()[n..] == o.header[n..] + o.FileLeft();
    } else if o.file.Some? {
      assert o.Unsent()[n..] == o.FileLeft()[n - |o.header|..];
    }
    assert o'.Unsent() == o.Unsent()[n..];
  }

  ghost function Joined(o: Output, head: seq<char>, body: Option<MappedFile>): Output {
    o.(header := o.header + head, file := body, watched := true)
  }

  /** A response, of `head` and perhaps a body, was put behind the unsent bytes; no file was among them. */
  ghost predicate Responds(o: Output, head: seq<char>, body: Option<MappedFile>, o': Output) {
    && o.file == None && o'.Steady() && o'.wire == o.wire && o'.header == o.header + head
    && o'.file == body && (body.Some? ==> body.value.offset == 0)
  }

  lemma Joining(o: Output, head: seq<char>, body: Option<MappedFile>, o': Output)
    requires o.Awake() && o.file == None && head != [] && (body.Some? ==> body.value.offset == 0)
    requires o' == Joined(o, head, body)
    ensures Responds(o, head, body, o')
  {
  }

  lemma UnsentJoined(o: Output, head: seq<char>, body: Option<MappedFile>, content: seq<char>)
    requires o.WellFormed() && o.file == None && (body.Some? ==> body.value.offset == 0)
    requires content == if body.Some? then body.value.content else []
    ensures Joined(o, head, body).WellFormed() && Joined(o, head, body).Unsent() == o.Unsent() + head + content
  {
    assert Joined(o, head, body).FileLeft() == content;
  }

  class TcpConnection {
    const eventLoop: EventLoop
    const channel: Channel
    const outputBuffer: Buffer
    const response: HttpResponse
    ghost var wire: seq<char>

    /** A new connection, registered for reading; `id` tells its channel from others for the same descriptor. */
    constructor (id: nat, fd: int, loop: EventLoop)
      requires loop.Valid() && !loop.isHandlePending && loop.nodes == [] && loop.Agreed() && fd >= 0 && fd !in loop.epoll
      modifies loop, loop.channelMap, loop.channelMap.entries
      ensures Valid() && eventLoop == loop && channel.self == Chan(id, fd)
      ensures Out() == Output([], [], None, false)
      ensures loop.channelMap.Contents() == Place(old(loop.channelMap.Contents()), Add, channel)
    {
      eventLoop := loop;
      channel := new Channel(id, fd, EVENT_READ, null);
      outputBuffer := new Buffer();
      response := new HttpResponse();
      wire := [];
      new;
      channel.data := this;
      AddChannelEvent(loop, channel);
    }

    /** The buffer's file fields describe a file, or are all zero. */
    ghost predicate FileFieldsValid()
      reads this, outputBuffer
    {
      var b := outputBuffer;
      if b.fileBase == null then b.fileOffset == b.fileSize == 0
      else b.fileOffset <= b.fileSize <= b.fileBase.Length && b.fileBase != b.data
    }

    ghost predicate ResponseValid()
      reads this, outputBuffer, response
    {
      var body := response.body;
      response.Valid() && (body != null ==> body != outputBuffer.data && response.fileSize <= body.Length)
    }

    /** The body of the response, as a file not yet begun. */
    ghost function Body(): Option<MappedFile>
      requires ResponseValid()
      reads this, outputBuffer, response, response.body
    {
      if response.body == null then None else Some(MappedFile(response.body[..response.fileSize], 0))
    }

    ghost predicate Valid()
      reads this, channel, eventLoop, eventLoop.nodes, eventLoop.channelMap, eventLoop.channelMap.entries
      reads if eventLoop.channelMap.Valid() then eventLoop.channelMap.Contents() else []
      reads outputBuffer, response
    {
      && Settled(eventLoop, channel) && channel.data == this
      && outputBuffer.Valid() && FileFieldsValid()
      && ResponseValid()
    }

    ghost function Watched(): bool
      reads channel, eventLoop
    {
      channel.self.fd in eventLoop.epoll && eventLoop.epoll[channel.self.fd].mask & EPOLLOUT != 0
    }

    ghost function Out(): Output
      requires outputBuffer.Valid() && FileFieldsValid()
      reads this, channel, eventLoop, outputBuffer, outputBuffer.data, outputBuffer.fileBase
    {
      var b := outputBuffer;
      var file := if b.fileBase == null then None else Some(MappedFile(b.fileBase[..b.fileSize], b.fileOffset));
      Output(wire, b.Readable(), file, Watched())
    }

    /** What `Out` stands for, on the fields: the unread bytes of the buffer, then those of the file; EPOLLOUT in the mask. */
    lemma OutOnFields()
      requires outputBuffer.Valid() && FileFieldsValid()
      ensures Out().wire == wire && Out().header == outputBuffer.data[outputBuffer.readIndex..outputBuffer.writeIndex]
      ensures Out().Unsent() == outputBuffer.data[outputBuffer.readIndex..outputBuffer.writeIndex]
        + if outputBuffer.fileBase == null then [] else outputBuffer.fileBase[outputBuffer.fileOffset..outputBuffer.fileSize]
      ensures Out().watched <==>
        channel.self.fd in eventLoop.epoll && eventLoop.epoll[channel.self.fd].mask & 0x004 != 0
    {
      var b := outputBuffer;
      if b.fileBase != null { assert b.fileBase[..b.fileSize][b.fileOffset..] == b.fileBase[b.fileOffset..b.fileSize]; }
    }

    /** The masks follow the event bits. */
    lemma WatchedIsWrites()
      requires Settled(eventLoop, channel)
      ensures Watched() <==> Writes(channel.events)
    {
      assert channel.self.fd in Slots(eventLoop.channelMap.Contents());
      WriteBit(channel.events);
    }

    method EnableWrites()
      requires Settled(eventLoop, channel) && channel.data == this
      modifies channel, eventLoop, eventLoop.channelMap, eventLoop.channelMap.entries
      ensures eventLoop.channelMap.entries == old(eventLoop.channelMap.entries) || fresh(eventLoop.channelMap.entries)
      ensures Settled(eventLoop, channel) && channel.data == this && Watched()
      ensures eventLoop.epoll - {channel.self.fd} == old(eventLoop.epoll) - {channel.self.fd}
      ensures eventLoop.channelMap.Contents() == old(eventLoop.channelMap.Contents())
    {
      channel.data := eventLoop;
      WriteEventEnable(eventLoop, channel);
      ghost var epoll := eventLoop.epoll;
      channel.data := this;
      OthersKept(old(eventLoop.epoll), channel.self.fd, epoll);
      WatchedIsWrites();
    }

    method DisableWrites()
      requires Settled(eventLoop, channel) && channel.data == this
      modifies channel, eventLoop, eventLoop.channelMap, eventLoop.channelMap.entries
      ensures eventLoop.channelMap.entries == old(eventLoop.channelMap.entries) || fresh(eventLoop.channelMap.entries)
      ensures Settled(eventLoop, channel) && channel.data == this && !Watched()
      ensures eventLoop.epoll - {channel.self.fd} == old(eventLoop.epoll) - {channel.self.fd}
      ensures eventLoop.channelMap.Contents() == old(eventLoop.channelMap.Contents())
    {
      channel.data := eventLoop;
      WriteEventDisable(eventLoop, channel);
      ghost var epoll := eventLoop.epoll;
      channel.data := this;
      OthersKept(old(eventLoop.epoll), channel.self.fd, epoll);
      WatchedIsWrites();
    }

    /** tcp_connection_open_write_channel */
    method OpenWriteChannel()
      requires Settled(eventLoop, channel) && channel.data == this && outputBuffer.Valid() && FileFieldsValid()
      modifies channel, eventLoop, eventLoop.channelMap, eventLoop.channelMap.entries
      ensures Settled(eventLoop, channel) && channel.data == this && outputBuffer.Valid() && FileFieldsValid()
      ensures Out() == old(Out()).(watched := old(Out()).watched || outputBuffer.Readable() != [])
      ensures eventLoop.epoll - {channel.self.fd} == old(eventLoop.epoll) - {channel.self.fd}
      ensures eventLoop.channelMap.Contents() == old(eventLoop.channelMap.Contents())
    {
      WatchedIsWrites();
      if channel.events & EVENT_WRITE == 0 && outputBuffer.ReadableSize() > 0 {
        EnableWrites();
      }
    }

    /** Encodes the response, and attaches its body. */
    method PutResponse(ghost text: string)
      requires outputBuffer.Valid() && FileFieldsValid() && ResponseValid() && outputBuffer.fileBase == null
      requires text == Format(ResponseMessage(response))
      modifies outputBuffer, outputBuffer.data, response`body
      ensures outputBuffer.Valid() && FileFieldsValid() && ResponseValid() && response.body == null
      ensures text != [] && Out() == old(Out()).(header := old(Out()).header + text, file := old(Body()))
      ensures old(response.body) != null ==>
        outputBuffer.fileBase == old(response.body) && outputBuffer.fileSize == old(response.fileSize) && outputBuffer.fileOffset == 0
      ensures old(response.body) == null ==> outputBuffer.fileBase == null
    {
      HttpEncodeResponse(outputBuffer, response, text);
      if response.body != null {
        outputBuffer.fileBase := response.body;
        outputBuffer.fileSize := response.fileSize;
        response.body := null;
      }
    }

    method SendResponse(ghost text: string)
      requires Valid() && outputBuffer.fileBase == null && text == Format(ResponseMessage(response))
      modifies channel, eventLoop, eventLoop.channelMap, eventLoop.channelMap.entries
      modifies outputBuffer, outputBuffer.data, response`body
      ensures Valid() && response.body == null && text != [] && Out() == Joined(old(Out()), text, old(Body()))
      ensures old(response.body) != null ==>
        outputBuffer.fileBase == old(response.body) && outputBuffer.fileSize == old(response.fileSize) && outputBuffer.fileOffset == 0
      ensures old(response.body) == null ==> outputBuffer.fileBase == null
      ensures eventLoop.epoll - {channel.self.fd} == old(eventLoop.epoll) - {channel.self.fd}
      ensures eventLoop.channelMap.Contents() == old(eventLoop.channelMap.Contents())
    {
      PutResponse(text);
      OpenWriteChannel();
    }

    /**
      The output part of http_onMessage, once the request callback has filled the response: encode, attach the body,
      and watch for room to write.
    */
    method OnMessage(ghost text: string)
      requires Valid() && Out().Awake() && outputBuffer.fileBase == null && text == Format(ResponseMessage(response))
      modifies channel, eventLoop, eventLoop.channelMap, eventLoop.channelMap.entries
      modifies outputBuffer, outputBuffer.data, response`body
      ensures Valid() && response.body == null
      ensures text != [] && Out() == Joined(old(Out()), text, old(Body()))
      ensures Responds(old(Out()), text, old(Body()), Out())
      ensures old(response.body) != null ==>
        outputBuffer.fileBase == old(response.body) && outputBuffer.fileSize == old(response.fileSize) && outputBuffer.fileOffset == 0
      ensures old(response.body) == null ==> outputBuffer.fileBase == null
      ensures Out().Unsent() == old(Out().Unsent()) + text
        + (if old(response.body) == null then [] else old(response.body[..response.fileSize]))
      ensures eventLoop.epoll - {channel.self.fd} == old(eventLoop.epoll) - {channel.self.fd}
      ensures eventLoop.channelMap.Contents() == old(eventLoop.channelMap.Contents())
    {
      ghost var out, body := Out(), Body();
      ghost var content := if response.body == null then [] else response.body[..response.fileSize];
      BodyOnFields(body, content);
      SendResponse(text);
      Joining(out, text, body, Out());
      UnsentJoined(out, text, body, content);
    }

    lemma BodyOnFields(body: Option<MappedFile>, content: seq<char>)
      requires ResponseValid() && body == Body()
      requires content == if response.body == null then [] else response.body[..response.fileSize]
      ensures (if body.Some? then body.value.content else []) == content && (body.Some? ==> body.value.offset == 0)
    {
    }

    /** Moves the indices past `n` bytes: the header first, then the file. */
    method MovePast(n: nat)
      requires outputBuffer.Valid() && FileFieldsValid() && n <= outputBuffer.ReadableSize() + outputBuffer.FileSendableSize()
      modifies outputBuffer`readIndex, outputBuffer`fileOffset
      ensures outputBuffer.Valid() && FileFieldsValid()
      ensures var past := if n < old(outputBuffer.ReadableSize()) then n else old(outputBuffer.ReadableSize());
        && outputBuffer.Readable() == old(outputBuffer.Readable())[past..]
        && outputBuffer.fileOffset == old(outputBuffer.fileOffset) + (n - past)
      ensures var header := old(outputBuffer.ReadableSize()); var past := if n < header then n else header;
        outputBuffer.readIndex == old(outputBuffer.readIndex) + past
    {
      ghost var header := outputBuffer.Readable();
      var readable := outputBuffer.ReadableSize();
      if n >= readable {
        outputBuffer.readIndex := outputBuffer.readIndex + readable;
        outputBuffer.fileOffset := outputBuffer.fileOffset + (n - readable);
      } else {
        outputBuffer.readIndex := outputBuffer.readIndex + n;
        assert outputBuffer.Readable() == header[n..];
      }
    }

    /** writev of the unsent header and file bytes, of which it takes `n`. */
    method Advance(n: nat, ghost out: Output)
      requires Valid() && Out() == out && n <= |out.Unsent()|
      modifies this`wire, outputBuffer`readIndex, outputBuffer`fileOffset
      ensures Valid() && Out() == Advanced(out, n)
      ensures var header := old(outputBuffer.ReadableSize()); var past := if n < header then n else header;
        && outputBuffer.readIndex == old(outputBuffer.readIndex) + past
        && outputBuffer.fileOffset == old(outputBuffer.fileOffset) + (n - past)
    {
      wire := wire + out.Unsent()[..n];
      MovePast(n);
    }

    /** buffer_file_free on the output buffer */
    method FreeFile()
      requires Valid()
      modifies outputBuffer`fileBase, outputBuffer`fileOffset, outputBuffer`fileSize
      ensures Valid() && Out() == old(Out()).(file := None)
      ensures outputBuffer.fileBase == null && outputBuffer.fileSize == outputBuffer.fileOffset == 0
      ensures eventLoop.epoll == old(eventLoop.epoll)
      ensures eventLoop.channelMap.Contents() == old(eventLoop.channelMap.Contents())
    {
      outputBuffer.FileFree();
    }

    /** The end of http_handle_write: when nothing is left, stop watching and free the file. */
    method FinishIfDone(ghost out: Output)
      requires Valid() && Out() == out
      modifies channel, eventLoop, eventLoop.channelMap, eventLoop.channelMap.entries
      modifies outputBuffer`fileBase, outputBuffer`fileOffset, outputBuffer`fileSize
      ensures Valid() && Out() == Finished(out)
      ensures eventLoop.epoll - {channel.self.fd} == old(eventLoop.epoll) - {channel.self.fd}
      ensures eventLoop.channelMap.Contents() == old(eventLoop.channelMap.Contents())
      ensures var done := old(outputBuffer.ReadableSize() == 0 && outputBuffer.FileSendableSize() == 0);
        && (done ==> outputBuffer.fileBase == null && outputBuffer.fileSize == outputBuffer.fileOffset == 0)
        && (!done ==> unchanged(outputBuffer`fileBase, outputBuffer`fileSize, outputBuffer`fileOffset))
    {
      if outputBuffer.ReadableSize() == 0 && outputBuffer.FileSendableSize() == 0 {
        Finish(out);
      }
    }

    method Finish(ghost out: Output)
      requires Valid() && Out() == out
      modifies channel, eventLoop, eventLoop.channelMap, eventLoop.channelMap.entries
      modifies outputBuffer`fileBase, outputBuffer`fileOffset, outputBuffer`fileSize
      ensures Valid() && Out() == out.(file := None, watched := false)
      ensures eventLoop.epoll - {channel.self.fd} == old(eventLoop.epoll) - {channel.self.fd}
      ensures eventLoop.channelMap.Contents() == old(eventLoop.channelMap.Contents())
      ensures outputBuffer.fileBase == null && outputBuffer.fileSize == outputBuffer.fileOffset == 0
    {
      DisableWrites();
      FreeFile();
    }

    /** What a write of `n` bytes does to the fields: the header's index first, the file's offset for the rest. */
    twostate predicate WroteOnFields(n: nat)
      reads outputBuffer
    {
      var b := outputBuffer;
      var header, left := old(b.writeIndex) - old(b.readIndex), old(b.fileSize) - old(b.fileOffset);
      var past := if n < header then n else header;
      && b.readIndex == old(b.readIndex) + past
      && if n == header + left then b.fileBase == null && b.fileSize == b.fileOffset == 0
         else b.fileBase == old(b.fileBase) && b.fileSize == old(b.fileSize) && b.fileOffset == old(b.fileOffset) + (n - past)
    }

    /** The callback when writev has taken `n` bytes. */
    method SendSome(n: nat, ghost out: Output, ghost advanced: Output)
      requires Valid() && Out() == out && n <= |out.Unsent()| && advanced == Advanced(out, n)
      modifies this`wire, channel, eventLoop, eventLoop.channelMap, eventLoop.channelMap.entries
      modifies outputBuffer`readIndex, outputBuffer`fileBase, outputBuffer`fileOffset, outputBuffer`fileSize
      ensures Valid() && advanced.WellFormed() && Out() == Finished(advanced)
      ensures eventLoop.epoll - {channel.self.fd} == old(eventLoop.epoll) - {channel.self.fd}
      ensures eventLoop.channelMap.Contents() == old(eventLoop.channelMap.Contents())
      ensures WroteOnFields(n)
    {
      Advance(n, out);
      FinishIfDone(advanced);
    }

    /** http_handle_write */
    method HandleWrite(result: WriteResult) returns (ret: int)
      requires Valid() && Out().Awake() && (result.Wrote? ==> result.n <= |Out().Unsent()|)
      modifies this`wire, channel, eventLoop, eventLoop.channelMap, eventLoop.channelMap.entries
      modifies outputBuffer`readIndex, outputBuffer`fileBase, outputBuffer`fileOffset, outputBuffer`fileSize
      ensures Valid()
      ensures result.Wrote? ==> ret == 0 && Out() == Finished(Advanced(old(Out()), result.n))
      ensures result.Wrote? ==> Sends(old(Out()), result.n, Out())
      ensures result.Failed? ==> ret == -1 && Out() == old(Out()).(file := None)
      ensures eventLoop.epoll - {channel.self.fd} == old(eventLoop.epoll) - {channel.self.fd}
      ensures eventLoop.channelMap.Contents() == old(eventLoop.channelMap.Contents())
      ensures result.Wrote? ==> WroteOnFields(result.n)
    {
      ghost var out := Out();
      match result {
        case Wrote(n) =>
          AdvancedThenFinished(out, n);
          SendSome(n, out, Advanced(out, n));
          return 0;
        case Failed =>
          FreeFile();
          return -1;
      }
    }
  }

  /**
    What a callback of one connection promises about the loop is enough for every other channel: it stays in its
    slot, and what epoll watches of it does not change.
  */
  twostate lemma OthersStaySettled(connection: TcpConnection, other: Channel)
    requires old(Settled(connection.eventLoop, other)) && unchanged(other) && other.self.fd != connection.channel.self.fd
    requires Settled(connection.eventLoop, connection.channel)
    requires connection.eventLoop.channelMap.Contents() == old(connection.eventLoop.channelMap.Contents())
    requires var fd := connection.channel.self.fd;
      connection.eventLoop.epoll - {fd} == old(connection.eventLoop.epoll) - {fd}
    ensures Settled(connection.eventLoop, other)
    ensures other.self.fd in connection.eventLoop.epoll
    ensures other.self.fd in old(connection.eventLoop.epoll)
    ensures connection.eventLoop.epoll[other.self.fd] == old(connection.eventLoop.epoll)[other.self.fd]
  {
    var loop := connection.eventLoop;
    assert other.self.fd in old(Slots(loop.channelMap.Contents()));
    KeptElsewhere(old(loop.epoll), loop.epoll, connection.channel.self.fd, other.self.fd);
  }

  lemma KeptElsewhere(before: map<int, Registration>, after: map<int, Registration>, fd: int, other: int)
    requires after - {fd} == before - {fd} && other != fd
    ensures (other in after <==> other in before) && (other in after ==> after[other] == before[other])
  {
    assert other in after <==> other in after - {fd};
    assert other in before <==> other in before - {fd};
    if other in after { assert (after - {fd})[other] == (before - {fd})[other]; }
  }

  /** `Sends` leaves no choice: what was sent fixes everything the connection holds afterwards. */
  lemma SendsFixesAll(o: Output, n: nat, a: Output, b: Output)
    requires o.WellFormed() && Sends(o, n, a) && Sends(o, n, b)
    ensures a == b
  {
    var k := |a.header|;
    assert a.header == a.Unsent()[..k] && b.header == b.Unsent()[..k];
    assert a.FileLeft() == a.Unsent()[k..] && b.FileLeft() == b.Unsent()[k..];
  }

  // ----- whole runs: responses one after another, each written in pieces as the socket takes them

  datatype Event = Respond(head: seq<char>, body: Option<MappedFile>) | Write(n: nat)

  ghost predicate Happens(o: Output, e: Event, o': Output) {
    match e
    case Respond(head, body) =>
      o.file == None && head != [] && (body.Some? ==> body.value.offset == 0) && o' == Joined(o, head, body)
    case Write(n) => o.WellFormed() && n <= |o.Unsent()| && o' == Finished(Advanced(o, n))
  }

  ghost predicate OutputRun(os: seq<Output>, es: seq<Event>) {
    && |os| == |es| + 1 && os[0] == Output([], [], None, false)
    && forall i :: 0 <= i < |es| ==> Happens(os[i], es[i], os[i + 1])
  }

  function Produced(es: seq<Event>): seq<char> {
    if es == [] then []
    else Produced(es[..|es| - 1]) + match es[|es| - 1]
      case Respond(head, body) => head + (if body.Some? then body.value.content else [])
      case Write(_) => []
  }

  /**
    However the socket splits the writes, what it took and what is still unsent make up the responses, each header
    followed by its file; and after every callback writes are watched for exactly while bytes remain.
  */
  lemma {:induction false} NothingLostOrRepeated(os: seq<Output>, es: seq<Event>)
    requires OutputRun(os, es)
    ensures os[|es|].Steady() && os[|es|].wire + os[|es|].Unsent() == Produced(es)
    decreases |es|
  {
    if es != [] {
      var k := |es| - 1;
      assert OutputRun(os[..k + 1], es[..k]);
      NothingLostOrRepeated(os[..k + 1], es[..k]);
      assert Happens(os[k], es[k], os[k + 1]);
      HappensConserves(os[k], es[k], os[k + 1], Produced(es[..k]));
    }
  }

  lemma HappensConserves(o: Output, e: Event, o': Output, produced: seq<char>)
    requires o.Steady() && Happens(o, e, o') && o.wire + o.Unsent() == produced
    ensures o'.Steady()
    ensures o'.wire + o'.Unsent() == produced + match e
      case Respond(head, body) => head + (if body.Some? then body.value.content else [])
      case Write(_) => []
  {
    match e {
      case Respond(head, body) =>
        var content := if body.Some? then body.value.content else [];
        Joining(o, head, body, o');
        assert o'.FileLeft() == content && o.Unsent() == o.header;
        Regrouped(o.wire, o.header, head, content);
      case Write(n) =>
        AdvancedThenFinished(o, n);
        Regrouped(o.wire, o.Unsent()[..n], o.Unsent()[n..], []);
        assert o.Unsent() == o.Unsent()[..n] + o.Unsent()[n..];
    }
  }

  lemma Regrouped(a: seq<char>, b: seq<char>, c: seq<char>, d: seq<char>)
    ensures a + (b + c + d) == a + b + (c + d) && a + (b + c) == a + b + c
  {
  }

  /** When everything has been sent, the peer has exactly the responses, and the connection is as new. */
  lemma CompletionDeliversAll(os: seq<Output>, es: seq<Event>)
    requires OutputRun(os, es)
    ensures !os[|es|].watched <==> os[|es|].wire == Produced(es)
    ensures !os[|es|].watched ==> os[|es|] == Output(Produced(es), [], None, false)
  {
    NothingLostOrRepeated(os, es);
    if os[|es|].wire == Produced(es) {
      assert |os[|es|].Unsent()| == 0;
    }
  }

  function Pieces(es: seq<Event>): seq<string> {
    if es == [] then []
    else Pieces(es[..|es| - 1]) + match es[|es| - 1]
      case Respond(head, body) => [head + (if body.Some? then body.value.content else [])]
      case Write(_) => []
  }

  lemma {:induction false} FormatRepliesSnoc(rs: seq<Reply>, r: Reply)
    ensures FormatReplies(rs + [r]) == FormatReplies(rs) + (Format(r.message) + r.body)
  {
    if rs == [] {
      assert rs + [r] == [r];
      assert [r][1..] == [];
      assert FormatReplies([r]) == Format(r.message) + r.body + FormatReplies([]);
    } else {
      assert (rs + [r])[1..] == rs[1..] + [r];
      FormatRepliesSnoc(rs[1..], r);
      Regrouped(Format(rs[0].message) + rs[0].body, FormatReplies(rs[1..]), Format(r.message) + r.body, []);
    }
  }

  /** The responses are the messages and bodies `rs`, in order. */
  ghost predicate Answers(es: seq<Event>, rs: seq<Reply>) {
    |Pieces(es)| == |rs| && forall i :: 0 <= i < |rs| ==> Pieces(es)[i] == Format(rs[i].message) + rs[i].body
  }

  lemma {:induction false} ProducedIsFormatted(es: seq<Event>, rs: seq<Reply>)
    requires Answers(es, rs)
    ensures Produced(es) == FormatReplies(rs)
    decreases |es|
  {
    if es != [] {
      var k := |es| - 1;
      if es[k].Respond? {
        var n := |rs| - 1;
        AnswersBefore(es, rs);
        ProducedIsFormatted(es[..k], rs[..n]);
        FormatRepliesSnoc(rs[..n], rs[n]);
      } else {
        assert Pieces(es) == Pieces(es[..k]);
        ProducedIsFormatted(es[..k], rs);
      }
    }
  }

  lemma AnswersBefore(es: seq<Event>, rs: seq<Reply>)
    requires es != [] && es[|es| - 1].Respond? && Answers(es, rs)
    ensures var n, last := |rs| - 1, es[|es| - 1];
      && n >= 0 && Answers(es[..|es| - 1], rs[..n]) && rs[..n] + [rs[n]] == rs
      && Format(rs[n].message) + rs[n].body == last.head + (if last.body.Some? then last.body.value.content else [])
  {
    var before, n := Pieces(es[..|es| - 1]), |rs| - 1;
    assert Pieces(es)[..n] == before;
    forall i | 0 <= i < n ensures before[i] == Format(rs[..n][i].message) + rs[..n][i].body {
      assert before[i] == Pieces(es)[i];
    }
  }

  /**
    End to end: once writes are no longer watched, a peer that knows the bodies' sizes and parses what it received
    gets every message and every body back.
  */
  lemma {:induction false} PeerReadsEveryMessage(os: seq<Output>, es: seq<Event>, rs: seq<Reply>)
    requires OutputRun(os, es) && Answers(es, rs) && !os[|es|].watched
    requires forall i :: 0 <= i < |rs| ==> Clean(rs[i].message)
    ensures ParseReplies(os[|es|].wire, Sizes(rs)) == Some((rs, []))
  {
    CompletionDeliversAll(os, es);
    ProducedIsFormatted(es, rs);
    RepliesRoundTrip(rs, []);
    assert FormatReplies(rs) + [] == FormatReplies(rs);
  }
}
