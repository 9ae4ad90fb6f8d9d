/** The growable, compacting byte buffer of a connection (utils/buffer.c). */
module Buffers {
  import opened Basics

  const INIT_BUFFER_SIZE := 65536
  const CRLF := "\r\n"

  /** The bytes of a C string, terminator not included. */
  type CString = s: string | '\0' !in s

  /** strstr on memory `s`: the first place where `pattern` stands before any NUL. */
  function StrStr(s: seq<char>, pattern: string): (r: Option<nat>)
    ensures r.Some? ==> r.value + |pattern| <= |s|
  {
    if |pattern| <= |s| && s[..|pattern|] == pattern then Some(0)
    else if s == [] || s[0] == '\0' then None
    else
      match StrStr(s[1..], pattern)
      case None => None
      case Some(i) => Some(i + 1)
  }

  ghost predicate StandsAt(s: seq<char>, pattern: string, i: int) {
    0 <= i <= |s| - |pattern| && s[i..i + |pattern|] == pattern
  }

  /** The pattern stands in `s` one place further than in the rest of `s`. */
  lemma StandsBehind(s: seq<char>, pattern: string, j: int)
    requires s != [] && j > 0
    ensures StandsAt(s, pattern, j) <==> StandsAt(s[1..], pattern, j - 1)
    ensures j <= |s| ==> ('\0' in s[..j] <==> s[0] == '\0' || '\0' in s[1..][..j - 1])
  {
    if j <= |s| { assert s[..j] == [s[0]] + s[1..][..j - 1]; }
    if j <= |s| - |pattern| { assert s[j..j + |pattern|] == s[1..][j - 1..j - 1 + |pattern|]; }
  }

  /** What is found is a place where the pattern stands, with no NUL before it. */
  lemma {:induction false} StrStrSound(s: seq<char>, pattern: string)
    requires StrStr(s, pattern).Some?
    ensures var i := StrStr(s, pattern).value; StandsAt(s, pattern, i) && '\0' !in s[..i]
  {
    if !(|pattern| <= |s| && s[..|pattern|] == pattern) {
      StrStrSound(s[1..], pattern);
      StandsBehind(s, pattern, StrStr(s, pattern).value);
    }
  }

  /** Wherever the pattern stands with no NUL before it, the search finds that place or an earlier one. */
  lemma {:induction false} StrStrIsFirst(s: seq<char>, pattern: string, i: nat)
    requires StandsAt(s, pattern, i) && '\0' !in s[..i]
    ensures StrStr(s, pattern).Some? && StrStr(s, pattern).value <= i
  {
    if i > 0 && s[..|pattern|] != pattern {
      StandsBehind(s, pattern, i);
      StrStrIsFirst(s[1..], pattern, i - 1);
    }
  }

  /** What a buffer looks like from outside: its unread bytes and its capacity. */
  datatype Usage = Usage(unread: seq<char>, total: nat)

  class Buffer {
    var data: array<char>
    var readIndex: nat
    var writeIndex: nat
    var totalSize: nat

    // the mapped file that follows the buffered bytes
    var fileBase: array?<char>
    var fileOffset: nat
    var fileSize: nat

    ghost predicate Valid() reads this { readIndex <= writeIndex <= totalSize == data.Length }

    ghost function Readable(): seq<char>
      requires Valid()
      reads this, data
    {
      data[readIndex..writeIndex]
    }

    ghost function Use(): Usage
      requires Valid()
      reads this, data
    {
      Usage(Readable(), totalSize)
    }

    constructor ()
      ensures Valid() && fresh(data) && Use() == Usage([], INIT_BUFFER_SIZE)
      ensures fileBase == null && fileOffset == fileSize == 0
      ensures forall i :: 0 <= i < data.Length ==> data[i] == '\0'
    {
      data := new char[INIT_BUFFER_SIZE](_ => '\0');
      totalSize := INIT_BUFFER_SIZE;
      readIndex, writeIndex := 0, 0;
      fileBase, fileOffset, fileSize := null, 0, 0;
    }

    function WriteableSize(): nat
      requires Valid()
      reads this
    {
      totalSize - writeIndex
    }

    function ReadableSize(): nat
      requires Valid()
      reads this
    {
      writeIndex - readIndex
    }

    function FrontSpareSize(): nat reads this { readIndex }

    /** Moves the unread bytes to the front, or reallocates, when `size` bytes do not fit behind them. */
    method MakeRoom(size: nat)
      requires Valid()
      modifies this`data, this`readIndex, this`writeIndex, this`totalSize, data
      ensures Valid() && (data == old(data) || fresh(data))
      ensures WriteableSize() >= size
      ensures Readable() == old(Readable())
      ensures totalSize == if old(totalSize) < |Readable()| + size then old(totalSize) + size else old(totalSize)
      ensures data[readIndex..writeIndex] == old(data[readIndex..writeIndex])
    {
      if WriteableSize() >= size { return; }
      if FrontSpareSize() + WriteableSize() >= size {
        var readable := ReadableSize();
        for i := 0 to readable
          invariant readIndex == old(readIndex) && writeIndex == old(writeIndex) && data == old(data) && totalSize == old(totalSize)
          invariant forall k :: 0 <= k < i ==> data[k] == old(data[readIndex + k])
          invariant forall k :: i <= k < data.Length ==> data[k] == old(data[k])
        {
          data[i] := data[readIndex + i];
        }
        readIndex := 0;
        writeIndex := readable;
      } else {
        var grown := new char[totalSize + size];
        forall i | 0 <= i < totalSize { grown[i] := data[i]; }
        data := grown;
        totalSize := totalSize + size;
      }
    }

    /** memcpy to data + at. */
    method Memcpy(at: nat, bytes: seq<char>)
      requires Valid() && writeIndex <= at && at + |bytes| <= data.Length
      modifies data
      ensures data[at..at + |bytes|] == bytes && Readable() == old(Readable())
    {
      forall i | 0 <= i < |bytes| { data[at + i] := bytes[i]; }
      forall i | 0 <= i < |bytes| ensures data[at..at + |bytes|][i] == bytes[i] {}
    }

    /** buffer_append; `bytes` is None for a null pointer. */
    method Append(bytes: Option<seq<char>>)
      requires Valid()
      modifies this`data, this`readIndex, this`writeIndex, this`totalSize, data
      ensures Valid() && (data == old(data) || fresh(data))
      ensures bytes.None? ==> Use() == old(Use())
      ensures bytes.Some? ==> Appends(old(Use()), bytes.value, Use())
      ensures data[readIndex..writeIndex] == old(data[readIndex..writeIndex]) + if bytes.Some? then bytes.value else []
    {
      if bytes.Some? {
        MakeRoom(|bytes.value|);
        Put(bytes.value);
      }
    }

    /** Copies the bytes behind the unread ones, where there is room. */
    method Put(bytes: seq<char>)
      requires Valid() && |bytes| <= WriteableSize()
      modifies this`writeIndex, data
      ensures Valid() && data[readIndex..writeIndex] == old(data[readIndex..writeIndex]) + bytes
    {
      Memcpy(writeIndex, bytes);
      writeIndex := writeIndex + |bytes|;
      Joined(readIndex, writeIndex - |bytes|, writeIndex);
    }

    method AppendString(text: Option<CString>)
      requires Valid()
      modifies this`data, this`readIndex, this`writeIndex, this`totalSize, data
      ensures Valid() && (data == old(data) || fresh(data))
      ensures text.None? ==> Use() == old(Use())
      ensures text.Some? ==> Appends(old(Use()), text.value, Use())
      ensures data[readIndex..writeIndex] == old(data[readIndex..writeIndex]) + if text.Some? then text.value else []
    {
      if text.Some? {
        Append(Some(text.value));
      }
    }

    /** What readv does: fill the spare space first, then the side buffer, whose contents it returns. */
    method Readv(bytes: seq<char>) returns (additional: seq<char>)
      requires Valid() && |bytes| <= WriteableSize() + INIT_BUFFER_SIZE
      modifies data
      ensures |additional| == if |bytes| <= WriteableSize() then 0 else |bytes| - WriteableSize()
      ensures data[writeIndex..writeIndex + |bytes| - |additional|] + additional == bytes
      ensures Readable() == old(Readable())
    {
      var direct := if |bytes| <= WriteableSize() then |bytes| else WriteableSize();
      var front := bytes[..direct];
      additional := bytes[direct..];
      Memcpy(writeIndex, front);
      assert bytes == front + additional;
      assert |front| == |bytes| - |additional|;
    }

    /** `received` is what readv delivers; None when it fails. */
    method SocketRead(received: Option<seq<char>>) returns (n: int)
      requires Valid()
      requires received.Some? ==> |received.value| <= WriteableSize() + INIT_BUFFER_SIZE
      modifies this`data, this`readIndex, this`writeIndex, this`totalSize, data
      ensures Valid() && (data == old(data) || fresh(data))
      ensures received.None? ==> n == -1 && Use() == old(Use())
      ensures received.Some? ==> n == |received.value|
      ensures received.Some? ==>
        Receives(old(Use()), received.value, Spilled(|received.value|, old(WriteableSize())), Use())
      ensures data[readIndex..writeIndex] == old(data[readIndex..writeIndex]) + if received.Some? then received.value else []
    {
      if received.None? { return -1; }
      Receive(received.value, WriteableSize());
      return |received.value|;
    }

    /** readv and the branch on how much it delivered. */
    method Receive(bytes: seq<char>, maxWritable: nat)
      requires Valid() && maxWritable == WriteableSize() && |bytes| <= maxWritable + INIT_BUFFER_SIZE
      modifies this`data, this`readIndex, this`writeIndex, this`totalSize, data
      ensures Valid() && (data == old(data) || fresh(data))
      ensures Receives(old(Use()), bytes, Spilled(|bytes|, maxWritable), Use())
    {
      ghost var before := Use();
      var additional := Readv(bytes);
      ghost var direct := data[writeIndex..writeIndex + |bytes| - |additional|];
      if |bytes| <= maxWritable {
        writeIndex := writeIndex + |bytes|;
        Joined(readIndex, old(writeIndex), writeIndex);
        assert direct + additional == direct;
      } else {
        writeIndex := totalSize;
        Joined(readIndex, old(writeIndex), writeIndex);
        ghost var full := Use();
        Append(Some(additional));
        ReceivesInTwo(before, direct, full, additional, Use());
      }
    }

    lemma Joined(a: nat, b: nat, c: nat)
      requires a <= b <= c <= data.Length
      ensures data[a..c] == data[a..b] + data[b..c]
    {
    }

    /** The index of the next CRLF in `data`; the search stops at a NUL, and one of the two must be there. */
    method FindCRLF() returns (at: Option<nat>)
      requires Valid() && (StrStr(data[readIndex..], CRLF).Some? || '\0' in data[readIndex..])
      ensures var r := StrStr(data[readIndex..], CRLF);
        at == match r case None => None case Some(i) => Some(readIndex + i)
    {
      var r := StrStr(data[readIndex..], CRLF);
      at := match r case None => None case Some(i) => Some(readIndex + i);
    }

    function FileSendableSize(): int reads this { fileSize - fileOffset }

    method FileFree()
      modifies this`fileBase, this`fileOffset, this`fileSize
      ensures fileBase == null
      ensures old(fileBase) != null ==> fileOffset == fileSize == 0
      ensures old(fileBase) == null ==> fileOffset == old(fileOffset) && fileSize == old(fileSize)
    {
      if fileBase != null {
        fileBase := null;
        fileSize, fileOffset := 0, 0;
      }
    }
  }

  // ----- the buffer as a byte queue, over whole runs

  /** Appending grows the buffer by the size appended, and only when the unread bytes and the new ones do not fit. */
  ghost predicate Appends(u: Usage, bytes: seq<char>, u': Usage) {
    && u'.unread == u.unread + bytes
    && u'.total == if u.total < |u'.unread| then u.total + |bytes| else u.total
  }

  /** How many of `n` received bytes go to the side buffer. */
  function Spilled(n: nat, room: nat): nat { if n <= room then 0 else n - room }

  /** So does receiving, but only by the `spilled` bytes that went to the side buffer and are appended from there. */
  ghost predicate Receives(u: Usage, bytes: seq<char>, spilled: nat, u': Usage) {
    && spilled <= |bytes| && spilled <= INIT_BUFFER_SIZE && u'.unread == u.unread + bytes
    && u'.total == if u.total < |u'.unread| then u.total + spilled else u.total
  }

  lemma ReceivesInTwo(u: Usage, direct: seq<char>, full: Usage, additional: seq<char>, u': Usage)
    requires full == Usage(u.unread + direct, u.total) && Appends(full, additional, u') && |additional| <= INIT_BUFFER_SIZE
    ensures Receives(u, direct + additional, |additional|, u')
  {
    assert u.unread + direct + additional == u.unread + (direct + additional);
  }

  ghost predicate Consumes(u: Usage, n: nat, u': Usage) {
    n <= |u.unread| && u'.unread == u.unread[n..] && u'.total == u.total
  }

  datatype Op = Append(bytes: seq<char>) | Receive(bytes: seq<char>, spilled: nat) | Consume(n: nat)

  ghost predicate Step(u: Usage, op: Op, u': Usage) {
    match op
    case Append(b) => Appends(u, b, u')
    case Receive(b, spilled) => Receives(u, b, spilled, u')
    case Consume(n) => Consumes(u, n, u')
  }

  ghost predicate BufferRun(us: seq<Usage>, ops: seq<Op>) {
    && |us| == |ops| + 1 && us[0] == Usage([], INIT_BUFFER_SIZE)
    && forall i :: 0 <= i < |ops| ==> Step(us[i], ops[i], us[i + 1])
  }

  /** Everything put in, and everything taken out, in order. */
  function Incoming(ops: seq<Op>): seq<char> {
    if ops == [] then []
    else Incoming(ops[..|ops| - 1]) + match ops[|ops| - 1] case Consume(_) => [] case o => o.bytes
  }

  ghost function Outgoing(us: seq<Usage>, ops: seq<Op>): seq<char>
    requires BufferRun(us, ops)
    decreases |ops|
  {
    if ops == [] then []
    else
      var k := |ops| - 1;
      assert Step(us[k], ops[k], us[k + 1]);
      Outgoing(us[..k + 1], ops[..k]) + match ops[k] case Consume(n) => us[k].unread[..n] case _ => []
  }

  /** No byte is lost, repeated or reordered, whatever the splits and moves. */
  lemma {:induction false} BufferIsAQueue(us: seq<Usage>, ops: seq<Op>)
    requires BufferRun(us, ops)
    ensures Outgoing(us, ops) + us[|ops|].unread == Incoming(ops)
    decreases |ops|
  {
    if ops != [] {
      var k := |ops| - 1;
      assert BufferRun(us[..k + 1], ops[..k]);
      BufferIsAQueue(us[..k + 1], ops[..k]);
      assert Step(us[k], ops[k], us[k + 1]);
      StepKeepsQueue(us[k], ops[k], us[k + 1], Outgoing(us[..k + 1], ops[..k]), Incoming(ops[..k]));
    }
  }

  lemma StepKeepsQueue(u: Usage, op: Op, u': Usage, outgoing: seq<char>, incoming: seq<char>)
    requires Step(u, op, u') && outgoing + u.unread == incoming
    ensures outgoing + (match op case Consume(n) => u.unread[..n] case _ => []) + u'.unread
         == incoming + match op case Consume(_) => [] case o => o.bytes
  {
    if op.Consume? {
      assert u.unread == u.unread[..op.n] + u.unread[op.n..];
    }
  }

  /** The largest (unread bytes after an append) + (that append's size); a receive appends what spilled. */
  ghost function Peak(us: seq<Usage>, ops: seq<Op>): int
    requires |us| == |ops| + 1
  {
    if ops == [] then INIT_BUFFER_SIZE
    else
      var k := |ops| - 1;
      Max(Peak(us[..k + 1], ops[..k]),
          match ops[k]
          case Append(b) => |us[k + 1].unread| + |b|
          case Receive(_, spilled) => |us[k + 1].unread| + spilled
          case Consume(_) => 0)
  }

  /** The capacity never exceeds the peak demand, however long the run. */
  lemma {:induction false} CapacityIsBounded(us: seq<Usage>, ops: seq<Op>)
    requires BufferRun(us, ops)
    ensures us[|ops|].total <= Peak(us, ops)
    decreases |ops|
  {
    if ops != [] {
      var k := |ops| - 1;
      assert BufferRun(us[..k + 1], ops[..k]);
      CapacityIsBounded(us[..k + 1], ops[..k]);
    }
  }

  /** An input buffer, filled only by socket reads, stays within its peak backlog plus one side buffer. */
  lemma {:induction false} InputBufferIsBounded(us: seq<Usage>, ops: seq<Op>, backlog: nat)
    requires BufferRun(us, ops)
    requires forall i :: 0 <= i < |ops| ==> !ops[i].Append?
    requires forall i :: 0 <= i < |us| ==> |us[i].unread| <= backlog
    ensures us[|ops|].total <= backlog + INIT_BUFFER_SIZE
    decreases |ops|
  {
    if ops != [] {
      var k := |ops| - 1;
      assert BufferRun(us[..k + 1], ops[..k]);
      InputBufferIsBounded(us[..k + 1], ops[..k], backlog);
    }
  }
}
