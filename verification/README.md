# A verified model of the epoll reactor and of cpplint's matchers

This project models the parts of the repository whose correctness is hardest to see by reading one function, and
proves what they promise together.

**The reactor** (`ChannelMap.dfy`, `Requests.dfy`, `EventLoop.dfy`, `ReactorProtocol.dfy`, `ReactorTheorems.dfy`).
Any thread may ask an event loop to add, remove or update a channel. The request goes to a list guarded by a mutex; the
owner drains the list at once, any other thread writes one byte to a socket pair to wake the owner. `Requests` says, on
values, what one handled request does to the table of channels and to the kernel's interest set. `EventLoops` has the
objects themselves (the doubling table, the spliced pending list, the draining loop) and proves them against that.
`ReactorProtocol` is the step relation of one owner and arbitrarily many other threads, one shared access a step;
`ReactorTheorems` states what holds in every state of every interleaving.

**A connection's data** (`Buffer.dfy`, `TimerSpec.dfy`, `Timer.dfy`, `HttpMessage.dfy`, `HttpResponse.dfy`,
`HttpRequest.dfy`, `HttpExchange.dfy`, `HttpServer.dfy`). The byte buffer that compacts or grows, the circular list of
idle timers, the response encoder, the request parser, both over one buffer, and the sending of header and file by
gathered writes that may stop anywhere, with the write switch that tells epoll whether there is anything left to send.

**cpplint's matchers** (`PyText.dfy`, `Dyck.dfy`, `Brackets.dfy`, `Expressions.dfy`, `Preprocessor.dfy`,
`Comments.dfy`). `Dyck` defines balanced text independently of cpplint; the scanners, with all their guesses about
`<`, `>` and `;`, are shown to find exactly the partner of a round, square or curly bracket, forwards and backwards.
Two smaller state machines follow: the stack saved at `#if` and restored at `#else` and `#endif`, and the eraser of
comments that span lines.

Code that updates objects or arrays in place is a class or a method here, proved against a function on values; theorems
over whole runs are lemmas about those functions. System calls, clocks and callbacks supplied by the application
are parameters: a read delivers any bytes that fit, a write takes any number of bytes up to what was offered, the clock
is any non-decreasing number, and the rest of `NestingState.Update` is an arbitrary effect on the stack.

## Model

| member | source | states |
|---|---|---|
| Capacities.DoubledIsLeast | utils/channel_map.c:4-24 | started at a capacity that is not too big, the doubling loop ends at the least 32*2^k above the slot |
| Capacities.GrownIsLeast | utils/channel_map.c:4-24 | one growth keeps the table at the least capacity above the largest slot so far, and at least doubles it |
| Capacities.NumberIsLeastCapacity | utils/channel_map.c:4-29 | after any sequence of requests `number` is 0 or the least 32*2^k above the largest slot asked for |
| Capacities.CopyingIsAmortized | utils/channel_map.c:13-21 | the entries copied by all reallocations together are fewer than the final number of slots |
| Capacities.FitsInt | utils/channel_map.c:6-13 | the byte count of the least capacity fits a 32-bit int if and only if the slot is below 2^27 |
| EventLoops.ChannelMap.MakeSpace | utils/channel_map.c:4-24 | afterwards the capacity is the specified one, old entries are unchanged, new ones null |
| Requests.UpdateMaskIsSound | utils/event_dispatcher.c:102-124 | starting the mask from 1 gives the translated event bits if and only if the channel reads |
| Requests.MaskBits | utils/event_dispatcher.c:61-113 | for all event bits, EPOLLIN is set exactly if the channel reads, EPOLLOUT exactly if it writes, and nothing else; an update's mask always has EPOLLIN |
| Requests.WriteBit | utils/channel.c:16-35 | enabling and disabling writes undo each other, never touch the read bit or any other, and decide EPOLLOUT |
| Requests.HandleKeepsConsistent | utils/event_loop.c:90-152 | table and kernel stay consistent; a request kills the process exactly when it removes from an empty slot or updates outside the table, so epoll_ctl itself never fails |
| Requests.HandleAllConcat | utils/event_loop.c:15-29 | handling two lists one after the other is handling their concatenation |
| Requests.SessionsMean | utils/event_loop.c:77-87 | the session rule request by request: adds meet no open channel of their descriptor, updates and removes meet their own |
| Requests.SessionsNeverFault | utils/event_loop.c:90-152 | if each descriptor's requests are one add, updates, at most one remove, over and over, no request faults and the table holds exactly the open channels |
| Requests.TableHasLeastCapacity | utils/event_loop.c:94-99 | after any requests the table is empty if no descriptor was added, and otherwise the least 32*2^k above the largest added one |
| Requests.HandlingKeepsCovered | utils/event_dispatcher.c:102-124 | handling a request with the channel's current bits repairs the stale mask it was queued for |
| Requests.HandlingFreshensBut | utils/event_loop.c:9-37 | after draining, only masks whose update is still outside the queue can be stale |
| Requests.HandlingFreshens | utils/event_loop.c:9-37 | after draining, every mask is the translation of its channel's current bits |
| EventLoops.EventLoop.EpollAdd | utils/event_dispatcher.c:57-76 | registers this descriptor only, with EPOLLIN exactly if the channel reads, EPOLLOUT exactly if it writes, and nothing else |
| EventLoops.EventLoop.EpollDel | utils/event_dispatcher.c:78-100 | removes this descriptor from the interest set and nothing else |
| EventLoops.EventLoop.EpollUpdate | utils/event_dispatcher.c:102-124 | replaces this descriptor's mask and nothing else: EPOLLIN always, EPOLLOUT exactly if the channel writes, nothing more |
| EventLoops.EventLoop.HandlePendingAdd | utils/event_loop.c:90-111 | an empty slot gets the channel and its registration and 1 is returned; a filled one keeps both and 0 is returned; all other slots stay; table and interest set are those of the specified request |
| EventLoops.EventLoop.HandlePendingRemove | utils/event_loop.c:113-136 | empties the slot and removes the stored channel's registration, or changes nothing, with the three return values |
| EventLoops.EventLoop.HandlePendingUpdate | utils/event_loop.c:138-152 | the same for update, with the values it returns early |
| EventLoops.EventLoop.ChannelBufferNoblock | utils/event_loop.c:40-55 | appends one request at the tail of the linked list, whatever it held |
| EventLoops.EventLoop.HandleElements | utils/event_loop.c:13-29 | walking the links handles every queued request, once and in order |
| EventLoops.EventLoop.HandlePendingChannel | utils/event_loop.c:9-37 | the list becomes empty and the table is what handling the whole list in order gives |
| EventLoops.EventLoop.DoChannelEvent | utils/event_loop.c:58-75 | for the owner: everything queued plus this request has been handled; for others: queued at the tail and one wake-up byte more |
| ReactorProtocol.InitialInv | utils/event_loop.c:207-244 | a fresh loop, its wake-up channel registered, meets the invariant |
| ReactorProtocol.StepKeepsInv | utils/event_loop.c:9-75 | every step of every thread keeps the invariant on lock, wake-ups, queue, masks and the wake-up channel |
| ReactorProtocol.RunKeepsInv | utils/event_loop.c:9-75 | so it holds in every state of every interleaving |
| ReactorTheorems.NoLostWakeup | utils/event_loop.c:57-75 | if the owner sleeps while requests are queued, the wake-up event is deliverable now or a thread that appended still has to write its byte |
| ReactorTheorems.AssertionNeverFails | utils/event_loop.c:59-64 | `is_handle_pending == 0` holds wherever it is asserted, and the mutex excludes |
| ReactorTheorems.QueueRefinesImmediate | utils/event_loop.c:9-75 | in every state of every run, handling what is left of the queue gives the table and interest set that handling each request the moment it was appended, in mutex order and with the bits of that moment, would have given; only the mask of a channel whose bits were changed and whose update is not appended yet may differ |
| ReactorTheorems.QueueEqualsImmediate | utils/event_loop.c:9-75 | outside the calls that change event bits the two are equal |
| ReactorTheorems.MasksDecide | utils/event_dispatcher.c:57-124 | handling the same requests with other bits gives the same outcome if and only if the last request that sets each descriptor's mask sets the same one |
| ReactorTheorems.NoDifferenceExactly | utils/event_loop.c:9-75 | exactly when the two are equal: a request faults either way, or for every registered descriptor the last request that sets its mask is handled with bits that give the mask they gave when it was appended |
| ReactorTheorems.DifferenceIsReal | utils/channel.c:20-36 | a run in which they differ: an update is appended with writes enabled, and another thread disables them before it is drained |
| ReactorTheorems.WellBehavedNeverCrash | utils/event_loop.c:113-152 | if each descriptor's requests are one add, updates, at most one remove, over and over, no drained request meets a bad index or an empty slot, in any interleaving |
| ReactorTheorems.TableAndKernelAgree | utils/event_loop.c:90-165 | in every state a slot is filled if and only if its descriptor is in the epoll set, and holds a channel of that descriptor |
| ReactorTheorems.MasksFollowEvents | utils/event_dispatcher.c:57-124 | with well-behaved clients the slots hold exactly the open channels, and each mask translates its channel's current bits unless an update for it is on its way |
| ReactorTheorems.TableIsAsLargeAsNeeded | utils/channel_map.c:4-24 | in every state of every run the table has the least 32*2^k above the largest descriptor whose add was handled |
| ReactorTheorems.ProgressPossible | utils/event_loop.c:255-277 | while requests are queued in a running loop, the owner or a thread in flight can take a step |
| ReactorTheorems.ProgressDecreases | utils/event_loop.c:9-75 | each such step comes closer to an empty queue |
| ReactorTheorems.QueueIsAlwaysDrained | utils/event_loop.c:255-277 | from every reachable state of a running loop, under every schedule of the owner and the threads in flight alone, finitely many steps empty the queue, unless the process dies of a request that breaks the rule of one add, updates, at most one remove |
| Buffers.Buffer.MakeRoom | utils/buffer.c:10-31 | the unread bytes are unchanged (overlapping move included), there is room, and the capacity grows only when unread and new bytes do not fit |
| Buffers.Buffer.Append | utils/buffer.c:69-77 | the unread bytes grow by exactly the appended ones |
| Buffers.Buffer.AppendString | utils/buffer.c:86-92 | the same for a C string, and nothing for a null pointer |
| Buffers.Buffer.SocketRead | utils/buffer.c:94-118 | appends exactly the received bytes, wherever they split between spare space and side buffer, and grows by what spilled only when it does not fit |
| Buffers.Buffer.FileFree | utils/buffer.c:134-139 | the three file fields are zero together, or untouched when there was no file |
| Buffers.StrStrSound | utils/buffer.c:124-127 | what the search finds is the pattern, before any NUL |
| Buffers.StrStrIsFirst | utils/buffer.c:124-127 | wherever the pattern stands before any NUL, the search finds that place or an earlier one |
| Buffers.Buffer.FindCRLF | utils/buffer.c:124-127 | the index of the first line end in the array, or none |
| Buffers.BufferIsAQueue | utils/buffer.c:10-118 | over any run of appends, receives and consumes: bytes out followed by bytes unread are the bytes in |
| Buffers.CapacityIsBounded | utils/buffer.c:15-30 | the capacity never exceeds the peak of unread bytes after an append plus that append's size, where a receive appends only what spilled into the side buffer |
| Buffers.InputBufferIsBounded | utils/buffer.c:94-118 | a buffer filled by socket reads stays within its peak backlog plus 65536 |
| Timers.SortTimerList.RingBothWays | utils/timer.c:31-41 | the list is a ring: every next is undone by prev, the head closes it, no node twice, size counts the rest |
| Timers.SortTimerList.TailInsert | utils/timer.c:110-115 | the ring, in both directions, with the node before the head |
| Timers.SortTimerList.Insert | utils/timer.c:117-122 | the ring, in both directions, with the node before the given one |
| Timers.SortTimerList.Remove | utils/timer.c:124-127 | the ring, in both directions, without the node, whose own links stay |
| Timers.SortTimerList.FindLater | utils/timer.c:46-56 | the search ends at the first timer that expires later, or at the head |
| Timers.SortTimerList.AddTimer | utils/timer.c:45-62 | the timer comes before the first one that expires later; size is the length |
| Timers.SortTimerList.ResetTimer | utils/timer.c:79-89 | the timer moves to the tail, the others keep their order |
| Timers.SortTimerList.Refresh | utils/tcp_connection.c:29-32 | new expiry and move together are the specified refresh, although the list is out of order between them |
| Timers.SortTimerList.Tick | utils/timer.c:91-108 | exactly the expired timers at the front fire, in order, and are unlinked; size follows |
| TimerSpec.AcceptKeepsOrder | utils/timer.c:12-62 | with a clock that does not go back, a new timer belongs at the tail and order is kept |
| TimerSpec.MovedInOrder | utils/timer.c:79-89 | moving a timer with the latest expiry of all to the tail keeps the list ascending |
| TimerSpec.RunKeepsInv | utils/timer.c:12-108 | over any run: ascending, each timer once, no expiry beyond now + 15, and each expiry 15 after the last activity |
| TimerSpec.ListFollowsActivity | utils/timer.c:12-108 | the list holds exactly the connections not yet idle at a tick, each once |
| TimerSpec.TickFiresExactlyTheIdle | utils/timer.c:91-108 | a tick at T fires exactly the timers last active at or before T - 15, once each and in expiry order, and keeps the others in their order |
| HttpMessages.FormatParseRoundTrip | utils/http_request.c:73-159 | parsing a formatted message gives back its three words and all headers in order, and stops at the first character after it |
| HttpMessages.PipelineRoundTrip | utils/http_request.c:141-159 | so does parsing any concatenation of messages, one after the other |
| HttpMessages.RepliesRoundTrip | utils/http_request.c:141-159 | and any concatenation of messages with bodies, for a reader that knows the bodies' sizes |
| HttpMessages.DecimalRoundTrip | utils/http_response.c:61-61 | the decimal digits of a status code denote it |
| HttpMessages.StrStrExtends | utils/http_request.c:115-124 | searching past the unread bytes finds what is in the unread bytes |
| HttpResponses.EncodeHeaders | utils/http_response.c:74-82 | the loop appends one line for each header, in order |
| HttpResponses.HttpEncodeResponse | utils/http_response.c:58-83 | appends one message behind what was unread; whatever follows it, parsing it gives the version token, the decimal status, the status message, the two fixed headers with Connection as chosen by `keep_connected`, and the response's headers in order |
| HttpResponses.HttpResponse.AddHeader | utils/http_response.c:26-31 | one header more at the end |
| HttpResponses.HttpResponse.Reset | utils/http_response.c:33-44 | no headers, no status |
| HttpResponses.WellFormedResponse | utils/http_response.c:58-83 | a response whose fields are free of CR and NUL, and keys of ':', yields a message that can be read back |
| HttpResponses.TextIs | utils/http_response.c:58-83 | the encoded text character by character in front of and behind the caller's header lines |
| HttpResponses.ResponseTells | utils/http_response.c:58-83 | the parts of the message are the fields of the response and the literal texts of the encoder |
| HttpResponses.EncodeParseRoundTrip | utils/http_response.c:58-83 | parsing what the encoder wrote gives back exactly those fields and texts, and stops just behind it |
| HttpRequests.HttpRequest.Search | utils/http_request.c:73-90 | strstr and strchr from the cursor, past the unread bytes if need be, find what is unread |
| HttpRequests.HttpRequest.FindLineEnd | utils/http_request.c:75-80 | the end of the line, counted from the cursor, although the search may run past the unread bytes |
| HttpRequests.HttpRequest.ReadStartLine | utils/http_request.c:73-106 | the three words end up in the request, the length is returned, the cursor stays |
| HttpRequests.HttpRequest.ReadHeaders | utils/http_request.c:110-139 | the loop stores the headers of the text in order and stops at the empty line |
| HttpRequests.HttpRequest.HttpRequestParse | utils/http_request.c:141-159 | method, url, version, header array and cursor are what parsing the unread text as a value gives |
| HttpRequests.HttpRequest.Reset | utils/http_request.c:43-56 | an empty request |
| HttpExchanges.ResponseFits | utils/http_response.c:9-31 | a response's message fits the parser's arrays if and only if its status message is shorter than 128 and, with the two headers the encoder adds, it has at most 128 headers |
| HttpExchanges.EncodeAll | utils/http_response.c:58-83 | encoding responses one behind the other fills the buffer with their formatted messages, in order |
| HttpExchanges.ParseAll | utils/http_request.c:43-159 | parsing that many messages, with a reset after each, recovers them in order and leaves what follows |
| HttpExchanges.EncodeThenParse | utils/http_request.c:141-159 | the round trip on one buffer: every response whose fields are clean and fit comes back with its version, decimal status, status message and every header in its place, and the buffer is used up |
| HttpServers.AddChannelEvent | utils/event_loop.c:77-79 | a new descriptor gets its slot and its mask, slots and kernel agree again, no other descriptor is affected |
| HttpServers.UpdateChannelEvent | utils/event_loop.c:85-87 | the mask follows the changed event bits, slots and kernel agree again |
| HttpServers.WriteEventEnable | utils/channel.c:20-27 | sets the write bit and the mask, through the loop that the callback argument points at |
| HttpServers.WriteEventDisable | utils/channel.c:29-35 | clears both |
| HttpServers.TcpConnection.constructor | utils/tcp_connection.c:85-115 | a new connection is registered for reading, with nothing unsent and writes not watched |
| HttpServers.TcpConnection.OpenWriteChannel | utils/tcp_connection.c:124-134 | writes are watched if they were or if there are unread output bytes; the callback argument is the connection again |
| HttpServers.TcpConnection.OnMessage | utils/http_server.c:54-65 | the file fields are the response's body, its size and offset 0; unsent are the old unsent bytes, the text and the whole file; writes are watched; other descriptors' masks and slots untouched |
| HttpServers.TcpConnection.OutOnFields | utils/http_server.c:94-98 | the unsent bytes are those between the buffer's indices and then those of the file from its offset to its size; watched is EPOLLOUT in the mask |
| HttpServers.TcpConnection.HandleWrite | utils/http_server.c:83-136 | the bytes taken are the first unsent ones, the header's index and the file's offset moved past them; when nothing is left, writes are no longer watched and the file fields are zero; on failure the file is dropped and nothing else changes; other descriptors' masks and slots untouched |
| HttpServers.OthersStaySettled | utils/http_server.c:83-136 | after such a callback every other channel is still in its slot, and what epoll watches of it is unchanged |
| HttpServers.AdvancedThenFinished | utils/http_server.c:100-127 | splitting the count between header and file moves through their concatenation by exactly that count, and leaves writes watched if and only if bytes remain |
| HttpServers.SendsFixesAll | utils/http_server.c:83-136 | the relation that HandleWrite establishes leaves no choice of the resulting state |
| HttpServers.NothingLostOrRepeated | utils/http_server.c:33-136 | over any responses and any split of the writes, each step being what the code computes: bytes sent followed by bytes unsent are all headers and files in order, and after every callback EPOLLOUT is watched if and only if bytes remain |
| HttpServers.CompletionDeliversAll | utils/http_server.c:118-131 | writes are not watched if and only if the peer has all of it, and then the connection is as new |
| HttpServers.PeerReadsEveryMessage | utils/http_server.c:33-136 | a peer that knows the bodies' sizes and parses what it received gets every response and every body back, in order |
| PyText.StripIs | build_support/cpplint.py:1592-1603 | strip leaves s[a..b], with spaces only before and behind, and none at its own ends |
| PyText.EndsInOperatorMeans | build_support/cpplint.py:1770-1770 | the test finds the word operator with only spaces behind it and no word character before it |
| PyText.OperatorEndsPlainly | build_support/cpplint.py:1893-1896 | the character skipped before an operator's angle bracket is no bracket |
| Dyck.PlainFindsMatch | build_support/cpplint.py:1757-1819 | the plain matcher ends just after c if and only if c is the partner of the opener, with balanced text between |
| Dyck.MatchIsShortestBalanced | build_support/cpplint.py:1744-1756 | the partner is the end of the shortest non-empty balanced stretch that starts at the opener |
| Dyck.BackwardFindsMatch | build_support/cpplint.py:1866-1881 | reading backwards from a closer finds its partner |
| Dyck.MatchUnique | build_support/cpplint.py:1822-1978 | a bracket has at most one partner, seen from either side |
| Brackets.PopAngles | build_support/cpplint.py:1781-1782 | drops exactly the angle brackets on top of the stack |
| Brackets.FindEndOfExpressionInLine | build_support/cpplint.py:1744-1819 | started on `(`, `[` or `{`, it does what the plain matcher does on the stack without `<`, end position and stack alike |
| Brackets.GuessForward | build_support/cpplint.py:1762-1775 | whatever is guessed about `<`, `>` or `;`, the brackets on the stack stay as they are |
| Brackets.GuessBackward | build_support/cpplint.py:1888-1910 | the same backwards, and a second character stepped over is no bracket |
| Brackets.SkippedIsPlain | build_support/cpplint.py:1892-1896 | the extra character the backward scan steps over is no bracket |
| Brackets.FindStartOfExpressionInLine | build_support/cpplint.py:1866-1940 | the same backwards, on the mirrored line without `>` |
| Expressions.CloseExpression | build_support/cpplint.py:1822-1863 | from an opener: the place after its partner in the joined lines, and -1 exactly when it has none |
| Expressions.ReverseCloseExpression | build_support/cpplint.py:1943-1978 | from a closer: the place of its partner, and -1 exactly when it has none |
| Expressions.SearchesAreInverse | build_support/cpplint.py:1822-1978 | CloseExpression leads from one place to the other if and only if ReverseCloseExpression leads back |
| Expressions.ForthAndBack | build_support/cpplint.py:1822-1978 | forward and back again ends where it began |
| Expressions.BackAndForth | build_support/cpplint.py:1822-1978 | back and forward again too |
| Expressions.SkipToPartner | build_support/cpplint.py:4905-4919 | the loop over the text is the plain matcher: it ends just after the opener's partner, and gives up exactly when there is none |
| Expressions.GetTextInside | build_support/cpplint.py:4895-4921 | returns the text up to the opener's partner, and nothing exactly when there is no partner |
| Expressions.MatchersAgree | build_support/cpplint.py:1744-1819 | on one line, both matchers succeed on the same openers and the text ends one before the position found |
| Preprocessor.NestingState.UpdatePreprocessor | build_support/cpplint.py:2757-2811 | the branches on if, else and endif with the saved stacks |
| Preprocessor.NestingState.Update | build_support/cpplint.py:2835-2836 | first the directive, then any effect of the line |
| Preprocessor.DirectiveKeepsLiveStack | build_support/cpplint.py:2778-2811 | no directive changes what the live text has built so far |
| Preprocessor.LiveStackIsReference | build_support/cpplint.py:2757-2811 | after every line, that is what the kept lines alone would build |
| Preprocessor.StackIsOfLinesInEffect | build_support/cpplint.py:2757-2811 | after every line, skipped or not, the stack is what the lines in effect make of an empty one: those before each open #if and in its branch being read, closed #ifs reduced to their first branch |
| Preprocessor.SkippedBranchesLeaveNoTrace | build_support/cpplint.py:2767-2773 | where no open #if has seen #else, the stack is the one of skipping from each first #else or #elif to its #endif |
| Preprocessor.BranchesStartAlike | build_support/cpplint.py:2792-2793 | every #else or #elif branch starts on the stack that was there before its #if |
| Comments.IsStartMeans | build_support/cpplint.py:1592-1594 | a line starts a comment exactly if its first characters other than spaces are /* and no */ stands anywhere behind them |
| Comments.IsEndMeans | build_support/cpplint.py:1603-1603 | a line ends a comment exactly if its last characters other than spaces are */ |
| Comments.FindNextMultiLineCommentStart | build_support/cpplint.py:1589-1597 | the first line from here that starts a comment going beyond it, by the characters of the line |
| Comments.FindNextMultiLineCommentEnd | build_support/cpplint.py:1600-1606 | the first line from here that ends a comment, by the characters of the line |
| Comments.RemoveMultiLineCommentsFromRange | build_support/cpplint.py:1609-1614 | blanks the range and nothing else |
| Comments.ErasedMeans | build_support/cpplint.py:1617-1630 | the one-pass reference, said by lines: a line is blanked exactly if it lies between a start and an end with no end in between |
| Comments.RemoveMultiLineComments | build_support/cpplint.py:1617-1630 | exactly the lines from a comment's start to its first end are blanked; an error names the start of the comment without an end, and there is one only then |
| Comments.ErasedComments | build_support/cpplint.py:1617-1630 | in the result only the lines of an unterminated comment belong to a comment |
| Comments.NoStartSurvives | build_support/cpplint.py:1617-1630 | no comment start is left, except inside a comment reported as unterminated |
| Comments.ErasingIsIdempotent | build_support/cpplint.py:1617-1630 | a second pass changes nothing and reports the same |

## Left out

- Allocation failure: `malloc` and `realloc` succeed.
- 32-bit overflow: sizes and indices are unbounded integers; FitsInt says for which slots the table's byte count is safe.
- Characters: C bytes and Python characters are both `char` values; event bits are eight wide, since only the low flag bits are used.
- Signals and alarms: `tick` is called with an arbitrary clock that does not go back.
- `del_timer`: its loop starts at the list head and never runs, so runs in which the peer closes are not among the timer runs.
- Timers with sub-threads: those touch the main loop's list without a lock.
- The EPOLLERR and EPOLLHUP branch, which closes the descriptor without clearing the table, and callbacks that close a connection later in the same batch.
- The EAGAIN branches, `tcp_connection_send_data` and `tcp_connection_send_buffer`: they use the write switch while the callback argument still is the connection.
- EPIPE and ECONNRESET on writing, which end the process.
- `buffer_append_char` and `buffer_read_char`.
- HttpRequests.HttpRequest.HttpRequestParse: for complete messages whose words and header count fit the fixed arrays; on an incomplete one the code computes with null pointers. A message without headers leaves its last CRLF unread, here as in the code.
- HttpServers.TcpConnection.OnMessage: for a connection without a file still to send; a second file would replace the first. It ends before the request and the response are reset, which is `Reset` of either class.
- HttpServers.AddChannelEvent: for the loop's owner with nothing pending and a descriptor that is not registered; the general call, by any thread and with requests pending, is DoChannelEvent and the step relation.
- HttpServers.UpdateChannelEvent: for the owner with nothing pending, as on a single loop between callbacks; otherwise as above.
- HttpServers.WriteEventEnable: for the owner with nothing pending and the callback argument switched to the loop, as every modelled caller does.
- HttpServers.WriteEventDisable: likewise.
- HttpServers.TcpConnection.HandleWrite: without the EAGAIN outcome, which calls the write switch with the wrong callback argument, and without a lost peer, which ends the process.
- HttpResponses.ConnectionHeader: follows the code, which writes `close` exactly when `keep_connected` is set.
- `http_request_key2value`, `http_request_close_connection` and request bodies; how a peer learns the size of a body.
- EventLoops.EventLoop.HandlePendingUpdate: returns None where the code falls off its end without a value.
- Brackets.FindEndOfExpressionInLine: nothing is said about a search started on `<`, which is a guess by design; likewise for `>` backwards.
- PyText.IsSpace: the six ASCII space characters and ASCII word characters; Unicode classes are not modelled.
- Expressions.GetTextInside: the regular-expression search for the start pattern is a parameter, its outcome.
- The rest of `NestingState.Update`, and cpplint's style checks.
- The start handshake of loop threads and the round robin of the thread pool, which would add only easy members.
- Acceptors, UDP, the demo programs and logging.
