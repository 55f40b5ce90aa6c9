# SimpleMQ client stack: model and proofs

This project models the SimpleMQ C client and the code it stands on, in layers over one contract: `se_recv` hands
out the next octets of a stream, nothing on timeout, or an error.

- **SHA-1** (`Octets`, `BlockFold`, `Sha1Padding`, `Sha1Spec`, `Sha1`, `Sha1Known`). `Sha1Spec` is section 6.1.2 of
  FIPS 180-3, and `Sha1Known` fixes it from outside: bits, constants, and the digest of "abc".
  The class `Sha1Ctx` is the streaming code with its block buffer, two-word counter and circular schedule. Any split
  of a message into appends gives the digest of `Sha1Spec`.
- **The protocol client** (`SmqOctets`, `SmqHeader`, `SmqWire`, `SmqFrames`, `PingTimer`, `SmqHistory`, `Fragments`,
  `Transport`, `SmqClient`, `SmqRun`).
  `SmqOctets` is the protocol in plain octets and numbers, to which the rest is tied. `SmqWire` says what a stream of
  octets means to a client with a buffer of a given size; the class `Smq` is the code, in place on its buffer. The code
  reads a header right only if it comes in one piece (`SmqHeader`), so the class keeps the stream as it has seen it
  beside the stream that was sent; all results about runs are about the former, and about the latter when no header was
  read wrong. `SmqFrames` is the broker's side: encoded frames and the deliveries they stand for.
  `Fragments` is the publisher's side: fragments and the broker that joins them, as SMQClient.h documents it.
  `PingTimer` is the keep-alive rule over histories of waits, and `SmqHistory` the history that the calls of a run make.
  `SmqRun` puts them together over whole runs and end to end.
- **The socket ports** (`Chains`, `StopAndWait`, `UipSocket`, `LwipSocket`, `LwipSend`, `NetxSocket`, `Ports`). Each
  port keeps a linked queue and a cursor; each is proved to be one sequence of octets, whatever callbacks come while a
  call waits. What a stack has for a socket is a parameter of each call, so that what a call returns is determined.
  `Ports` shows that the three `se_recv` meet the contract that the client is built on, failures included.
  The ports' `se_send` is stop-and-wait (uIP) or copied and zero-copy (lwIP).
- **The coroutine manager** (`SeCtx`). The class `Context` against a state machine of polls, wake-ups, saves and
  restores, with a timer on a 32-bit clock. Times are true milliseconds; the clock shows them modulo 2^32.
- **The broker's URL** (`Url`). The backward digit scan in `SMQ_init`.
- **The login lockout** (`Lockout`). The session fields of index.lsp, one request at a time.

Code that changes things in place is a class or a method with loops, specified by functions on values. Pointers into a
buffer are indices; memory that C functions move (`memcpy`, `memmove`) is an `array`. U16, U32 and S32 arithmetic is
written out where it can wrap; a `|` of words that share no bit is a sum. The transport under the client is chosen
freely: how many octets come when, and what fails. A call that waits for an event that never comes says so in an
out-parameter instead of returning.

## Where the code differs from what is said about it

Each of these is a lemma or a contract; the code was kept as it is.

- `SMQ_readFrameHeader` stores every piece of a header at the start of the buffer. A header that comes in pieces is read
  wrong, and the client can lose its place in the stream, unless its octets happen to coincide (`SmqHeader.ReadsRight`,
  `SmqHeader.SplitPing`). Each of the ports returns one or two octets when no more have arrived.
- `SMQ_getMessage` returns 0 for a PUBLISH without payload, not only on timeout (`SmqRun.ZeroMeans`).
- A timeout between two slices of an oversized PUBLISH makes the client read payload as a frame header
  (`SmqWire.LostAlignment`, `SmqWire.LostSlices`). With the timeout INFINITE_TMO this never happens: no call of
  `SmqClient.Smq.GetMessage` then ends as `LostSlice`. With any finite timeout, a receive that times out at the start of
  a slice loses the place in the stream, and `SMQE_TIMEOUT` says so (`SmqRun.SliceTimeout`).
- An acknowledgement frame of exactly three octets ends in a timeout error, a disconnect of three octets in a
  disconnect without a reason (`SmqClient.Smq.ReadFrame`): the read loop asks for nothing and gets nothing.
- The keep-alive counter is an S32 to which a U32 is added. The settings with which it always does what it is for are
  those whose least multiple of the timeout from pingTmo on is below 2^31 (`PingTimer.SettingsExact`); otherwise the
  peer can be given up without a PING (`PingTimer.DeadWithoutPing`).
- The length field of a PUBLISH wraps above 65520 octets of payload (`SmqClient.PublishLength`), and a topic that fills
  the buffer exactly is left out of its frame (`SmqClient.Smq.SubOrCreate`).
- Fragments flushed to topic 0 stay in front of the next message (`Fragments.FragmentsJoin`).
- uIP: `se_send` while a queued segment is half read makes the reader get the start of that segment a second time
  (`UipSocket.Socket.Send`, `UipSocket.SendWhileHalfRead`).
- lwIP: the end of the connection does not wake a waiting task, because `se_recCb` looks at a flag that `se_close` has
  cleared; a receive without a timeout then never comes back (`LwipSocket.WakesUp`, `LwipSocket.Socket.Recv`).
- lwIP: a send of more than fits the send buffer cuts all its chunks to the room found at entry. It fails for lack of
  memory when the peer first acknowledges fewer octets than the next chunk has (`LwipSend.ChunksFate`), and never comes
  back when there was no room.
- uIP: the direct copy may have written to the caller's buffer when `se_recv` fails, so a failed call promises nothing
  about the buffer (`Transport.Framed`).
- The timer resumes at once for timeouts of 2^31 ms and more (`SeCtx.NeverEarlyBelowHalf`), and a timeout of 0 never
  ends on the ports that use it (`SeCtx.ZeroWaitsForEver`). A poll at which the clock reads 0 does not start it.
- A callback for an error or the end of a connection that comes when the task has returned trips an assertion in the
  next save (`SeCtx.WakeNeedsContext`).
- Without `http://`, a URL whose authority is nothing but digits makes the scan read in front of the string
  (`Url.Take`, outcome `Underrun`), because its bound test compares the wrong pointer.
- In the last second of a lockout a login is refused without a message, and the minutes printed can be 0 or less when
  the clock moves between two readings (`Lockout.Session.Serve`, `Lockout.PrintedWait`).

## Model

| member | source | states |
|---|---|---|
| Sha1.HashPieces | SimpleMQ/src/selib.c:324-399 | for every list of pieces, constructor, one append per piece and finish give the SHA-1 digest of section 6.1.2 of FIPS 180-3 of their concatenation |
| Sha1.Sha1Ctx.Append | SimpleMQ/src/selib.c:339-372 | keeps: state is the fold of the complete blocks of everything appended, buffer starts with the rest, the two counters hold the length |
| Sha1.Sha1Ctx.Count | SimpleMQ/src/selib.c:346-350 | the two-word counter with its carry counts the octets, and how often it has wrapped |
| Sha1.Sha1Ctx.Finish | SimpleMQ/src/selib.c:375-391 | the two appends of finish leave the state that the padded message folds to |
| Sha1.Sha1Ctx.Output | SimpleMQ/src/selib.c:375-398 | finish writes out the SHA-1 digest of all octets appended |
| Sha1.Sha1Ctx.Process | SimpleMQ/src/selib.c:231-321 | the block function with its 16-word schedule is the compression of section 6.1.2, for every state and block |
| Sha1.Sha1Ctx.Expand | SimpleMQ/src/selib.c:274-278 | overwriting word i modulo 16 keeps the last sixteen words of the 80-word schedule (section 6.1.3 refines 6.1.2) |
| Sha1.CircularIndices | SimpleMQ/src/selib.c:276-276 | the four indices modulo 16 that are read hold schedule words i-16, i-14, i-8 and i-3 |
| Sha1.Ft1IsCh | SimpleMQ/src/selib.c:256-256 | the rewritten selection function equals Ch of section 4.1.1 on every word |
| Sha1.Ft3IsMaj | SimpleMQ/src/selib.c:258-258 | the rewritten majority function equals Maj of section 4.1.1 on every word |
| Sha1Known.DigestOfAbc | SimpleMQ/src/selib.c:324-399 | the digest of abc is the twenty octets of appendix A.1 of FIPS 180-2, through all eighty rounds |
| Sha1Known.HashAbc | SimpleMQ/src/selib.c:324-399 | the code returns these twenty octets, however the three octets of abc are appended |
| Sha1Known.RotateBits | SimpleMQ/src/selib.c:254-254 | the three rotations move bit i of every word to bit i + n modulo 32 |
| Sha1Known.SquareRoots | SimpleMQ/src/selib.c:261-264 | the four constants are the integer parts of 2^30 times the square roots of 2, 3, 5 and 10 |
| Sha1Known.WordIsValue | SimpleMQ/src/selib.c:199-205 | a word of a block is the number that its four octets write |
| Sha1Known.DigestValue | SimpleMQ/src/selib.c:393-397 | the digest is twenty octets that write the five words as one number |
| Sha1Padding.PaddingIsLeast | SimpleMQ/src/selib.c:375-391 | the padding is the shortest that section 5.1.1 of FIPS 180-3 allows, and ends on a block boundary |
| Sha1Padding.PaddingParts | SimpleMQ/src/selib.c:218-224 | whatever the length of the tail, padn octets of the padding array and the length field are the padding of section 5.1.1 |
| Sha1Padding.LengthAgrees | SimpleMQ/src/selib.c:381-385 | the high and low words that finish computes are the low 64 bits of the bit length |
| Sha1Padding.LengthFieldValue | SimpleMQ/src/selib.c:381-385 | the length field is the true bit length if and only if the message is shorter than 2^61 octets |
| BlockFold.FoldAppend | SimpleMQ/src/selib.c:361-366 | whole blocks can be absorbed before what follows them is known |
| Octets.U32RoundTrip | SimpleMQ/src/SMQClient.c:63-80 | four big-endian octets read back as the number written |
| Octets.U16RoundTrip | SimpleMQ/src/SMQClient.c:63-80 | two big-endian octets read back as the number modulo 2^16 |
| Transport.Sock.Recv | SimpleMQ/src/selib.h:196-205 | the contract of se_recv: the next 1..len octets of the stream, nothing on timeout, a negative value on error; unless it fails, the rest of the buffer is unchanged |
| Transport.Sock.Send | SimpleMQ/src/selib.h:191-193 | se_send sends everything or fails |
| Ports.OverUip | SimpleMQ/src/arch/uip/seuip.c:262-285 | se_recv of the uIP port meets that contract, the octets behind those returned and the failures included, whatever segments arrive during or after the call |
| Ports.OverLwip | SimpleMQ/src/arch/lwIP-raw/seLwIP.c:398-446 | se_recv of the lwIP port meets that contract, the octets behind those returned and the failures included, whatever pbufs arrive during or after the call |
| Ports.OverNetx | SimpleMQ/src/arch/NetX/seNetX.c:272-316 | se_recv of the NetX port meets that contract, the octets behind those returned and the failures included, whatever packets arrive during or after the call |
| SmqRun.Receive | SimpleMQ/src/SMQClient.c:512-638 | over any run of SMQ_getMessage, with any slicing of the input and any timeouts between frames, the events reported are the first events of the stream as the client has seen it, which is the stream sent if and only if no header was read wrong, and no header that came in one piece was; the values returned are theirs and those that the octets of each frame ask for, and the stream position is where the next event starts. The history of the run is made of its calls: one timeout of the client for each call without an event, and exactly the headers of the octets taken, in order; the counter, the PONGs and the PINGs are those of this history, and with suitable settings every timeout sends a PING or gives up the peer exactly when the rules say so |
| SmqRun.EventSays | SimpleMQ/src/SMQClient.h:95-128 | each event of a stream returns the value that the octets of its frame ask for: 5 gives -20000, 7 gives -20001, 18 gives -20002, 16 gives -20003, 11 gives -10004, 8 gives the length, the rest errors |
| SmqHistory.MeaningOfRun | SimpleMQ/src/SMQClient.c:532-625 | the history that the calls of a run make has one timeout for each idle call and the headers of the octets taken, in order |
| SmqHistory.HeadersOfTurn | SimpleMQ/src/SMQClient.c:562-625 | the headers of one call are those of the octets it took, whatever comes behind them |
| SmqHistory.RulesOfRun | SimpleMQ/src/SMQClient.c:532-562 | every timeout of a run obeys the rules for PING and for the dead peer when the settings suit the history before it |
| SmqClient.Smq.GetMessage | SimpleMQ/src/SMQClient.c:512-638 | one call reports the next event of the stream as seen, with its fields and the value that the octets of its frame ask for, or has consumed only whole keep-alive frames; PINGs are answered in order, the keep-alive counter moves by one step, an unread slice stays unread, and with an infinite timeout no slice is ever lost |
| SmqClient.Smq.constructor | SimpleMQ/src/SMQClient.c:218-225 | a timeout of 60 s, a PING after 20 minutes, and nothing read or buffered |
| SmqClient.Smq.AfterSays | SimpleMQ/src/SMQClient.h:480-504 | what a call reports for a frame, octet by octet: the value returned, every field, and the text in the buffer |
| SmqWire.KeepAliveOctets | SimpleMQ/src/SMQClient.c:617-625 | the frames skipped are just 0 3 12 and 0 3 13, and the answer to the first is the second |
| SmqClient.Smq.ReadFrameHeader | SimpleMQ/src/SMQClient.c:99-115 | three octets are taken from the stream or, on timeout, none; the header read is what the pieces leave in the buffer, and it is counted as garbled exactly when the pieces do not coincide |
| SmqClient.Smq.ReadHeader | SimpleMQ/src/SMQClient.c:103-108 | every piece of a header is stored at the start of the buffer, over the piece before |
| SmqHeader.ReadsRight | SimpleMQ/src/SMQClient.c:103-108 | for all headers, pieces and old buffers: the header is read right if and only if it came in one piece or its octets coincide in the way spelled out for 1+2, 2+1 and 1+1+1 |
| SmqHeader.InPieces | SimpleMQ/src/SMQClient.c:103-108 | what the buffer holds after each of the four ways in which a header can come |
| SmqHeader.SplitPing | SimpleMQ/src/SMQClient.c:103-111 | a PING that comes as one octet and two, over a buffer left by a PUBLISH, is read as a PUBLISH of 780 octets |
| SmqClient.Smq.ReadFrame | SimpleMQ/src/SMQClient.c:131-141 | with the header read: a control frame is read whole or refused by its length |
| SmqClient.Smq.ReadWholeFrame | SimpleMQ/src/SMQClient.c:126-141 | without it: header and frame as seen, or an error |
| SmqClient.Smq.ReadData | SimpleMQ/src/SMQClient.c:145-157 | a slice is read whole, or nothing of it on timeout |
| SmqClient.Smq.Fill | SimpleMQ/src/SMQClient.c:126-157 | the loop shared by the readers of frames and data: exactly the octets up to the size wanted, in stream order |
| SmqClient.Smq.NextSlice | SimpleMQ/src/SMQClient.c:517-530 | the next slice of an oversized PUBLISH; bytesRead grows by its length, up to frameLen |
| SmqClient.Smq.OnPublish | SimpleMQ/src/SMQClient.c:601-615 | a PUBLISH frame up to the buffer size with its tid, ptid and subtid; the payload is at buf[15..]; in terms of the octets of the frame |
| SmqClient.Smq.OnAck | SimpleMQ/src/SMQClient.c:575-599 | the three acknowledgements: code, status, tid and topic, or the error for a bad length, in terms of the octets of the frame |
| SmqClient.Smq.OnChange | SimpleMQ/src/SMQClient.c:627-633 | subscription changes: topic id and signed count, or the error for a bad length, in terms of the octets of the frame |
| SmqClient.Smq.OnDisconnect | SimpleMQ/src/SMQClient.c:565-573 | a disconnect with its reason, empty when the frame cannot be read, in terms of the octets of the frame |
| SmqClient.Smq.OnKeepAlive | SimpleMQ/src/SMQClient.c:617-625 | a PING is answered with one PONG, a PONG with nothing |
| SmqClient.Smq.OnTimeout | SimpleMQ/src/SMQClient.c:536-558 | one idle timeout: the counter step, the PING frame, or the error for a dead peer |
| SmqWire.SkipKeeps | SimpleMQ/src/SMQClient.c:617-625 | dropping any number of leading keep-alive frames changes no event of the stream |
| SmqWire.LostAlignment | SimpleMQ/src/SMQClient.c:517-530 | after a timeout between two slices the client reports something that was not due if and only if, behind any keep-alive frames, the octets left hold a header and the octets it announces |
| SmqWire.LostSlices | SimpleMQ/src/SMQClient.c:517-530 | any rest of a PUBLISH whose third octet is zero is such a stream: the session ends with a protocol error |
| SmqRun.SliceTimeout | SimpleMQ/src/SMQClient.c:517-530 | in the middle of a PUBLISH the position is still where the message goes on if and only if SMQE_TIMEOUT was not returned |
| SmqFrames.DeliversEverything | SimpleMQ/src/SMQClient.c:562-638 | for every list of well-formed frames and every buffer of 127 octets or more, joining the events of their octets gives each message once, whole and in order, and each notice |
| SmqFrames.JoinSlices | SimpleMQ/src/SMQClient.h:498-504 | the slices of a PUBLISH larger than the buffer join up to the rest of its payload, and the next frame starts after it |
| SmqFrames.ParsePublish | SimpleMQ/src/SMQClient.c:601-615 | an encoded PUBLISH frame is parsed back, whatever follows it |
| SmqFrames.ParseAck | SimpleMQ/src/SMQClient.c:575-599 | an encoded acknowledgement is parsed back, whatever follows it |
| SmqFrames.ParseChange | SimpleMQ/src/SMQClient.c:627-633 | an encoded change notice is parsed back, whatever follows it |
| SmqFrames.ParseDisconnect | SimpleMQ/src/SMQClient.c:565-573 | an encoded disconnect is parsed back, whatever follows it |
| SmqFrames.Layout | SimpleMQ/src/SMQClient.c:575-633 | where each field of an encoded frame is, octet by octet |
| SmqFrames.NoticeCodes | SimpleMQ/src/SMQClient.c:575-599 | the notice for an acknowledgement has the code of its type octet, its topic, and the topic id or a denial |
| SmqRun.RunDelivers | SimpleMQ/src/SMQClient.h:480-504 | any first events of the octets of well-formed frames join up to a prefix of what the broker sent, and all events to all of it |
| SmqRun.ReceiveFrames | SimpleMQ/src/SMQClient.c:512-638 | what an application collects in any run is a prefix of what the broker sent, and all of it once everything was read, if no header was read wrong |
| SmqRun.ZeroMeans | SimpleMQ/src/SMQClient.h:480-497 | zero is returned exactly on an idle timeout or for an empty PUBLISH; the header file names the timeout only |
| SmqRun.EndToEnd | SimpleMQ/src/SMQClient.h:415-460 | from the octets that SMQ_write sends to the events of the octets that a subscriber gets: exactly the messages written in pieces, for any two buffer sizes |
| SmqRun.ReceivePublished | SimpleMQ/src/SMQClient.c:512-638 | the same through the runs of a subscriber, if no header was read wrong |
| Fragments.FragmentsJoin | SimpleMQ/src/SMQClient.c:455-494 | a broker that joins fragments until one has a topic gets back exactly the octets written if and only if the topic is not zero |
| Fragments.MessagesJoin | SimpleMQ/src/SMQClient.h:415-460 | any run of fragmented messages reaches the broker whole and in order |
| Fragments.Grow | SimpleMQ/src/SMQClient.c:455-476 | writing piece by piece cuts the same fragments as writing at once, and every one but the last is full |
| Fragments.NothingLost | SimpleMQ/src/SMQClient.c:455-476 | the full fragments and the remainder are the message |
| SmqRun.WriteMessage | SimpleMQ/src/SMQClient.c:455-494 | what SMQ_write calls and SMQ_pubflush send depends on the joined pieces only |
| SmqClient.Smq.Write | SimpleMQ/src/SMQClient.c:455-476 | sent fragments and buffer hold exactly what was written; bufIx stays 0 or in [15, bufLen); each earlier fragment is bufLen long with topic 0 |
| SmqClient.Smq.PubFlush | SimpleMQ/src/SMQClient.c:479-494 | one fragment with the right length, topic and ids, and the buffer is empty |
| Fragments.FragmentOctets | SimpleMQ/src/SMQClient.c:479-494 | where each field of a fragment is, octet by octet; its type is 19 |
| SmqClient.Smq.Writeb | SimpleMQ/src/SMQClient.c:192-214 | octets sent followed by octets buffered are always everything given, for every buffer size and length |
| SmqClient.Smq.Flush | SimpleMQ/src/SMQClient.c:160-175 | the buffered octets are sent and the buffer is empty |
| SmqClient.Smq.Publish | SimpleMQ/src/SMQClient.c:416-445 | the buffered and the direct path emit the same frame; afterwards the buffer is empty or bufIx as before, so a slice can still be read |
| SmqClient.PublishLength | SimpleMQ/src/SMQClient.c:416-445 | the length field of a published frame is right if and only if the payload has at most 65520 octets |
| SmqClient.Smq.Putb | SimpleMQ/src/SMQClient.c:178-189 | octets that would reach the end of the buffer are dropped |
| SmqClient.Smq.SubOrCreate | SimpleMQ/src/SMQClient.c:363-374 | the frame carries the topic if and only if header and topic are shorter than the buffer; at exactly its length the topic is lost |
| PingTimer.KeepAliveOverRuns | SimpleMQ/src/SMQClient.c:532-562 | PING goes out at the first idle timeout that brings the idle time since the last header to pingTmo, the peer is given up at the first that brings the time since that PING to 10 s, and never without a PING: after any history in range the next timeout obeys this if and only if its own addition stays in range or wraps past pingTmo |
| PingTimer.CounterMeaning | SimpleMQ/src/SMQClient.c:532-562 | as long as no addition has left the range of an S32, the counter is the idle time since the last header, or the time since the unanswered PING less 10 s |
| PingTimer.SettingsExact | SimpleMQ/src/SMQClient.c:532-562 | the timeouts and pingTmo with which every history from the start obeys the rules are exactly those for which the least multiple of the timeout that is not below pingTmo is below 2^31 |
| PingTimer.RunObeys | SimpleMQ/src/SMQClient.c:532-562 | with such settings, or when pingTmo and timeout add up to at most 2^31, every wait behind a history in range obeys the rules up to the one at which the peer is given up |
| PingTimer.CounterBounds | SimpleMQ/src/SMQClient.c:532-558 | in range, the counter is below pingTmo and not below -10000 |
| PingTimer.TickExact | SimpleMQ/src/SMQClient.c:538-549 | with no PING out: one step meets its rule if and only if the 32-bit sum does not turn negative or wraps past it, and exactly when it leaves the counter negative without a PING |
| PingTimer.DeadExact | SimpleMQ/src/SMQClient.c:552-557 | with a PING out: one step meets its rule if and only if the sum stays below 2^31 |
| PingTimer.DeadWithoutPing | SimpleMQ/src/SMQClient.c:538-558 | a run of two timeouts of 2^31 ms that ends without a PING |
| UipSocket.Socket.Recv | SimpleMQ/src/arch/uip/seuip.c:262-285 | octets returned and octets still held are those held before and those that come, in order; the call returns min(len, the first segment), at once when one is queued, and an error exactly when the connection ends; without a timeout it comes back if and only if something comes or the connection ends |
| UipSocket.Socket.GetMsg | SimpleMQ/src/arch/uip/seuip.c:235-258 | octets of the first queued segment; the segment leaves the queue when it is used up |
| UipSocket.Socket.AppCall | SimpleMQ/src/arch/uip/seuip.c:99-155 | a delivered segment comes behind everything held, by the direct path and by the queue; ready is set exactly when the waiting side has something |
| UipSocket.Socket.Send | SimpleMQ/src/arch/uip/seuip.c:214-232 | the call comes back if and only if the connection ends or as many segments are acknowledged as data has, and on success the peer has the whole buffer, every octet once; queued input survives if and only if no queued segment is half read; refused, with nothing changed, while a receiver waits |
| UipSocket.SendWhileHalfRead | SimpleMQ/src/arch/uip/seuip.c:214-232 | a segment of two octets, one read, a send that is polled out and acknowledged: the first octet is held again |
| UipSocket.Socket.SendChunk | SimpleMQ/src/arch/uip/seuip.c:68-95 | each transmission is the segment due, a retransmission the outstanding one again; the sender is released only when everything is acknowledged |
| StopAndWait.AssembledPrefix | SimpleMQ/src/arch/uip/seuip.c:68-95 | after any mix of polls, acknowledgements and retransmissions the peer has exactly the octets up to the end of the last segment |
| LwipSocket.Socket.RecCb | SimpleMQ/src/arch/lwIP-raw/seLwIP.c:99-124 | pbufs appended to a chain that is half consumed come after all that is unread, and wake a waiting receiver; window credit given plus the chain is always the total received; a close or an error clears the socket and wakes nobody, and pbufs that come with an error are neither kept nor freed |
| LwipSocket.Socket.Wait | SimpleMQ/src/arch/lwIP-raw/seLwIP.c:404-410 | the wait takes in all data that comes before the socket is cleared, and the task is woken exactly by data or an error callback |
| LwipSocket.Socket.Recv | SimpleMQ/src/arch/lwIP-raw/seLwIP.c:398-446 | octets returned and octets unread are the octets received, in order, and each is credited once; the call returns min(len, all that has come), at once with input at hand, or the error of the event that cleared the socket; without a timeout it comes back if and only if the first event is data or an error callback |
| LwipSocket.Socket.Close | SimpleMQ/src/arch/lwIP-raw/seLwIP.c:309-347 | every reference is dropped, every pbuf freed, and the window credited for what was unread |
| LwipSocket.Socket.NextBuffer | SimpleMQ/src/arch/lwIP-raw/seLwIP.c:421-434 | the used pbuf is released; at the end of the chain the window is credited once for all of it |
| LwipSocket.Socket.ErrCb | SimpleMQ/src/arch/lwIP-raw/seLwIP.c:76-83 | the socket is cleared, the error kept, the task woken |
| LwipSocket.AllFreed | SimpleMQ/src/arch/lwIP-raw/seLwIP.c:429-430 | a chain whose extra references are dropped goes back to the pool whole |
| LwipSend.Sender.Send | SimpleMQ/src/arch/lwIP-raw/seLwIP.c:351-394 | on success all octets are accepted in order, and when they were not copied they are all acknowledged; on failure a prefix was accepted. Data that fits is sent exactly when there is memory and, if not copied, everything out is acknowledged; data that does not fit is sent when everything is acknowledged each time, and fails when the first acknowledgement is for less than the next chunk; with no room at entry there is no success |
| LwipSend.Sender.WriteUncopied | SimpleMQ/src/arch/lwIP-raw/seLwIP.c:364-383 | the loop over uncopied chunks accepts, waits and fails exactly as the room found at entry, the acknowledgements and the refusals make it, and keeps outLen equal to accepted less acknowledged, plus what is still to be written |
| LwipSend.Sender.Drain | SimpleMQ/src/arch/lwIP-raw/seLwIP.c:384-391 | comes back if and only if every octet is acknowledged or the connection breaks, and then without an error exactly in the first case |
| LwipSend.ChunksFate | SimpleMQ/src/arch/lwIP-raw/seLwIP.c:363-391 | which sends of uncopied data succeed, fail, or never come back |
| LwipSend.Sender.SentCb | SimpleMQ/src/arch/lwIP-raw/seLwIP.c:86-96 | outLen falls by what is acknowledged; only a sender is woken |
| NetxSocket.Socket.Recv | SimpleMQ/src/arch/NetX/seNetX.c:272-316 | min(len, octets left) octets in stream order across packets, zero or an error exactly as NetX answers, which is asked only when nothing is left; every chain but a half-read one is released exactly once |
| NetxSocket.Socket.TakeOut | SimpleMQ/src/arch/NetX/seNetX.c:290-315 | the chain is released just when its last octet is delivered |
| Chains.AppendBehind | SimpleMQ/src/arch/lwIP-raw/seLwIP.c:111-112 | appending to a chain with a cursor appends to what is behind the cursor |
| SeCtx.PortDiscipline | SimpleMQ/src/arch/lwIP-raw/seLwIP.c:86-124 | in every run of the ports from the start in which wake-ups look at a flag, or the task never returns, the conditions asserted at save and restore hold, each suspension is resumed at most once, and with exactly the saved stack |
| SeCtx.PortRuns | SimpleMQ/src/arch/uip/seuip.c:139-153 | callbacks guarded by a flag find a suspended task without any assumption, the others once a task that never returns is started |
| SeCtx.Discipline | SimpleMQ/src/SeCtx.c:130-162 | the same from every state that keeps the invariant, for wake-ups that come only while the task is suspended |
| SeCtx.WakeNeedsContext | SimpleMQ/src/SeCtx.c:130-136 | a wake-up keeps the next save within its assertions if and only if there is a context to wake |
| SeCtx.NeverEarlyBelowHalf | SimpleMQ/src/arch/lwIP-raw/seLwIP.c:466-477 | a timed wait never ends early, for any start and any clock, if and only if the timeout is below 2^31 |
| SeCtx.FiresExactly | SimpleMQ/src/arch/lwIP-raw/seLwIP.c:472-472 | the timer fires if and only if the wrapped elapsed time is in [timeout, 2^31) |
| SeCtx.WaitBounds | SimpleMQ/src/arch/lwIP-raw/seLwIP.c:466-477 | for any times of polling: no resumption before timeout ms after the recorded start, and the first poll in [timeout, 2^31) after it resumes |
| SeCtx.ReceiveWaits | SimpleMQ/src/arch/lwIP-raw/seLwIP.c:404-410 | a receive asked to wait for time ms and not woken goes on with its stack no earlier than time ms after the poll that starts the timer, and no later than the first poll in [time, 2^31) |
| SeCtx.ReceiveForEver | SimpleMQ/src/arch/lwIP-raw/seLwIP.c:404-410 | asked to wait for ever or for zero ms it is never resumed by a poll |
| SeCtx.WokenFor | SimpleMQ/src/arch/lwIP-raw/seLwIP.c:86-124 | a task that waits is woken by the callbacks for its wait and those that look at no flag, by no other, and resumed by the next poll |
| SeCtx.ReadyResumes | SimpleMQ/src/arch/lwIP-raw/seLwIP.c:462-465 | a poll of a ready task restores the stack that was saved |
| SeCtx.WaitsInRun | SimpleMQ/src/arch/uip/seuip.c:329-340 | without a wake-up the task stays suspended for exactly those polls, and the next one resumes it |
| SeCtx.ZeroWaitsForEver | SimpleMQ/src/arch/uip/seuip.c:329-329 | a timeout of zero is no timeout: no poll ever ends the wait |
| SeCtx.Context.Run | SimpleMQ/src/arch/lwIP-raw/seLwIP.c:456-485 | SeCtx_run takes exactly the step of the state machine, and ready implies suspended, no wait implies a cleared timer; a ready task is restored, and a new wait in se_recv has exactly the timeout asked for |
| SeCtx.Context.Save | SimpleMQ/src/SeCtx.c:76-99 | the stack is saved, or the panic handler called with a hundred octets more than it needs; in the first case the asserted conditions held |
| SeCtx.Context.Restore | SimpleMQ/src/SeCtx.c:154-162 | the stack that was saved, and neither context nor ready flag |
| Url.Take | SimpleMQ/src/SMQClient.c:235-275 | every outcome of the URL scan: host, port, path and the stored name, or exactly when it is refused or leaves the string |
| Url.Scan | SimpleMQ/src/SMQClient.c:242-270 | the backward scan ends, splits the authority in the only possible way, and leaves the string exactly on an authority of digits without a prefix |
| Url.ReadPort | SimpleMQ/src/SMQClient.c:255-256 | the port is the decimal value modulo 2^16 |
| Url.LastTwoDigits | SimpleMQ/src/SMQClient.c:255-256 | the digits of a port count units, tens and hundreds |
| Url.SplitsOnce | SimpleMQ/src/SMQClient.c:242-270 | no authority splits into host and port in two ways |
| Url.PrintParse | SimpleMQ/src/SMQClient.c:235-270 | printing host, port and path and taking the URL apart gives them back, for every port below 65536 and every host without a slash |
| Url.PrintParseDefault | SimpleMQ/src/SMQClient.c:263-270 | a host printed without a port comes back with port 80 if and only if it does not itself end in a port |
| Lockout.Window | ProjectApplication/index.lsp:31-33 | in every run on a clock that does not go back, a half-open window of 300 s holds at most three evaluated failures with no success between them |
| Lockout.FourFailures | ProjectApplication/index.lsp:122-133 | four failures in a row take at least five minutes |
| Lockout.InvOverRuns | ProjectApplication/index.lsp:122-133 | fewer than three failures are ever counted, and a lockout ends within 299 s |
| Lockout.LookedAtExactly | ProjectApplication/index.lsp:31-133 | in every run, a request is looked at if and only if it is posted and 300 s have passed since each third failure in a row |
| Lockout.NeverLonger | ProjectApplication/index.lsp:31-33 | behind any run, a request posted 300 s after it is looked at, and is the next entry of the log with its time and outcome |
| Lockout.PrintedWait | ProjectApplication/index.lsp:138-142 | the wait printed is one to five minutes if and only if the lockout has not ended between the two readings of the clock |
| Lockout.Session.Serve | ProjectApplication/index.lsp:31-142 | one request: a login exactly when it is posted after the lockout with the right password, the third failure locks for 299 s from the time it is set, and which message is shown |

## Left out

Not modelled:

- The BSD, Posix, Windows, MDK, MQX, Harmony and lwIP netconn ports, and connect, bind, accept and DNS in every port.
- `SMQ_connect`, `SMQ_disconnect`, `SMQ_observe`, `SMQ_unobserve`, `SMQ_unsubscribe` and the HTTP request and INIT frame
  of `SMQ_init`: fixed frames through the same buffered writer.
- The broker itself: only the joining of fragments that the header file documents.
- m2m-control.c, m2m-led.c, sqlQuery.lua and every page but the login block of index.lsp; database errors, the
  expiry of a session, and what the page does after a login.
- setjmp and longjmp, the layout of the stack and the magic words: a suspension is a saved sequence of octets.
  `DYNAMIC_SE_CTX` is not modelled.
- What the main loop does while a task waits for an event that never comes: the call is then said not to come back.

Assumed:

- Stack events reach a socket only while its task waits, and there is one context with one socket.
- The transport has not failed before: a run ends at its first transport error, and error codes of the stack are
  greater than -10000. A receive of zero octets returns 0.
- The buffer of the client has at least 127 octets, as SMQClient.h requires.
- lwIP delivers no empty pbuf and no more than the window it was credited, which is below 64 K.
- The uIP segment size is constant, and acknowledgements come only for an outstanding segment.

Stated weaker, or on fewer inputs, than the code runs on:

- PingTimer.CounterMeaning: for histories in which no addition has left the range of an S32; `PingTimer.SettingsExact` says with which settings none does, `PingTimer.TickExact` and `PingTimer.DeadExact` what one step does in any case.
- LwipSend.Sender.Send: for data that does not fit the send buffer, what becomes of the call is stated when the peer acknowledges everything each time and when it first acknowledges too little; `LwipSend.Sender.WriteUncopied` has the rest, by `LwipSend.Chunks`. Several callbacks before the task goes on count as one event.
- UipSocket.Socket.Send: requires that no uIP event flag is set at the call; a stale acknowledgement would skip the first chunk.
- SmqClient.Smq.Write: a publisher that calls `SMQ_write` between two slices of a message it receives shares the buffer with it; runs that mix the two are not modelled.
- SmqClient.Smq.GetMessage: after a failure of the transport only the value returned is stated, because `bufIx` means nothing then.
- SmqRun.Receive: about the stream as seen; what was sent is seen if and only if no header was read wrong, and `SmqHeader.ReadsRight` says when that is. When the run ends with an event or a failure of the transport, the turns are those before the last call.
- SmqRun.ReceiveFrames: for runs in which no header was read wrong.
- SmqRun.ReceivePublished: the same.
- SmqClient.Smq.ReadWholeFrame: its callers `SMQ_init` and `SMQ_connect` are not modelled.
- SmqRun.EndToEnd: for payloads up to 65520 octets and topics that are not 0; `SmqClient.PublishLength` and `Fragments.FragmentsJoin` give the exact limits.
- SeCtx.PortDiscipline: a task that returns while a callback for an error can still come is not covered; `SeCtx.WakeNeedsContext` shows that this is needed.
- Lockout.Window: for clocks that do not go back.
