# Verification of the msocks tunnel and its companions

A Dafny model of the parts of goproxy that carry its correctness: the multiplexer that runs many
byte streams over one connection, the wire codec below it, the encrypted connection below that,
the address filter and DNS cache beside it, and the dial loop that sets tunnels up.
`dafny verify dfyconfig.toml` checks everything.

## What is modelled

**The tunnel.** `StreamCore` gives what each operation of a `Conn` does to its fields. `Tunnel` is
the whole system as a state machine: two fabrics with their maps from 16-bit id to stream, two FIFO
wires shared by all streams, any number of streams, and ids that are reused. Every stream has a tag
that only names it; frames are routed by id, as the code does. `Link` is one stream alone on two
private wires. `TunnelSafety` proves that the tunnel, seen by any one stream, is a run of a
private link, and that the bookkeeping of ids holds; `TunnelTheorems` and `Progress` draw the
consequences for every reachable state and every run, `Starvation` those for a writer that waits;
`Necessity` and `LateMove` say exactly when the assumptions below are needed. `TunnelObjects` has the
same operations as classes that update their fields, proved against `StreamCore`, `FabricSpec`,
`ReadSpec` (the loop of Read and the wait of Pop) and `Transfer` (the chunks of Write and its wait for
window); what other goroutines do at each wait is a parameter of these. `Bridge` and `Runs` tie the classes
to the steps of the tunnel: dispatch to delivery, the effect of a method to a step of its Conn, and a Read
or a Write to a run of the steps of its reader or writer.

The steps of `Tunnel` are those of an *orderly run*. The code relies on the following, and the
theorems take it for granted:

- Socket writes succeed, and neither the closing timer nor the dial timeout fires.
- RESULT finds Connect waiting for it (`tunnel/conn.go:409-412` drops it otherwise), and the move to EST
  follows in the same step. In the code it comes later (`tunnel/conn.go:130`); `LateMoveIsHarmless` shows
  that this makes no difference to any run unless a FIN of the stream arrives in between, and
  `FinBeforeEstIsLost` what the stream then misses.
- `closeWrite`, `Accept` and `Deny` are atomic. In the code `Final` runs before the FIN is sent
  (`tunnel/conn.go:318`, `tunnel/conn.go:327`); `OvertakingSynHalts` says exactly when that fails.
- A stream is closed by the goroutine that writes to it, as in `netutil/net.go:25-36`, so Close never
  overlaps a writer that waits for window; `WriteAcrossClose` says what happens otherwise.
- A stream has one reader, which passes Read a buffer that is not empty. A handler accepts or
  denies its stream, once, before it uses it. A dialled stream is used only once it is EST
  (Connect returns a nil error on refusal too, `tunnel/conn.go:119-128`, so status decides).

A wait (for window, for data) is a step that is not enabled. Each of the failures named here comes with a
lemma that gives an orderly run to a state it speaks of.

**The others.** `FrameCodec` is the wire format. `LruSpec` is a recency list with its history and
inclusion theorems, `LruHits` says of the history alone what it holds; `Lru` is the map and list refined to
it; `DnsCache` is on top. `IpFilter` is the two-level prefix index against a scan, `IpMembership` what
membership in a network means in bits and numbers. `CryptConn` is the vector exchange and cipher feedback over
an uninterpreted block cipher. `Dialer` is the retry loop in 64-bit arithmetic.

## What the proofs brought up

- `Conn.Write` sends its whole buffer exactly when that is shorter than 65536 bytes; any longer buffer
  reaches a remainder whose 16-bit length is 0, and the loop makes no more progress (`WriteIsExact`).
- The address index misses addresses of a network written as an IPv4-mapped IPv6 prefix, such as
  `::ffff:10.0.0.0/104`; the exact condition is `Safe` (`SafeIsExact`).
- A connection cut right behind a frame header that announces data reads as a clean EOF, not as an
  unexpected one (`CutFrame`, `CutStream`).
- When the random start of the dial loop is within twice the number of creators of the largest
  `int`, the loop bound wraps, nothing is dialled, no error is reported and the nil tunnel is put into
  the pool (`Dial`, `NewTunnel`).
- A writer can starve in an orderly run, with no timer and no error involved: an end that has closed
  credits nothing of what it still reads, so a writer short of window whose peer has closed gets no more
  than is under way. If that is too little it waits for ever; it cannot be closed either, and its id is
  never free again (`ReleasedExactly`, `StarvedForever`).
- A slice that waits for window while another goroutine closes its stream is sent behind the FIN. It is lost
  in every case, though Write reports it as written; and if both ends have closed it stops the server's
  loop (`WriteAcrossClose`).
- A FIN that arrives between RESULT and the move to EST is lost for good: without the timers, the reader
  never comes to EOF and the id is never free again (`FinBeforeEstIsLost`).
- On a SYN for an id that is taken, `accept` answers so but reports no error, and the stream that is in no map
  is handed to its handler (`AcceptSyn`, `OnSyn`). The dispatch loop never gets there (`SynFindsFreeId`).
- The project's documentation says that a shared key is used with CBC; the code uses cipher feedback
  (`cryptconn/conn.go:124-125`), and so does the model.
- `CryptConn.Write` overwrites the caller's buffer with the ciphertext.

## Model

| member | source | states |
|---|---|---|
| `TunnelTheorems.NoFrameIsUnmapped` | tunnel/fabric.go:169-202 | In every reachable state no loop has stopped; the next frame, unless a SYN, finds its id mapped to its own stream, a SYN goes to the server and finds its id free, and the loop takes it and goes on |
| `TunnelTheorems.Refines` | tunnel/fabric.go:186-193 | From any state of the invariant, whatever the other streams do, each stream goes through a legal run of a private link, made of exactly its own steps |
| `TunnelTheorems.TunnelRefinesLinks` | tunnel/fabric.go:169-202 | The same from the empty tunnel: the life of any stream is a run of a link from nothing |
| `TunnelTheorems.Isolation` | tunnel/fabric.go:186-193 | Two runs that agree on the steps of a stream end with the same stream, whatever other streams, ids and frame orders they have |
| `TunnelTheorems.ExecInv` | tunnel/fabric.go:169-202 | Every orderly run keeps the invariant of the whole tunnel |
| `TunnelTheorems.StreamIntegrity` | tunnel/conn.go:173-276 | Per stream incarnation and direction: bytes read, then bytes waiting at the reader, then DATA under way are exactly the bytes written, in order; so reads are a prefix of writes |
| `TunnelTheorems.EofIsComplete` | tunnel/conn.go:180-183 | A reader is told EOF only when it has all that its peer wrote and the peer has closed |
| `TunnelTheorems.ClosedAndTimed` | tunnel/conn.go:304-357 | The closing timer is set exactly in FIN_SENT and FIN_RECV, so Stop never meets nil; a stream that has received FIN or is finished has its queue closed |
| `TunnelTheorems.CreditConserved` | tunnel/conn.go:207-221 | Window, DATA under way, unread bytes, uncredited bytes and credit under way add up to the window size until the receiver begins to close, and to no more afterwards; windows and buffers are bounded by it |
| `TunnelTheorems.WindowNeverWraps` | tunnel/conn.go:426-437 | The 32-bit window arithmetic is exact in every reachable state: a WND adds what it says, a DATA subtracts its length |
| `TunnelTheorems.FinIsLast` | tunnel/conn.go:304-334 | After the step in which an end sends FIN for a stream it sends nothing more for that stream, in every continuation |
| `TunnelTheorems.CloseCompletes` | tunnel/conn.go:304-357 | Both ends are UNKNOWN exactly when both FINs are sent and delivered, and an end is mapped exactly until it is UNKNOWN |
| `TunnelTheorems.SentInIsSends` | tunnel/fabric.go:109-128 | What a step of the tunnel adds to a wire for a stream is what the step of its private link sends |
| `Progress.ParkedWriterHasCreditUnderway` | tunnel/conn.go:252-276 | While the receiver has not sent FIN, a writer short of window means DATA, unread bytes, uncredited bytes or credit are somewhere; when all are drained the window is whole and holds any chunk |
| `Progress.WriterIsNeverStuck` | tunnel/conn.go:224-276 | From every reachable state in which the receiver has not sent FIN there is an orderly run, of deliveries and of reads by that receiver only, after which the window is whole and the waiting slice can be sent |
| `Starvation.ReleasedExactly` | tunnel/conn.go:207-221 | A waiting writer of a reachable state can be released by some orderly run if and only if its peer has not sent FIN, or its window with the credit under way holds its slice |
| `Starvation.StarvedForever` | tunnel/conn.go:263-267 | In no continuation can a starved writer send or be closed, and its id stays taken |
| `Starvation.StarvedIsPossible` | tunnel/conn.go:210-214 | An orderly run starves a writer: it fills the window and waits, and the server closes without having read |
| `Progress.CloseFinishes` | tunnel/conn.go:304-357 | From every reachable state in which both ends of a stream have sent FIN there is a run of deliveries alone after which both are UNKNOWN and have given up the id |
| `Progress.EofIsReached` | tunnel/conn.go:173-183 | From every reachable state in which the peer has sent FIN there is a run of deliveries and of this reader only that brings the reader to EOF, with exactly what the peer wrote |
| `Progress.ReadAll` | tunnel/conn.go:173-222 | From any state of the invariant the reader of any stream can take all it has and credit it, or come to EOF, and this changes nothing else of the stream |
| `Progress.DeliverAll` | tunnel/fabric.go:169-202 | From any state of the invariant all that is in a shared wire can be delivered, whatever streams it belongs to; an accepted stream keeps its other end and wire, and is ended by FIN alone |
| `Necessity.OvertakingSynHalts` | tunnel/conn.go:314-327 | In every state in which a half-closed client stream may be closed: a dial between the Final and the FIN of its closeWrite sends its SYN first, and stops the server's loop if and only if it gets the id that Final freed |
| `Necessity.OvertakingIsPossible` | tunnel/fabric.go:74-93 | An orderly run leads to such a state: a stream that the server closes, and dials until the ids come round |
| `Necessity.WriteAcrossClose` | tunnel/conn.go:252-276 | In every state with a woken writer at either end, its peer open or closed: if another goroutine closes the stream first, the slice is sent behind the FIN; it is lost, and it stops the receiving loop if and only if that is the server's and the server has closed too |
| `Necessity.WriteAcrossCloseIsPossible` | tunnel/conn.go:263-267 | Orderly runs lead to such states, with the server open and closed, and through one in which that slice had to wait: the writer fills the window, the server reads and credits |
| `LateMove.FinBeforeEstIsLost` | tunnel/conn.go:336-353 | If the server's FIN is among the frames that the client takes between RESULT and its move to EST, then in no continuation does the client's reader come to EOF or the client give up the id |
| `LateMove.FinBeforeEstIsPossible` | tunnel/conn.go:134-148 | An orderly run leads to a state with such a FIN behind its RESULT |
| `LateMove.LateIsOpenExactly` | tunnel/conn.go:117-131 | A stream whose client takes j frames between RESULT and its move to EST is as an open stream must be if and only if no FIN is among them |
| `LateMove.LateIsDeliveries` | tunnel/conn.go:117-131 | Without a FIN among them the late move is the move at RESULT followed by their deliveries |
| `LateMove.LateMoveIsHarmless` | tunnel/conn.go:117-131 | Among all other streams and steps: a run in which the client moves to EST any number of steps after RESULT, none of them its own and none bringing it a FIN, ends as the orderly run does in which it moves at once |
| `TunnelSafety.StepInv` | tunnel/fabric.go:169-202 | Every step keeps: every stream's link invariant, maps and ids in agreement, frames under the id of their stream, and a new stream's SYN behind all frames of the last stream with its id |
| `TunnelSafety.RoutedToOwner` | tunnel/fabric.go:186-193 | A frame other than SYN is routed to its own stream, also when its id has been used before |
| `TunnelSafety.SynFindsFreeId` | tunnel/server.go:166-188 | A SYN never meets ErrIdExist: the FIN that frees its id at the server is ahead of it in the wire |
| `TunnelSafety.StaleFin` | tunnel/conn.go:314-318 | A stream that the client has unmapped and the server has not has its FIN on the way to the server |
| `TunnelSafety.MoveView` | tunnel/conn.go:92-357 | An operation of one Conn is a step of the link of its stream, and no step for any other stream |
| `TunnelSafety.ArriveView` | tunnel/fabric.go:186-199 | A delivery is a step of the link that the frame belongs to, and no step for any other stream |
| `TunnelSafety.RegisterView` | tunnel/client.go:88-93 | Taking an id starts a link for the new stream and touches no other |
| `LinkSafety.LocalPreserves` | tunnel/conn.go:92-357 | Every operation of either end keeps the link invariant in every phase of a stream's life |
| `LinkSafety.DeliverPreserves` | tunnel/conn.go:385-448 | Every delivery finds its end mapped unless it is a SYN, is taken without error and keeps the link invariant |
| `LinkSafety.LocalSends` | tunnel/conn.go:210-214 | An end gives up its id only while it holds it, and sends any frame but SYN only while both ends hold the id |
| `LinkSafety.RunPreserves` | tunnel/conn.go:92-448 | Every run of a link keeps its invariant |
| `LinkSafety.QuietStays` | tunnel/conn.go:210-214 | An end that has sent FIN sends nothing in any step and stays so |
| `Link.OpenAct` | tunnel/conn.go:173-357 | Each step of an end of an open stream keeps integrity, credit and FIN order in both directions |
| `Link.OpenCredit` | tunnel/conn.go:207-221 | The credit at the end of Read moves credit into the wire, or drops it once this end has closed |
| `Link.OpenClose` | tunnel/conn.go:304-334 | A close puts FIN behind all DATA and WND, or does nothing the second time |
| `Link.DisciplineHead` | tunnel/conn.go:385-448 | What can come first in a wire, and that nothing comes behind a FIN |
| `IdPool.SearchIsExact` | tunnel/fabric.go:74-93 | The search for an id fails exactly when all 32768 ids of the parity of next_id are taken; otherwise it gives the first free one in cyclic order, of that parity |
| `IdPool.CandidateFacts` | tunnel/fabric.go:79-81 | Steps of 2 in 16 bits keep the parity across the wrap and return to the start after 32768 steps and not before |
| `TunnelObjects.Queue.Push` | tunnel/queue.go:25-35 | Appends to an open queue, refuses on a closed one |
| `TunnelObjects.Queue.Pop` | tunnel/queue.go:37-54 | Takes the first element, after as many waits as it needs and no more; EOF only on an empty closed queue; does not wait unless it may |
| `TunnelObjects.Queue.Close` | tunnel/queue.go:56-66 | Closes and keeps the contents |
| `TunnelObjects.Conn.Connect` | tunnel/conn.go:92-115 | UNKNOWN to SYN_SENT with one SYN for the network, and a nil error exactly then; otherwise no change |
| `TunnelObjects.Conn.Accept` | tunnel/conn.go:134-148 | SYN_RECV to EST with RESULT 0, and a nil error exactly then; otherwise no change |
| `TunnelObjects.Conn.Deny` | tunnel/conn.go:150-159 | A RESULT that refuses, and the id is given up; the fields stay |
| `TunnelObjects.Conn.CloseWrite` | tunnel/conn.go:304-334 | The status machine of closing: where it goes, when it sends FIN, when it gives up the id and when it reports an error; the timer that it stops is never nil |
| `TunnelObjects.Conn.CloseRead` | tunnel/conn.go:336-357 | The status machine on FIN: where it goes, when the queue is closed, when the id is given up and when it reports an error; the timer that it stops is never nil |
| `TunnelObjects.Conn.Reset` | tunnel/conn.go:282-302 | UNKNOWN, queue closed, and the stream's own id removed from the map |
| `TunnelObjects.Conn.SendFrame` | tunnel/conn.go:385-448 | Each frame does to the fields what OnFrame says and keeps the class invariant; the error that stops the loop comes exactly for a SYN and for a RESULT outside SYN_SENT; SYN and RST finish the stream, a refusal gives up its id |
| `TunnelObjects.Conn.WriteSlice` | tunnel/conn.go:252-276 | Sends only in EST and only when the window holds the slice, after the credits that it has to wait for; then subtracts its length in 32 bits |
| `TunnelObjects.Conn.Write` | tunnel/conn.go:224-250 | Adds one DATA for each chunk of its buffer that Sending lets through, in order, and no other frame; none on a stream that is not EST; count, window and which end it comes to are exactly determined, for every window |
| `TunnelObjects.Conn.Read` | tunnel/conn.go:173-222 | Reads along what happens at its waits, frames of every kind and a Close by the writer among it; bytes, fields, map, EOF, blocking and the credit sent at its end are determined by it |
| `TunnelObjects.Conn.Fill` | tunnel/conn.go:176-203 | The copy loop keeps the bytes in order over any division into chunks, changes nothing else, and stops short of its buffer only when nothing is left |
| `ReadSpec.ReadLoopIsExact` | tunnel/conn.go:176-203 | The loop of Read as a function reads along: it waits only while it has nothing to return and the queue is open, and is then where it would be if all that happened had happened before, but for what it returns |
| `ReadSpec.ReadIsDetermined` | tunnel/conn.go:176-203 | Whatever reads along the same events returns the same bytes and leaves the same, but for the division into chunks of what is left |
| `ReadSpec.AwaitIsExact` | tunnel/queue.go:42-50 | The wait of Pop ends as soon as there is a value or the queue is closed, and not before |
| `ReadSpec.HappenTakes` | tunnel/queue.go:25-35 | Values queue up in order behind those that wait, up to the close, and none after it |
| `TunnelObjects.Conn.CloseFiber` | tunnel/conn.go:450-454 | A reset: UNKNOWN, closed queue, own entry removed |
| `TunnelObjects.Fabric.PutIntoNextId` | tunnel/fabric.go:74-93 | Terminates, keeps the parity of next_id, adds one entry under an id that was free, and on failure changes nothing |
| `TunnelObjects.Fabric.PutIntoId` | tunnel/fabric.go:95-107 | Adds an entry exactly when the id is free |
| `TunnelObjects.Fabric.CloseFiber` | tunnel/fabric.go:130-140 | Removes one entry, or fails exactly when there is none |
| `TunnelObjects.Fabric.Close` | tunnel/fabric.go:142-167 | Starts a reset for every stream the first time, for none the second time |
| `TunnelObjects.Fabric.TearDown` | tunnel/fabric.go:154-165 | The resets that Close has started, in any order, while streams finish by themselves before and between them, leave the map empty and every one of the streams UNKNOWN with a closed queue; each removes its own entry only |
| `TunnelObjects.Fabric.ToFiber` | tunnel/fabric.go:186-193 | A frame for a mapped stream changes that stream as OnFrame says, and no other |
| `TunnelObjects.Fabric.OnSyn` | tunnel/server.go:144-164 | A new stream in SYN_RECV for a known network, a refusal and no stream for any other; on an id that is taken, the answer that it is, and the map stays as it was |
| `TunnelObjects.Fabric.AcceptSyn` | tunnel/server.go:166-188 | Puts a new stream under a free id, or answers that the id is taken; the stream is handed on either way |
| `TunnelObjects.Fabric.ToDefault` | tunnel/server.go:126-164 | The server takes a SYN, with a new stream in SYN_RECV or a refusal, and fails on any other frame; the client takes anything and changes nothing |
| `TunnelObjects.Fabric.Dispatch` | tunnel/fabric.go:186-199 | One round of the loop at either end is Route on the mapped streams |
| `TunnelObjects.Fabric.Loop` | tunnel/fabric.go:169-202 | The fabrics that the loop goes through: each is Route of the one before and the packet between, only the last packet taken may fail, and all are taken otherwise; then the fabric is closed, and a reset is started for every stream that is left, unless it was closed before |
| `TunnelObjects.Fabric.Serve` | tunnel/fabric.go:142-202 | The loop and the resets that it starts, in any order: no stream is mapped any more, and each that was mapped when the loop ended is UNKNOWN with a closed queue |
| `TunnelObjects.Fabric.Dial` | tunnel/client.go:88-104 | A new stream under the next free id with its SYN sent, EST and mapped on the answer 0, its id free again and no error on any other answer or none; an error and no change exactly when no id is free |
| `FabricSpec.RouteTouchesOne` | tunnel/fabric.go:186-193 | A packet leaves all streams but its own as they are, and only frames under its id are sent |
| `Bridge.ArriveIsRoute` | tunnel/fabric.go:186-199 | In every state of the tunnel invariant a delivery does what Route, which the classes are proved against, does: to the mapped streams, to the packets written and to the loop |
| `Bridge.MoveIsInstall` | tunnel/conn.go:92-357 | In every state of the tunnel invariant a step of a Conn does to its fabric what the effect of the class method does, and nothing once the stream is unmapped |
| `Runs.ReadIsRun` | tunnel/conn.go:173-222 | One call of Read is the run ReadCall, ReadCopy as often as it can, what happens at its waits, then ReadEof, or ReadStop and ReadCredit, or a wait; the run reads along as the class method does |
| `Runs.WriteIsRun` | tunnel/conn.go:224-276 | The chunks of a Write are BeginWrite and FinishWrite pairs with the credits of its waits in between, with the same window, bytes written and frames, which are one DATA for each chunk sent and no other; a parked Write leaves its next chunk pending |
| `Transfer.CutKeepsBytes` | tunnel/conn.go:225-247 | The chunks are of 1 to 8192 bytes, all but the last of 8192, and with the remainder make up the buffer; the remainder is the multiple of 65536 |
| `Transfer.WriteIsExact` | tunnel/conn.go:226-229 | The chunks make up the whole buffer exactly when it is shorter than 65536 bytes; otherwise a positive multiple of 65536 is left, where the chunk size is 0 |
| `Transfer.WaitIsExact` | tunnel/conn.go:264-267 | The wait for window ends as soon as the credits that have come give enough of it, and not before, in 32-bit arithmetic |
| `Transfer.SendingWindow` | tunnel/conn.go:264-274 | When Write ends the window has moved by the credits taken and the bytes sent, modulo 32 bits and for every start |
| `Transfer.SendingIsPrefix` | tunnel/conn.go:225-247 | The count that Write returns is that of a prefix of its chunks |
| `Transfer.SendingParks` | tunnel/conn.go:264-267 | Write stops before its last chunk only when all credits are taken and the window is short of the next chunk |
| `FrameCodec.Marshal` | tunnel/frame.go:99-109 | Fails exactly for payloads over 65535 bytes; otherwise type, stream id and payload are those given and the length field is the length |
| `FrameCodec.HeaderBytes` | tunnel/frame.go:120-126 | The bytes of a packed frame: type, length and stream id with the higher byte first, data |
| `FrameCodec.ReadPack` | tunnel/frame.go:42-63 | Reading a packed frame gives it back and leaves what follows |
| `FrameCodec.PackRead` | tunnel/frame.go:120-126 | Whatever is read is the packing of the frame returned |
| `FrameCodec.RoundTrip` | tunnel/frame.go:42-63 | Reading any list of packed frames gives exactly that list, then EOF |
| `FrameCodec.CutFrame` | tunnel/frame.go:44-54 | A frame cut short is an error, EOF exactly if nothing or the bare header is there |
| `FrameCodec.CutStream` | tunnel/frame.go:42-63 | A stream cut anywhere yields exactly its whole frames, then an error, and which |
| `FrameCodec.Reader.ReadNext` | tunnel/frame.go:42-63 | The reader consumes exactly the frame that ReadFrame gives, or all there is |
| `LruSpec.History` | ipfilter/lru.go:56-113 | After any history: distinct keys, size within a non-zero capacity, list in order of last Add or Get, values those of the last Add |
| `LruSpec.HitIsLastAdded` | ipfilter/lru.go:74-83 | A hit returns the value added last, through any evictions |
| `LruSpec.EvictsLeastRecent` | ipfilter/lru.go:66-70 | A new key in a full cache evicts the least recently touched key and only that |
| `LruSpec.NewKeyFits` | ipfilter/lru.go:66-70 | A new key evicts nothing while there is room for it |
| `LruHits.HeldExactly` | ipfilter/lru.go:56-113 | After any history of Add, Get, Remove and RemoveOldest a key is held if and only if the history says so without a list: each key knows the keys touched since it was, and leaves when removed, when oldest as the oldest is removed, or when a new key comes and these are too many; the keys in front of it are exactly those |
| `LruHits.HitExactly` | ipfilter/lru.go:56-83 | Over Adds and Gets: a key hits if and only if it was touched and fewer other keys than the capacity were touched since |
| `LruHits.AddedExactly` | ipfilter/lru.go:56-71 | Over Adds: a key hits if and only if it was added and fewer other keys than the capacity were added since |
| `LruSpec.DroppedIsWhatLeaves` | ipfilter/lru.go:106-113 | What OnEvicted is called with is exactly what leaves: a key is there afterwards if and only if it was there or is added, and is not dropped |
| `LruSpec.Inclusion` | ipfilter/lru.go:56-113 | On the same history the list of a smaller cache is a subsequence of that of a larger or unlimited one, with equal values |
| `LruSpec.HitsAreShared` | ipfilter/lru.go:74-83 | Every hit in the smaller cache is the same hit in the larger |
| `Lru.Cache.Add` | ipfilter/lru.go:56-71 | Map and list stay in agreement and the list becomes what the recency list says, by update, insertion or insertion and eviction; nothing is evicted while there is room |
| `Lru.Cache.Get` | ipfilter/lru.go:74-83 | Returns the lookup and brings a hit to the front |
| `Lru.Cache.Remove` | ipfilter/lru.go:86-93 | Removes the key if it is there |
| `Lru.Cache.RemoveOldest` | ipfilter/lru.go:96-104 | Removes the last entry if there is one |
| `Lru.Cache.RemoveElement` | ipfilter/lru.go:106-113 | Removes an element from map and list together, and calls OnEvicted with its entry if that is set |
| `Lru.Cache.HitIsLookup` | ipfilter/lru.go:78-80 | A key is in the map exactly when the list holds it, with the same value |
| `DnsCache.Transparent` | ipfilter/dnscache.go:27-53 | For any interleaving of lookups and any capacity: the cache holds only true, non-empty answers, and a lookup returns what the resolver would |
| `DnsCache.DNSCache.LookupIP` | ipfilter/dnscache.go:27-53 | Returns the resolver's answer, from the cache if it can; stores it only if it is neither an error nor empty |
| `IpFilter.Load` | ipfilter/iplist.go:118-128 | Each list of the index holds exactly the networks of its slot, in order |
| `IpFilter.ListContains` | ipfilter/iplist.go:28-36 | True exactly when some network of the list contains the address |
| `IpFilter.Contain` | ipfilter/iplist.go:38-63 | Answers the query over the two index lists and the rest |
| `IpMembership.ContainsIsBits` | ipfilter/iplist.go:28-36 | An address is in a network if and only if it has the length of its number and the same bits where the mask has one |
| `IpMembership.EachBitCounts` | ipfilter/iplist.go:28-36 | A contained address leaves the network by a change of one bit if and only if the mask has that bit, or the change makes it an IPv4 address |
| `IpMembership.ContainsIsPrefix` | ipfilter/iplist.go:28-36 | With a mask of length k, an address is in the network if and only if the two numbers agree after division by two to the power of the other bits |
| `IpMembership.MaskLengthIsOnes` | ipfilter/iplist.go:118 | The length of a mask is k if and only if its first k bits are ones and all others zeros |
| `IpMembership.MappedIsRange` | ipfilter/iplist.go:38-41 | An address of 16 bytes counts as IPv4 if and only if its number is in one range of 2^32, and is then its place in that range |
| `IpFilter.IndexAgreesWithScan` | ipfilter/iplist.go:38-63 | For safe networks the index and the linear scan agree on every address |
| `IpFilter.UsualFormsAreSafe` | ipfilter/iplist.go:118-128 | Networks with address and mask of one length, not IPv4-mapped, are safe, whatever their mask |
| `IpFilter.SafeIsExact` | ipfilter/iplist.go:118-128 | The index of a network agrees with the scan on all addresses if and only if the network is safe |
| `IpFilter.UnsafeIsMissed` | ipfilter/iplist.go:118-128 | Every unsafe network contains an address that the index misses |
| `IpFilter.MappedNetworkIsMissed` | ipfilter/iplist.go:65-70 | The network ::ffff:10.0.0.0/104 can be loaded, contains every address 10.x.y.z, and the index misses them all |
| `IpFilter.PrefixesAreExact` | ipfilter/iplist.go:43-50 | Two addresses have the same keys in the two indexes exactly when they have the same bytes there |
| `CryptConn.SessionIntegrity` | cryptconn/conn.go:99-163 | In every run of a session, handshake included, both directions, any interleaving and any fragmentation: both ends hold the same key, reads are a prefix of writes, and the rest is what the ciphertext under way decrypts to |
| `CryptConn.RoundTrip` | cryptconn/conn.go:145-163 | For any split into writes and any other split into reads, each end with the vector it computed, the reads together are the writes together |
| `CryptConn.StreamIsCfb` | cryptconn/conn.go:124-125 | The byte-wise stream computes full-block cipher feedback as in section 6.3 of NIST SP 800-38A, in both directions |
| `CryptConn.DecryptEncrypt` | cryptconn/conn.go:124-125 | That mode's decryption undoes its encryption, for messages of every length |
| `CryptConn.Resynchronises` | cryptconn/conn.go:124-125 | Streams that began with different vectors decrypt alike behind one block of the same ciphertext |
| `CryptConn.FeedAppend` | cryptconn/conn.go:150-161 | The stream does not depend on where buffers end |
| `CryptConn.FeedInverse` | cryptconn/conn.go:150-161 | The decrypting stream undoes the encrypting one and ends in the same state |
| `CryptConn.XorCommutes` | cryptconn/conn.go:99-113 | Both ends compute the same vector |
| `CryptConn.XOR` | cryptconn/conn.go:86-93 | The loop computes the bytewise exclusive or |
| `CryptConn.ExchangeIV` | cryptconn/conn.go:52-113 | Sends one vector, uses up exactly the peer's from the incoming bytes and returns their exclusive or, byte by byte; which failure of the random source, the write or the read gives which error |
| `CryptConn.ExchangeAgrees` | cryptconn/conn.go:99-113 | The two ends of an exchange agree on one vector, which is the key that a session computes in its handshake; what follows the vectors stays in the wire |
| `CryptConn.NewConn` | cryptconn/conn.go:115-143 | A connection exactly if the exchange agreed; it then stands where a session stands behind the two steps of its handshake |
| `CryptConn.CryptConn.Read` | cryptconn/conn.go:145-155 | Decrypts in place exactly the bytes received and advances the stream by them; on an error neither; without one it is the Read step of a session, and returns the bytes that this adds |
| `CryptConn.CryptConn.Write` | cryptconn/conn.go:157-163 | Encrypts the caller's buffer in place, advances the stream by all of it and hands it to the socket; if that takes all, it is the Write step of a session |
| `Dialer.Dial` | connpool/dialer.go:113-123 | Asks creators in cyclic order; fails exactly when every one failed exactly DIAL_RETRY times; otherwise stops at the first success within DIAL_RETRY times n attempts; asks nobody exactly when the bound overflows |
| `Dialer.ExhaustedMeansAllFailed` | connpool/dialer.go:113-123 | Every creator failing DIAL_RETRY times is the same as every attempt of the round failing |
| `Dialer.EachRetried` | connpool/dialer.go:114-116 | From any start a full round asks each creator exactly DIAL_RETRY times |
| `Dialer.WrapsBelow` | connpool/dialer.go:113-115 | The 64-bit bound is below the start exactly when the sum overflows |
| `Dialer.Dialer.AddDialerCreator` | connpool/dialer.go:37-41 | The creator is added behind the others |
| `Dialer.Dialer.NewTunnel` | connpool/dialer.go:97-135 | Which error is reported when, in terms of what the creators answer in their turn, and what enters the pool: the first tunnel that one of them gives, or the nil tunnel exactly on overflow |

## Left out

- JSON encoding of SYN, RESULT and WND payloads: payloads are values; `Marshal` keeps the size check.
- Timers, timeouts, RST and failed or short socket writes in the run theorems; `Reset`, `CloseFiber` and
  `TearDown` state what they do to a stream and to the map.
- Wake-up order and fairness of goroutines (`sync.Cond`, `ch_syn`): a wait is a step that is not enabled,
  and `ReleasedExactly` says whether a run can end it, not that the scheduler takes it.
- TunnelObjects.Conn.WriteSlice: of what other goroutines do while it waits only the credits are modelled; it
  returns Parked where no more of them come and the code waits on.
- TunnelObjects.Conn.Write: stands for one goroutine at a time; it returns Parked where no more credit comes,
  and Stalled where the code loops for ever. That other goroutines may change the status between two of its
  chunks is not modelled.
- TunnelObjects.Conn.Read: returns Blocked where nothing more happens and the code waits on.
- Runs.WriteIsRun: for windows and credits that 32 bits hold, as they do in every reachable state
  (`CreditConserved`, `WindowNeverWraps`).
- Necessity.OvertakingSynHalts: from states with nothing under way to the server.
- Necessity.WriteAcrossClose: from states with nothing under way to the peer.
- CryptConn.SessionIntegrity: takes full socket writes and error-free socket reads for granted;
  `CryptConn.Write` and `CryptConn.Read` state what happens to the stream otherwise.
- Lru.Cache.RemoveElement: the linked list of Go's container/list is a sequence of element references, and
  OnEvicted is the list of its calls.
- DnsCache.Transparent: the resolver is a function of the hostname, which a real resolver is only between
  changes of a record.
- IpFilter.SafeIsExact: the condition is exact for each network by itself; in a list, another network may
  contain the address that the index misses.
- IpFilter.Load: starts from parsed networks; line reading, gzip, ParseCIDR and ParseIP are not modelled.
- Dialer.Dialer.NewTunnel: does not model the goroutine that runs the new tunnel, nor other goroutines
  changing the pool meanwhile, nor the crash of that goroutine on the nil tunnel.
- Authentication, TLS, key parsing, configuration and logging: wrappers around libraries.
- `dns/`: translation over a DNS library and an HTTP client; its TCP framing is a simpler codec than the
  one modelled.
- `proxy/`, `portmapper/`, `connpool/manager.go`, `goproxy/`: plumbing and process wiring.
- `connpool/pool.go` beyond DIAL_RETRY and Add: picking the least used tunnel and listing the tunnels in order
  are a plain minimum and a library sort.
