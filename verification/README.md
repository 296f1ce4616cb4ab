# A verified model of the UDX protocol core

UDX is a reliable, multiplexed, congestion-controlled stream protocol over UDP, written in C. This project models
the core of `src/udx.c` and the data structures and controllers it stands on, and proves what they promise: a reader
gets exactly the bytes that were written, whatever the network does; the intrusive red-black tree, the circular
buffer and the queues stay what they should be under real pointer updates; every packet is in exactly one place, is
counted, and is looked after by a timer; every write is acknowledged to its owner exactly once.

Sequence numbers are 32 bits and wrap. The model keeps the true number of every packet and gives the code under proof
only its 32-bit projection (`SeqArith.U32`), so each comparison that the C code makes is proved to mean what it is
meant to.

## How it is built

| module | what it models |
|---|---|
| `Wrappers` | an optional value |
| `SeqArith` | wrapped sequence numbers and the order `seq_diff` and `seq_compare` put on them |
| `CirBuf` | `src/cirbuf.c`, the growing circular buffer, an array and a mask |
| `Queue` | `src/queue.c`, the intrusive doubly linked queue, on real nodes |
| `WinFilter` | `src/win_filter.c`, the windowed minimum and maximum |
| `RedBlack`, `SackLinks`, `SackTree` | `src/udx_sack_tree.c`: shapes and paths as values, pointers as maps, and the class whose methods write the C code's pointers |
| `Receive` | what the receiving half must compute, as functions |
| `SackStore`, `Reassembly` | the sack blocks of one receiver, the fast and slow path, the drain and the SACK list of `send_ack`, proved equal to `Receive` |
| `Protocol`, `ProtocolSafety` | two endpoints and a network that drops, duplicates, delays and reorders; the invariant of every run and what it means |
| `WriteSums`, `Books`, `Writes` | the write queue: slicing at `bytes_acked + bytes_inflight`, acknowledging in any order, cancelling, and `on_ack`; its steps are those of `Protocol` |
| `Outbox`, `Sending` | the in-flight and retransmit queues, RACK, the retransmission timeout, tail-loss and zero-window probes, the one timer, reference counts |
| `Mtu` | the path MTU search |
| `Rate`, `Bbr` | delivery rate samples and the congestion controller |

The layers meet. `Reassembly.Reader.Incoming` and `Reassembly.Reader.SendAck` compute the receiver and the SACK list
that the runs of `Protocol` use. `Writes.Writer.Fill`, `SendBuilding`, `AckPacket` and `Write` take the steps of
`Protocol` (`Writes.StepsOfProtocol`). What `Sending.Sender.Process` asks of an incoming acknowledgement is proved of
every packet that can arrive in a run (`Sending.ArrivesHonest`), and `Sending.Sender.Acknowledge` computes what
`Protocol.Acknowledge` says. `Rate.Sampler.Process` goes from that acknowledgement through the outbox and the rate sample
to the controller of `Bbr`. `Reassembly.Reader` runs on the real `SackTree.Tree`.

## Standing assumptions

- Sequence numbers in use lie less than half a turn apart (`Protocol.InWindow`): the number and the acknowledgement of
  an arriving packet, and its SACK ranges, relative to where the endpoint stands.
- Callbacks do not re-enter the stream: `on_read`, `on_ack` and the others neither write nor destroy it.
- Writes are not empty, other than the one empty buffer `udx_stream_write_end` makes for itself. `Books` and `Writes`
  do without this assumption and say what goes wrong.
- `on_read` is set before data arrives; `udx_stream_set_seq` and `udx_stream_set_ack` are called before traffic.
- A packet is handed to the socket as a whole. In `Protocol` a send is one step; in `Sending` a send that does not
  complete at once holds a reference until it does.
- The loop clock does not go back.
- The peer runs the same protocol. Where a result needs that (`Sending.Sender.Acknowledge`, `Sending.Sender.Process`,
  `Rate.Sampler.Process`) the precondition is `Honest`, and `Sending.ArrivesHonest` proves it of every packet that can
  arrive in a run of `Protocol`. What one packet of a peer that does not can do to the rate sample is under Findings.

## Model

| member | source | states |
|---|---|---|
| ProtocolSafety.RunSafe | src/udx.c:887-1890 | the invariant of both directions and of closing holds at every moment of every run of two endpoints, for every loss, duplication and reordering: writing and slicing (893-938), receiving (1448-1497, 1710-1734), acknowledging (1307-1445, 1776-1823) |
| ProtocolSafety.Delivery | src/udx.c:887-1890 | at any moment of any run, in both directions, the bytes given to on_read are a prefix of the bytes written, in order, without gap or repetition, and remote_acked <= ack <= seq |
| ProtocolSafety.GracefulClose | src/udx.c:604-676 | both ways: EOF is reported only when the peer has written its last byte and all of it and END were consumed; a sender counts its stream as ended only once the peer has consumed everything |
| ProtocolSafety.OldestIsHeld | src/udx.c:1307-1341 | both ways: the packet at remote_acked is still in outgoing whenever anything is unacknowledged; no SACK ever takes it |
| ProtocolSafety.AcksAreHonest | src/udx.c:1690-1823 | every packet on the network acknowledges nothing beyond what was sent and never selectively acknowledges the packet it waits for |
| ProtocolSafety.TimeWaitSuffices | src/udx.c:2839-2868 | when both sides have ended, at least one wants TIME-WAIT; every END of one that does not acknowledges the peer's END |
| ProtocolSafety.LastEndCompletes | src/udx.c:1776-1811 | the END of an endpoint that skips TIME-WAIT completes the other endpoint's stream wherever it arrives |
| ProtocolSafety.SwapRun | src/udx.c:1592-1890 | the endpoints of a run can change roles, so what is proved of one direction holds of the other |
| ProtocolSafety.IncomingKeeps | src/udx.c:1448-1541 | an arriving packet, even an old, repeated or out-of-order one, keeps what is waiting the sender's packets, what was read the bytes of the packets below ack, and what was acknowledged received |
| ProtocolSafety.AcknowledgeKeeps | src/udx.c:1690-1823 | acknowledgements and SACK ranges, even overtaken ones, release only packets that some packet on the network says have arrived |
| Reassembly.Reader.Incoming | src/udx.c:1681-1734 | the block tree, the fast path, the slow path with its merging, the END mark and the drain together compute the receiver that Receive.Incoming says, for every packet less than half a turn away |
| Reassembly.Reader.Accept | src/udx.c:1448-1497 | a packet in line is given to on_read at once; any other is appended to, merged into or opened as a block, and one already held changes nothing |
| Reassembly.Reader.Adjacent | src/udx.c:1480-1492 | the next block is merged exactly if it begins where this one ends, and then it always has payloads to take over |
| Reassembly.Reader.Drain | src/udx.c:1710-1734 | the drain hands over the first block, payload by payload, exactly when it begins at ack, and leaves every other block alone |
| Reassembly.Reader.Sacks | src/udx.c:604-640 | the walk over the tree writes the maximal runs of waiting packets, lowest first, with gaps between them, as many as fit, in 32-bit form |
| Reassembly.Reader.SendAck | src/udx.c:604-676 | the acknowledgement carries ack and that list, and EOF is reported exactly if the END packet has been consumed |
| Reassembly.Reader.Layout | src/udx.c:1448-1497 | between packets: every block begins beyond ack, there are gaps between blocks, each block has exactly one payload for every number it spans, and together they hold exactly the packets waiting |
| SackTree.Tree.Insert | src/udx_sack_tree.c:94-169 | on real parent pointers and a sentinel: the block is added to a red-black search tree ordered by wrapped numbers, which stays one, and nothing else changes |
| SackTree.Tree.Remove | src/udx_sack_tree.c:188-345 | any block can be removed, with the successor taking its place and all cases of the repair; the tree stays a red-black search tree of exactly the other blocks |
| SackTree.Tree.Find | src/udx_sack_tree.c:12-30 | the search over wrapped numbers takes the path that the true numbers demand |
| SackTree.FoundExact | src/udx_sack_tree.c:12-30 | it ends at a block that contains the number or ends on it, if and only if there is one |
| SackTree.AdjacentFound | src/udx_sack_tree.c:6-30 | in every ordered tree, of two blocks that touch at a number the upper one is found if and only if the lower one is below it in the tree, and else the lower one |
| SackTree.Tree.Min | src/udx_sack_tree.c:172-183 | the block with the smallest true start, or none exactly if the tree is empty |
| SackTree.Tree.Next | src/udx_sack_tree.c:349-369 | the block with the smallest start beyond this one, or none if there is none beyond |
| SackTree.Tree.TurnLeft | src/udx_sack_tree.c:33-56 | the pointer writes of a rotation turn the tree the pointers form into the rotated one, wherever in the tree, and change neither owners nor numbers |
| SackTree.Tree.TurnRight | src/udx_sack_tree.c:59-82 | its mirror image |
| RedBlack.PlugRedBlack | src/udx_sack_tree.c:113-169 | a subtree and a path that are balanced and without red-red edges make a red-black tree |
| RedBlack.SettledFits | src/udx_sack_tree.c:233-345 | the rotation about a black sibling with a red far child makes up the black node that is missing below, and changes no block |
| Writes.Writer.Write | src/udx.c:2765-2870 | the buffers are queued whole and in order behind what was written before, with EPIPE after END and EINVAL without buffers; the write step of Protocol |
| Writes.Writer.Fill | src/udx.c:893-938 | slicing at bytes_acked + bytes_inflight, in any state that acknowledgements in any order can leave, moves exactly the next min(capacity, unsent) bytes of the stream into the packet: the Fill step of Protocol; END is flagged when the last buffer is used up |
| Writes.Writer.SendNewPacket | src/udx.c:887-952 | what is sent, when, and that a packet has bytes or END unless a probe finds nothing but empty writes: exactly then it has neither |
| Writes.Writer.AckPacket | src/udx.c:1406-1434 | acknowledging packets in any order keeps every counter, releases exactly that packet, and changes no byte of what is sent or unsent |
| Writes.Writer.ClearOutgoing | src/udx.c:206-265 | cancelling settles every byte of every write, whatever was acknowledged before; on_ack not yet called is called with ECANCELED, once; nothing stays queued |
| Writes.Writer.OnAckOnce | src/udx.c:174-204 | on_ack of a write is called exactly once, when its last byte is acknowledged, in whatever order, if its last buffer is not empty |
| Writes.Writer.CountersOrdered | include/udx.h:278-282 | bytes_queued >= bytes_packetized >= bytes_acked, with equality exactly when nothing is unsent, or nothing in flight |
| Writes.StepsOfProtocol | src/udx.c:828-952 | the states the class shows are those of the Write, WriteEnd, Fill and SendNew steps of Protocol |
| Writes.SoundWrite | src/udx.c:2813-2870 | whether a write is one of those for which on_ack comes exactly once in every run can be told from the buffers given |
| Writes.OneWrite | src/udx.c:1406-1434 | for every list of buffers a run, written, sliced, sent and acknowledged: on_ack is called once if and only if the last buffer is not empty or is the only one, and else again |
| Writes.AckedIsReceived | src/udx.c:1406-1434 | in every run, when on_ack has been called with status 0 every byte of the write is in packets and the peer has each of them |
| Books.Conserved | src/udx.c:893-938 | everything written is in packets, in the packet under construction, or in the queue, in that order |
| Books.SettleKeeps | src/udx.c:174-204 | settling the next slice of any packet, acknowledged or cancelled, keeps the whole account |
| Books.SettleFlows | src/udx.c:174-186 | after any acknowledgement bytes_inflight is what unacknowledged packets hold, and bytes_acked + bytes_inflight is all that was ever sliced |
| Books.CutFlows | src/udx.c:893-916 | so does slicing, and the slices carry exactly the front of what was written |
| Books.CallsOnce | src/udx.c:1406-1434 | slices settled in this order call on_ack exactly once if and only if the last one is not empty or is the only one |
| Books.SettledOnce | src/udx.c:1406-1434 | once a write is settled, whether on_ack was called once depends on the last slice settled and on nothing else |
| Books.AllSettled | src/udx.c:233-265 | with nothing queued and nothing in packets every write is settled and, unless its last buffer is an empty one among others, told so exactly once |
| Sending.Sender.Process | src/udx.c:1690-1864 | one incoming acknowledgement, from the window update to the timers: the packets stay shared out, counted, placed and timed; remote_acked moves exactly as it should; at most one recovery episode begins |
| Sending.Sender.RackScan | src/udx.c:1087-1145 | the scan that stops at the first packet sent too late marks exactly the packets that a full scan would, moves them to the retransmit queue in order, and returns the longest wait of all others |
| Sending.BreakMissesNothing | src/udx.c:1101-1106 | behind the packet it stops at, in order of transmission, no packet was sent before the latest delivered one |
| Sending.Sender.RackDetectLoss | src/udx.c:1087-1167 | a fast-recovery episode begins at a number beyond every earlier episode; a timeout is asked for only while data is outstanding |
| Sending.Sender.Rebuild | src/udx.c:1236-1276 | after a retransmission timeout the retransmit queue lists exactly the lost packets, by number, the oldest first; the in-flight queue is the rest |
| Sending.Sender.RtoTimeout | src/udx.c:1210-1282 | the whole callback keeps the partition, the counts and the timer, or closes the stream after too many timeouts in a row |
| Sending.Sender.TlpTimeout | src/udx.c:1011-1053 | whether new data goes out as the probe or the last packet again, partition, counts and holes are kept and the retransmission timer runs afterwards |
| Sending.Sender.ZwpTimeout | src/udx.c:1195-1207 | a zero-window probe runs only with the window closed, something to send and nothing outstanding: what the callback asserts |
| Sending.Sender.SendPackets | src/udx.c:955-987 | any number of retransmissions and new packets keeps the partition of the packets, their references and the account of what is queued, and leaves a timer running for what is outstanding |
| Sending.Sender.AckPacket | src/udx.c:1307-1445 | an acknowledged packet leaves exactly its queue and its reference; `sacks` counts the holes beyond remote_acked; the stream ends only with nothing held |
| Sending.Sender.AckUpTo | src/udx.c:1776-1790 | a cumulative acknowledgement releases exactly what is below it; what is delivered is what has left, but for the packet that ends the stream |
| Sending.Sender.AckRange | src/udx.c:1812-1823 | a SACK block releases exactly what is in it, and ends the stream exactly if that was the last the ending stream waited for |
| Sending.Sender.Acknowledge | src/udx.c:1774-1823 | an honest acknowledgement leaves exactly the packets beyond it and in no accepted block, never ends the stream by a block, counts every packet it takes, and in the window gives the state of Protocol.Acknowledge |
| Sending.ArrivesHonest | src/udx.c:1690-1823 | every packet that can arrive in a run is honest for the sender whose state the run shows, and in its window |
| ProtocolSafety.AcknowledgeExact | src/udx.c:1556-1562 | the wrapped comparisons release exactly the packets below the acknowledgement or in an accepted block |
| Sending.Sender.OnSent | src/udx.c:697-705 | a send that completes late, even after close, gives back its reference; a packet is freed when, and only when, nobody holds it |
| Sending.Sender.ClearOutgoing | src/udx.c:233-250 | closing releases every packet from the outbox: exactly those the socket still has live on |
| Sending.Sender.Settle | src/udx.c:222-250 | when the pending sends complete, in any order, every packet ever sent has been freed, and none twice |
| Outbox.LostShared | src/udx.c:1108-1142 | a lost packet moves from the in-flight to the retransmit queue, and `inflight` with it |
| Mtu.PathMtu.SendNew | src/udx.c:310-332 | a data packet becomes a probe exactly if one is wanted and the padding fits; it then has exactly the size searched for |
| Mtu.PathMtu.Acked | src/udx.c:1316-1336 | an acknowledged probe raises the MTU to its size, and no acknowledgement lowers it; fewer probes are left |
| Mtu.PathMtu.Lost | src/udx.c:335-351 | the third lost probe of a size ends the search; the probes to come are bounded |
| Mtu.PathMtu.WithinLink | src/udx.c:2678-2687 | the MTU stays within the link's if and only if the link carries the base size |
| Mtu.PathMtu.OneProbe | src/udx.c:310-351 | there is never more than one probe on its way, and none while another is wanted |
| CirBuf.CircularBuffer.Set | src/cirbuf.c:23-48 | it fails if and only if a key is stored exactly half a turn away, the size having overflowed to zero; else it is a map update on the array, however often the buffer grows, and the size is bounded by the window of keys in use |
| CirBuf.CircularBuffer.Get | src/cirbuf.c:51-54 | the map's value |
| CirBuf.CircularBuffer.Remove | src/cirbuf.c:57-65 | removal from the map, and the value removed |
| CirBuf.CircularBuffer.Replay | src/cirbuf.c:23-65 | over every run of insertions and removals the buffer is the map, and its size never exceeds the first size and twice the window of its keys |
| CirBuf.GrownLogBound | src/cirbuf.c:32-41 | the doubling loop ends at a power of two that separates the keys and is at most twice their circular distance; the 32-bit size overflows to zero if and only if they are half a turn apart |
| CirBuf.HalfTurnOverflows | src/cirbuf.c:32-41 | two keys half a turn apart overflow the size from any size on |
| CirBuf.MaskIsLow | src/cirbuf.c:24 | masking with size - 1 is taking the number modulo the size |
| Queue.List.Insert | src/queue.c:14-22 | the two-pointer insertion into a ring of real nodes is insertion at that place of the list |
| Queue.List.Unlink | src/queue.c:46-54 | unlinking removes exactly that node |
| Queue.List.SpliceTail | src/queue.c:75-84 | everything on the second queue moves behind the first, in order, for every second queue, the empty one included |
| WinFilter.RunExact | src/win_filter.c:60-135 | after every run over non-decreasing times each entry is the least sample since it was recorded, and the best is at most one window old |
| WinFilter.AgeFits | src/win_filter.c:61-63 | the 64-bit age that is stored in 32 bits is never truncated where it is computed |
| WinFilter.ForgetsRecentSample | src/win_filter.c:60-135 | more cannot be promised: for every window of four or more the answer can be larger than a sample two milliseconds old |
| WinFilter.MaxMirrorsMin | src/win_filter.c:96-114 | the maximum filter is the minimum filter on negated samples |
| WinFilter.Filter.Min | src/win_filter.c:117-135 | the in-place updates of the three entries compute that function |
| SeqArith.SeqDiffExact | src/internal.h:63-66 | the wrapped difference is the true one if and only if a 32-bit signed integer can hold that |
| SeqArith.SeqCompareTrue | src/internal.h:68-73 | for numbers less than half a turn apart the wrapped comparison is the true one, and equality too |
| SeqArith.HalfTurnReadsAsBehind | src/internal.h:63-73 | half a turn ahead reads as behind, in both directions |
| Bbr.Controller.OnAck | src/udx_bbr.c:533-554 | over any run, for any bandwidth estimate: the window is at least one, at most four in PROBE_RTT; STARTUP never comes back once full bandwidth is reached; only these phase changes happen |
| Bbr.Controller.UpdateMinRtt | src/udx_bbr.c:465-505 | PROBE_RTT is entered only when the estimate is ten seconds old, and left only 200 ms after at most four packets were in flight and a round trip later, with at least the window it began with |
| Bbr.Controller.CheckProbeRttDone | src/udx_bbr.c:442-450 | the way out leads to STARTUP or PROBE_BW according to whether full bandwidth was reached |
| Bbr.Controller.CheckFullBwReached | src/udx_bbr.c:400-418 | over the history of rounds and timeouts: full bandwidth is reached exactly when three rounds that the application did not limit have passed without growth by a quarter since the last with it |
| Bbr.NoGrowthSince | src/udx_bbr.c:400-418 | what the count means: that many rounds ago the estimate did not grow, and in no round since |
| Bbr.Controller.UpdateAckAggregation | src/udx_bbr.c:350-386 | the epoch's 32-bit sum and difference do not wrap: what the source asserts |
| Bbr.Controller.SetCwnd | src/udx_bbr.c:190-250 | an acknowledgement of p packets raises the window by at most p, or to what was saved or is in flight; packet conservation keeps it at what is in flight and p more |
| Bbr.Controller.OnRto | src/udx_bbr.c:609-615 | a timeout sets the loss state, begins a round and makes growth be measured anew; the window is one more than is in flight (src/udx.c:1221-1280) and the larger one is saved |
| Rate.Sampler.Acknowledge | src/udx_rate.c:34-110 | a sample is absent or counts at least the packets delivered; it is zero if and only if its one packet ended the stream by a SACK block and nothing had been delivered since that packet was last sent |
| Rate.Sampler.Process | src/udx.c:1774-1878 | every honest acknowledgement, taken through the outbox, gives the controller a sample for which the assert on the bandwidth holds, and the deliveries counted are the packets that left |
| Rate.ZeroSample | src/udx_bbr.c:337-339 | the failing case: one packet that ends the stream, acknowledged by a SACK block ten milliseconds later, gives zero packets over ten milliseconds |

## Findings

Results about the code that differ from what it, or its comments, promise. The first six come with a condition that
holds if and only if the code fails, or differs.

- `src/cirbuf.c:32-41`: storing a key exactly half a turn (2^31) from a stored one makes `size` overflow to zero; no
  other key does (`CirBuf.CircularBuffer.Set`, `CirBuf.GrownLogBound`, `CirBuf.HalfTurnOverflows`).
- `src/udx.c:1406-1434`: `on_ack` is called more than once for some writes. In every run it is called exactly once if the
  write's last buffer is not empty or is the only one (`Writes.Writer.OnAckOnce`, `Books.AllSettled`), and every other
  write has a run in which it is called again (`Writes.OneWrite`); the smallest is "x" and an empty buffer
  (`Books.TrailingEmptyBuffer`).
- `src/udx.c:887-952`: if only empty writes wait when a tail-loss probe is due, the probe takes a sequence number but has
  neither DATA nor END, which the receiver does not count; exactly then (`Writes.Writer.SendNewPacket`).
- `src/udx.c:1812-1823` and `src/udx_bbr.c:339`: a packet that ends the stream by a SACK block has been sampled but is not
  counted. If it is the only one of its acknowledgement and nothing has been delivered since it was last sent, the sample
  is zero, and the source's assert on the bandwidth fails if the interval is not; in no other case is it zero
  (`Rate.Sampler.Acknowledge`, `Rate.ZeroSample`). An honest peer never acknowledges like that
  (`Sending.Sender.Acknowledge`, `Rate.Sampler.Process`).
- `src/udx.c:2678-2687`: on a link with an MTU below 1200, and only there, more than the link's MTU is used: the search is
  off and 1200 stays (`Mtu.PathMtu.WithinLink`).
- `src/udx_sack_tree.c:6-11`: the comment says that of two blocks touching at a number the one that includes it is
  returned. It is if and only if the other one is below it in the tree (`SackTree.AdjacentFound`; both happen,
  `SackTree.AdjacentFindsFirstMet`). It does no harm: blocks never touch (`Reassembly.Reader.Layout`).
- `src/win_filter.c`: the filter is exact since the best sample was recorded (`WinFilter.RunExact`), not over the window:
  for every window of four or more a run shows it (`WinFilter.ForgetsRecentSample`). Which runs do is not characterised.
- `src/queue.c:75-84`: no failure, though it looks like one: the splice has no check for an empty second queue and needs
  none (`Queue.List.SpliceTail`).

## Left out

- libuv, sockets, timers' delivery, DNS and interface lookup: a timer callback is a method that may be called whenever
  its timer is the one set, and a packet is a value on the network.
- `Sending.Sender.ClearOutgoing` has the references; `Writes.Writer.ClearOutgoing` has the writes of the same function.
- Relays, the firewall callback, changing the remote, MESSAGE packets, and the slow path of destroying a stream.
- Re-entrant callbacks, as said above; with them the checks for a dead stream in the middle of a loop.
- Payload queues in `Reassembly`: a block's packets are a sequence there, `packets`, where the source has an intrusive
  queue. The queue is `Queue.List`, whose `Items()` that sequence stands for; `SpliceTail` is proved for every queue.
- Packets in `Sending` are records in a map by number, and its two queues are sequences of numbers; `CirBuf` and `Queue`
  prove the structures behind them. Updating a packet in place is not captured beyond its number.
- `Sending` takes as parameters what it does not compute: the reordering window, the minimum round trip, the receive
  window in packets, how many bytes each new packet gets (`Writes` computes that), and how many lost packets are MTU
  probes (`Mtu` tracks them). Pacing and the token bucket are left out, so a send may happen earlier in the model.
- `Sending` compares true numbers where the source compares wrapped ones; `Protocol` makes the wrapped comparisons, and in
  the window they agree (`Sending.Sender.Acknowledge`).
- `CirBuf.CircularBuffer.Set`: nothing is said of the table after a size that has overflowed to zero; what the source then
  writes lies outside its allocation.
- Smoothed round-trip time and the retransmission timeout value: arithmetic on samples that only moves timers.
- `Bbr.Controller.UpdateBw`: the windowed maximum over doubles is a parameter, any value not negative, because
  `src/win_filter_f64.c` is `src/win_filter.c` with doubles; the pacing rate is left out.
- `Bbr.Controller.SetCwnd`: the window is unbounded, without the wrap-around of 32-bit sums, and rates are reals, without
  the rounding of doubles.
- `hit_high_watermark` and `on_drain`.
- `Protocol.Next`: whether and when a packet is retransmitted is left open there, so nothing is said about progress.
