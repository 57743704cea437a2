# Dysco's kernel agent and its e1000 driver in Dafny

Dysco moves a live TCP session from one network path to another. Two *anchors* on the session agree, by
control messages over an unreliable channel, on a cutoff in each direction: bytes before the cutoff belong to
the old path, bytes after it to the new one. The agents rewrite every segment in place (addresses, ports,
sequence and ack numbers, SACK edges, timestamps, window) and repair the checksums incrementally. Service
chains are set up by a SYN that carries the hops still to visit. The repository also carries a patched e1000
driver, whose descriptor reservation, transmit ring and EEPROM writer have invariants of their own.

The project models these parts and proves what they promise, or exactly when they keep the promise.

* `Wrappers`, `Serial`, `Translation`, `Numbers` - 32-bit numbers, deltas, and the transparency of the new path.
* `PathChoice`, `ControlBlock`, `ReconfigBlocks` - the decisions taken inside the locked regions, as functions and
  as methods on control blocks, and the linked blocks of one anchor under any sequence of calls.
* `AnchorRuns` - one anchor under any sequence of packets and control messages whatever.
* `Reconfig`, `ReconfigSafety`, `ReconfigTheorems`, `AckTest` - both anchors, two paths and the control channel as a
  state machine in which everything ever sent may be lost, repeated and reordered; stream offsets are kept beside
  the 32-bit numbers; safety over all runs.
* `ReconfigCalls`, `ReconfigRefinement` - what each message, segment and ACK does to the linked blocks of an anchor,
  and why the blocks of both anchors go through the runs of that state machine, so that its theorems hold of them.
* `Checksum`, `ByteOrder`, `Options`, `Packet`, `Skb`, `Rewrite`, `Window` - option walking, incremental checksum
  repair and the in-place rewriting of a segment, up to the composed rewrite of output and input.
* `Sessions`, `Ports`, `SynPayload`, `Chain` - port pairs, the chain in the SYN payload, and chain setup over a
  network of hosts that may lose any copy of the SYN.
* `Powers`, `TxReserve`, `TxErrata`, `TxRing`, `TxRuns` - e1000: cutting frames into descriptors, the reservation
  bound, the hardware errata, the ring, and the ring under any interleaving of driver and hardware.
* `SpiChip`, `Eeprom`, `Ethtool` - the bit-banged serial EEPROM with page wrap-around, the driver's page
  writer and checksum word, and ethtool's byte ranges.

Conventions. Classes follow the kernel's objects; where a method only computes what a function says, the
promises are lemmas about that function. Packet words and addresses are in network order. The kernel repairs
checksums with values as the host loads them; that leaves the same field in either byte order
(`ByteOrder.HostRepair`, `ByteOrder.HostPartial`, `ByteOrder.HostComplete`), so repairs are modelled on network
values. Adding two addresses compares loaded values, and there the byte order matters: the header rewrites take it
as a parameter. `csum_fold`, `csum_unfold` and the kernel's own `inet_proto_csum_replace2/4` are not part of this
repository and are taken by their standard meaning, the last two by the same contract as the repository's own
`dysco_inet_proto_csum_replace4`.

## What the code does not do

Each of these is stated by a lemma that says exactly when the code meets the intent.

* `dysco_in_hdr_rewrite_csum` looks for the carry of the new addresses in `sub.dip`. All checksums come out
  right exactly when that finds the carry of `super.sip + super.dip`, all as the host loads them
  (`Rewrite.InRewrite`, `Rewrite.IpChange`). A packet for 10.0.0.5 in the session 10.0.0.1 to 10.0.0.2 is ruined on a
  little-endian host and survives on a big-endian one (`Rewrite.CarryMissedInLittleEndian`).
* Fields at odd offsets in the options are repaired as if they were even. A good segment stays good exactly when
  257 divides the sum of the changes of all such fields (`Rewrite.RewriteNumbers`, `Rewrite.SackRepairExactlyWhen`);
  this never makes up for a missed carry (`Rewrite.InRewrite`).
* `dysco_tcp_sack_csum` returns before the repair when it meets the end-of-list byte or a malformed option
  (`Skb.BatchedAgrees`, `Skb.BatchedSkipsRepair`). Nothing in the repository calls it.
* An initial timestamp of zero is taken for a session without timestamps, which are then not translated
  (`Numbers.LeftToRightIsTransparent`, `Numbers.RightToLeftIsTransparent`).
* The right anchor rescales incoming windows to the scale its own stack announced, though that stack reads them in
  the scale it was told (`Window.LeftToRightNeverEnlargesExactlyWhen`).
* The right anchor compares an untranslated ack number with its cutoff
  (`AckTest.RightSenderDecidesRightlyExactlyWhen`, `AckTest.RightSenderCanDecideWrongly`).
* A segment that ends exactly at the cutoff takes the new path even as a retransmission, so a cutoff already
  installed at a left anchor in SYN_SENT can sink again (`ReconfigTheorems.CutoffSinksExactlyWhen`,
  `ReconfigTheorems.InstalledCutoffCanSink`).
* SYN_ACK sent by an ESTABLISHED right anchor puts it back to SYN_RECEIVED
  (`AnchorRuns.RightPhaseForwardExactlyWhen`, `AnchorRuns.RightPhaseMovesBack`).
* A port pair taken under two separate lock holds can repeat (`Ports.ServedPairsCollideExactlyWhen`,
  `Ports.SplitPairRepeatsExactlyWhen`, `Ports.OneInBetweenCollides`).
* The proxy's window reckons the bytes that wait as if the other socket stood at the same place; once the receive
  position has wrapped past the copied one that is right exactly when it does (`Window.UnreadExactlyWhen`).
* On the 82544 the test that keeps a buffer from ending in an even dword forgets where in its page a fragment starts,
  so it does its job exactly when that is a multiple of eight bytes (`TxErrata.NeverHangsExactlyWhen`,
  `TxErrata.SkippedFragmentHangs`).
* The ninth EEPROM address bit is chosen from the first word of a transfer only (`Eeprom.OwnPlaceExactly`,
  `Eeprom.CrossingGoesAstray`).

## Model

| member | source | states |
|---|---|---|
| Serial.SerialOrderIsOffsetOrder | kernel/common/dysco_output.c:504-504 | The kernel's before and after on 32-bit numbers order any two numbers as the stream offsets they stand for, for every initial number and any number of wraps, while the offsets are less than 2^31 apart (RFC 9293, section 3.4). |
| Translation.ApplyMovesOffset | kernel/common/dysco_output.c:365-382 | A delta made from two initial numbers takes "first number plus k" to "second number plus k" for every offset k, both signs and wrap-around included. |
| Translation.RebaseMovesOffset | kernel/common/dysco_input.c:697-720 | The reverse shift used for cutoffs takes "outgoing number plus k" to "incoming number plus k". |
| Translation.ApplyRoundTrip | kernel/common/dysco_control_input.c:158-315 | The deltas computed for the two directions undo each other on every 32-bit number. |
| Numbers.SetupPairs | kernel/common/dysco_output.c:1178-1226 | After a SYN+ACK in either direction the output and input block of a session hold each other's initial numbers crosswise. |
| Numbers.SentNumbersArePackets | kernel/common/dysco_output.c:1195-1226 | Read as stream offsets, the numbers and timestamps that a SYN+ACK of the local stack leaves in the output block are those of the SYN+ACK itself, and those in the input block are those of the ACK that answers it. |
| Numbers.ReceivedNumbersArePackets | kernel/common/dysco_input.c:545-592 | The same for a SYN+ACK that comes in, with the two blocks exchanged. |
| Numbers.OptionsArePackets | kernel/common/dysco_output.c:1178-1226 | Timestamps, window scale (cut at 14) and SACK permission recorded are those of the SYN+ACK, the scale in the block of its own direction only; what it does not carry stays. |
| Numbers.NothingRewrittenBefore | kernel/common/dysco_output.c:1195-1226 | Before a reconfiguration neither block changes any number, edge or timestamp of any segment. |
| Numbers.NewPairsAgree | kernel/common/dysco_control_output.c:309-441 | On the new path whatever one anchor's output block puts on the wire is what the other's input block expects, in the left session's numbering, and to its own stack each anchor counts as the old session did. |
| Numbers.NewPairsAgreeOnOptions | kernel/common/dysco_control_output.c:309-441 | SACK is translated by all four new blocks or by none, timestamps by none when the left session has none, and the left pair keeps the left scale unchanged. |
| Numbers.LeftToRightIsTransparent | kernel/common/dysco_control_input.c:158-315 | Whatever the left stack says about offsets of its session (data, ack, SACK edges, timestamp, echo), the right stack reads the same offsets in its own session, for all initial numbers, if and only if the left initial timestamp is not zero, or there is no timestamp, or the initial timestamps happen to agree. |
| Numbers.RightToLeftIsTransparent | kernel/common/dysco_control_input.c:158-315 | The same from right to left, under the same condition. |
| Numbers.RightBlocksAreInverse | kernel/common/dysco_control_input.c:240-315 | The right anchor's input and output deltas are exact inverses on every 32-bit number: sequence against ack, timestamp against echo. |
| ControlBlock.CbOut.ChoosePathSeq | kernel/common/dysco_output.c:492-509 | Picks the block of the path that PickPathSeq names; ReconfigCalls.DataTakesNewPath says in stream offsets exactly when that is the new one. |
| ControlBlock.CbOut.ChoosePathAck | kernel/common/dysco_output.c:519-570 | Picks the path of an ACK, replaces its number by the cutoff where the code caps it, counts it, and changes nothing else. |
| ControlBlock.CbOut.OutTranslate | kernel/common/dysco_output.c:585-650 | The locked region and the rewriting of both numbers in every state, for data and ACKs; what the region decides is said exactly by ReconfigCalls.DataTakesNewPath, AckTakesNewPath, DataLeaves and AckLeaves. |
| ControlBlock.CbOut.RecordSynAckSent | kernel/common/dysco_output.c:1178-1226 | Leaves in both blocks what SynAckSent says, of which Numbers.SentNumbersArePackets and OptionsArePackets say that it is what the packet says. |
| ControlBlock.CbIn.RecordSynAckReceived | kernel/common/dysco_input.c:545-592 | The same for a SYN+ACK that comes in. |
| ControlBlock.CbOut.ComputeDeltasOut | kernel/common/dysco_control_input.c:158-228 | Fills the right anchor's output block, window scales included, with the numbers the transparency and window lemmas are about. |
| ControlBlock.CbIn.ComputeDeltasIn | kernel/common/dysco_control_input.c:240-315 | Fills the right anchor's input block likewise. |
| ControlBlock.CbOut.OutputSyn | kernel/common/dysco_control_output.c:309-441 | The left anchor's first SYN: a fresh block linked both ways with the old one, its input block, both two_paths flags, and the state SYN_SENT. |
| ControlBlock.CbOut.ReplaceRightA | kernel/common/dysco_control_output.c:214-250 | The right anchor forks to SYN_RECEIVED and names its cutoff in the left anchor's numbering. |
| ControlBlock.CbOut.ReplaceLeftA | kernel/common/dysco_control_output.c:263-286 | The left anchor becomes ESTABLISHED from SYN_SENT only, and names its cutoff. |
| ControlBlock.CbOut.ReceiveSynAck | kernel/common/dysco_control_input.c:518-548 | SYN_ACK installs the cutoff it carries unless the anchor is already ESTABLISHED. |
| ControlBlock.CbOut.ReceiveAck | kernel/common/dysco_control_input.c:563-620 | ACK installs the rebased cutoff and ends the handshake at the right anchor, once; it is ignored before the fork, after the end, and with state transfer. |
| ControlBlock.CbIn.TwoPathsDataSeg | kernel/common/dysco_input.c:683-744 | A new-path segment sets or lowers the old block's temporary cutoff to its rebased start; old-path segments change nothing. |
| ControlBlock.CbIn.TwoPathsAck | kernel/common/dysco_input.c:614-673 | An ACK that reaches the cutoff ends the use of the old path and clears the flag; with state transfer only the state decides. |
| ReconfigBlocks.Reconfiguration.SendSyn | kernel/common/dysco_control_output.c:309-441 | On linked blocks: the first SYN makes a new pair, a resent one changes nothing, and output and input blocks of both paths name each other afterwards. |
| ReconfigBlocks.Reconfiguration.ReceiveSyn | kernel/common/dysco_control_input.c:325-452 | The right anchor's new pair with its deltas, linked to the old block, which has not forked yet; a retransmission changes nothing. |
| ReconfigBlocks.Reconfiguration.SendSynAck | kernel/common/dysco_control_output.c:214-250 | Keeps the links: the old block forks to the pair that DYSCO_SYN made, and only the old one is on the old path. |
| ReconfigBlocks.Reconfiguration.SendSegment | kernel/common/dysco_output.c:585-650 | A segment leaves by one of the two linked blocks with its numbers translated by that block; ReconfigRefinement.DataOnWire and AckOnWire say that this is what the two-anchor system puts on the way. |
| ReconfigBlocks.Reconfiguration.HandleAll | kernel/common/dysco_control_input.c:475-668 | Any sequence of segments, ACKs and control messages, first or repeated, keeps every link between the blocks and leaves what Called says call by call, which the lemmas of ReconfigCalls say exactly. |
| ReconfigBlocks.BlocksRunTheAnchor | kernel/common/dysco_input.c:798-813 | Calls on the blocks are events of one anchor, so the theorems of AnchorRuns hold of them; which call is which event is pinned by ReconfigCalls. |
| ReconfigBlocks.BlocksCapAtMostTwo | kernel/common/dysco_output.c:528-567 | So the blocks of a fresh session cap two ACKs at most, whatever reaches them without state transfer. |
| ReconfigCalls.SynLeavesLeft | kernel/common/dysco_control_output.c:309-441 | The first DYSCO_SYN forks the left anchor to SYN_SENT with both flags up; a resent one changes nothing. |
| ReconfigCalls.SynReachesRight | kernel/common/dysco_control_input.c:325-452 | The first DYSCO_SYN that comes in makes the right anchor's pair and raises its flag without forking; a retransmission changes nothing. |
| ReconfigCalls.SynAckLeavesRight | kernel/common/dysco_control_output.c:233-240 | DYSCO_SYN_ACK, first or resent, forks the right anchor to SYN_RECEIVED. |
| ReconfigCalls.SynAckReachesLeft | kernel/common/dysco_control_input.c:518-548 | DYSCO_SYN_ACK installs its cutoff at a left anchor that is not ESTABLISHED and changes nothing else. |
| ReconfigCalls.AckMessageLeavesLeft | kernel/common/dysco_control_output.c:263-286 | DYSCO_ACK makes a left anchor in SYN_SENT ESTABLISHED, unless state is transferred. |
| ReconfigCalls.AckMessageReachesRight | kernel/common/dysco_control_input.c:563-620 | DYSCO_ACK that names byte k in the wire's numbering installs byte k in the right anchor's own and makes it ESTABLISHED, exactly when it has forked, is not ESTABLISHED yet and transfers no state. |
| ReconfigCalls.TransferredReaches | kernel/common/dysco_control_input.c:627-643 | DYSCO_STATE_TRANSFERRED switches a left anchor in SYN_SENT and every right anchor. |
| ReconfigCalls.NewPathDataReaches | kernel/common/dysco_input.c:683-744 | A new-path segment that starts at byte k sets the cutoff to k, or lowers it to k, exactly while the handshake is open. |
| ReconfigCalls.OldPathAckReaches | kernel/common/dysco_input.c:627-645 | An old-path ACK ends the use of the old path and lowers the flag exactly when it reaches the cutoff; with state transfer only the state decides, and only the flag moves. |
| ReconfigCalls.NewPathAckReaches | kernel/common/dysco_input.c:650-671 | The same for a new-path ACK, where state transfer decides only once ESTABLISHED. |
| ReconfigCalls.NothingWatched | kernel/common/dysco_input.c:811-835 | With the flag down nothing that comes in is noted. |
| ReconfigCalls.DataLeaves | kernel/common/dysco_output.c:600-650 | Data that ends before byte k moves the cutoff up to k exactly on one path and at a left anchor in SYN_SENT; it changes nothing else. |
| ReconfigCalls.AckLeaves | kernel/common/dysco_output.c:528-567 | A pure ACK counts exactly when it is capped, and from the second one on the new-path flag is up. |
| ReconfigCalls.DataTakesNewPath | kernel/common/dysco_output.c:492-509 | In stream offsets, exactly when a data segment takes the new path, for every anchor, phase and flag. |
| ReconfigCalls.AckTakesNewPath | kernel/common/dysco_output.c:519-570 | The same for a pure ACK, and that it keeps its number exactly when it is not capped, else says the cutoff. |
| ReconfigRefinement.StepSimulates | kernel/common/dysco_control_input.c:475-668 | Every step of the two-anchor system is a call on one anchor's linked blocks, and after it both anchors' blocks are in the system's next state. |
| ReconfigRefinement.BlocksRunTheSystem | kernel/common/dysco_control_input.c:475-668 | Both anchors' blocks go through every run of the system, so its invariant and all its theorems hold of the blocks. |
| ReconfigRefinement.DataOnWire | kernel/common/dysco_output.c:585-650 | What leaves the sending anchor's blocks, path and number, is what the system's step puts on that path. |
| ReconfigRefinement.AckOnWire | kernel/common/dysco_output.c:585-650 | The same for the receiving anchor's ACKs. |
| ReconfigRefinement.MessagesOnWire | kernel/common/dysco_control_output.c:242-279 | The cutoffs that the blocks name in SYN_ACK and ACK are those the step hands to the network. |
| ReconfigRefinement.BlocksAgreeOnCutoff | kernel/common/dysco_control_input.c:543-616 | Of the blocks: each delivery of the sender's message leaves the sender's final cutoff in the receiver's old block, in its own numbering, and no byte at or past it ever left on the old path. |
| ReconfigRefinement.RunBlocks | kernel/common/dysco_control_input.c:475-668 | The linked objects themselves, handed the calls of a whole run, end in its last state with all links intact. |
| AnchorRuns.CapCounter | kernel/common/dysco_output.c:528-567 | In every sequence of events without state transfer the counter equals the number of capped ACKs, is at most 2, and the new-path flag is up exactly when it is 2. |
| AnchorRuns.AtMostTwoCapped | kernel/common/dysco_output.c:528-567 | At most two ACKs are ever capped, whatever arrives and whenever. |
| AnchorRuns.FlagsStay | kernel/common/dysco_output.c:528-567 | No flag of an anchor is ever taken back over any further events, and the number of capped ACKs does not shrink. |
| AnchorRuns.AcksSwitchForGood | kernel/common/dysco_output.c:528-567 | Once two ACKs were capped, every later pure ACK takes the new path with its own number. |
| AnchorRuns.DataSwitchesForGood | kernel/common/dysco_output.c:499-502 | Once a forked anchor has given up the old path, every later data segment takes the new one without state transfer, whatever arrives in between and whatever its number. |
| AnchorRuns.OldPathAcksAreCapped | kernel/common/dysco_output.c:528-567 | With a valid cutoff a pure ACK leaves on the old path unchanged below the cutoff, otherwise as the cutoff itself and only while fewer than two were capped; on the new path it keeps its number. |
| AnchorRuns.LeftPhaseForward | kernel/common/dysco_control_output.c:263-286 | Under any repetition of the left anchor's events its state only moves ONE_PATH, SYN_SENT, ESTABLISHED. |
| AnchorRuns.RightPhaseDropsExactlyWhen | kernel/common/dysco_control_output.c:233-240 | In any sequence of the right anchor's events, a step takes the phase back if and only if it sends SYN_ACK while ESTABLISHED, and then to SYN_RECEIVED. |
| AnchorRuns.RightPhaseForwardExactlyWhen | kernel/common/dysco_control_output.c:233-240 | The phase moves forward only over a whole run if and only if no SYN_ACK leaves while ESTABLISHED. |
| AnchorRuns.RightPhaseMovesBack | kernel/common/dysco_control_output.c:233-240 | A concrete sequence in which that happens and all packets return to the old path. |
| AnchorRuns.SwitchMeansEstablished | kernel/common/dysco_output.c:496-498 | With state transfer a left anchor is ESTABLISHED if and only if STATE_TRANSFERRED arrived after it had forked. |
| AnchorRuns.TransferSwitchesOnce | kernel/common/dysco_control_input.c:627-643 | With state transfer the data path's output is a prefix on the old path and a suffix on the new one, and the switch is at STATE_TRANSFERRED. |
| ReconfigSafety.DataRoutes | kernel/common/dysco_output.c:492-509 | How far a data segment moves the cutoff and which path it takes, in stream offsets: before the freeze the old path, afterwards the old path only below the cutoff. |
| ReconfigSafety.AckRoutes | kernel/common/dysco_output.c:519-570 | Which ACKs leave on the old path, and with which number, in stream offsets. |
| ReconfigSafety.MessageNamesCutoff | kernel/common/dysco_control_output.c:242-248 | The cutoff in SYN_ACK or ACK, rebased by its receiver, is the sender's frozen cutoff in the receiver's numbering. |
| ReconfigSafety.StepKeeps | kernel/common/dysco_control_input.c:475-668 | Every step of the system (sending, relaying, delivery, ACKs, every control message, lost or repeated) keeps the invariant of handshake, data, cutoff and old ACKs. |
| ReconfigTheorems.RunInv | kernel/common/dysco_control_input.c:475-668 | The invariant holds in every state of every run. |
| ReconfigTheorems.RunAdvances | kernel/common/dysco_output.c:600-650 | Over every run the cutoff only grows, and a frozen cutoff stays; traffic and received bytes only grow. |
| ReconfigTheorems.OldPathAcksStayBelowCutoff | kernel/common/dysco_output.c:519-570 | No ACK that ever left on the old path acknowledges a data byte at or past the peer's cutoff, then or at any later time, under any loss and reordering; its number is the one the old session expects. |
| ReconfigTheorems.OldPathDataStaysBelowCutoff | kernel/common/dysco_output.c:600-650 | No data segment that ever left on the old path ends past the cutoff, then or at any later time. |
| ReconfigTheorems.FrozenCutoffSplitsPaths | kernel/common/dysco_output.c:492-509 | Before the freeze the new path is unused; from then on the cutoff keeps its value and every segment that ends at or past it takes the new path in the wire's numbering. |
| ReconfigTheorems.MessageCopiesAgree | kernel/common/dysco_control_output.c:242-279 | All copies of SYN_ACK, and all copies of ACK, carry the same cutoff. |
| ReconfigTheorems.InstalledCutoffIsPeersCutoff | kernel/common/dysco_control_input.c:543-616 | Each delivery of the sender's message, first or repeated, installs exactly the peer's final cutoff, which is frozen by then. |
| ReconfigTheorems.InstalledCutoffNeverPassesPeers | kernel/common/dysco_control_input.c:543-616 | Afterwards the receiver's cutoff never rises past the peer's, and at an ESTABLISHED right anchor it stays exact. |
| ReconfigTheorems.CutoffSinksExactlyWhen | kernel/common/dysco_input.c:697-741 | An installed cutoff changes on a new-path segment if and only if the handshake is open at this anchor and the segment starts below it; then it becomes the segment's start. |
| ReconfigTheorems.InstalledCutoffCanSink | kernel/common/dysco_output.c:504-504 | A run in which the left anchor installs the exact cutoff and a retransmission takes it back to the first byte. |
| ReconfigTheorems.NewPathDataIsTransparent | kernel/common/dysco_input.c:327-344 | In every run the receiving stack sees its own initial number plus the stream offset in every new-path segment. |
| ReconfigTheorems.DeltasOfRightBlocks | kernel/common/dysco_control_input.c:158-315 | The deltas of the system are those the right anchor fills into its blocks. |
| ReconfigTheorems.RunAcksInv | kernel/common/dysco_output.c:519-570 | In every run every ACK under way, on either path, speaks only for bytes the receiver has. |
| ReconfigTheorems.OldPathAbandonedOnlyWhenDrained | kernel/common/dysco_input.c:614-673 | When an ACK in the sender's own numbering makes it give up the old path, the receiver has every byte below the cutoff. |
| ReconfigTheorems.OldPathAbandonedExactlyWhen | kernel/common/dysco_input.c:639-642 | While the sender watches, an ACK in its own numbering makes it give up the old path and lowers the flag if and only if it reaches the cutoff. |
| ReconfigTheorems.NoOldDataOnceGivenUp | kernel/common/dysco_output.c:499-502 | In every run, from the state on in which the sender with a frozen cutoff has given up the old path, no further data leaves on it. |
| AckTest.NewPathAcksReachCutoff | kernel/common/dysco_output.c:519-570 | With a right sender and a TCP that acknowledges its whole prefix, every ACK that ever is on the new path acknowledges everything below the cutoff, in every run. |
| AckTest.UntranslatedAckTest | kernel/common/dysco_input.c:665-665 | What a sending right anchor's test answers on any ACK in any run, with both initial numbers in it. |
| AckTest.RightSenderDecidesRightlyExactlyWhen | kernel/common/dysco_input.c:665-665 | It decides rightly on an ACK in a run if and only if the difference of the two initial numbers and the distance of the ACK from the cutoff together stay below 2^31. |
| AckTest.RightSenderCanDecideWrongly | kernel/common/dysco_input.c:665-665 | A run of ten steps, in every configuration, in which an ACK of everything makes the sender give up the old path if and only if the left initial number lies less than 2^31 ahead of the right one. |
| Checksum.RepairIsRecomputation | kernel/common/dysco.h:665-680 | The repaired field is accepted exactly when the old one was if the words grew by the difference, and then equals the field computed from scratch; a wrong difference is always rejected (RFC 1624, section 3). |
| Checksum.Replaced4IsAdjusted | kernel/common/dysco.h:665-680 | The 64-bit sum, the two folds and the final fold lose no carry: the result is the field less the difference modulo 65535, for all operands. |
| Checksum.PartialResidue | kernel/common/dysco.h:731-743 | The CHECKSUM_PARTIAL branch adds exactly the difference to the pseudo-header sum. |
| Checksum.CompleteResidue | kernel/common/dysco.h:722-729 | The CHECKSUM_COMPLETE branch subtracts exactly the difference from skb->csum. |
| Checksum.CarryTest | kernel/common/dysco_input.c:466-473 | Adding two addresses and testing an operand for the carry gives their one's complement sum if and only if the tested operand finds the carry. |
| ByteOrder.Swap32Residue | kernel/common/dysco_input.c:466-473 | Loading an address in the other byte order multiplies it by 256 modulo 65535, and twice is not at all. |
| ByteOrder.HostRepair | kernel/common/dysco.h:665-680 | The field left by the arithmetic on loaded values is the one left by the arithmetic on network values, in either byte order (RFC 1071, section 2). |
| ByteOrder.HostPartial | kernel/common/dysco.h:731-743 | The same for the pseudo-header sum, where zero and minus zero must not be confused. |
| ByteOrder.HostComplete | kernel/common/dysco.h:722-729 | The same for the residue of skb->csum. |
| ByteOrder.HostSumError | kernel/common/dysco_input.c:466-473 | The sum of two loaded addresses stands for both but for the carry that the comparison of loaded values misses or makes up, 1 or 256 in network order. |
| ByteOrder.ErrorsShow | kernel/common/dysco_input.c:458-495 | A missed carry and 255 times the odd changes never cancel. |
| Packet.BodyChangeKeeps | kernel/common/dysco.h:702-744 | A repair for a change of the segment's own words keeps each mode's promise if and only if it held before, and yields the recomputed checksum. |
| Packet.PseudoChangeKeeps | kernel/common/dysco.h:702-744 | A repair for a change of the pseudo-header keeps each mode's promise if and only if the pseudo-header grew by the difference. |
| Packet.SumsMove | kernel/common/dysco.h:702-744 | Over any sequence of replacements a full checksum moves against all of them, a partial field follows the pseudo-header ones only, and skb->csum moves against the pseudo-header ones only. |
| Packet.ModesKeepTheirMeaning | kernel/common/dysco.h:702-744 | After any sequence of replacements checksums that kept their promise keep it if and only if the mode cannot see by how much the words changed more than was replaced; in particular when they changed by just that. |
| Options.DecodeIgnoresContents | kernel/common/dysco.h:799-835 | Bytes inside option contents do not change how an option list is decoded. |
| Options.ShiftKeepsOptions | kernel/common/dysco_output.c:219-284 | After SACK rewriting the bytes decode to the same option list, every edge is shifted once, and every byte outside the edges is as before (RFC 2018, section 3). |
| Options.FieldMoves | kernel/common/dysco_output.c:259-262 | A 32-bit field at an even offset moves the sum of the segment's words by its own change; at an odd offset by 256 times the change. |
| Options.ShiftMovesSum | kernel/common/dysco_output.c:219-284 | Shifting any number of edges moves the sum of the words by their growth, and by 255 times more of those at odd offsets. |
| Skb.TsPositionIsFirst | kernel/common/dysco.h:799-835 | The position returned is that of the first well-formed timestamp option of the decoded list. |
| Skb.Skb.Replace4 | kernel/common/dysco.h:702-744 | The helper on th->check and skb->csum in all three modes. |
| Skb.Skb.GetTsOption | kernel/common/dysco.h:799-835 | The walker finds the first timestamp of the reference decoder's list on any bytes, reading at most one byte past the options. |
| Skb.Skb.ParseSynOptions | kernel/common/dysco_tcp.c:94-261 | The SYN parsers keep exactly what a pass over the reference decoder's list keeps, on any bytes. |
| Skb.LastOptionWins | kernel/common/dysco_tcp.c:94-261 | What the SYN parsers keep of SACK permission, window scale (cut at 14) and timestamps is what the last well-formed option of the kind says, timestamps in a SYN+ACK only. |
| Skb.Skb.TcpSack | kernel/common/dysco_output.c:219-284 | In place, every edge of every well-formed SACK option of the decoded list is shifted, nothing else, with the checksum adjusted by the growth. |
| Skb.Skb.TcpSackCsum | kernel/common/dysco_output.c:120-208 | The batched variant writes the same bytes, and its one repair of the folded sums equals the repairs edge by edge unless it leaves early. |
| Skb.BatchedAgrees | kernel/common/dysco_output.c:138-150 | For the bytes of any segment, batched and per-edge repair leave the same field if and only if the walk ends with no bytes left, nothing is to repair, or the repair changes nothing. |
| Skb.BatchedSkipsRepair | kernel/common/dysco_output.c:138-139 | One SACK block closed by the end-of-list byte: the batched walk leaves the old field. |
| Rewrite.RewriteSeq | kernel/common/dysco_output.c:365-382 | The sequence number is translated and the checksum promise holds exactly if it held before. |
| Rewrite.RewriteAck | kernel/common/dysco_output.c:391-413 | The ack number and, where permitted, all SACK edges are translated; a good segment stays good if and only if 257 divides the growth of the edges at odd offsets, or the device fills the field in. |
| Rewrite.CapAck | kernel/common/dysco_output.c:543-549 | A capped ACK carries the cutoff and a recomputed checksum. |
| Rewrite.RewriteTs | kernel/common/dysco_output.c:422-456 | The first timestamp option and its echo are translated in place, nothing else (RFC 7323, section 3.2); at an odd offset a good segment stays good if and only if 257 divides the sum of both changes. |
| Rewrite.RewriteWnd | kernel/common/dysco_output.c:466-482 | The window is rescaled with the 16-bit cut, the checksum promise kept. |
| Rewrite.FixRcvWindow | kernel/common/dysco_output.c:1257-1306 | The throttled window: the last two tests alone decide, all earlier assignments are overwritten; the checksum promise is kept. |
| Rewrite.RewriteHeader | kernel/common/dysco_output.c:324-356 | After the addresses and ports are replaced, the IP checksum and the TCP checksum in every mode are right if and only if the carry test on loaded values finds the carry of the new addresses, in either byte order. |
| Rewrite.TcpAfterShift | kernel/common/dysco_output.c:219-284 | What the segment says after SACK rewriting differs in its edges only, each shifted. |
| Rewrite.TcpAfterTs | kernel/common/dysco_output.c:422-456 | What the segment says after timestamp rewriting differs in its timestamp and echo only. |
| Rewrite.RewriteNumbers | kernel/common/dysco_output.c:653-662 | The composed rewrite of sequence, ack, edges, timestamps and window says what the specification of the translation says and keeps the option list; a good segment stays good if and only if 257 divides the sum of the changes of all fields at odd offsets, or the device fills the field in. |
| Rewrite.AlignedNeverDrifts | kernel/common/dysco_output.c:391-456 | With all edges and the timestamp at even offsets that sum is zero. |
| Rewrite.OutRewrite | kernel/common/dysco_output.c:653-703 | The whole output rewrite: new five-tuple, translated numbers, an accepted IP checksum in either byte order, and a TCP checksum that is good under exactly that condition and then equals recomputation from scratch. |
| Rewrite.IpChange | kernel/common/dysco_input.c:466-477 | The IP checksum repaired on loaded values is accepted if and only if the comparison with the tested operand finds the carry, in either byte order. |
| Rewrite.CarryMissedInLittleEndian | kernel/common/dysco_input.c:473-473 | For 10.0.0.1, 10.0.0.2 and sub.dip 10.0.0.5 every accepted IP checksum turns into a rejected one on a little-endian host and stays accepted on a big-endian one. |
| Rewrite.InRewrite | kernel/common/dysco_input.c:458-495 | The whole input rewrite: numbers translated; a good segment stays good if and only if comparing sub.dip finds the carry of super.sip + super.dip as the host loads them and 257 divides the odd changes (or the device fills the field in). |
| Rewrite.LeftToRight | kernel/common/dysco_input.c:458-495 | A segment of the left stack, rewritten by both anchors, says the same offsets in the right stack's session if and only if the timestamps fit, and its checksums arrive good under exactly the right anchor's condition, whatever the byte order of the left one. |
| Rewrite.OddFieldRepair | kernel/common/dysco_output.c:391-456 | One repair of a field at an odd offset keeps a good segment good if and only if 257 divides the change, or the device fills the field in. |
| Rewrite.SackRepairExactlyWhen | kernel/common/dysco_output.c:219-284 | dysco_tcp_sack as a whole keeps a good segment good if and only if 257 divides the sum of the changes of the edges at odd offsets. |
| Rewrite.OddErrorsCancel | kernel/common/dysco_output.c:249-262 | Two edges whose changes are not divisible and whose errors cancel. |
| Window.RescalingNeverEnlarges | kernel/common/dysco_output.c:466-482 | Rescaling advertises at most the original bytes, through the 16-bit truncation, for input scales up to 14 and any output scale. |
| Window.RescalingIsExactWhenItFits | kernel/common/dysco_output.c:466-482 | It loses less than one unit of the new scale if and only if the new field can hold the value. |
| Window.ThrottlingNeverEnlarges | kernel/common/dysco_output.c:1257-1306 | Throttling never advertises more than before, nor more than 16 KB. |
| Window.ThrottlingLosesLittle | kernel/common/dysco_output.c:1294-1303 | With at most 16 KB waiting it loses less than one unit of the smaller of 16 KB and the original bytes; with more the window is closed. |
| Window.UnreadExactlyWhen | kernel/common/dysco_output.c:1279-1283 | The waiting bytes are reckoned rightly if and only if the receive position has not wrapped past the copied one or both sockets stand at the same place. |
| Window.PipelineNeverEnlarges | kernel/common/dysco_control_input.c:215-225 | From right to left, with the scales the control messages put into the blocks, throttled or not, the left stack never reads more bytes than the right one offers. |
| Window.LeftToRightNeverEnlargesExactlyWhen | kernel/common/dysco_control_input.c:302-312 | From left to right no window is read as larger if and only if the scale the right stack was told is at most the one it announced itself (or both ends have none). |
| Ports.PortAllocator.AllocateLocalPort | kernel/common/dysco.h:597-610 | The n-th local port in closed form, always 10001 or more, with the counter's borrow at the end of a round. |
| Ports.PortAllocator.AllocateNeighborPort | kernel/common/dysco.h:578-586 | The neighbour port in closed form, always 2000 to 10000. |
| Ports.PortAllocator.AllocatePair | kernel/common/dysco_output.c:900-901 | The pair the output path takes, local port above and neighbour port at most 10000. |
| Ports.PairsDiffer | kernel/common/dysco_main.c:55-61 | No pair of ports repeats as long as the neighbour port lasts. |
| Ports.PortAllocator.Serve | kernel/common/dysco.h:578-610 | What the two functions return under any interleaving of calls, in closed form. |
| Ports.SplitPairServed | kernel/common/dysco_output.c:900-901 | A pair whose halves come from two calls of an interleaving is the closed form for the local ports taken in between. |
| Ports.SplitPairsCollideExactlyWhen | kernel/common/dysco.h:578-610 | Two pairs whose halves were taken apart are equal if and only if they are whole rounds apart and the rounds that ended inside them make up for these, for all pairs while the neighbour port lasts. |
| Ports.ServedPairsCollideExactlyWhen | kernel/common/dysco.h:578-610 | The same for any two pairs of any interleaving of calls. |
| Ports.SplitPairRepeatsExactlyWhen | kernel/common/dysco.h:578-610 | A split pair is taken again by an undisturbed session if and only if the allocations in between reach the end of the round. |
| Ports.OneInBetweenCollides | kernel/common/dysco.h:578-610 | A run of the allocator in which one session between the halves of a pair makes it come again. |
| Ports.InputKeysDiffer | kernel/common/dysco_output.c:919-973 | Sub-sessions between two hosts have distinct keys in the input table, whichever end opened them. |
| Ports.LookupRecovers | kernel/common/dysco_input.c:259-271 | Lookup in the input table finds the original session of every sub-session ever opened between the two hosts. |
| SynPayload.AppendedIsRead | kernel/common/dysco_input.c:56-72 | The receiver of a SYN without data reads back the session and the chain that were appended, byte by byte, and strips exactly what was appended. |
| Chain.Agent.InsertOut | kernel/common/dysco_output.c:919-991 | The output block and its reversed input block enter the tables; existing keys keep their values. |
| Chain.Agent.InsertInput | kernel/common/dysco_input.c:82-248 | The input block, its reversed output block, and, when hops remain, the pending block with the rest of the chain. |
| Chain.Agent.HandleMb | kernel/common/dysco_output.c:1111-1147 | A packet that leaves a middlebox: the pending block gets its sub-session and moves to the output table, the chain is appended again. |
| Chain.Agent.Send | kernel/common/dysco_output.c:1395-1488 | Output at one host in all cases: known session, pending, policy match, no match; Chain.SynCarriesChain and ChainRidesExactlyWhen say what leaves. |
| Chain.Agent.Receive | kernel/common/dysco_input.c:753-849 | Input at one host in all cases: known sub-session, retransmitted SYN, new SYN, other packets. |
| Chain.SynOverLink | kernel/common/dysco_input.c:505-535 | One link: the next host reads exactly the remaining chain, strips it, and its stack sees the original SYN. |
| Chain.ChainRidesExactlyWhen | kernel/common/dysco_output.c:1156-1240 | A chain is appended exactly to an initial SYN, first or resent, of a session with a chain, and to the first packet of a pending session; every other payload stays. |
| Chain.SynCarriesChain | kernel/common/dysco_output.c:1229-1240 | A SYN sent again carries the session and the whole chain as the first one did, and changes no table. |
| Chain.SynArrives | kernel/common/dysco_input.c:773-808 | At the next host the stack gets the original SYN whether an earlier copy arrived or was lost, and the host has the session recorded then. |
| Chain.AnyTransmission | kernel/common/dysco_output.c:1111-1147 | From any state that earlier copies left, a SYN lost anywhere reaches the hosts it reaches in order with the right chains, and leaves a state from which the next one can go on. |
| Chain.ForwardGrows | kernel/common/dysco_output.c:985-991 | However a SYN travels, no entry of an input or output table is lost or changed. |
| Chain.AnyCopy | kernel/common/dysco_output.c:1395-1447 | The same for a copy that any middlebox on the way sends on: it leaves a state from which every other copy can go on. |
| Chain.SynVisitsHopsInOrder | kernel/common/dysco_output.c:1111-1147 | For a chain of any length, after any number of earlier copies sent, lost anywhere, delivered or overtaking each other, the SYN visits the hops in policy order, hop i reads the chain from i on, every stack sees the original session, and all neighbours end up linked. |
| Chain.ChainCarriesBothWays | kernel/common/dysco_input.c:192-248 | Afterwards every packet of the session but an initial SYN crosses every link in both directions and every stack sees the original session; the tables stay. |
| TxReserve.PiecesPartition | kernel/e1000/e1000_main.c:2920-2971 | The pieces of a fragment are not empty, at most max_per_txd each, and add up to it, with every erratum. |
| TxReserve.HeadPartition | kernel/e1000/e1000_main.c:2868-2918 | The same for the head. |
| TxReserve.FramePartition | kernel/e1000/e1000_main.c:2853-2982 | In every frame the pieces of the head and of each fragment partition it into parts a descriptor can carry. |
| TxReserve.PiecesBound | kernel/e1000/e1000_main.c:2920-2971 | A fragment needs at most its length over the power of two below max_per_txd, rounded up, and one more for sentinel and 82544 cuts together. |
| TxReserve.HeadBound | kernel/e1000/e1000_main.c:2868-2918 | The head needs one more when its first piece is shortened by the linear-after-TSO or the PCI-X erratum. |
| TxReserve.ReservationCovers | kernel/e1000/e1000_main.c:3209-3240 | For all lengths, addresses, fragments, MSS and errata, context descriptor plus pieces never exceed the count reserved by e1000_xmit_frame. |
| TxErrata.PiecesHoldFrame | kernel/e1000/e1000_main.c:2868-2971 | The descriptors of a frame hold the addresses of its bytes once each, in order: head first, then the fragments where they lie in their pages. |
| TxErrata.SentinelIsSmall | kernel/e1000/e1000_main.c:2885-2889 | The last descriptor of a TSO frame holds at most eight bytes, unless its last fragment is empty. |
| TxErrata.SentinelIsFour | kernel/e1000/e1000_main.c:2939-2944 | Off the 82544 the last descriptor of a TSO frame with fragments holds four bytes, unless what is left after the full pieces is eight bytes or less. |
| TxErrata.FirstIsShort | kernel/e1000/e1000_main.c:2876-2895 | On PCI-X the first descriptor holds at most 2015 bytes, and after TSO that of a linear frame leaves at least four. |
| TxErrata.NeverHangsExactlyWhen | kernel/e1000/e1000_main.c:2945-2955 | On the 82544 no descriptor of a fragment above four bytes ends in an even dword, for all lengths and pages, if and only if the fragment starts at a multiple of eight bytes in its page. |
| TxErrata.SkippedFragmentHangs | kernel/e1000/e1000_main.c:2945-2955 | Any other start, with eight bytes or five, ends in an even dword. |
| TxErrata.ErrataWorkedAround | kernel/e1000/e1000_main.c:2853-2982 | All of this of every frame at once: its bytes in order, nonempty descriptors of at most 4096 bytes and four segments, and every erratum worked around. |
| TxErrata.UncutFrame | kernel/e1000/e1000_main.c:2876-2880 | Off PCI-X a frame without TSO takes the fewest descriptors possible, unless it is linear and the first one after TSO. |
| TxErrata.ReservationIsModest | kernel/e1000/e1000_main.c:3209-3240 | At most twice the descriptors a frame takes are reserved, and four more and two per fragment. |
| TxRing.WriteBackKeeps | kernel/e1000/e1000_main.c:3863-3907 | The ring invariant survives the hardware marking the end of any queued packet. |
| TxRing.NothingDone | kernel/e1000/e1000_main.c:3903-3904 | With nothing in flight no descriptor is marked done, so a stale next_to_watch cannot start a reclaim. |
| TxRing.ReclaimKeeps | kernel/e1000/e1000_main.c:3883-3901 | Reclaiming the oldest packet leaves a valid ring with one packet less. |
| TxRing.ContextKeeps | kernel/e1000/e1000_main.c:2786-2790 | Taking a slot for the context descriptor keeps the ring. |
| TxRing.MapKeeps | kernel/e1000/e1000_main.c:2975-2982 | Mapping a frame's pieces and closing it keeps the ring. |
| TxRing.QueueKeeps | kernel/e1000/e1000_main.c:3028-3058 | Handing a frame over makes it the newest packet of the ring. |
| TxRing.TxRing.Unused | kernel/e1000/e1000.h:215-217 | Used plus unused plus one equals the ring size, across the wrap-around. |
| TxRing.TxRing.WriteBack | kernel/e1000/e1000_main.c:3863-3907 | The hardware's step: only the last descriptor of a queued packet is marked. |
| TxRing.TxRing.PutContext | kernel/e1000/e1000_main.c:2771-2791 | The context descriptor takes one slot in front of the pieces. |
| TxRing.TxRing.NextHeadSize | kernel/e1000/e1000_main.c:2870-2902 | The errata applied one after the other give the size the specification gives, of which TxErrata says that every erratum is worked around; the after-TSO flag is consumed once. |
| TxRing.TxRing.MapHead | kernel/e1000/e1000_main.c:2868-2918 | The slots from next_to_use on hold the head's pieces in order. |
| TxRing.TxRing.MapFrag | kernel/e1000/e1000_main.c:2920-2971 | The following slots hold a fragment's pieces in order, each with its address in the page. |
| TxRing.TxRing.TxMap | kernel/e1000/e1000_main.c:2853-2982 | One slot per piece of head and fragments in order, which hold the frame's bytes and work around every erratum (TxErrata.WorksAround), the last holding the frame and the first naming the last; the ring stays valid. |
| TxRing.TxRing.TxQueue | kernel/e1000/e1000_main.c:3001-3058 | The frame becomes the newest packet and next_to_use moves past it. |
| TxRing.TxRing.CountDescriptors | kernel/e1000/e1000_main.c:3209-3235 | The loop and tests of e1000_xmit_frame compute the reservation. |
| TxRing.TxRing.XmitFrame | kernel/e1000/e1000_main.c:3130-3240 | Busy exactly when the count and two more do not fit, and never with room for twice the pieces and a few more; otherwise the frame is one packet of exactly its context and pieces, these work around every erratum, at least two descriptors stay unused, and the after-TSO flag is set exactly after TSO off the 82544. |
| TxRing.TxRing.ReclaimPacket | kernel/e1000/e1000_main.c:3883-3901 | The inner loop empties exactly the slots of one packet. |
| TxRing.TxRing.Clean | kernel/e1000/e1000_main.c:3863-3907 | Reclaims exactly the written-back packets in front, up to the first that is not, whole packets only, and never passes next_to_use or touches the frame being prepared. |
| TxRuns.RunKeepsRing | kernel/e1000/e1000_main.c:3863-3907 | Under any interleaving of context, mapping, hand-over, write-back and reclaim the ring is valid in every state, and the packets in flight are those handed over and not reclaimed, in order, without gaps. |
| TxRuns.ReclaimedInOrder | kernel/e1000/e1000_main.c:3883-3901 | Packets are reclaimed in the order they were handed over, each once, and none before the hardware wrote it back. |
| SpiChip.ValueOfBits | kernel/e1000/e1000_hw.c:3602-3644 | Bits sent most significant first give back the value modulo its width. |
| SpiChip.BurstGrows | kernel/e1000/e1000_hw.c:4150-4170 | One more word of a burst inside its page is one more word in the chip's memory at its own place. |
| Eeprom.OwnPlaceExactly | kernel/e1000/e1000_hw.c:4138-4148 | Every word of a transfer goes to its own place if and only if the address has 16 bits or the range does not cross word 128. |
| Eeprom.WrittenReadsBack | kernel/e1000/e1000_hw.c:4114-4170 | Without crossing, each written word reads back and no other word changes. |
| Eeprom.CrossingGoesAstray | kernel/e1000/e1000_hw.c:4138-4148 | With crossing, word 128 keeps its value and word 0 is overwritten, for all memories and data. |
| Eeprom.Hw.ShiftOut | kernel/e1000/e1000_hw.c:3602-3644 | The mask loop clocks out the low count bits, most significant first. |
| Eeprom.Hw.ShiftIn | kernel/e1000/e1000_hw.c:3653-3685 | The loop assembles the value of the bits the chip drives. |
| Eeprom.Hw.SpiReady | kernel/e1000/e1000_hw.c:3840-3873 | Success if and only if the chip is ready within a thousand polls; polling changes nothing else. |
| Eeprom.Hw.DoRead | kernel/e1000/e1000_hw.c:3891-3982 | The words requested, in order, from their own places; errors exactly for a bad range, a refused grant or a busy chip, and then no data changes beyond the buffer's part. |
| Eeprom.Hw.SendPage | kernel/e1000/e1000_hw.c:4150-4170 | A burst stops at the page end, so nothing wraps, and its words are stored. |
| Eeprom.Hw.WriteSpi | kernel/e1000/e1000_hw.c:4114-4170 | All words are stored at their target places; a write that fails has stored a prefix; it cannot fail on a chip that answers in time. |
| Eeprom.Hw.DoWrite | kernel/e1000/e1000_hw.c:4065-4103 | The same with the range check and the grant; a rejected call leaves the chip alone. |
| Eeprom.ChecksumFits | kernel/e1000/e1000_hw.c:4026-4046 | Writing 0xBABA less the sum of the first 63 words to word 63 makes the first 64 add up to 0xBABA in 16 bits. |
| Eeprom.Hw.UpdateChecksum | kernel/e1000/e1000_hw.c:4026-4046 | Leaves a valid image and changes word 63 only. |
| Eeprom.Hw.ValidateChecksum | kernel/e1000/e1000_hw.c:3992-4017 | Accepts if and only if the first 64 words add up to 0xBABA. |
| Ethtool.PatchedWrites | kernel/e1000/e1000_ethtool.c:530-541 | Writing the patched words back changes exactly the bytes of the range. |
| Ethtool.CopyBytes | kernel/e1000/e1000_ethtool.c:534-534 | memcpy into little-endian words replaces exactly the bytes from its start on. |
| Ethtool.SetEeprom | kernel/e1000/e1000_ethtool.c:488-548 | A call without data, with the wrong magic or without the grant leaves the chip alone; after a successful write whose partial words could be read exactly the bytes of the range changed apart from word 63; the image is valid when the range starts in its first 64 words and the chip answers; on such a chip the write succeeds. |
| Ethtool.GetEeprom | kernel/e1000/e1000_ethtool.c:441-486 | Returns exactly the bytes of the range. |

## Left out

- Dysco tags and the tag table, middleboxes that change the five-tuple, ARP, routing, MAC addresses, policy matching, netlink, /proc, timing samples and namespaces; local addresses, matching policies and allocated ports are inputs, hash tables are maps in which an existing key keeps its value.
- Allocation failures and the lifetime of control blocks; links between blocks are modelled, freeing is not.
- Two-way data, a FIN or pure ACKs from the side that sends data, repeated reconfiguration of one session and the teardown of the old path; the code says it does not support them.
- Intermediate middleboxes on the new path during reconfiguration; only left and right anchor are modelled.
- The user daemon (its source is not part of the repository): control messages are relayed by it, so SYN_ACK leaves only after the SYN was accepted, and ACK only after SYN_ACK arrived and switched the left anchor.
- Numbers.RightInNumbers: without timestamps the block's timestamp fields are whatever its memory held, since the code does not write them, and likewise those of the window scale without one; the rewrite then does not read them.
- Window.PipelineNeverEnlarges: window scales are at most 14, to which the option parsers cut them.
- ReconfigTheorems.RunInv: numbers that an anchor compares stand for offsets less than 2^31 apart (RFC 9293, section 3.4), which every step of a run assumes; runs are without state transfer, which AnchorRuns covers for one anchor.
- ReconfigTheorems.RunInv: the old path's middlebox may cut, repeat and reorder segments and renumbers its ACKs, but does not invent bytes.
- dysco_fix_tcp_ip_csum and the input rewrite of a SYN, which compute checksums from scratch; they are the reference itself.
- SynPayload.AppendedIsRead: a SYN that carries data of its own (TCP Fast Open) has its data read as the chain by the next agent; only SYNs without data are set up. The chain's length travels in the hosts' byte order, which is taken to be the same everywhere.
- Chain.SynVisitsHopsInOrder: every host has one address, appears once on the path and has not seen the session or the sub-sessions before the first SYN; Ports.InputKeysDiffer is what makes new sub-sessions new.
- TxRing.TxRing.XmitFrame: context, mapping, queueing, write-back and reclaim are single steps, which TxRuns lets alternate in any order; the second look at the ring after stopping the queue, the 82547 FIFO workaround, failing DMA mappings with their unwind, the four bytes the 82544 pulls from the first fragment before counting (the frame is taken as it is afterwards), VLAN tags and descriptor fields other than the done bit are not modelled.
- TxErrata.NeverHangsExactlyWhen: the addresses that the device reads are the physical ones; an IOMMU that moves bytes within eight is not part of this model. TxErrata.SentinelIsSmall: a TSO frame whose last fragment is empty gets no sentinel.
- The rest of e1000, and ixgbe: registers, PHY, link, interrupts, statistics.
- Eeprom.Hw.DoRead: Microwire parts, the ce4100 flash, the grant loop and all delays; the SPI chip is modelled with bits, page wrap-around, write enable and busy polls.
- Ethtool.SetEeprom: after a read that failed the code goes on and writes words of its buffer that were never read; nothing is promised of the range then, nor of the prefix that a failed write leaves, for which see Eeprom.Hw.DoWrite.
- Chain.Agent.Receive: a SYN whose payload is too short for the chain it claims is read past its end, which has no meaning here.
- Rewrite.OutRewrite: nothing is promised of the TCP checksum of a segment whose data offset points past its end, whose options are rewritten behind it; the same holds for Rewrite.InRewrite and the methods they use.
- AckTest.NewPathAcksReachCutoff: each ACK names the first byte that is missing when it is sent; AckTest.UntranslatedAckTest needs no such assumption.
- ReconfigBlocks.Reconfiguration.HandleAll: one anchor's blocks; the other anchor is any sequence of calls.
