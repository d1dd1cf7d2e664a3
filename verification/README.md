# A verified model of the SMSC's message handling

This project models four linked parts of an SMPP 3.4 message centre and proves what they
promise to their callers.

- **Long messages.** A text is cut into pieces, each piece is encoded and sent behind a
  concatenation header (sections 9.2.3.24.1 and 9.2.3.24.8 of 3GPP TS 23.040); on the way in,
  segments are recognised, filed in a store of 256 hash shards and put together again.
  `Splitting.dfy`, `Pipeline.dfy` and `Incoming.dfy` hold the two ends; `Reassembly.dfy` holds the
  store on values next to a second machine that keeps nothing but the list of accepted arrivals;
  `ReassemblyLaws.dfy` and `Locality.dfy` say what callers may rely on; `Interleaving.dfy` splits
  every call at its two locks and lets calls, cleanups and stops interleave, and `Overlap.dfy` is a
  run that shows why one adder matters; `SegmentStore.dfy` is the mutable store itself, proved
  against the flat map.
- **Correlation.** `Correlation.dfy` is one session's memory on values: the pending map, whose keys
  are either sequence numbers or message IDs, the `replaceSubmitLast` table, the delivery-receipt
  policy (section 5.2.17 of SMPP v3.4) and replacement (section 5.2.18), with two histories the
  code does not keep. `Routing.dfy` puts all sessions and the `messageID -> sessionID` cache
  together as a state machine with a clock. `Session.dfy` holds the classes whose methods are
  proved to be steps of those machines, `Deployment.dfy` puts the objects together and shows every
  call on them that touches pending entries, tables, routes or caches to be a step of the routing
  machine, and `SegmentedSubmits.dfy` follows a long message through a session.
- **Outgoing traffic.** `Outgoing.dfy`: sequence numbers (section 5.1.4 of SMPP v3.4), the bounded
  queue with its batches, and the enquire_link retry automaton.
- **Codecs.** `MessageIds.dfy`, `Tlv.dfy`, `Ucs2.dfy` (UTF-16 as in section 2 of RFC 2781) and the
  segment count in `Splitting.dfy`.

`Base.dfy` holds the machine integers. Code that updates objects or loops over local state is a
method proved against a function; what is promised about it is proved about that function. Every
induction is written out; automatic induction is off for all lemmas.

## Where plausible properties fail

Where a plausible property turned out false of the code, the code is kept and the exact boundary is
proved:

- Routes stay backed by a pending entry over all runs exactly when the pending TTL is at least the
  thirty minutes that routes live; below that the sweep strands routes and a lookup can return a
  stopped session (`Routing.RoutingSafe`, with runs in `Routing.EarlySweepBreaks`).
- A long message leaves a receipt entry when any of its PDUs asked for one, but a report queues a
  receipt exactly when the policy of the completing PDU asks for that outcome
  (`SegmentedSubmits.CompletingOctetDecides`, with two such PDUs in `AskedFirstOnly`).
- What is put together is the encoding of what the sender kept exactly if every encoded piece fits
  its message, and of the caller's whole text exactly if that is also no longer than the rune limit
  (`Pipeline.RoundTrip`); in UTF-16BE, exactly if the text is within the limit and no piece has more
  than 124 code units (`UnicodePipeline.UnicodeRoundTrip`). The splitter counts runes, so a long text
  of supplementary characters does not come back (`UnicodePipeline.AstralTextLosesOctets`), nor does
  the last of 201 letters under the default limit (`UnicodePipeline.LastLetterIsCut`).
- The bill is the number of pieces for every text over an alphabet that is cut into at most 255
  exactly if each of its runes counts as one unit of the coding (`Billing.BillAgreesOver`); euro signs
  under the default coding and e-acute under Latin1 do not (`Billing.BillExceedsPieces`). Beyond 255
  the eight-bit bill wraps: one unit rune more than 255 full pieces is billed as none
  (`Billing.BillWraps`), so over texts of any length no alphabet but the empty one agrees
  (`Billing.NoAlphabetAlways`).
- The total and index bytes of the header cannot wrap for any text exactly if the rune limit is at
  most 255*67 (`Splitting.CutBoundIsExact`).
- A UCS2 text comes back exactly if its octets do not start like a header (`Ucs2.DecodesExactly`).
- A message ID parses back exactly for counters of at most eight digits (`MessageIds.ParseBuilt`);
  one of nine runs into the clock (`MessageIds.BuildCollides`).
- Two segmented messages share a group exactly when source, bar and destination joined agree and
  their references agree modulo 256 (`Keys.GroupPrefixShared`): the same addresses if the sources
  contain no bar (`Keys.BarFreeApart`), but not in general (`Keys.BarsCollide`).
- The retry counter is bounded by the limit exactly for non-negative 32-bit limits
  (`Enquire.RetryBounded`).

**Why one adder matters.** Each session has its own segment store and one reader, and that is what
`Interleaving.Linearizable` needs. With two adders on one store, a resend filed between another
call's completion test and its delete is told the wrong thing (`Interleaving.OverlapShows` says
exactly when); `Overlap.OverlapCompletesTwice` is a run in which one message is reported complete
twice and the resend is lost, against `Overlap.AtomicCompletesOnce`.

## Model

| member | source | states |
|---|---|---|
| `Reassembly.AddKeepsInvariant` | internal/smsc/segments.go:113-198 | between calls every stored group is well formed (its count is its filled slots, as many slots as expected, 2 to the maximum, one shared message ID) and incomplete, and a refused segment changes nothing |
| `Reassembly.RefusedExactly` | internal/smsc/segments.go:113-150 | a segment is refused exactly without an ID (status 8, ID 0) or when its numbers are out of range or its group expects another total (status 1), and else answered with status 0 |
| `Reassembly.UpdateOk` | internal/smsc/segments.go:126-182 | well-formedness also holds between the two locks of a call |
| `Reassembly.SharedGroupId` | internal/smsc/segments.go:157-167 | a group answers with the ID that all of its filled slots carry |
| `Reassembly.SweepDecides` | internal/smsc/segments.go:241-267 | a group whose segments have all expired is removed, one whose segments are all fresh is kept untouched |
| `Reassembly.AddRefines` | internal/smsc/segments.go:113-227 | filing a segment in slots answers as the list of accepted arrivals does: completion, ID, bytes, coding and receipt flag |
| `Reassembly.KeepsAgrees` | internal/smsc/segments.go:241-267 | cleanup's look at the first filled slot is a look at the latest copy of the lowest-numbered segment seen |
| `Reassembly.RunRefines` | internal/smsc/segments.go:113-277 | over any run of calls, cleanups and stops the slot store and the arrival lists give the same replies and stay related |
| `ReassemblyLaws.Reassembles` | internal/smsc/segments.go:113-227 | any order with any resends: exactly the call filling the last slot completes, every call returns the first call's ID, the bytes are the latest copies in sequence order, the receipt flag is the OR over all arrivals |
| `ReassemblyLaws.OrderIndependent` | internal/smsc/segments.go:113-227 | the same segments in two different orders give the same bytes and the same receipt flag |
| `ReassemblyLaws.LastIsNeeded` | internal/smsc/segments.go:46-56 | without resends no proper prefix of the arrivals is complete |
| `ReassemblyLaws.RunKeepsIdsApart` | internal/smsc/segments.go:120-171 | with fresh generated IDs no two open groups ever share a message ID |
| `Locality.GroupsApart` | internal/smsc/segments.go:104-198 | a group fares in any run as it would alone on its own part of the store |
| `Locality.SparedApart` | internal/smsc/segments.go:241-267 | a group that every sweep finds young enough, and no Stop finds open, fares as under its own calls alone |
| `Locality.ReassemblesAmongOthers` | internal/smsc/segments.go:113-267 | exactly-once reassembly holds in the middle of any traffic for other groups and of sweeps that visit the group and keep it |
| `Locality.TimelySpares` | internal/smsc/segments.go:241-267 | sweeps do keep it if none comes more than maxAge after a registration for it |
| `Interleaving.Linearizable` | internal/smsc/segments.go:126-198 | with locked update, unlocked test and locked delete interleaved with per-shard cleanup and stop, every call returns what it would have returned run atomically at its first lock, and the final stores are equal |
| `Interleaving.OneAdderIsGuarded` | internal/smsc/session.go:134-162 | a session has a single reader, which is enough for linearizability |
| `Interleaving.StepSimulates` | internal/smsc/segments.go:126-198 | each step of an interleaved run is matched by the atomic store that hides groups awaiting deletion |
| `Interleaving.OverlapShows` | internal/smsc/segments.go:186-196 | filing into a group whose delete is pending is answered as if atomic exactly when the segment is refused anyway or the group has left the store by other means |
| `Interleaving.ResendCompletesTwice` | internal/smsc/segments.go:186-198 | a resend between completion test and delete completes the same message again, under the same ID |
| `Interleaving.OverlapLoses` | internal/smsc/segments.go:191-194 | a pending delete removes a group that was opened after it was decided |
| `Overlap.OverlapCompletesTwice` | internal/smsc/segments.go:126-198 | a run of two adders from the empty store in which one message is reported complete twice and the store ends empty |
| `Overlap.AtomicCompletesOnce` | internal/smsc/segments.go:126-198 | the same calls made atomically complete it once and leave the resend in a group of its own |
| `SegmentStore.ComputeFnv32` | internal/smsc/segments.go:95-102 | the loop computes 32-bit FNV-1a |
| `SegmentStore.KnownHashes` | internal/smsc/segments.go:95-102 | it has the published values of the empty string and of "a" |
| `SegmentStore.GetCompleteMessage` | internal/smsc/segments.go:200-227 | reports completion exactly when every slot is filled and the counter agrees, with the texts in order and UCS2 if any slot says so |
| `SegmentStore.SegmentGroup.IsComplete` | internal/smsc/segments.go:46-56 | true exactly for a group with the expected count and no empty slot |
| `SegmentStore.SegmentGroup.Snapshot` | internal/smsc/segments.go:173-183 | the private copy is a new object with the group's contents |
| `SegmentStore.SegmentGroup.FirstMessageID` | internal/smsc/segments.go:160-167 | finds the ID of the first filled slot, if there is one |
| `SegmentStore.SegmentsManager.constructor` | internal/smsc/segments.go:74-93 | an empty store, the maximum clamped to 2 to 25, the age three minutes if none is given |
| `SegmentStore.SegmentsManager.Lookup` | internal/smsc/segments.go:104-107 | a key is found in the shard of its hash modulo 256 exactly if the flat map has it |
| `SegmentStore.SegmentsManager.FileInto` | internal/smsc/segments.go:149-183 | one slot, the counter and the flag of one group change, in place, and only that group's entry of the flat map |
| `SegmentStore.SegmentsManager.AddSegment` | internal/smsc/segments.go:113-198 | on 256 shards of mutable groups the call answers and stores exactly as the atomic call on one flat map, and decodes a completed message's bytes |
| `SegmentStore.SegmentsManager.CleanupShard` | internal/smsc/segments.go:244-265 | one shard under its lock is one sweep step of the reassembly and interleaving machines |
| `SegmentStore.SegmentsManager.Cleanup` | internal/smsc/segments.go:241-267 | the sweep over all shards keeps exactly the groups whose lowest-numbered stored segment is young enough |
| `SegmentStore.SegmentsManager.StopShard` | internal/smsc/segments.go:270-276 | one shard under its lock is one Stop step of those machines |
| `SegmentStore.SegmentsManager.Stop` | internal/smsc/segments.go:269-277 | every shard ends empty |
| `Splitting.SplitTextIntoSegments` | internal/smsc/server.go:632-665 | the loop cuts the text into the pieces that the splitting laws are about |
| `Splitting.SplitLaws` | internal/smsc/server.go:632-665 | the pieces concatenate to the text; of a multi-part split all but the last have the multi-part length, the last is not empty, the count is the ceiling quotient and at least two |
| `Splitting.SplitNumbers` | internal/smsc/server.go:632-665 | in numbers: 160 and 153, 140 and 134, 70 and 67 runes by coding |
| `Splitting.CutBoundsPieces` | internal/smsc/server.go:541-579 | after the rune cut at a limit of at most 255*67 the total and index bytes cannot wrap |
| `Splitting.CutBoundIsExact` | internal/smsc/server.go:541-579 | at most 255 pieces for every text and coding exactly if the limit is at most 255*67 |
| `Billing.Gsm7SeptetCount` | internal/smsc/session.go:1048-1061 | counts a septet per basic and two per extension character, or reports a foreign one |
| `Billing.CharsetTables` | internal/smsc/utils.go:19-39 | the two character tables rune by rune |
| `Billing.CalcSegments` | internal/smsc/session.go:1019-1046 | the ceiling quotient over the single-message limit, cut to eight bits, hence that quotient exactly up to 255 |
| `Billing.QuotientExactly` | internal/smsc/session.go:1019-1046 | the quotient is the least number of segments that hold the septets, the UTF-16 units or the octets, as coding and alphabet say, a text outside the GSM set under the default coding included |
| `Billing.BillAgrees` | internal/smsc/session.go:1019-1061 | on basic-charset default, BMP UCS2 and ASCII Latin1 or Cyrillic texts the bill is the number of pieces the splitter cuts, and not below it, exactly while that is at most 255 |
| `Billing.UnderbilledOnlyByWrapping` | internal/smsc/session.go:1019-1061 | on every text the quotient is at least the number of pieces, so the bill is below it only when the quotient does not fit in eight bits |
| `Billing.BillWraps` | internal/smsc/session.go:1041-1046 | one unit rune more than 255 full pieces, 39016 letters under the default coding: 256 pieces billed as 0 |
| `Billing.BillAgreesOver` | internal/smsc/session.go:1019-1061 | bill and pieces agree on all texts over an alphabet of at most 255 pieces exactly if every rune of it counts as one unit of the coding |
| `Billing.NoAlphabetAlways` | internal/smsc/session.go:1019-1061 | on texts of any length they agree only over the empty alphabet |
| `Billing.BillExceedsPieces` | internal/smsc/session.go:1019-1061 | 81 euro signs under the default coding and 100 times e-acute under Latin1 are one piece each and billed as two |
| `Udh.ParseCreated` | internal/smsc/utils.go:189-226 | a created header parses back exactly when its number bytes are in range |
| `Udh.ParsesExactly` | internal/smsc/utils.go:189-217 | which octets parse as a header, and what each of them means |
| `Udh.ParseHeader` | internal/smsc/server.go:573-582 | the seven-octet header of the sender parses back for every index of up to 255 pieces |
| `Pipeline.SendSegmented` | internal/smsc/server.go:524-601 | nothing goes out for an empty argument; else one plain message, or per piece a message with header, possibly truncated payload and the UDH indicator, up to the first failure |
| `Pipeline.SendPieces` | internal/smsc/server.go:568-599 | the sending loop stops only when sending or encoding fails |
| `Pipeline.WireLayout` | internal/smsc/server.go:575-592 | every octet of a message that went out: the header, the piece's place, the encoding up to 255 octets, the UDH indicator |
| `Pipeline.LatestIsPiece` | internal/smsc/session.go:700-713 | whatever copy of a piece arrived last, the text filed for it is the encoded piece |
| `Pipeline.RoundTrip` | internal/smsc/server.go:540-592 | among any other traffic, any delivery order with resends: only the last call completes; its bytes are the encoding of the kept text exactly if every piece fits, and of the caller's text exactly if that is also within the rune limit |
| `Pipeline.DeliversAlone` | internal/smsc/segments.go:113-227 | a run of the message's own deliveries on an empty store is such traffic |
| `UnicodePipeline.FitsIffShort` | internal/smsc/server.go:585-588 | a UTF-16BE piece survives the 255-octet bound exactly when it has at most 124 code units |
| `UnicodePipeline.AstralTextLosesOctets` | internal/smsc/server.go:585-588 | the first piece of a long text of supplementary characters is cut short |
| `UnicodePipeline.UnicodeRoundTrip` | internal/smsc/server.go:524-601 | in UTF-16BE the caller's text comes back, as bytes and as text, exactly if it is within the rune limit and no piece has more than 124 code units |
| `UnicodePipeline.LastLetterIsCut` | internal/smsc/server.go:541-546 | 201 letters under the default limit: short pieces, and not the whole text |
| `UnicodePipeline.BmpFits` | internal/smsc/server.go:632-665 | no piece of a BMP text has |
| `UnicodePipeline.TextRoundTrip` | internal/smsc/server.go:524-601 | what was kept of a text, if its pieces are short and most code units low, is reassembled and decoded even though its segments are labelled with the default coding; it is the whole text exactly if that is within the limit |
| `Incoming.ScanElements` | internal/smsc/session.go:662-677 | the loop over header elements ends with what the last concatenation element of either kind says |
| `Incoming.FindSegment` | internal/smsc/session.go:656-717 | a PDU is a segment exactly if its last concatenation element announces several parts, or it gives a SAR reference, or its payload starts with such a header; the SAR reference wins, and the text is the effective message |
| `Incoming.FoundExactly` | internal/smsc/session.go:656-717 | reference, total, number and text of each case, octet by octet |
| `Incoming.UnmarkedIsWhole` | internal/smsc/session.go:716-721 | an ordinary short message is no segment |
| `Incoming.EveryWayFinds` | internal/smsc/session.go:656-717 | a segment marked in any of five ways, with other elements around, yields the same numbers, the reference modulo 256, and the same text |
| `Incoming.ReceiveFinds` | internal/smsc/session.go:699-714 | the receiver that the round trip speaks of is this parser on a payload with its own header |
| `Incoming.ArrivesAnyWay` | internal/smsc/session.go:656-717 | marked in any of the five ways, header split off by the PDU library included, a piece is the arrival the round trip speaks of |
| `Keys.GroupPrefixShared` | internal/smsc/session.go:729-736 | two segmented messages share a group exactly when source, bar and destination joined agree and references agree modulo 256 |
| `Keys.PlainPrefixShared` | internal/smsc/session.go:729-736 | with one part only the joined addresses count |
| `Keys.BarFreeApart` | internal/smsc/session.go:729-736 | with bar-free sources, exactly when both addresses agree |
| `Keys.BarsCollide` | internal/smsc/session.go:729-736 | with a bar, different pairs of addresses share a group |
| `Keys.ReplaceKeyInjective` | internal/smsc/session.go:738-740 | the replace key tells NUL-free fields apart |
| `Keys.ReplaceKeyShared` | internal/smsc/session.go:738-740 | in general, two keys agree exactly when the NUL-joined fields and the default message numbers do |
| `Keys.ReplaceKeyCollides` | internal/smsc/session.go:738-740 | two field lists with NUL that share a key |
| `Correlation.SubmitKeepsLives` | internal/smsc/session.go:776-852 | a submit with a fresh ID ends the superseded entry as replaced and starts one life at most |
| `Correlation.ReportKeepsLives` | internal/smsc/server.go:434-485 | a report ends an entry only as sent, for an outcome its policy asks for, or as skipped, for one it rules out |
| `Correlation.SweepKeepsLives` | internal/smsc/session.go:1071-1097 | the TTL sweep and Stop end each entry once, with their own reason |
| `Correlation.IsLastUnique` | internal/smsc/session.go:738-774 | the history singles out at most one submit for a key, so what the table must name is determined |
| `Correlation.SubmitKeepsTable` | internal/smsc/session.go:738-774 | for each key the table names the last accepted submit, unless a later replacing submit was rejected, and nothing else |
| `Correlation.SupersededIsGone` | internal/smsc/session.go:742-774 | a replacing submit leaves the earlier message without an entry and the table naming its own ID, or nothing if it was rejected |
| `Correlation.PolicyTable` | internal/smsc/types.go:48-72 | 1 asks for every receipt, 2 for failures, 3 for successes, 0 for none, by the two low bits |
| `Correlation.RequestAndResponse` | internal/smsc/session.go:379-392 | a request waits under its number alone, and the response with that number and no other ends it |
| `Routing.StepConsistent` | internal/smsc/session.go:776-852 | every step, with any settings, keeps lives, tables and ownership right in every session |
| `Routing.StepRouted` | internal/smsc/session.go:1010-1017 | with a sufficient TTL every step keeps every live route backed by the entry made with it |
| `Routing.RoutingSafe` | internal/smsc/session_manager.go:37-40 | over all runs, live routes name sessions that hold the entry, and lookups never find a stopped session, exactly when the pending TTL is at least the route TTL |
| `Routing.EarlySweepBreaks` | internal/smsc/session.go:1081-1094 | with a shorter TTL, two concrete runs: an unbacked route, and a lookup that finds a stopped session |
| `Routing.RunLives` | internal/smsc/server.go:434-485 | over any run each receipt entry has left for exactly one reason, belongs to one session at most, and every replace table is right |
| `Routing.AtMostOneReceipt` | internal/smsc/server.go:416-486 | over any run at most one receipt is queued per message, only for an outcome its policy asks for, and then the entry is gone |
| `Routing.EntryLeaves` | internal/smsc/session.go:379-392 | an entry leaves exactly by replacement, report, expiry or Stop; no response and no failed enqueue touches it |
| `Routing.SupersededIsUnroutable` | internal/smsc/session.go:738-774 | after any run a replacing submit leaves no session with an entry for the superseded message and, with a sufficient TTL, no lookup that resolves it |
| `Sessions.SessController.GetSessionByMessageID` | internal/smsc/session_manager.go:179-190 | a session exactly for a live route to a cached session; a live route to any other session is dropped |
| `Sessions.SessController.CheckSessionInactivity` | internal/smsc/session_manager.go:232-245 | one check is one step of the retry automaton; if it asks, one enquire_link is queued and awaited |
| `Sessions.Session.HandleBindRequest` | internal/smsc/session.go:455-494 | a bound session stays as it is, an objecting handler changes nothing, one that withholds its OK sets the type only; the answer and its queueing |
| `Sessions.Session.GetNextSequence` | internal/smsc/session.go:262-272 | returns and stores the next number |
| `Sessions.Session.EnqueuePDU` | internal/smsc/session.go:274-287 | refuses when closed or full, else appends; conservation is kept |
| `Sessions.Session.DrainOutgoingPDUBatch` | internal/smsc/session.go:306-323 | the first PDU and those of the shortest queue prefix that fills 32, or of the whole queue; nil bodies are dropped |
| `Sessions.Session.OutgoingRound` | internal/smsc/session.go:289-362 | one iteration of the handler is one round of the queue machine, counted if it was flushed |
| `Sessions.Session.SendEnquireLinkReq` | internal/smsc/session.go:417-432 | at the limit nothing changes; below it a sequence number and a pending entry are used, and the counter rises only if the queue took the PDU |
| `Sessions.Session.ProcessResponse` | internal/smsc/session.go:379-392 | clears the entry of that sequence number and nothing else; enquire_link_resp resets the retries |
| `Sessions.Session.RemovePendingRequestByMessageID` | internal/smsc/session.go:1010-1017 | entry and route go together, and the route only if there was an entry |
| `Sessions.Session.TryReplacePreviousSubmit` | internal/smsc/session.go:742-760 | supersedes the submit the table names for the key |
| `Sessions.Session.RecordReplaceableSubmit` | internal/smsc/session.go:762-774 | the table names this submit, unless its ID is zero |
| `Sessions.Session.HandleSubmitSM` | internal/smsc/session.go:776-852 | a submit that came whole, field by field: its refusals, the text it is handled with, an entry and a route of now exactly if the low bits ask, the replaced message gone, the table; as one step, refused and held submits touch nothing and a handled one is one submit of the correlation machine |
| `Sessions.WholeSubmit` | internal/smsc/session.go:816-851 | the same on values |
| `Sessions.SegmentSubmit` | internal/smsc/session.go:785-798 | a segment without an ID or that does not fit is refused with status 8 or 1, one that waits is answered with status 0, and neither touches anything |
| `Sessions.SecondReplacesFirst` | internal/smsc/session.go:738-774 | of two submits the second replaces the first exactly if it asks to and service type, both addresses and default message agree |
| `Sessions.Session.SweepPendingRequests` | internal/smsc/session.go:1076-1095 | one tick removes exactly the expired ones of the entries it looks at while the session is bound, all of them unless a Stop comes between, and leaves the routes |
| `Sessions.Session.Stop` | internal/smsc/session.go:165-192 | the first call closes, unbinds, empties the segment store, unregisters every message ID and forgets every entry; later calls change nothing |
| `Sessions.Server.SendDeliverSM` | internal/smsc/server.go:381-410 | each refusal by the session's state and binding, delivery exactly to a bound receiver or transceiver with an open queue that has room; one sequence number and one awaited response |
| `Sessions.Server.BindThenDeliver` | internal/smsc/server.go:384-391 | after a bind as receiver or transceiver deliver_sm goes out, after one as transmitter it does not |
| `Sessions.Server.BindThenReport` | internal/smsc/server.go:424-432 | and likewise for receipts |
| `Sessions.Server.SendDeliveryReport` | internal/smsc/server.go:416-486 | outcome by outcome over octet, queue and entry: a receipt is appended exactly if the octet asks for the outcome and there is room, the result says which case it was, and the entry stays only when a wanted receipt could not go; as one step, one report of the correlation machine |
| `SegmentedSubmits.HandledOnce` | internal/smsc/session.go:785-802 | among any other traffic on the store, of the PDUs of a long message in any order with resends all but the last are held under the first one's ID and the last is handled once under that ID |
| `SegmentedSubmits.CompletingOctetDecides` | internal/smsc/session.go:800-814 | after the completing PDU, among any other traffic, an entry is there exactly if some PDU asked, and a report queues a receipt exactly if the completing PDU's policy asks for that outcome |
| `SegmentedSubmits.AskedFirstOnly` | internal/smsc/session.go:800-814 | two PDUs with octets 1 and 0: the entry no report can use and no sweep removes |
| `Deployments.Deployment.HandleSubmitSM` | internal/smsc/session.go:776-852 | on the controller and all its sessions, a handled submit is one SubmitSm step of the routing world and any other none; the world stays sound |
| `Deployments.Deployment.Stop` | internal/smsc/session.go:165-192 | is one StopSession step of it |
| `Deployments.Deployment.SweepPendingRequests` | internal/smsc/session.go:1076-1095 | is one TtlSweep step, or none for an unbound session |
| `Deployments.Deployment.SendDeliveryReport` | internal/smsc/server.go:416-486 | is one DeliveryReport step, or none for a session that cannot receive |
| `Deployments.Deployment.SendDeliverSM` | internal/smsc/server.go:381-410 | is one Push step if it gets as far as its sequence number, else none |
| `Deployments.Deployment.CheckSessionInactivity` | internal/smsc/session_manager.go:232-245 | is a run of no step, a Push, an Evict, or a Push and an Evict, as the retry counter and the queue decide |
| `Deployments.Deployment.GetSessionByMessageID` | internal/smsc/session_manager.go:179-190 | is one Lookup step; with a sufficient TTL the session object it returns has not been stopped and holds the message's entry |
| `Sequence.IssuedIs` | internal/smsc/session.go:262-272 | the k-th call returns ((k - 1) mod 0x7FFFFFFF) + 1 |
| `Sequence.SameIssued` | internal/smsc/session.go:262-272 | two calls return the same number exactly when a multiple of 0x7FFFFFFF calls lies between them; no number leaves 1 to 0x7FFFFFFF |
| `Outgoing.StepConserves` | internal/smsc/session.go:274-362 | every enqueue, take, send and close keeps order, count and batch bounds |
| `Outgoing.Fifo` | internal/smsc/session.go:274-362 | over any run taken batches, batch in hand and queue are the accepted PDUs in order; until a send fails the taken ones are the flushed ones; batches hold 1 to 32 and MessagesSent counts the flushed |
| `Outgoing.RoundIsRun` | internal/smsc/session.go:289-325 | an undisturbed round of the handler is a legal run of single takes and one send |
| `Enquire.RetryBounded` | internal/smsc/session.go:417-432 | in all runs the counter is the number of unanswered enquire_links and never passes the limit, exactly for limits from 0 to 2^31 - 1 |
| `Enquire.DeletedExactly` | internal/smsc/session_manager.go:232-245 | read off the events alone: a session is deleted exactly if some check found it inactive and either silent for at least limit checks since its last answer or with a queue that refused |
| `Enquire.SilentIsDeleted` | internal/smsc/session_manager.go:232-245 | a silent session is deleted exactly at check limit + 1, or at an earlier check that cannot enqueue |
| `MessageIds.ParseBuilt` | internal/smsc/utils.go:318-337 | parsing returns what was built exactly for counters below 10^8 |
| `MessageIds.BuildInjective` | internal/smsc/utils.go:318-320 | building is injective on those counters |
| `MessageIds.BuildsDigits` | internal/smsc/utils.go:318-337 | clock 12 and counter 34 are 1200000034 |
| `MessageIds.BuildCollides` | internal/smsc/utils.go:318-320 | and collides beyond them |
| `MessageIds.BuildParsed` | internal/smsc/utils.go:318-337 | re-building a parsed ID gives it back exactly when its clock part has no superfluous leading zero |
| `Tlv.ParseTLV` | internal/smsc/utils.go:168-187 | the map of the complete parameters from the offset on, last value wins, nothing read past the end |
| `Tlv.DecodeSplits` | internal/smsc/utils.go:168-187 | every octet string is one list of parameters followed by an incomplete tail |
| `Tlv.ParseInvertsEncode` | internal/smsc/utils.go:168-187 | for any serialized list and any incomplete tail the parser returns the list's last-value-wins map |
| `Tlv.LastWinsIsLast` | internal/smsc/utils.go:181-183 | the winner of a tag is the last parameter that carries it |
| `Tlv.ParsesOctets` | internal/smsc/utils.go:168-187 | octet by octet: tag, length, value, high octets first, then a tail |
| `Ucs2.GuessUcs2` | internal/smsc/utils.go:154-166 | yes exactly for an even length with more than half of the pairs starting with at most 0x1F |
| `Ucs2.DecodeMessage` | internal/smsc/utils.go:89-152 | strips one of two headers; then 3 is Latin1, 6 Cyrillic, 8 and what looks like it UCS2, 0 otherwise GSM, packed if an octet is over 127, and any other coding raw |
| `Ucs2.CodecsInvert` | internal/smsc/utils.go:89-150 | what the codec of 3, 6 or 0 inverts comes back unless its octets look like a header or, under 0, like UCS2 |
| `Ucs2.EncodesOne` | internal/smsc/utils.go:122-136 | the UTF-16BE octets of one rune |
| `Ucs2.DecodeInvertsEncode` | internal/smsc/utils.go:89-136 | decoding inverts UTF-16BE encoding for all scalars, surrogate pairs included, unless the octets look like a header |
| `Ucs2.HeaderLookalikeIsLost` | internal/smsc/utils.go:94-124 | and if they do, some other string is returned |
| `Ucs2.DecodesExactly` | internal/smsc/utils.go:89-136 | so the string returned is the UTF-8 of the text exactly if its octets do not look like a header |
| `Ucs2.GuessRecovers` | internal/smsc/utils.go:154-166 | the same octets labelled default coding decode identically when most code units are below U+2000 |

## Left out

- TCP, buffered readers and writers, deadlines, goroutine start-up, rate limiting, logging and configuration setters.
- The PDU library, GSM 7-bit and charmap codecs, md5 and the ID generator: decoders are parameters, a group key stands for its digest, generated IDs are fresh values or an error.
- `UpdateSession`, whose re-set may fire the deletion callback, and `sendReplaceSMResponse`, which bypasses the queue.
- Application handlers: an arbitrary status, or no response; a nil submit handler is not modelled since the session installs a default.
- Overlapping `SendDeliveryReport` calls for one message are not atomic in the code; each call is one step here.
- Stop racing with one PDU in flight: a PDU is handled whole before or after it.
- `Sessions.Session.OutgoingRound`: one undisturbed round; interference between takes is covered by the steps of `Outgoing`.
- `Sessions.Session.EnqueuePDU`: the timed wait on a full queue counts as a refusal; a sender that enqueues after the close it did not see is covered by the steps of `Outgoing`.
- `Pipeline.Receive`: the group key is given; what it depends on is stated by `Keys.GroupPrefixShared`.
- `SegmentStore.SegmentGroup`: the slot array is a sequence field; the copies of individual segments are values.
- The delivery-receipt text, phone number and USSD helpers, hex dump and status names: formatting only.
- `Sessions.SessController.DeleteSession`: the session IDs kept for listing are not modelled, and the Stop owed to a dropped session is a later call.
- The cache library: a map that may drop entries at any step of `Routing`.
- Unbind, query_sm and replace_sm: no correlation state beyond the Stop that follows an unbind.
- `Pipeline.SendSegmented`: how many messages the session takes before a send fails or the context ends is a parameter.
- `Deployments.Deployment`: the ghost map of all sessions and the clock are the proof's; spontaneous drops by the caches are steps of `Routing` only.
- The outer loop of `cleanupPendingRequests`: one tick is modelled.
