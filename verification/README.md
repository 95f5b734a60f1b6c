# Verified models of the NanoKVM server's stateful cores

This project models seven stateful or arithmetic parts of the server in Dafny
and proves what they keep over every input, every run or every interleaving.

| modules | what they model |
|---|---|
| `AnnexB`, `AnnexBStream` | the H.264 Annex B splitter, against a splitter that cuts at every start code (ITU-T H.264, sections B.1.1 and 7.4.1) |
| `RtpPacketizer`, `RtpReceiver`, `RtpSequencer` | single-NAL and FU-A payloads and the receiver that undoes them (RFC 6184, sections 5.1, 5.6 and 5.8); sequence numbers and timestamps (RFC 3550, section 5.1) |
| `ConnectionRegistry`, `PeerMaximum`, `ConnectionLifecycle` | the connection, list and WHEP maps as interleaved locked regions of any number of tasks, the number of peers they let in, and what removing one achieves |
| `BruteForce`, `LoginRate` | the login failure tracker: when its cleanup shows, what its compact record stands for, and how many failures it lets through |
| `KvmInit` | lazy initialisation of the capture hardware by any number of threads |
| `QualityController` | the adaptive quality controller |
| `RecoveryLimiter`, `RecoveryStore`, `RecoveryOverlap` | the rate limit on recovery codes, the one-time codes, and attempts that overlap |
| `EdidI2c` | the page-cached I2C driver and its EDID read loops |
| `Netmask`, `MacAddress`, `WolStore` | netmask arithmetic (RFC 4632, section 3.1), hardware addresses, and the Wake-on-LAN text file |

`Wrappers`, `Bytes`, `Ascii`, `Arithmetic` and `Sets` hold shared definitions.

Code that changes state in place is modelled by classes and by methods with
loops; each is proved against a function of its inputs or its old state, and
the properties are lemmas about those functions. The registry and the hardware
initialisation are also state machines, one step per locked region or per
atomic access, and so are the two halves of an attempt with a one-time code; the sequential methods beside them run whole operations.

Some properties that one might expect are false of the code. Each is stated with
the condition under which it holds, and with a case that fails otherwise:

- `find_nal_units` tests only the first 0x01 byte after a unit's start
  (`server/src/webrtc/transport.rs:1074-1083`), so a unit that holds a 0x01 byte
  swallows the rest of the frame: `SplitterAgreesWithReference`, `RoundTrip`,
  `SplitterCanDisagree`.
- An RTP receiver loses the forbidden bit of a fragmented unit, and units of
  type 0 and 24 to 31 sent alone: `DepacketizeInvertsPacketize`,
  `ForbiddenBitIsLost`, `OddTypeIsRejected`.
- The peer maximum is checked before the negotiation and not again. It holds in
  every run exactly when offers of a source do not overlap, and with M of them
  in flight max_peers - 1 + M peers are reached: `MaximumHoldsExactly`,
  `PeerBound`, `BoundIsReached`.
- The cleanup of the failure tracker shows when the window is over 30 minutes
  and more than one failure locks: `CleanupInvisibleExactly`, `TelltaleTells`.
- When failures may come in the very second of a cleanup, it shows whenever more
  than one failure locks: `InvisibleInAnySecondExactly`, `ProlongedTells`; per
  table, exactly when it drops a record that such a failure would have prolonged:
  `SameSecondExactly`.
- The configured maximum bounds the failures that get past the login gate within
  a window exactly when attempts of an IP do not overlap and the window is at most
  30 minutes or one failure locks: `MaximumBoundsRateExactly`. How many get past
  otherwise is `RateIsBoundedExactly`, and `MostAreReached` is the run.
- `get_mjpeg` and `get_h264` do not look at the state again once they hold the
  lock, so a read can find the hardware down: `ReadsAreLocked`,
  `ReadCanFindHardwareDown`.
- A bandwidth estimate is truncated to 16 bits of kbit/s:
  `TargetTierIsBestExactly`, `LargeEstimateGetsLowestTier`.
- The wait announced to a rate-limited client is one second short:
  `WaitIsOneSecondShort`.
- The number of remaining codes that is returned also counts used ones:
  `RemainingIsRightExactly`, `UsedCodeIsCounted`.
- A one-time code can be accepted twice by attempts that overlap. Codes are
  conserved in every run exactly when they do not: `ConservedExactly`,
  `AcceptedTwice`. But none is ever lost: `NoCodeIsLost`.
- The I2C driver stores the new page before it has selected it, so a failed
  select leaves a cache that is wrong unless that page was selected anyway:
  `StaysInStepExactly`, `FailedSelectIsRemembered`, `OldPageIsRead`. No caller in
  the repository goes on after an error: both EDID loops leave on the first one,
  and the driver is dropped (`server/src/vm/edid_i2c.rs:127-216`).
- The Wake-on-LAN file is read back as written only for names that fit on a
  line: `RoundTripExactly`, `StoredRefinesExactly`, `NewlineIsNotReadBack`.

`dafny verify dfyconfig.toml` checks the project.

## Model

| member | source | states |
|---|---|---|
| AnnexB.Memchr | server/src/webrtc/transport.rs:1067-1067 | the first 0x01 byte from a position on, or the end |
| AnnexB.FindUnitEnd | server/src/webrtc/transport.rs:1070-1083 | the end of a unit as the scan sees it: it looks at one 0x01 byte after the start code and never further |
| AnnexB.FindNalUnits | server/src/webrtc/transport.rs:1062-1097 | for every byte string, and with termination: the reference's non-empty units up to the first non-final one that holds a 0x01 byte, which then runs to the end of the data; non-empty data without a unit is returned whole |
| AnnexB.UnitEndBounds | server/src/webrtc/transport.rs:1076-1083 | backtracking over a 3- or 4-byte start code never passes the start of the unit |
| AnnexB.FirstOneAfterMark | server/src/webrtc/transport.rs:1074-1077 | the first 0x01 after a unit's start is the next start code, or lies inside the unit the reference cuts there |
| AnnexB.ScanIsOverrun | server/src/webrtc/transport.rs:1067-1091 | the scan, from any position, yields the reference's spans cut short at the first overrun |
| AnnexBStream.ReferenceCutsEveryStartCode | server/src/webrtc/transport.rs:1066-1080 | the reference splitter cuts after every start code and nowhere else, and each unit ends at the next start code or at the end of the data |
| AnnexBStream.UnitsUpToFirstOverrun | server/src/webrtc/transport.rs:1074-1087 | the code's units, position by position, against the reference: the non-empty units before the first overrun, then one unit to the end |
| AnnexBStream.SplitterAgreesWithReference | server/src/webrtc/transport.rs:1062-1097 | the splitter equals the reference if and only if there is a non-empty unit (or no data) and no unit but the last holds a 0x01 byte |
| AnnexBStream.SplitterCanDisagree | server/src/webrtc/transport.rs:1074-1083 | a two-unit stream that the code returns as one unit |
| AnnexBStream.WholeWithoutUnits | server/src/webrtc/transport.rs:1093-1096 | data in which the reference finds no non-empty unit comes back as one unit, and no data as none |
| AnnexBStream.NoStartCodeIsWhole | server/src/webrtc/transport.rs:1093-1096 | so does all data without a start code |
| AnnexBStream.RoundTrip | server/src/webrtc/transport.rs:1062-1097 | legal units, serialised with any mix of 3- and 4-byte start codes, are recovered if and only if no unit but the last holds a 0x01 byte |
| AnnexBStream.ExtractParameterSets | server/src/webrtc/transport.rs:1103-1123 | the last SPS and the last PPS of the shortest prefix of the units that holds both, or of all units when none does |
| AnnexBStream.LastOfTypeIs | server/src/webrtc/transport.rs:1110-1116 | what is extracted is a unit of its type, and no later unit of the prefix has that type |
| AnnexBStream.SetsPrefixExactly | server/src/webrtc/transport.rs:1107-1121 | that prefix ends as soon as it holds a unit of type 7 and one of type 8, and is all units when it never does |
| RtpPacketizer.FragmentNal | server/src/webrtc/transport.rs:1035-1056 | the FU-A packets of one large unit |
| RtpPacketizer.PacketizeH264 | server/src/webrtc/transport.rs:1027-1060 | the packets of a frame are those of its units in order, the marker only on the last of the last |
| RtpReceiver.FragmentsDelivered | server/src/webrtc/transport.rs:1040-1056 | from any fragment on, a receiver ends with the whole unit, header rebuilt from both FU octets |
| RtpReceiver.LargeUnitRejected | server/src/webrtc/transport.rs:1044-1051 | a start fragment that arrives while a unit is pending is rejected |
| RtpReceiver.UnitDelivered | server/src/webrtc/transport.rs:1032-1057 | the packets of a carried unit deliver exactly that unit |
| RtpReceiver.UnitSpoiled | server/src/webrtc/transport.rs:1032-1057 | the packets of any other unit do not deliver it in its place |
| RtpReceiver.DepacketizeInvertsPacketize | server/src/webrtc/transport.rs:1027-1060 | an RFC 6184 receiver gets back exactly the units if and only if those sent alone have type 1 to 23 and the fragmented ones a cleared forbidden bit |
| RtpReceiver.FrameSurvivesTransport | server/src/webrtc/transport.rs:1027-1060 | the same for what the packetiser makes of any data |
| RtpReceiver.ForbiddenBitIsLost | server/src/webrtc/transport.rs:1040-1056 | a frame of one large unit with the forbidden bit set arrives without it |
| RtpReceiver.OddTypeIsRejected | server/src/webrtc/transport.rs:1032-1035 | a frame of one small unit of type 0 or 24 to 31 is rejected by this receiver |
| RtpReceiver.FragmentCount | server/src/webrtc/transport.rs:1040-1056 | a large unit yields ceil((len - 1) / 1198) fragments, at least two |
| RtpReceiver.FragmentShape | server/src/webrtc/transport.rs:1040-1056 | S on only the first fragment, E on only the last, never both; F and the reserved bit cleared, NRI and type those of the unit, indicator type 28; at most 1200 bytes each; the marker on the last of the last unit |
| RtpReceiver.FrameShape | server/src/webrtc/transport.rs:1025-1060 | every payload of a non-empty frame is 1 to 1200 bytes long and the marker stands on exactly the last packet |
| RtpSequencer.PtsStep | server/src/main.rs:1007-1008 | the timestamp advances by 1 to 90000 per frame, whatever the rate |
| RtpSequencer.StepIsRate | server/src/main.rs:1007-1008 | the step is 90000 over the rate, rounded down; 90000 when the rate is 0, and 1 above 90000 |
| RtpSequencer.SecondOfFrames | server/src/main.rs:1007-1009 | wherever in the stream, as many frames as the constant rate says advance the clock by more than 90000 - rate and at most 90000 |
| RtpSequencer.PtsAdvances | server/src/main.rs:1007-1009 | the wrapping 64-bit clock, truncated to 32 bits, is the sum of the steps of the earlier frames modulo 2^32 |
| RtpSequencer.NearbyFramesDiffer | server/src/main.rs:975-1009 | frames less than 47722 apart never share a timestamp, despite the wrap |
| RtpSequencer.StampKeepsConsecutive | server/src/webrtc/transport.rs:762-784 | whatever writes fail, the packets that get through continue the numbering modulo 2^16 |
| RtpSequencer.StampKeepsTimed | server/src/webrtc/transport.rs:762-784 | they all carry the timestamp of their frame |
| RtpSequencer.StampDelivers | server/src/webrtc/transport.rs:762-784 | exactly the packets whose write got through are on the track, in order, the k-th with the k-th number modulo 65536 |
| RtpSequencer.WritePackets | server/src/webrtc/transport.rs:762-784 | the write loop sends the stamped packets and returns the next number |
| RtpSequencer.BroadcastOnlyAdds | server/src/webrtc/transport.rs:720-740 | a broadcast only appends packets of its own frame, and only to the tracks named |
| RtpSequencer.BroadcastReaches | server/src/webrtc/transport.rs:720-788 | a registered connection named once and not removed before its turn is sent every packet, numbered on from where it stood |
| RtpSequencer.ReachedExactly | server/src/webrtc/transport.rs:728-740 | the count is that of the connections registered at their turn, and equals the length of the list exactly when all are, as the caller tests (`server/src/main.rs:976`) |
| RtpSequencer.RegisteredAfterwards | server/src/webrtc/transport.rs:742-788 | after a broadcast a connection is registered exactly when it was before and was not removed meanwhile: writing the number back brings none back |
| RtpSequencer.TracksAreConsecutive | server/src/webrtc/transport.rs:720-788 | in every run of registrations, removals and frames, with any write failures: each track's numbers run from 0 modulo 2^16 without gap or repeat, each packet carries the sum of the earlier frames' steps, and the stored number is the next one |
| RtpSequencer.RemovedIsLeftOut | server/src/webrtc/transport.rs:700-740 | in every run, a removed connection is sent nothing more, ever |
| RtpSequencer.FirstFrameIsWhole | server/src/webrtc/transport.rs:636-788 | a connection that registers gets the whole next frame sent to it, numbered from 0 |
| RtpSequencer.VideoSender.Register | server/src/webrtc/transport.rs:636-638 | a new connection starts at number 0 |
| RtpSequencer.VideoSender.Remove | server/src/webrtc/transport.rs:700-704 | a removed connection takes part no more |
| RtpSequencer.VideoSender.SendOptimizedPackets | server/src/webrtc/transport.rs:742-788 | one connection's share of a frame; the number is written back only if it is still registered |
| RtpSequencer.VideoSender.BroadcastFrame | server/src/webrtc/transport.rs:720-740 | the connections are served one after the other, and the count is of those registered at their turn |
| RtpSequencer.VideoSender.SendFrame | server/src/main.rs:975-1009 | one captured frame: broadcast with the current timestamp, then step the clock |
| ConnectionRegistry.StepKeepsInv | server/src/webrtc/transport.rs:474-718 | every locked region of every task keeps the in-flight invariant: lists without duplicates, every live connection listed unless between insert and push, every listed id live unless between remove and retain, every WHEP connection in transit once or at one resource |
| ConnectionRegistry.InvAlongRun | server/src/webrtc/transport.rs:636-718 | so it holds throughout every run of any number of tasks |
| ConnectionRegistry.QuietRegistryIsExact | server/src/webrtc/transport.rs:636-718 | with no task in flight the two maps agree exactly, and the WHEP resources name exactly the live WHEP connections, one each |
| ConnectionLifecycle.DirectLifecycle | server/src/webrtc/transport.rs:636-718 | from any state of the invariant, registering, listing, removing and unlisting a connection leaves the maps as they were; only its id is used up |
| ConnectionLifecycle.WhepLifecycle | server/src/webrtc/transport.rs:1172-1227 | so does a WHEP subscription that is announced and deleted |
| ConnectionLifecycle.GivingUpLeavesNoTrace | server/src/webrtc/transport.rs:479-485 | an offer is admitted exactly below the maximum, and giving it up restores the state |
| ConnectionLifecycle.WithoutKeepsOthers | server/src/webrtc/transport.rs:712-712 | exactly the entries for the id go from a list; with WithoutJoins, the others keep their order |
| ConnectionLifecycle.RemovedForGood | server/src/webrtc/transport.rs:700-718 | in every run, a connection once removed or closed is never live again, and one whose resource was deleted is not live once nothing is in flight; then it is on no list and at no resource |
| ConnectionLifecycle.RetainedForGood | server/src/webrtc/transport.rs:709-714 | an id once taken off a list is never on it again |
| PeerMaximum.PeerBound | server/src/webrtc/transport.rs:479-485 | with at most M admitted offers of a source in flight, listed plus in-flight connections never exceed max_peers - 1 + M |
| PeerMaximum.LivePeerBound | server/src/webrtc/transport.rs:874-880 | neither do the live connections of the source |
| PeerMaximum.BoundIsReached | server/src/webrtc/transport.rs:479-643 | for every maximum and every M a run with at most M offers in flight reaches that bound, with all of them in flight and with all of them listed |
| PeerMaximum.OverlappingOffersExceedTheMaximum | server/src/webrtc/transport.rs:479-485 | whatever the maximum, two offers in flight can exceed it |
| PeerMaximum.MaximumHoldsExactly | server/src/webrtc/transport.rs:479-643 | every run with at most M offers in flight lists at most max_peers if and only if M <= 1 |
| ConnectionRegistry.AnnounceWhep | server/src/webrtc/transport.rs:1172-1191 | storing a resource keeps resources injective and on live connections |
| ConnectionRegistry.DeleteWhep | server/src/webrtc/transport.rs:1215-1227 | so does deleting one |
| ConnectionRegistry.PeerRegistry.ConnectionCountForSource | server/src/webrtc/transport.rs:682-688 | the number of listed connections of a source, 0 for an unknown one |
| ConnectionRegistry.PeerRegistry.PushConnection | server/src/webrtc/transport.rs:639-643 | the id is appended to its source's list |
| ConnectionRegistry.PeerRegistry.RetainOthers | server/src/webrtc/transport.rs:700-718 | the id is dropped from its source's list, others keep their order |
| ConnectionRegistry.PeerRegistry.HandleOffer | server/src/webrtc/transport.rs:474-643 | an offer on its own is admitted exactly below the maximum, keeps both maps equal, and never exceeds the maximum |
| ConnectionRegistry.PeerRegistry.RemoveConnection | server/src/webrtc/transport.rs:700-718 | a removal on its own keeps both maps equal; an unknown id changes nothing |
| BruteForce.BruteForceTracker.Check | server/src/auth/brute_force.rs:143-161 | locked exactly when enabled and the IP's lockout end lies ahead |
| BruteForce.BruteForceTracker.RecordFailure | server/src/auth/brute_force.rs:163-207 | the new table and whether the failure locks |
| BruteForce.BruteForceTracker.Clear | server/src/auth/brute_force.rs:209-218 | the IP's record is gone, the others stay |
| BruteForce.BruteForceTracker.Cleanup | server/src/auth/brute_force.rs:119-138 | exactly the locked and the recently failed records stay; none over the cap |
| BruteForce.LocksFromOneOn | server/src/auth/brute_force.rs:45-47 | a window of 1 s and one failure are enough to lock; without either nothing ever does |
| BruteForce.OperationKeepsAlike | server/src/auth/brute_force.rs:143-218 | bisimulation step: a cleaned and an uncleaned table answer alike and stay alike |
| BruteForce.CleanupKeepsAlike | server/src/auth/brute_force.rs:119-138 | bisimulation step: a cleanup drops only records no later operation can tell from absent ones |
| BruteForce.CleanupIsInvisible | server/src/auth/brute_force.rs:101-141 | over every run below the cap, with failures strictly after each cleanup, all answers are those of the run without cleanups |
| BruteForce.CleanupInvisibleExactly | server/src/auth/brute_force.rs:101-218 | that holds for all runs if and only if the window is at most 1800 s or a single failure locks |
| BruteForce.TelltaleTells | server/src/auth/brute_force.rs:124-128 | otherwise, from any second on, this run of failures and one cleanup gets a different answer |
| BruteForce.NextAnswerExactly | server/src/auth/brute_force.rs:121-191 | the very next answer in the second of a cleanup: a check never differs, a failure does if and only if more than one failure locks and the cleanup drops a record that the failure would have prolonged up to the maximum |
| BruteForce.SameSecondExactly | server/src/auth/brute_force.rs:119-218 | for every table below the cap and every configuration: all that follows a cleanup, from its own second on, is answered as without it if and only if it drops no record that a failure in that second would have prolonged (or a single failure locks) |
| BruteForce.ProlongedTells | server/src/auth/brute_force.rs:121-191 | for every window, every maximum above 1 and every start, a run on a monotone clock and below the cap that is answered differently |
| BruteForce.InvisibleInAnySecondExactly | server/src/auth/brute_force.rs:101-218 | over all runs below the cap on a merely monotone clock, cleanups never change an answer if and only if a single failure locks |
| LoginRate.TableSize | server/src/auth/brute_force.rs:172-174 | in every run whatsoever at most 3000 IPs are on record |
| LoginRate.CapForgets | server/src/auth/brute_force.rs:172-191 | at that cap the next failure forgets all other IPs, locked ones too, and the streak of its own |
| LoginRate.StreakIsLongestSuffix | server/src/auth/brute_force.rs:181-186 | the streak is the longest suffix of the failure times with all gaps within the window |
| LoginRate.RecordIsHistory | server/src/auth/brute_force.rs:119-218 | in every run below the cap, cleanups and all, the record stands for the failures since it was last cleared or dropped: the count is their streak, the lockout end is last + window exactly when it has reached the maximum, else 0 |
| LoginRate.AnswersFollowHistory | server/src/auth/brute_force.rs:143-207 | so in every such run a check answers locked exactly when the streak of the live failures has reached the maximum and the latest lies less than a window back, and a failure locks exactly when the streak it extends reaches the maximum |
| LoginRate.LiveWithoutCleanups | server/src/auth/brute_force.rs:163-218 | without cleanups that is the whole history since the last clear |
| LoginRate.LiveIsSuffix | server/src/auth/brute_force.rs:119-133 | in a safe configuration what a cleanup has dropped is at least a window older than the failures after it, or than now |
| LoginRate.FailureRateIsBounded | server/src/auth.rs:236-263 | behind the login gate, with at most M overlapping attempts of an IP and cleanups at least some gap apart, fewer than Most + 1 of its failures since its last clear fall in a span shorter than the window; max - 1 + M without cleanups |
| LoginRate.MostAreReached | server/src/auth.rs:236-263 | from any second on there is such a run with Most failures in a span shorter than the window |
| LoginRate.RateIsBoundedExactly | server/src/auth.rs:236-263 | so at most N failures get past the gate within less than a window, in every run, if and only if N >= Most = (d + 1)(max - 1) + M, where d is the number of times a record can be dropped in that span |
| LoginRate.MaximumBoundsRateExactly | server/src/auth.rs:236-263 | the configured maximum is such an N if and only if attempts do not overlap and the window is at most 1800 s or a single failure locks |
| KvmInit.InvAlongRun | kvm/src/lib.rs:220-369 | the lock excludes and the shared state is as its holder expects, for any number of threads and any interleaving |
| KvmInit.PowerAlternates | kvm/src/lib.rs:220-314 | `kvmv_init` and `kvmv_deinit` strictly alternate, starting with init |
| KvmInit.EachInitIsReportedOnce | kvm/src/lib.rs:262-285 | each init returns Ok(true) exactly once, to the thread that made it, before the next init |
| KvmInit.InitializingIsLocked | kvm/src/lib.rs:262-281 | `Initializing` is visible exactly while the initialiser holds the lock |
| KvmInit.AtMostOneInside | kvm/src/lib.rs:247-369 | no two threads are in a locked region |
| KvmInit.ReadsAreLocked | kvm/src/lib.rs:349-369 | every read happens under the lock in the mode being read; the hardware is up at the read if and only if the state is Ready then |
| KvmInit.ReadCanFindHardwareDown | kvm/src/lib.rs:349-358 | a run in which a shutdown overtakes a reader that then reads from hardware that is down |
| KvmInit.NoDeadlock | kvm/src/lib.rs:246-369 | the holder of the lock can always step, and everybody can when it is free |
| KvmInit.HolderFinishes | kvm/src/lib.rs:246-369 | each step of the holder brings the release closer |
| KvmInit.WaiterReads | kvm/src/lib.rs:225-233 | a call that found another thread initialising reads if the hardware is up after its wait, and otherwise gives up and leaves no trace |
| KvmInit.OvertakenReads | kvm/src/lib.rs:247-253 | of two threads that set out to initialise, the second to get the lock does not do it again, but reads |
| KvmInit.Kvm.EnsureInitialized | kvm/src/lib.rs:220-286 | new state and result of an uninterrupted call, which is what a thread of the machine does on its own |
| KvmInit.Kvm.ResetInitState | kvm/src/lib.rs:289-300 | the same for a reset |
| KvmInit.Kvm.Deinitialize | kvm/src/lib.rs:303-314 | the same for a shutdown |
| KvmInit.Kvm.SwitchEncoderModeLocked | kvm/src/lib.rs:326-347 | the mode becomes the requested one, nothing else changes |
| KvmInit.Kvm.ReadImg | kvm/src/lib.rs:371-414 | the read, the failure counter, which wraps at 256, and the reply: a frame or an error value |
| KvmInit.RepliesAreExact | kvm/src/lib.rs:384-414 | a frame exactly for a non-negative code and data, with the length of the data and the type of codes 1 to 4; NotExist exactly for code -1 or missing data; each other error exactly for its code; counted are -2 and -7 |
| KvmInit.FailuresCountSinceSuccess | kvm/src/lib.rs:384-407 | over any reads, the failure count is the number of codes -2 and -7 since the last read that did not fail, modulo 256 |
| KvmInit.TrueMeansOpened | kvm/src/lib.rs:217-286 | a call on its own answers Ok(true) exactly when it has initialised the hardware and Ok(false) exactly when it was up; either way it is up then |
| KvmInit.MissingLibraryIsRetried | kvm/src/lib.rs:234-260 | without the library every call fails and is retried, untouched by the backoff, until the library is there |
| KvmInit.BackoffExactly | kvm/src/lib.rs:234-300 | after k counted reads in a row, a shutdown and one call without the library, calls give up at once if and only if k >= 5, until a reset |
| KvmInit.Kvm.Get | kvm/src/lib.rs:349-369 | initialise, switch and read, with all errors, again as a run of the machine |
| QualityController.Controller.OnFrameResult | server/src/quality.rs:149-205 | the new state, and whether the tier changed |
| QualityController.Controller.OnRembReceived | server/src/quality.rs:209-238 | the new state; the loop finds the first tier that fits |
| QualityController.Controller.SetAutoEnabled | server/src/quality.rs:105-114 | enabling resets tier and streaks but not the time of the last change |
| QualityController.TargetTierIsBestExactly | server/src/quality.rs:216-222 | the tier chosen is the best that fits the estimate if and only if kbit/s is below 65536 or its low 16 bits are at least 4000 |
| QualityController.TierOfRate | server/src/quality.rs:216-222 | which rates in kbit/s ask for which of the five tiers |
| QualityController.LargeEstimateGetsLowestTier | server/src/quality.rs:216-222 | 65536 kbit/s get the lowest tier although the highest fits |
| QualityController.RunIsBounded | server/src/quality.rs:149-238 | in any stretch of any run: tier in range, at most one streak running, 90 successes per upgrade, 3 failures per downgrade, 2 s per change |
| QualityController.ChangesTakeTime | server/src/quality.rs:161-162 | 2 s times the changes never exceed the time elapsed |
| QualityController.TierIsTheBalance | server/src/quality.rs:149-205 | without estimates and toggles, tier = start - upgrades + downgrades |
| QualityController.SustainedReportsMoveTheTier | server/src/quality.rs:164-202 | 90 successes or 3 failures in a row that last until 2 s after the latest change do move the tier, unless it is at that end |
| QualityController.EstimateIsFollowed | server/src/quality.rs:218-230 | an estimate 2 s or more after the latest change sets the best tier for its truncated value and starts both streaks over; any other changes nothing |
| QualityController.EstimateStartsOver | server/src/quality.rs:209-238 | after such an estimate each change by a frame is paid for anew |
| QualityController.NewRun | server/src/quality.rs:74-85 | a new controller starts at tier 1 with automatic quality on; over any frames the tier is 1 - upgrades + downgrades, 90 successes or 3 failures are paid for each, and the statistics count every frame |
| QualityController.EnablingStartsOver | server/src/quality.rs:105-114 | so after enabling in any state, except that the time of the latest change and the statistics stay |
| QualityController.DisablingFreezes | server/src/quality.rs:105-114 | after disabling, frames and estimates leave everything as it was |
| QualityController.StatisticsDoNotSteer | server/src/quality.rs:155-159 | the statistics never influence the course of a run |
| QualityController.ResettingIsHarmless | server/src/quality.rs:260-264 | so resetting them sets them to 0 and changes nothing else, ever |
| QualityController.OffIsFrozen | server/src/quality.rs:152-214 | while automatic quality is off, frames and estimates change nothing |
| RecoveryLimiter.RateLimiter.CheckRateLimit | server/src/passkey/recovery.rs:62-95 | the answer and the new entry; the others stay |
| RecoveryLimiter.WaitIsOneSecondShort | server/src/passkey/recovery.rs:186-202 | a refused client is let through again only later than the announced wait |
| RecoveryLimiter.AtMostFivePerWindow | server/src/passkey/recovery.rs:79-94 | a window takes at most 5 attempts, each within 900 s of its start; windows lie more than 900 s apart |
| RecoveryLimiter.AtMostTenPerSpan | server/src/passkey/recovery.rs:62-95 | at most 10 attempts of an IP in any span of 900 s, and at most 9 once the clock reads more than 900 |
| RecoveryLimiter.TenAreReached | server/src/passkey/recovery.rs:79-92 | 10 are reached |
| RecoveryLimiter.NineAreReached | server/src/passkey/recovery.rs:79-92 | and so are 9 at any later time |
| RecoveryLimiter.RefusalHasACause | server/src/passkey/recovery.rs:87-94 | a refusal means 5 attempts let through in the last 900 s |
| RecoveryStore.Scan | server/src/passkey/recovery.rs:209-223 | found exactly when the key is in the multiset of unused codes; the count returned |
| RecoveryStore.Flip | server/src/passkey/recovery.rs:226-232 | the first unused match becomes used, nothing else |
| RecoveryStore.ConsumedRemovesOne | server/src/passkey/recovery.rs:209-232 | on the multiset of unused codes, a known key is removed once, any other changes nothing |
| RecoveryStore.RemainingIsRightExactly | server/src/passkey/recovery.rs:210-223 | the number in the reply is that of the unused codes left if and only if used + 1 equals the copies of an accepted key, or none is used for a refused one |
| RecoveryStore.UsedCodeIsCounted | server/src/passkey/recovery.rs:210-223 | of one used code, one is said to remain whatever is entered |
| RecoveryStore.RemainingAddsUp | server/src/passkey/recovery.rs:210-235 | the number in the reply and the copies of the key that were unused add up to all codes |
| RecoveryStore.RepliesAreExact | server/src/passkey/recovery.rs:186-238 | who is told what: the wait exactly when the limiter refuses, a file error exactly when the load or a needed save fails, otherwise whether the key is unused |
| RecoveryStore.EveryAttemptIsCharged | server/src/passkey/recovery.rs:182-202 | over every run each attempt is charged once, whatever comes of it, and turned away exactly when the limiter refuses it: the bounds on grants bound the codes that can be tried |
| RecoveryStore.AcceptedExactly | server/src/passkey/recovery.rs:182-239 | an attempt is accepted if and only if the limiter, the file and the multiset allow it, and removes exactly one copy |
| RecoveryStore.CodesAreConserved | server/src/passkey/recovery.rs:182-239 | over every run and for each code, acceptances + unused = initially unused |
| RecoveryOverlap.AttemptIsTwoSteps | server/src/passkey/recovery.rs:182-239 | an attempt on its own is the load step and then the save step of the machine for overlapping attempts |
| RecoveryOverlap.NoCodeIsLost | server/src/passkey/recovery.rs:182-239 | in every run of any overlapping attempts: acceptances + unused >= initially unused, for each code |
| RecoveryOverlap.AcceptedTwice | server/src/passkey/recovery.rs:205-234 | for any unused code, a run of two overlapping attempts that are both accepted while one copy is used up |
| RecoveryOverlap.ConservedExactly | server/src/passkey/recovery.rs:182-239 | with at most M attempts between load and save, acceptances + unused = initially unused in every run from any codes if and only if M <= 1 |
| RecoveryStore.GroupedNormalForm | server/src/passkey/recovery.rs:106-112 | the stored form of a generated code has its 16 characters as normal form |
| RecoveryStore.GroupedForm | server/src/passkey/recovery.rs:106-112 | 19 characters, four groups of four with a dash between any two |
| RecoveryStore.RecognisedExactly | server/src/passkey/recovery.rs:205-217 | an input opens an unused code if and only if, once trimmed, it is the code up to the case of letters and to dashes left out or put in |
| RecoveryStore.TypedCodeIsRecognised | server/src/passkey/recovery.rs:97-112 | a generated code, typed in any such way and with spaces around it, is recognised |
| RecoveryStore.RecoveryService.ValidateAndConsumeCode | server/src/passkey/recovery.rs:182-239 | new limits, new list and reply of one attempt, with file errors |
| EdidI2c.Lt6911I2c.I2cWriteByte | server/src/vm/edid_i2c.rs:64-74 | device, cache and result of one write, whichever transfer fails |
| EdidI2c.Lt6911I2c.I2cWriteBytes | server/src/vm/edid_i2c.rs:76-92 | the same for a burst; an empty one is refused |
| EdidI2c.Lt6911I2c.I2cReadBytes | server/src/vm/edid_i2c.rs:100-116 | the same for a read |
| EdidI2c.OutcomeExactly | server/src/vm/edid_i2c.rs:64-116 | an empty transfer is refused and leaves no trace; any other access fails exactly when a transfer it makes fails |
| EdidI2c.AccessAgrees | server/src/vm/edid_i2c.rs:64-116 | an access made on its own page does to the device what selecting the page first does, with the same reply, on any chip and whichever transfers fail |
| EdidI2c.PagesAgreeExactly | server/src/vm/edid_i2c.rs:64-116 | over every error-free session with any offsets, on any chip: all accesses are made on their own pages if and only if the first finds its page and each later one names another page than the one before or that one left its own page selected; then both drivers leave the same registers and read the same bytes |
| EdidI2c.StaysInStepExactly | server/src/vm/edid_i2c.rs:64-116 | whatever transfers of an access fail, the cache stays right if and only if the select is not sent, or succeeds, or the page was selected anyway |
| EdidI2c.SessionsAgree | server/src/vm/edid_i2c.rs:64-116 | over every session with any select, address and data errors: the cache stays right exactly as long as that holds, and so long the cached driver leaves the same registers and gives the same replies as one that selects the page every time |
| EdidI2c.TameSessionsAgree | server/src/vm/edid_i2c.rs:64-116 | in particular error-free sessions on real pages, whose writes to the page register carry the current page, agree |
| EdidI2c.FailedSelectIsRemembered | server/src/vm/edid_i2c.rs:65-70 | after a failed select the next read is made on its own page if and only if it names another page or the page was selected anyway |
| EdidI2c.OldPageIsRead | server/src/vm/edid_i2c.rs:65-70 | a chip on which the read after a failed select returns a byte of the old page |
| EdidI2c.EdidSessionAgrees | server/src/vm/edid_i2c.rs:127-187 | both EDID loops stay within the agreeing accesses |
| EdidI2c.SessionIsAsListed | server/src/vm/edid_i2c.rs:127-187 | the common form of both reads is, write by write, what each chip's function lists |
| EdidI2c.Lt6911I2c.EdidRead | server/src/vm/edid_i2c.rs:127-187 | on success the buffer holds what the plain driver would have read, chunk after chunk, and bytes past the last whole chunk are untouched; without errors it succeeds |
| EdidI2c.EdidIsReadInOrder | server/src/vm/edid_i2c.rs:134-154 | from a receiver with an address and a data register, chunk i comes from address size * i and the chunks tile the buffer |
| EdidI2c.WholeEdidIsRead | server/src/vm/edid_i2c.rs:205-216 | both loops read all 256 bytes |
| Netmask.AndTestsForPrefix | network/src/lib.rs:316-317 | x & (x + 1) is zero for the complement x exactly when the bits are ones, then zeros, at any width |
| Netmask.ValidExactly | network/src/lib.rs:300-318 | a string is accepted if and only if it is four octets whose 32 bits are ones, then zeros |
| Netmask.NetmaskToCidr | network/src/lib.rs:320-344 | the number of leading ones, or the error |
| Netmask.LengthRoundTrip | network/src/lib.rs:320-366 | every length up to 32 survives printing as a netmask and counting back, and the netmask is valid |
| Netmask.OverlongIsTwentyFour | network/src/lib.rs:347-349 | longer ones print as 24 does |
| Netmask.NetmaskRoundTrip | network/src/lib.rs:300-366 | a netmask survives counting and printing back if and only if it is valid |
| Netmask.OctetExactly | network/src/lib.rs:306-310 | a string is taken for an octet if and only if it is its decimal numeral after any zeros and at most one plus sign |
| Netmask.ReadQuad | network/src/lib.rs:357-365 | a printed quad is read back as the octets of its value |
| MacAddress.ParseMac | network/src/lib.rs:158-174 | what is accepted, and the formatted address |
| MacAddress.AcceptedExactly | network/src/lib.rs:158-174 | accepted if and only if twelve hexadecimal digits are left; then the address has 17 characters, the digits in order in six pairs, and a colon between any two |
| MacAddress.CleanedExactly | network/src/lib.rs:159-159 | dashes, colons and dots are dropped, every other character stays, in capitals |
| MacAddress.ParsedIsNormalForm | network/src/lib.rs:158-174 | parsing is idempotent and keeps the digits: two inputs agree exactly when they differ only in case and separators |
| WolStore.WolStore.GetWolMacs | network/src/lib.rs:102-121 | the entries of the file, none for an absent one, or the read error |
| WolStore.WolStore.SaveAllMacs | network/src/lib.rs:208-221 | the file is the printed list, or whatever a failed write leaves |
| WolStore.WolStore.SaveMac | network/src/lib.rs:182-206 | a known address changes nothing, a new one is appended as a line; with read and write errors |
| WolStore.WolStore.WakeOnLan | network/src/lib.rs:82-100 | result and file after a wake, with a bad address or a failed command; a failed save is not reported |
| WolStore.NameFirst | network/src/lib.rs:127-133 | the loop names the first entry for the address, and says whether there is one |
| WolStore.WolStore.SetWolMacName | network/src/lib.rs:123-144 | the first entry for the address gets the name, or an error and no change; with read and write errors |
| WolStore.Retain | network/src/lib.rs:149-149 | all entries for other addresses stay, in order |
| WolStore.WolStore.DeleteWolMac | network/src/lib.rs:146-156 | all entries for the address go; without one the file is not written; with read and write errors |
| WolStore.ParsedArePlain | network/src/lib.rs:110-118 | whatever the file holds, addresses read from it are non-empty and hold no space or newline |
| WolStore.LineForm | network/src/lib.rs:193-197 | a line is the address, and the name after one space if there is one |
| WolStore.SanitizedExactly | network/src/lib.rs:176-180 | sanitising keeps the allowed characters in order and drops all others |
| WolStore.RoundTripExactly | network/src/lib.rs:102-221 | a printed list is read back if and only if its addresses are non-empty and without space, no field holds a newline, and no line ends in a carriage return |
| WolStore.SanitizedIsSturdy | network/src/lib.rs:176-198 | a parsed address under any sanitised name fits on a line |
| WolStore.SavedLineIsReadBack | network/src/lib.rs:182-206 | so the line appended for a new address, whatever name is given, is read back as one more entry |
| WolStore.StoredRefines | network/src/lib.rs:82-156 | on a canonical file each operation does to the text what it does to the list |
| WolStore.StoredRefinesExactly | network/src/lib.rs:82-156 | on a canonical file that holds for every operation except, exactly, naming a listed address with a name that does not fit on a line |
| WolStore.NewlineIsNotReadBack | network/src/lib.rs:123-144 | so a rename to a name with a newline, which the store accepts, is not read back |
| WolStore.RunRefines | network/src/lib.rs:82-221 | over every run from a canonical file: the text stands for the list, is newline-terminated, and addresses stay unique |
| WolStore.AppliedIsIntended | network/src/lib.rs:82-156 | on every list, a wake adds an unknown address with an empty name and last, a rename renames a listed one in its place, a delete forgets it, and nothing else changes in the dictionary of names |
| WolStore.RunIsIntended | network/src/lib.rs:82-221 | so over every run from a canonical file what is read back is the dictionary that the operations ask for |
| WolStore.EmptyIsCanonical | network/src/lib.rs:103-105 | the empty store is canonical |
| WolStore.RunKeepsOthers | network/src/lib.rs:123-206 | entries that no operation of a run is about keep their names and their order |

## Left out

- HTTP and WebSocket handlers, SDP, ICE, the peer connection and track objects: library plumbing. Of a track only that a write may fail remains.
- The SSRC, the playout-delay extension, the audio path and `PeerConnectionHandle.send_video_frame`: they touch no modelled state.
- RtpSequencer.VideoSender.BroadcastFrame: one broadcast at a time. Two concurrent broadcasts to one connection could reuse numbers; the capture loop awaits each one.
- RtpSequencer.VideoSender.Register: connection ids are never used again, as version-4 UUIDs are taken to be.
- ConnectionRegistry.StepKeepsInv: ids and resource names are fresh at each draw, for the same reason; tasks are anonymous, so which task performs a pending region is not recorded.
- PeerMaximum.PeerBound: stated for max_peers >= 1; with 0 no offer is admitted.
- BruteForce.BruteForceTracker.RecordFailure: u32 and u64 overflow of counters and times is not modelled; saving to and loading from the state file is left out, so a run starts from an empty table.
- BruteForce.CleanupIsInvisible: failures in the very second of a cleanup are excluded, because there a cleanup can show (InvisibleInAnySecondExactly and SameSecondExactly say when), and so are runs that reach the record cap, where the whole table is dropped.
- LoginRate.RecordIsHistory: for runs below the record cap; a clock that reads 0 would make a record look new.
- LoginRate.FailureRateIsBounded: per stretch between two successful logins, since a success clears the record; and for runs below the record cap. Cleanups may come at any seconds that are far enough apart, as the schedule depends on when the server starts.
- RtpReceiver.DepacketizeInvertsPacketize: for a receiver without aggregation packets (types 24 to 27 of RFC 6184), which the code never sends although the packetization mode it announces (`server/src/webrtc/transport.rs:674`) allows STAP-A.
- KvmInit.InvAlongRun: one `Kvm` instance, sequentially consistent atomics, and no thread dying inside the lock. `free_all_kvmv_data`, delays, HDMI control and the frame buffers are left out.
- KvmInit.ReadsAreLocked: does not claim that the hardware is up at a read, because the code does not check it there.
- KvmInit.Kvm.Get: the frame is its length and type; the buffer behind it and its release are left out.
- QualityController.RunIsBounded: counters are unbounded naturals, and the clock need not be monotone for it; the statistics reader, the bitrate and JPEG quality lookups are left out.
- RecoveryLimiter.AtMostTenPerSpan: needs a monotone clock, which the system clock is not in general. Persistence of the limits is left out.
- RecoveryStore.CodesAreConserved: for attempts one after the other; RecoveryOverlap has the others. A failed save is taken to leave the file as it was.
- RecoveryOverlap.ConservedExactly: the rate limit check and the load of one attempt are one step; the proof does not depend on which attempts the limiter lets through.
- RecoveryStore.RecognisedExactly: letter case and white space are those of ASCII; the source uses Unicode. The random choice of characters is left out.
- EdidI2c.SessionsAgree: for accesses that leave their own page selected, on pages other than 0xFF, as all callers make them (PagesAgreeExactly covers the others without errors); a select that is not sent cannot fail, and a failed transfer is taken to leave the device alone.
- EdidI2c.Lt6911I2c.EdidRead: contents of the buffer after an error are not stated, and the caller drops it.
- EdidI2c.EdidIsReadInOrder: the receiver with an address register at 0x5D and a data register at 0x5F is what the register sequence implies; the chip's documentation is not part of this model.
- MacAddress.ParseMac: letter case is that of ASCII. The source's Unicode uppercasing also maps a few ligatures to hexadecimal letters.
- WolStore.WolStore.SaveMac: names are sanitised for ASCII letters and digits only, and creating the directory is left out.
- WolStore.RunRefines: operations that succeed, one at a time, with names that fit on a line; after a failed write the file may hold anything. Concurrent writers are left out, and a wake always passes the empty name.
- The in-memory layout of slices and shared packets: a unit is a range of the frame or a byte string, so copying and reference counts do not show.
- Passkey handlers, storage health, configuration migration, EDID checksum, terminals, GPIO and downloads: small or plumbing, and they would add only easy members.
