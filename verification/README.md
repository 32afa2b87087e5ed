# Verified model of go-phorce/dolly

A Dafny model of the parts of the repository that carry most of its logic, with proofs of what they
promise. `dafny verify dfyconfig.toml` checks everything.

Code that computes is modelled by functions; code that changes things step by step by methods and
classes, each tied to a function or a property by its `ensures`; protocols between goroutines by state
machines whose runs are all interleavings of their steps. Bytes and machine words are numbers, with
masks and wrap-around written out.

| files | what they model |
|---|---|
| `Gf2`, `Crc24`, `Radix64`, `Bytes`, `Armor`, `ArmorCompleteness`, `ArmorRoundTrip`, `KeyRing` | the OpenPGP armor decoder (sections 6.1 to 6.4 of RFC 4880) and the key ring reader |
| `ChannelWriter` | the background log writer, over all interleavings of writers, listener, ticker and `Stop` |
| `AuthzRules`, `Authz` | the authorization tree: its declarative meaning, and the tree of nodes on the heap |
| `Statsd` | the packing of metrics into packets, with failing dials and writes |
| `Throttle` | the throttle: critical sections, condition variable, timers and clock |
| `Sessions` | the PKCS#11 session pools, with nested and failing calls |
| `Tasks`, `TaskFormat`, `Scheduler`, `TaskRuns` | calendar arithmetic, schedule texts, selection of the tasks that are due, concurrent runs |
| `Retriable` | retries, body rewinding and host failover, for arbitrary answers of the transport |
| `Aggregates`, `Inmem`, `GcSampling`, `MetricFilter` | the in-memory metrics sink, sampling of GC pauses, metric and label filters |
| `SigningPolicy`, `Signing`, `Oid` | the certificate template that `Sign` builds, and the text forms of object identifiers |

## What was found

Where a promise does not hold, the code is modelled as it is; a lemma gives an input or a run that
shows it, and another says exactly when the promise holds.

- Armor: the comment "we will always find any valid block, no matter what bytes precede it" holds, for
  whole lines before the block, when its type has no colon: repeated decoding finds that very block, and
  then what follows it (`Completeness`). Of every block it holds exactly then (`CompletenessExact`):
  behind a BEGIN line with a longer type, the lines of the block are taken for headers, and the block alone
  is lost (`DecoyHides`, `ColonBlockIsHidden`).
- Channel writer: a `Write` whose send comes after the draining listener has found the channel empty
  returns without an error and is never written (`WriteAfterDrainIsLost`, `WrittenExactly`); once the
  channel is full such a call never returns (`WriteReturnsExactly`). The comment says that `Stop` blocks until
  the channel is drained and the output flushed; that holds of a call exactly when the writer still ran, or
  nothing was left to write or to flush (`StopWaitsExactly`). A second `Stop` can return before either
  (`LosingStopDoesNotWait`, `LosingStopDoesNotFlush`).
- Authorization: a path on the way to a configured one has no rule of its own and is denied, although a
  shorter path may have been allowed with "its children" (`IntermediateDenies`, `DeeperRuleRevokes`). The
  nearest call above a path reaches it exactly if no longer prefix of the path is on the way to a configured
  one (`ChildrenInheritExactly`).
- statsd: a metric longer than a packet that meets an empty buffer sends an empty packet first
  (`EmptyPacket`, `EmptyPacketSent`); shutting down loses the buffer (`ShutdownLosesBuffer`); a failed write
  loses the packet and the metric that forced it (`Accounted` names the fate of every metric).
- Throttle: "true at most once per period" holds without `trailing`; with it a busy caller may be let
  through with no time in between (`SpacedExactly`). It holds in both modes for callers that are asleep in
  `Next` before they are signalled (`SpacedWhenAsleep`).
- Session pool: a call blocks for ever when it gives back a session to a full pool. The calls under way are
  sure to return, whatever becomes of their opens, exactly if each of them found a pool and each pool has
  places for the sessions opened for its slot and for those about to be opened (`AllReturnExactly`). It is
  enough that never more calls of a slot than places are between their look at the pool and their return
  (`FewCallsReturn`); that never more than that hold a session is not enough, because a session may be
  opened after the pool has filled again (`LateOpenBlocks`). The comment on `withSession` says that it
  panics without a pool; it blocks for ever instead (`NoPoolBlocks`, `NoPoolRun`).
- Tasks: a task of unit `Never`, documented as never run, is due at once and always (`DueAtOnce`); periods
  wrap in int64 (`PeriodExact`); a running task that comes first hides due ones (`CompleteExactly`); one due
  time can run a task twice (`RunsTwice`), for a run looks at the schedule when it is spawned, not when it
  begins (`BeginsWhenDue`); a time of day goes with days and weeks only if no other unit follows it
  (`TimeUnitExactly`), so an hourly task may have one in one order of the words (`TimeBeforeUnit`).
- Retries: after a failed host the body is rewound to the start of the reader, not to where the caller had
  it, and the first host closes a body that can be closed, such as a file. The next host is sent the same
  bytes exactly if the reader was at its start and has no `Close` (`ExecuteRequest`);
  `NewRequest` counts only the unread bytes in Content-Length, which does not fit a body function that starts
  from the beginning; its one caller passes a reader at its start.
- Signing: a requested name with "://" that is no URI leaves a nil URI. With a URI pattern in the profile
  `Sign` panics on it when it checks the names; without one, and not for a CA, the nil URI is handed to the
  creation of the certificate, which calls its `String` too (`Signing.Issuer.Sign`, `NilUriHandedOn`);
  without a list of allowed fields the path length of the CSR stays in the template (`PathLenOfCsr`); the
  serial number may be zero, which section 4.1.2.2 of RFC 5280 forbids (`SerialRange`).
- Object identifiers: a bare number in braces loses its last digit, and is refused when it has only one;
  a brace form is read as its components exactly if it has no bare number (`BraceExactly`). The
  registrations of the hash and key algorithms have one. Some texts in braces panic (`CrashesExactly`). The
  pattern of `parseObjectIdentifier` is not anchored, which changes nothing (`SameStrings`).
- GC sampling misses cycles when the uint32 counter wraps between two polls (`NoneMissed`), and never counts
  one twice (`SampledOnce`).

## Model

| member | source | states |
|---|---|---|
| Crc24.Crc24 | xpki/armor/armor.go:234-246 | the shift and xor loops compute the fold over bytes and bits, from any start value |
| Crc24.CrcIsRemainder | xpki/armor/armor.go:230-246 | section 6.1 of RFC 4880: the register is the remainder of the message polynomial over GF(2) divided by the generator, and the only one |
| Crc24.CrcSmall | xpki/armor/armor.go:189-246 | the register stays below 2^24, so the mask changes nothing |
| Crc24.CrcAppend | xpki/armor/armor.go:235-246 | the checksum of a concatenation continues that of its first part |
| Crc24.CrcInjective | xpki/armor/armor.go:235-246 | different register values stay different over the same bytes |
| Crc24.BurstDetected | xpki/armor/armor.go:189-193 | bodies of one length that differ only within three consecutive bytes have different checksums |
| Crc24.ChecksumIsCrc | xpki/armor/armor.go:189 | the masked result of the loop is the checksum |
| Crc24.ChecksumIsRemainder | xpki/armor/armor.go:189-246 | the checksum of a body is exactly the remainder by the generator of the message times x^24 with the start value 0xB704CE of RFC 4880 on top, both written out as polynomials |
| Radix64.RoundTrip | xpki/armor/armor.go:175-187 | decoding undoes radix-64 encoding for every byte string |
| Radix64.DecodeExact | xpki/armor/armor.go:175-187 | exactly the well-formed texts are decoded: whole quanta of alphabet characters with at most two pads at the end |
| Radix64.QuantumIsNumber | xpki/armor/armor.go:175-187 | four digits are the number that three bytes are, the highest first |
| Radix64.AlphabetIs | xpki/armor/armor.go:175-187 | the digits are those of table 1 of RFC 4648 |
| Armor.RemoveWhitespace | xpki/armor/armor.go:51-66 | the loop over an array keeps exactly the bytes that are not white space, in order |
| Armor.Decode | xpki/armor/armor.go:76-200 | the imperative decoder computes the next block and the rest, as the restart recursion defines them; it terminates and never leaves its bounds |
| Armor.DecodeHeaders | xpki/armor/armor.go:102-121 | the header loop |
| Armor.DecodeBody | xpki/armor/armor.go:123-197 | the END line, its type and its end, then body and checksum |
| Armor.DecodeData | xpki/armor/armor.go:161-193 | bytes and checksum out of the text before the END line, accepted only with a right checksum |
| Armor.DecodeError | xpki/armor/armor.go:202-228 | the restart: the block found further on, or nothing and the whole of the data |
| ArmorCompleteness.Completeness | xpki/armor/armor.go:203-224 | whatever whole lines precede a block whose type has no colon, repeated decoding finds that very block, and then what it finds from there on |
| ArmorCompleteness.CompletenessExact | xpki/armor/armor.go:203-224 | a block is found by repeated decoding behind every junk of whole lines, and then what follows it, if and only if its type has no colon |
| ArmorCompleteness.DecoyHides | xpki/armor/armor.go:205-209 | junk behind which the block, when its type has a colon, is lost, and nothing else |
| ArmorCompleteness.DecodedSound | xpki/armor/armor.go:72-200 | a returned block parses at a marker that starts a line; the rest is a proper suffix, or all of the data when there is no block |
| ArmorCompleteness.DecodedChecksum | xpki/armor/armor.go:189-193 | the checksum of a returned block is right |
| ArmorCompleteness.EndLineExactly | xpki/armor/armor.go:140-158 | a body ends at an END marker exactly if that line is the marker, the type of the block and five dashes, blanks apart, and the text before is a body with its checksum |
| ArmorCompleteness.ParseDataExactly | xpki/armor/armor.go:161-193 | body and checksum line are accepted exactly if both are radix-64 and the three bytes of the checksum are the remainder of section 6.1 of RFC 4880, the highest bit first |
| ArmorCompleteness.LineOfParts | xpki/armor/armor.go:31-49 | a line is read without its end and trailing blanks, and what follows it stays |
| ArmorCompleteness.AtMostOneBody | xpki/armor/armor.go:189-193 | of bodies that agree outside three consecutive bytes at most one is accepted under a checksum |
| ArmorRoundTrip.ColonBlockIsHidden | xpki/armor/armor.go:203-224 | a file of one block whose type has a colon, and junk that hides it |
| ArmorRoundTrip.RoundTrip | xpki/armor/armor.go:14-28 | decoding the armored form followed by any tail gives back type, headers, bytes and checksum, and exactly the tail, for any line layout of the body and both line ends |
| ArmorRoundTrip.EmptyKeyBlock | xpki/armor/armor.go:14-28 | the smallest key block, byte for byte as text with its checksum line =twTO, is read |
| KeyRing.ReadKeyRing | xpki/gpg/keyring.go:14-40 | the loop returns the entities of every public-key block that repeated decoding yields, in order, or the error of an unreadable one |
| KeyRing.FileRoundTrip | xpki/gpg/keyring.go:14-40 | a file of armored blocks is read back block by block |
| KeyRing.KeysInOrder | xpki/gpg/keyring.go:14-40 | a file of public-key blocks gives the entities of all of them in file order |
| KeyRing.KeyFileIsRead | xpki/gpg/keyring.go:22-35 | the entities of a block of type PGP PUBLIC KEY BLOCK are read |
| AuthzRules.TreeAgrees | xhttp/authz/authz.go:9-23 | after any calls the decision is that of the calls made for exactly the longest prefix of the path that is on the way to a configured path |
| AuthzRules.OrderIndependent | xhttp/authz/authz.go:18-23 | the order of the calls, and repeating them, changes no decision |
| AuthzRules.AllowIsCumulative | xhttp/authz/authz.go:19-23 | several Allow calls for a path are one call with all their roles |
| AuthzRules.IntermediateDenies | xhttp/authz/authz.go:349-377 | a path on the way to a configured one without a call of its own is denied to everybody |
| AuthzRules.ChildrenInheritExactly | xhttp/authz/authz.go:316-332 | what the nearest call above a path gives reaches the path exactly if no longer prefix of it is on the way to a configured path; nothing else gives access |
| AuthzRules.NoCallDenies | xhttp/authz/authz.go:379-401 | a path with no call for any of its prefixes is denied to everybody |
| AuthzRules.DeeperRuleRevokes | xhttp/authz/authz.go:9-23 | a role that the root is open to loses a path when a deeper one is configured |
| AuthzRules.GrantsExact | xhttp/authz/authz.go:281-290 | a node grants a role exactly if some call for its path gave it |
| AuthzRules.AccessExactly | xhttp/authz/authz.go:281-290 | no role and the role guest get in exactly where AllowAny was called for the deepest configured node; every other role also where AllowAnyRole or an Allow that names it was |
| AuthzRules.SegmentsExactly | xhttp/authz/authz.go:5-12 | access control is on whole segments: those of a path are what stands between its slashes, but for an empty one at the end |
| AuthzRules.NodesAreConfigured | xhttp/authz/authz.go:349-377 | the nodes are exactly the segment prefixes of configured paths |
| Authz.FindSegmentEnd | xhttp/authz/authz.go:359-363 | the inner loop cuts off exactly the next segment |
| Authz.Provider.WalkPath | xhttp/authz/authz.go:349-377 | with create the nodes on the way are added, without a rule, and the last one returned; without it the deepest node on the way |
| Authz.Provider.AllowAny | xhttp/authz/authz.go:316-320 | the tree on the heap changes as the call means, and in nothing else |
| Authz.Provider.AllowAnyRole | xhttp/authz/authz.go:322-327 | the same for any role |
| Authz.Provider.Allow | xhttp/authz/authz.go:329-340 | the same for named roles, empty ones skipped |
| Authz.Provider.IsAllowed | xhttp/authz/authz.go:379-401 | the decision is that of the deepest node, and at most a root is made |
| Authz.Configure | xhttp/authz/authz.go:9-23 | a provider after any calls decides as they mean |
| Authz.CloneNode | xhttp/authz/authz.go:265-279 | a copy of the whole subtree: new nodes, the same child edges, flags and roles |
| Authz.Provider.Clone | xhttp/authz/authz.go:292-304 | a deep copy shares no node and has the same rules |
| Authz.CloneIsIndependent | xhttp/authz/authz.go:292-304 | later calls on the original do not reach the clone, nor the other way round |
| ChannelWriter.InvStep | xlog/logrotate/channelwriter.go:69-130 | every step keeps: one owner for every buffer, what was accepted = output + in hand + channel, and the protocol of Stop |
| ChannelWriter.FifoExactlyOnce | xlog/logrotate/channelwriter.go:76-114 | in every reachable state the output is a prefix of the accepted writes, each once, in order, and what is missing is queued or in hand |
| ChannelWriter.NoAliasing | xlog/logrotate/channelwriter.go:81-114 | a buffer in the pool is nowhere else |
| ChannelWriter.BuffersAreReused | xlog/logrotate/channelwriter.go:112-114 | a buffer that was written may be handed out again |
| ChannelWriter.ListenerWrites | xlog/logrotate/channelwriter.go:107-126 | from every reachable state in which the listener has not finished, before any Stop too, its own steps, a bounded number, bring all accepted data to the output |
| ChannelWriter.WriteReturnsExactly | xlog/logrotate/channelwriter.go:77-126 | an open call of Write can return exactly while the listener has not found the channel empty after Stop, or the channel has room |
| ChannelWriter.TickFlushes | xlog/logrotate/channelwriter.go:107-111 | before Stop the listener and one tick bring all accepted data out and flush it |
| ChannelWriter.FlushesAsConfigured | xlog/logrotate/channelwriter.go:96-105 | nothing is flushed without a Flush method, and without a flush interval only at the end |
| ChannelWriter.StopDrains | xlog/logrotate/channelwriter.go:64-74 | when the winning Stop returns, everything accepted before it was called is written, and then flushed if dest can flush |
| ChannelWriter.WrittenExactly | xlog/logrotate/channelwriter.go:115-126 | what is ever written is exactly what was accepted before the draining listener found the channel empty |
| ChannelWriter.StopReturns | xlog/logrotate/channelwriter.go:69-74 | from every state after the compare-and-swap the listener alone can bring Stop to its return, in a bounded number of steps |
| ChannelWriter.WriteAfterDrainIsLost | xlog/logrotate/channelwriter.go:77-126 | a run in which a Write returns and its data is never written |
| ChannelWriter.StopWaitsExactly | xlog/logrotate/channelwriter.go:64-74 | a call of Stop, made in any reachable state, returns only when everything accepted before is written and flushed, exactly if the writer was running, or channel and hand of the listener were empty and nothing was written since the last flush |
| ChannelWriter.LosingStopDoesNotWait | xlog/logrotate/channelwriter.go:68-74 | a run in which a second Stop returns before accepted data is written |
| ChannelWriter.LosingStopDoesNotFlush | xlog/logrotate/channelwriter.go:68-74 | a run in which a second Stop returns after the write and before the flush |
| Statsd.FlushMetrics | metrics/statsd.go:101-171 | the loops compute the state after any sequence of dials, metrics, ticks and errors |
| Statsd.Collect | metrics/statsd.go:120-153 | one connection, up to its error or the closed queue |
| Statsd.Wait | metrics/statsd.go:155-168 | metrics are dequeued and dropped until the wait is over |
| Statsd.Accounted | metrics/statsd.go:101-171 | every dequeued metric is in exactly one group, in order, sent or lost whole; a packet forced out has no room for the next metric |
| Statsd.PacketSize | metrics/statsd.go:12-15 | a packet or buffer is longer than 1400 bytes only if it is one metric |
| Statsd.ConnectionDelivers | metrics/statsd.go:120-153 | without a write error what is written and buffered is the concatenation of the dequeued metrics |
| Statsd.TickSendsAll | metrics/statsd.go:141-152 | a tick sends everything that was dequeued on the connection before it |
| Statsd.Batched | metrics/statsd.go:126-139 | metrics that fit into 1400 bytes together are not sent before a tick |
| Statsd.StopsExactly | metrics/statsd.go:120-171 | the loop ends exactly when the queue is closed |
| Statsd.FailureWaits | metrics/statsd.go:115-168 | a failed dial or write is followed by a wait in which metrics are taken and dropped |
| Statsd.Reconnects | metrics/statsd.go:110-118 | from every wait the loop connects again, with an empty buffer |
| Statsd.DeliversAfterFailure | metrics/statsd.go:110-168 | after it everything that is dequeued goes out with the next tick |
| Statsd.ShutdownLosesBuffer | metrics/statsd.go:122-126 | after shutdown everything was written exactly if the buffer was empty |
| Statsd.EmptyPacket | metrics/statsd.go:128-136 | exactly when an empty packet goes out |
| Statsd.EmptyPacketSent | metrics/statsd.go:128-136 | the first metric of a connection, if it is too long, sends one |
| Throttle.NoLostWakeup | algorithms/throttle/throttle.go:89-131 | true returns never outnumber the triggers that set waiting; a sleeping caller with work or a stop has a broadcast coming |
| Throttle.WakeupArrives | algorithms/throttle/throttle.go:110-123 | whenever there is work or a stop, the clock, a timer and the caller alone bring a caller back, with true exactly without a stop |
| Throttle.TriggerServes | algorithms/throttle/throttle.go:92-123 | a Trigger and the next look of a caller let it through exactly if the period since the last time is over; with trailing a caller that is not asleep in any case |
| Throttle.TriggerIgnored | algorithms/throttle/throttle.go:92-108 | exactly when a Trigger changes nothing |
| Throttle.TrailingServes | algorithms/throttle/throttle.go:11-14 | with trailing a Trigger within the period lets a sleeping caller through at the end of the period, to the instant |
| Throttle.LeadingIsSpaced | algorithms/throttle/throttle.go:5-6 | without trailing, true returns are more than a period apart |
| Throttle.StopIsFinal | algorithms/throttle/throttle.go:110-131 | no true return after Stop |
| Throttle.SpacedWhenAsleep | algorithms/throttle/throttle.go:9-28 | in both modes true returns are a period apart when callers are asleep before they are signalled |
| Throttle.SpacedExactly | algorithms/throttle/throttle.go:50-51 | true at most once per period holds of all runs exactly without trailing or for a period that is not positive |
| Throttle.TrailingCanBeEarly | algorithms/throttle/throttle.go:96-107 | a run with two true returns and no time between them |
| Throttle.Throttler.Trigger | algorithms/throttle/throttle.go:92-108 | the critical section makes the Trigger step and starts its timer or broadcast |
| Throttle.Throttler.Check | algorithms/throttle/throttle.go:112-123 | one turn of the loop of Next sleeps, returns true or returns false as the step says |
| Throttle.Throttler.Stop | algorithms/throttle/throttle.go:125-131 | the critical section makes the Stop step |
| Sessions.InvStep | xpki/crypto11/sessions.go:21-53 | every step keeps ownership and balance, with the look at the pool, the open and the return as steps of their own |
| Sessions.ExclusiveUse | xpki/crypto11/crypto11.go:25-38 | in every reachable state a session is free or held by exactly one call; opened = free + held, at most as many as calls were ever at once between select and return; the pool keeps its bound |
| Sessions.CallsBegin | xpki/crypto11/sessions.go:26-33 | a call that begins gets the session that has been free longest, without opening one, or exactly when none is free opens another, its own |
| Sessions.ReturnedLast | xpki/crypto11/sessions.go:34-37 | a session that is given back goes behind those that are free |
| Sessions.SetupDecides | xpki/crypto11/sessions.go:41-53 | the first set-up of a slot decides its capacity, 1024 when none is asked for |
| Sessions.PeakIsReached | xpki/crypto11/sessions.go:21-39 | the peak of a slot is the largest number of calls between select and return that a run ever has |
| Sessions.AllReturnExactly | xpki/crypto11/sessions.go:26-37 | the calls under way can all return however their opens end, exactly if all found a pool and each pool has places for the sessions opened and about to be opened |
| Sessions.FewCallsReturn | xpki/crypto11/sessions.go:21-39 | they can if all found a pool and never more calls of a slot were at once between select and return than its pool has places |
| Sessions.LateOpenBlocks | xpki/crypto11/sessions.go:26-37 | a run on a pool with one place, with one holder at a time, that ends with a call that cannot return |
| Sessions.NoPoolBlocks | xpki/crypto11/sessions.go:19-37 | a call that found no pool and holds a session never returns |
| Sessions.NoPoolRun | xpki/crypto11/sessions.go:19-37 | a run to such a call |
| Sessions.SurplusNeverReturns | xpki/crypto11/sessions.go:34-37 | sessions beyond the capacity are held for ever |
| Sessions.NestedCallBlocks | xpki/crypto11/sessions.go:21-39 | a nested call on a pool with one place: the outer call never returns |
| Tasks.Task.At | tasks/task.go:215-240 | the last run before the first one, for daily and weekly tasks |
| Tasks.Task.Duration | tasks/task.go:173-190 | the period, computed once, with int64 wrap-around |
| Tasks.Task.ScheduleNextRun | tasks/task.go:242-265 | next run = last run + period, with the last run set if there is none |
| Tasks.DailyIsLeast | tasks/task.go:221-225 | the first run of a daily task is the least instant from now on that shows its time, less than a day away |
| Tasks.WeeklyIsLeast | tasks/task.go:226-237 | the first run of a weekly task is the least instant from now on that falls on its day and time, less than a week away |
| Tasks.WeeklyAtMidnight | tasks/task.go:245-254 | without a time it is the next midnight of its day |
| Tasks.PlanWeekly | tasks/task.go:100-116 | a new weekly task, scheduled, runs first at that instant |
| Tasks.PlanDaily | tasks/task.go:118-134 | the same for a daily task |
| Tasks.PlanEvery | tasks/task.go:86-98 | a new task at intervals, scheduled, first runs one interval from now, in nanoseconds; every so many weeks from the last midnight of a Sunday |
| Tasks.KnownDays | tasks/task.go:226-237 | the weekdays are those of the calendar at three known dates |
| Tasks.AtClockExactly | tasks/task.go:216-219 | hours and minutes of a clock time in nanoseconds |
| Tasks.PeriodExact | tasks/task.go:174-189 | the period is interval times unit exactly when an int64 can hold it |
| Tasks.DueAtOnce | tasks/task.go:19-20 | a task is due at every instant after its start exactly if its unit is Never, or if interval times unit modulo 2^64 is zero or has the sign bit |
| TaskFormat.ParseTaskFormat | tasks/task.go:331-437 | the token loop gives the task that the text describes, or an error |
| TaskFormat.RoundTrip | tasks/task.go:136-143 | every schedule is read back from its text |
| TaskFormat.ScheduleWeekly | tasks/task.go:136-143 | a weekly text gives a task that first runs at the least instant that fits |
| TaskFormat.ScheduleEvery | tasks/task.go:136-143 | a text with an interval gives a task that first runs one interval from now |
| TaskFormat.AcceptedExactly | tasks/task.go:331-437 | exactly which texts are accepted, word by word, and the interval, unit, weekday and presence of a time that they give |
| TaskFormat.NumbersExactly | tasks/task.go:306-329 | exactly which times of day and intervals are read |
| TaskFormat.Examples | tasks/task.go:136-143 | five texts and how they are read |
| TaskFormat.IgnoresCase | tasks/task.go:345 | upper and lower case do not matter |
| TaskFormat.DayOrder | tasks/task.go:362-404 | the names of the days in the order of the calendar |
| TaskFormat.TimeUnitExactly | tasks/task.go:405-416 | a task read with a time of day is in days or weeks exactly if the last unit word after its last time, if any, is |
| TaskFormat.TimeBeforeUnit | tasks/task.go:357-416 | the text of an hourly task with a time of day is accepted in one order of the words and refused in the other |
| Scheduler.Pool.Sort | tasks/scheduler.go:53-66 | sorting keeps the tasks and orders them by next run |
| Scheduler.Pool.GetRunnableTasks | tasks/scheduler.go:82-97 | the selected tasks are the longest front of the sorted tasks that should run, each asked at its own time |
| Scheduler.IdleSelection | tasks/scheduler.go:82-97 | when no task runs, all that are due at the start and only such that are due at the end are selected |
| Scheduler.SelectIdle | tasks/scheduler.go:82-97 | with one reading of the clock these are exactly the due tasks |
| Scheduler.CompleteExactly | tasks/scheduler.go:89-95 | all that should run are selected exactly if no running task comes before one of them |
| Scheduler.RunningTaskHides | tasks/scheduler.go:89-95 | a running task that is due first hides one that should run |
| TaskRuns.InvStep | tasks/task.go:274-303 | every step of concurrent runs keeps exclusion, the counters and the next run |
| TaskRuns.OneCallback | tasks/task.go:272-303 | at most one callback is in flight |
| TaskRuns.RunCount | tasks/task.go:150-153 | the count is the number of times the lock was taken, modulo 2^32 |
| TaskRuns.NextAfterRun | tasks/task.go:280-293 | after each run the next is its start plus the period |
| TaskRuns.RunReturns | tasks/task.go:270-315 | by its own steps every call of Run returns, and has freed the lock |
| TaskRuns.RunRuns | tasks/task.go:274-303 | a call that finds the lock free runs the callback once, counts it and schedules the next run one period after its start |
| TaskRuns.DueTaskRuns | tasks/scheduler.go:116-122 | a due task without a run under way is run |
| TaskRuns.BeginsWhenDue | tasks/task.go:156-158 | a spawned run is due when it takes the lock exactly if no run has rescheduled the task since, or the period after the last start is over |
| TaskRuns.RunsTwice | tasks/task.go:274-303 | a run in which one due time starts two callbacks, the second while the task is not due |
| Retriable.EndsWithin | xhttp/retriable/retriable.go:497-541 | for any outcomes Do ends within max(limit0 + 2, min(total, highest limit + 1) + 1) attempts, at a unique one |
| Retriable.DefaultBound | xhttp/retriable/retriable.go:317-333 | the default policy makes at most 11 attempts and sleeps at most 14 s |
| Retriable.DefaultWorstCase | xhttp/retriable/retriable.go:317-333 | both bounds are reached |
| Retriable.DefaultRetries | xhttp/retriable/retriable.go:317-333 | how often and after which pauses the default policy retries each outcome |
| Retriable.ConvertRequest | xhttp/retriable/request.go:77-101 | the unread body is copied to a reader of its own, with its length as Content-Length, and closed if it can be; a closed body is an error |
| Retriable.NewRequest | xhttp/retriable/request.go:37-60 | Content-Length is the number of unread bytes; it fits what is sent exactly for a reader at its start |
| Retriable.RetriesExactly | xhttp/retriable/retriable.go:653-718 | exactly which outcomes are retried, how often, and after which pause |
| Retriable.ReasonsExactly | xhttp/retriable/retriable.go:653-718 | which reasons are given for an end |
| Retriable.ConstantOutcome | xhttp/retriable/retriable.go:497-541 | with one outcome for ever Do makes exactly so many retries as its rule and the total give |
| Retriable.Do | xhttp/retriable/retriable.go:497-546 | every attempt is offered the same bytes, whatever the transport read before; the loop ends with the first outcome that is not retried; a closed body gives an error and no attempt |
| Retriable.ExecuteRequest | xhttp/retriable/retriable.go:410-461 | hosts are tried in order while there is no response or one with status 429, 500, 503 or 504; the result, the list of errors, and the bytes that each host is sent, the same for the first two exactly if the reader was at its start and cannot be closed |
| Aggregates.AggregateSample.Ingest | metrics/inmem.go:101-114 | the aggregate of one more value: count, sum, sum of squares, least, greatest and rate |
| Aggregates.VarianceDefined | metrics/inmem.go:83-91 | Count * SumSq - Sum^2 is never negative |
| Aggregates.VarianceIs | metrics/inmem.go:83-91 | what Stddev takes the root of is the sample variance, the squared deviations from the mean divided by the count less one |
| Aggregates.AggregateSample.MeanAndDeviation | metrics/inmem.go:83-99 | Min <= Mean <= Max, Mean times Count is Sum, and the deviation is the sample deviation of the values |
| Inmem.InmemSink.CreateInterval | metrics/inmem.go:263-284 | a new interval is appended and only the last maxIntervals stay |
| Inmem.InmemSink.CurrentInterval | metrics/inmem.go:252-293 | the interval of the current time, found or begun |
| Inmem.InmemSink.Record | metrics/inmem.go:169-207 | a value goes to exactly its interval, table and key, and to nothing else |
| Inmem.InmemSink.Report | metrics/inmem.go:71-114 | what is held for a key is the aggregate of exactly the values recorded there, with their rate per second, mean and sample variance |
| Inmem.InmemSink.History | metrics/inmem.go:263-284 | the retained intervals are the last min(n, maxIntervals) begun, with increasing starts |
| Inmem.StartsIncrease | metrics/inmem.go:286-293 | calls in the order of a clock begin intervals with increasing starts |
| Inmem.TruncateExactly | metrics/inmem.go:286-293 | two calls fall in one interval exactly if the clock is between the same multiples of it |
| Inmem.Replay | metrics/inmem.go:145-207 | a sink after any calls has those calls as its history |
| GcSampling.Metrics.Poll | metrics/metrics.go:196-213 | a poll samples the pauses of consecutive cycles up to the last, in order, without underflow, wrapping or not |
| GcSampling.NeverTwice | metrics/metrics.go:199-207 | at most 255 cycles, none before the last poll |
| GcSampling.NoneMissed | metrics/metrics.go:199-207 | no cycle is missed exactly if there were fewer than 256 and the counter did not wrap |
| GcSampling.SampledMany | metrics/metrics.go:199-207 | how many cycles a poll samples |
| GcSampling.SlotsDistinct | metrics/metrics.go:209-210 | the ring slots read in a poll differ |
| GcSampling.SampledOnce | metrics/metrics.go:196-213 | over any polls no cycle is sampled twice |
| GcSampling.AllSampled | metrics/metrics.go:196-213 | with polls within 256 cycles and no wrap every cycle is sampled |
| MetricFilter.Metrics.UpdateFilterAndLabels | metrics/metrics.go:86-117 | the tree holds all prefixes, and a prefix is allowed exactly if it is not blocked |
| MetricFilter.Metrics.LongestDecides | metrics/metrics.go:153-169 | the longest matching prefix decides, blocked wins over allowed, the default decides without a match |
| MetricFilter.Metrics.FilterLabels | metrics/metrics.go:138-151 | the caller's slice is compacted in place to the allowed labels in order; what lies behind is unchanged |
| SigningPolicy.Partition | xpki/csr/csr.go:298-323 | every requested name is in exactly one of the four lists |
| SigningPolicy.PolicyHolds | xpki/authority/issuer.go:300-365 | a template that is handed on matches the patterns of the profile, has only allowed extensions, the requested ones first and in order, the CA flag of the profile and no names for a CA |
| SigningPolicy.ProfileIsKept | xpki/authority/issuer.go:417-510 | key and key id, the usages of the profile and no others, CA constraints, fixed extensions and URLs of a template |
| SigningPolicy.ValidityIs | xpki/authority/issuer.go:448-463 | from the current minute, rounded, less five minutes or what the profile says, for as long as the profile says, unless the request gives the ends |
| SigningPolicy.CsrNamesAreKept | xpki/authority/issuer.go:251-290 | without names in the request those of the CSR are taken, field by field as allowed |
| SigningPolicy.RequestedNamesAreGiven | xpki/csr/csr.go:298-323 | each name of the request is in the template, once, by its kind |
| SigningPolicy.SubjectIs | xpki/csr/csr.go:249-288 | the attributes of the request go first, those of the CSR fill the gaps |
| SigningPolicy.AcceptedExactly | xpki/authority/issuer.go:230-403 | a request is accepted exactly if nothing in the profile forbids it, reason by reason |
| SigningPolicy.CsrHasNoOtherInfluence | xpki/authority/config.go:188-199 | with a list of allowed fields nothing else in the CSR influences acceptance or template |
| SigningPolicy.PathLenOfCsr | xpki/authority/issuer.go:251-274 | of two CSRs that differ in basic constraints only, both or neither are accepted, for templates that differ exactly in the path length, and only without a list of allowed fields and not for a CA |
| SigningPolicy.NilUriHandedOn | xpki/authority/issuer.go:320-327 | a template that is handed on holds a nil URI exactly if an unparsable one was wanted and the profile has no pattern and is not for a CA |
| SigningPolicy.SerialRange | xpki/authority/issuer.go:329-346 | serial numbers are below 2^159, and zero exactly when all bits but the masked one are |
| Signing.SetSan | xpki/csr/csr.go:298-323 | the loop sorts the names by kind into the template, which is otherwise unchanged |
| Signing.SubjectName | xpki/csr/csr.go:249-262 | the attributes of a subject, without empty values |
| Signing.PopulateName | xpki/csr/csr.go:264-288 | empty attributes are filled in from the base name |
| Signing.Usages | xpki/authority/config.go:433-447 | key usages, extended key usages and unknown ones of a profile |
| Signing.FillTemplate | xpki/authority/issuer.go:417-510 | succeeds exactly if key id, expiry, usages and policies allow, and sets what the profile says |
| Signing.AddExtensions | xpki/authority/issuer.go:348-365 | accepts exactly the allowed, decodable extensions and appends them in order |
| Signing.CheckUris | xpki/authority/issuer.go:320-327 | the pattern on URIs, and when a nil URI makes it panic |
| Signing.Issuer.Sign | xpki/authority/issuer.go:230-407 | exactly the acceptable requests get a template and it conforms field by field; exactly when Sign panics before it hands the template over, and when that holds a nil URI |
| Signing.Issuer.ProfileNames | xpki/authority/issuer.go:230-245 | the profile of a request, "default" when it names none |
| Oid.PrintParse | xpki/csr/types.go:76-135 | parsing undoes printing exactly for identifiers that are not empty |
| Oid.JsonRoundTrip | xpki/csr/types.go:80-113 | unmarshalling undoes marshalling exactly for them |
| Oid.JsonCrashes | xpki/csr/types.go:80-113 | exactly which texts make unmarshalling panic |
| Oid.AtoiExactly | xpki/csr/types.go:115-135 | exactly which texts are numbers, with their signs and bounds |
| Oid.KnownIdentifier | xpki/csr/types.go:76-135 | numbers are decimal with dots between them: 1.2.840 |
| Oid.SameStrings | xpki/oid/oid.go:78-106 | both parsers agree on every string that does not start with a brace |
| Oid.BraceAndDot | xpki/oid/oid.go:83-104 | the brace form and the dot form give the same components |
| Oid.BraceParts | xpki/oid/oid.go:83-92 | a brace form of named and bare numbers in any mixture is read part by part, a bare number without its last digit |
| Oid.BraceExactly | xpki/oid/oid.go:83-92 | it is read as its components exactly if no part is a bare number |
| Oid.KnownBraceForm | xpki/oid/oid.go:83-92 | one brace form, read as its components |
| Oid.CrashesExactly | xpki/oid/oid.go:83-92 | exactly the texts that panic: a lone brace, and after good parts one that is empty or ends in its first parenthesis |
| Oid.ParseObjectIdentifier | xpki/csr/types.go:115-135 | the loop over the segments computes the parse |
| Oid.NewObjectIdentifier | xpki/oid/oid.go:78-106 | the loops over the parts compute the parse of both notations |

## Left out

- Goroutines: the channel writer, the session pool and concurrent runs of one task are state machines over values whose steps are single channel operations, critical sections or unsynchronised accesses; the Go memory model below that is not modelled.
- Channel writer: an error or a short write of dest, which the listener ignores; bytes are counted as written when dest.Write is called.
- Armor: log messages; reading files and the OpenPGP packets inside a block (a parameter of `ReadKeyRing`).
- Authorization: mapping requests to roles, the configuration file, the HTTP handler and gRPC interceptor, the text dump of the tree.
- statsd: flattening of keys, formatting of metrics, and the bounded queue in front of the loop, which drops metrics when it is full.
- Session pool: PKCS#11 itself; an opened session is a handle that is not in use.
- Tasks: time zones with a changing offset, several readings of the clock within one call of `at`, dates as year, month and day (days are counted), reflection in `Do`, panics in callbacks, starting, stopping and clearing the scheduler.
- Scheduler.Pool.Sort: the order of tasks with equal next runs is that of an insertion sort; the lemmas on the selection hold for every sorted order.
- Retries: headers, contexts beyond their three states, TLS logging, response bodies, a caller's reader that fails other than by being closed, and ShouldRetry functions other than those of `shouldRetryFactory`.
- Metrics: IEEE rounding (reals), gauges, the copy that `Data` returns, calls that are not atomic, a retention shorter than an interval, Prometheus and datadog sinks, the radix tree itself.
- Signing: PEM and ASN.1, signatures, certificate creation after the template is handed over, and the order in which several reasons for a refusal are reported; IP, e-mail and URL parsing, regular expressions, hex decoding, the tables of key usages and the encoding of policies are parameters.
- Object identifiers: the YAML form, which calls the same parser.
- Configuration: loading and `Validate`, roles of profiles, bundles, the file-based reloaders, the REST server, logging, and the small helper packages: they would only add easy members.
