# Verified models of Vaporcito

Dafny models of the parts of Vaporcito (a Syncthing derivative) in which one bug silently loses
data: the discovery server's record codec, replication framing and address database, the relay
server's session protocol, the relay pool's registry, configuration normalisation and migrations,
log rotation and filtering, CSRF tokens and LDAP escaping. `dafny verify dfyconfig.toml` checks
everything.

| files | what they model |
|---|---|
| Common, SliceUtil, StringUtil, Sorting | Go integers and byte strings; `sliceutil`, `stringutil` and the swap-remove loops; what `sort` promises |
| Varint, Wire, Grammar, Messages, Marshal, Unmarshal | the generated Protocol Buffers code: varints, fields, groups, the three messages, writing backwards into a sized array, decoding |
| Framing | length-prefixed replication, sender and receiver |
| Addresses, Store, Queries, Replication | merging and expiring address lists; the store as a log of announcements; lookups and clean-up that write to it; two servers exchanging announcements |
| Relay, RelayPool | sessions, keys, channels and outboxes as a transition system; known relays and eviction timers |
| Config, Prepare, Migrations | `Configuration.prepare` and versioned migrations |
| Rotation, LogFilter | rotating log files; the in-place filter for crash reports |
| Csrf, Ldap | the token list and its file; escaping of user names |

Code that updates buffers, slices and fields step by step is written as methods on arrays and
classes. Each is proved equal to a specification function or relation; the theorems about runs and
round trips are lemmas about those. Concurrency is a transition system whose steps are the atomic
sections of the code, so its theorems hold for every interleaving.

Conventions. Byte strings are sequences of numbers below 256. `int` is a 64-bit `int`; no slice is
longer than 2^63-1 bytes, and additions that the code lets wrap are wrapped explicitly (`WrapInt`,
`AsInt64`, `AsInt32`). Masks, shifts and bitwise or are written as arithmetic; the lemmas
`Varint.OrShiftIsBitwise`, `OrShift32IsBitwise`, `GroupIsBitwise` and `OddIsBitwise` prove each of
them equal to the operators defined bit by bit. Whether an address is a URL with a deprecated scheme
is a parameter. A device ID is the number its 32 bytes spell.
Clocks, random tokens, timers and the results of system calls are parameters of the steps.

## Main results

- Codec: `Messages.RecordRoundTrip`, `Marshal.MarshalRecord`, `Unmarshal.RecordMessage.Unmarshal`,
  `Wire.DecodeConcat`, `Grammar.DecodeIsExact`, `Grammar.UnknownFieldsAreInvisible`.
- Replication: `Framing.FramingRoundTrip`, `Framing.BrokenConnection`, `Store.ReplicasConverge`,
  `Replication.ReplicatingServersAnswerAlike`.
- Store: `Addresses.MergeIsJoin`, `Store.LookupIsTheLog`, `Store.LookupIsTheLogIff`.
- Relay: `Relay.ChannelSafety`, `Relay.Pairing`, `Relay.RegistriesAreExact`,
  `Relay.ReturnedSessionsAreClosed`, `RelayPool.RegistryAgrees`, `RelayPool.EvictedEarlyIff`.
- Configuration: `Prepare.PreparedIsWell`, `Prepare.PrepareKeeps`, `Prepare.PrepareIsIdempotent`,
  `Migrations.AppliesExactlyPending`, `Migrations.UpgradePathIsIrrelevant`.
- Small algorithms: `Rotation.LogIsSuffix`, `LogFilter.FilterLogLines`, `Csrf.ValidUntil25Others`,
  `Ldap.EscapesAre`, `Ldap.EscapingIsInjective`.

## Findings

Where the code does not do what one would expect, the model follows the code and states exactly
when it does:

- A lookup that finds nothing reads first and writes the miss later
  (back/cmd/stdiscosrv/apisrv.go:180-208), and the statistics routine deletes on the strength of an
  earlier snapshot. If the same key is merged in between, the write wipes out a live announcement
  (`Store.SplitWriteLosesAnAnnouncement`); it is harmless if and only if a lookup would still find
  nothing (`Store.CompleteIsSafeIff`, and `Store.LookupIsTheLogIff` for whole runs).
- The check and the assignment of `outboxes` (back/cmd/strelaysrv/listener.go:147-161) are not
  atomic, so a device can have two joined handlers (`Relay.TwoHandlersCanJoin`);
  `Relay.JoinIsSafeIff` and `Relay.OneHandlerPerDeviceIff` say when joins are safe.
- `Timer.Stop` (back/cmd/strelaypoolsrv/main.go:463-469) does not stop a callback that waits for the
  lock, so a relay tested again can be evicted at once; `RelayPool.EvictedEarlyIff` and
  `RelayPool.TestStopsTimerIff` say when.
- With zero old log files, documented as keeping only the current one
  (back/cmd/vaporcito/main.go:159), `rotate` keeps one (`Rotation.KeepsMaxFilesIff`).
- After `create` failed in a rotation, the next rotation closes the same file again, and closing an
  `autoclosedFile` twice panics (`Rotation.PanicNeedsFailedCreate`, `Rotation.WriteCanPanic`).
- `prepare` removes deprecated addresses after it applied the default, so a device can end up without
  addresses, and only the next `prepare` makes it "dynamic" (`Prepare.OnlyDeprecatedAddress`,
  `Prepare.AddressesStayIff`).
- A NUL in a user name is escaped with a single hexadecimal digit (`Ldap.FilterEscapeIsStandardIff`,
  `Ldap.DNEscapeIsStandardIff`).
- The framing header holds the length modulo 2^32 (`Framing.HeaderIsExact`).
- The comment at back/cmd/stdiscosrv/database.go:351 says that `expire` does not keep the order; the
  helper it calls does, and the model keeps it.

## Model

| member | source | states |
|---|---|---|
| `Common.Int32RoundTrip` | back/cmd/stdiscosrv/database.pb.go:189-205 | an `int32` survives sign extension to 64 bits on the way out and truncation to 32 bits on the way in, negative values included |
| `Varint.SovIsExact` | back/cmd/stdiscosrv/database.pb.go:381-383 | for every 64-bit value the closed formula of `sovDatabase` is exactly the number of bytes the encoder writes |
| `Varint.SovAtMostTen` | back/cmd/stdiscosrv/database.pb.go:381-383 | that number lies between 1 and 10 |
| `Varint.WriteVarint` | back/cmd/stdiscosrv/database.pb.go:308-318 | the encoder, given the end position, fills exactly the `sov` bytes before it with the base-128 groups of the value and touches nothing else in the array |
| `Varint.OrIsAddition` | back/cmd/stdiscosrv/database.pb.go:770-783 | bitwise or of a number below 2^n and a multiple of 2^n is their sum |
| `Varint.OrShiftIsBitwise` | back/cmd/stdiscosrv/database.pb.go:770-783 | one step of the model's reader is the bitwise or of `acc` and `(b & 0x7F) << shift` on 64-bit words, bit by bit, for every group including the truncated tenth |
| `Varint.OrShift32IsBitwise` | back/cmd/stdiscosrv/database.pb.go:462-464 | the same for the 32-bit accumulation of `misses`, where high groups are shifted out |
| `Varint.GroupIsBitwise` | back/cmd/stdiscosrv/database.pb.go:311-315 | the byte written for a group that is not the last is the bitwise or of `v & 0x7f` and `0x80` |
| `Varint.OddIsBitwise` | back/cmd/stdiscosrv/database.pb.go:381-383 | the argument of the bit length is the bitwise or of `x` and 1 |
| `Varint.ReadVarint` | back/cmd/stdiscosrv/database.pb.go:770-783 | the shift-and-accumulate loop is the recursive reader: same value, same width, same choice between overflow and unexpected end, and no index outside the slice |
| `Varint.ReadVarint32` | back/cmd/stdiscosrv/database.pb.go:454-468 | accumulating directly in an `int32`, as for `misses`, gives the low 32 bits of the 64-bit reading, for every encoding of up to ten bytes |
| `Varint.ReadExtends` | back/cmd/stdiscosrv/database.pb.go:770-783 | bytes behind a complete varint never change how it reads |
| `Varint.ReadIsExact` | back/cmd/stdiscosrv/database.pb.go:770-783 | what reading any byte string gives: success exactly if one of the first ten bytes is below 128, with the first such byte as the last and the weighted groups modulo 2^64 as the value; and which of the two errors otherwise |
| `Varint.ReadOfEncode` | back/cmd/stdiscosrv/database.pb.go:308-318 | reading the encoding of any 64-bit value, followed by anything, gives the value and the encoding's width |
| `Wire.ParseExtends` | back/cmd/stdiscosrv/database.pb.go:391-519 | one field of the decoding loop: a field that parses keeps parsing the same way whatever bytes follow |
| `Wire.ParseErrors` | back/cmd/stdiscosrv/database.pb.go:391-519 | which error a field is refused with, in terms of its tag, number, wire type and payload |
| `Wire.SkipErrors` | back/cmd/stdiscosrv/database.pb.go:764-841 | which error the skipper gives up with, in the same terms |
| `Wire.ParseAnywhere` | back/cmd/stdiscosrv/database.pb.go:391-519 | where in the input a field lies does not change what it parses to, although the code's wrap-around checks use absolute positions |
| `Wire.DecodeConcat` | back/cmd/stdiscosrv/database.pb.go:387-527 | for every message type: if x decodes, decoding x followed by y equals decoding y into the message that x left (same success or failure, same message) |
| `Wire.SkipExtends` | back/cmd/stdiscosrv/database.pb.go:764-841 | the skipper stops at the same place whatever follows the field |
| `Grammar.SkipItem` | back/cmd/stdiscosrv/database.pb.go:764-841 | soundness: at any group depth the skipper steps over exactly one well-formed field, nested groups included |
| `Grammar.FramesOf` | back/cmd/stdiscosrv/database.pb.go:764-841 | completeness inside open groups: the bytes consumed are, innermost first, well-formed fields up to each group's end tag |
| `Grammar.SkipIsExact` | back/cmd/stdiscosrv/database.pb.go:764-841 | `skipDatabase` accepts n bytes of an input if and only if those bytes are one well-formed field of an independently stated grammar |
| `Grammar.ParseUnknown` | back/cmd/stdiscosrv/database.pb.go:507-519 | in the default branch a well-formed field of unknown number is consumed whole and yields nothing |
| `Grammar.UnknownFieldsAreInvisible` | back/cmd/stdiscosrv/database.pb.go:507-519 | inserting any unknown field, balanced groups included, at a field boundary of any message changes nothing |
| `Grammar.DecodeIsExact` | back/cmd/stdiscosrv/database.pb.go:387-763 | `Unmarshal` of any message type succeeds with r if and only if the input is a sequence of well-formed fields with positive numbers and the right wire types, and r is what their contents make of the message, one after the other |
| `Messages.AddressRoundTrip` | back/cmd/stdiscosrv/database.pb.go:288-306 | a `DatabaseAddress` decodes from its own encoding, for all strings and all signed expiries |
| `Messages.DecodeAddresses` | back/cmd/stdiscosrv/database.pb.go:414-449 | encoded addresses append to the repeated field, in order, wherever they stand in a message |
| `Messages.DecodeOnto` | back/cmd/stdiscosrv/database.pb.go:387-527 | decoding a record's encoding into a record that already has contents appends its addresses and lets each non-zero scalar win |
| `Messages.RecordRoundTrip` | back/cmd/stdiscosrv/database.pb.go:187-222 | a `DatabaseRecord` decodes from its own encoding, for any addresses and any signed scalars |
| `Messages.ConcatenatedRecords` | back/cmd/stdiscosrv/database.pb.go:187-222 | two encodings back to back decode as the second record laid over the first |
| `Messages.ReplicationRoundTrip` | back/cmd/stdiscosrv/database.pb.go:239-271 | a `ReplicationRecord` decodes from its own encoding |
| `Messages.EmptyOnlyForHeartbeat` | back/cmd/stdiscosrv/database.pb.go:239-271 | a replication record encodes to zero bytes if and only if it is the heartbeat |
| `Messages.FieldsAre` | back/cmd/stdiscosrv/database.pb.go:415-506 | the field numbers and wire types of the three messages, and what each field sets |
| `Messages.AddressFieldIs` | back/cmd/stdiscosrv/database.pb.go:416-449 | a repeated address field adds one address, decoded from the payload into an empty one, or fails with its error |
| `Messages.BytesAre` | back/cmd/stdiscosrv/database.pb.go:187-306 | a message of each kind byte by byte, with a negative scalar in ten bytes |
| `Marshal.SizeOfAddress` | back/cmd/stdiscosrv/database.pb.go:365-379 | `Size` of `DatabaseAddress`: exactly the length of the encoding, computed without encoding |
| `Marshal.SizeOfAddresses` | back/cmd/stdiscosrv/database.pb.go:319-341 | `Size` of the repeated address field: exactly the length of the encoding, computed without encoding |
| `Marshal.SizeOfRecord` | back/cmd/stdiscosrv/database.pb.go:319-341 | `Size` of `DatabaseRecord`: exactly the length of the encoding, computed without encoding |
| `Marshal.SizeOfReplication` | back/cmd/stdiscosrv/database.pb.go:343-363 | `Size` of `ReplicationRecord`: exactly the length of the encoding, computed without encoding |
| `Marshal.PutVarint` | back/cmd/stdiscosrv/database.pb.go:308-318 | a varint lands directly below the write position and nothing outside it changes |
| `Marshal.MarshalAddress` | back/cmd/stdiscosrv/database.pb.go:288-306 | filling from the end: exactly the encoding, ending at the given position, everything around it untouched |
| `Marshal.PutAddress` | back/cmd/stdiscosrv/database.pb.go:209-218 | one nested entry: message, size and tag land directly below the write position, and nothing else changes |
| `Marshal.MarshalAddresses` | back/cmd/stdiscosrv/database.pb.go:207-220 | the repeated field is written last entry first and still reads in list order, without a gap |
| `Marshal.MarshalRecord` | back/cmd/stdiscosrv/database.pb.go:187-222 | into the first `Size()` bytes of a buffer, writing from the end reaches index 0 exactly, the bytes are the encoding, and the rest of the buffer stays |
| `Marshal.MarshalReplication` | back/cmd/stdiscosrv/database.pb.go:239-271 | the same for the replication record, also behind the four bytes kept for the header |
| `Unmarshal.SkipDatabase` | back/cmd/stdiscosrv/database.pb.go:764-841 | the loop terminates on every input, never indexes outside the slice although its additions may wrap, and computes the recursive skipper |
| `Unmarshal.SkipWireType` | back/cmd/stdiscosrv/database.pb.go:784-832 | the switch on the wire type: where the payload ends, with wrapping additions, and the group depth after it |
| `Unmarshal.ReadField` | back/cmd/stdiscosrv/database.pb.go:391-519 | tag, payload and bounds checks of one turn of the decoding loop: the parsed field with its width, or the right error |
| `Unmarshal.ReadInt32` | back/cmd/stdiscosrv/database.pb.go:450-468 | the case of an `int32` field, accumulated in 32 bits, gives the low half of the parsed varint |
| `Unmarshal.AddressMessage.Unmarshal` | back/cmd/stdiscosrv/database.pb.go:663-763 | on every byte string the method ends with the outcome and fields of the functional decoder; success means the whole input was consumed |
| `Unmarshal.RecordMessage.Unmarshal` | back/cmd/stdiscosrv/database.pb.go:387-527 | the same, into a record that may already have contents, with nested addresses |
| `Unmarshal.ReplicationMessage.Unmarshal` | back/cmd/stdiscosrv/database.pb.go:528-662 | the same for the replication record |
| `Framing.HeaderIsExact` | back/cmd/stdiscosrv/replication.go:125 | the four-byte header announces the length modulo 2^32, so it is right if and only if the length fits in 32 bits |
| `Framing.HeadersCompare` | back/cmd/stdiscosrv/replication.go:125 | headers compare as byte strings like the lengths they announce: the most significant byte comes first |
| `Framing.WriteFrame` | back/cmd/stdiscosrv/replication.go:110-129 | header and record fill the start of the buffer, however long it is and whatever it held |
| `Framing.Send` | back/cmd/stdiscosrv/replication.go:96-140 | with one growing, reused buffer, the connection gets the frames of the outbox in order; if it fails after some number of bytes, it got exactly that many of them |
| `Framing.Handle` | back/cmd/stdiscosrv/replication.go:244-297 | the receiving loop with its growing, reused buffer stores exactly what the functional receiver stores, for every byte stream |
| `Framing.ReceiveFrame` | back/cmd/stdiscosrv/replication.go:261-295 | one frame in front of anything is one record, or nothing for a heartbeat, in front of what the rest yields |
| `Framing.FrameOutcome` | back/cmd/stdiscosrv/replication.go:261-295 | one frame, whatever is in it: a body that decodes is stored, one that does not is dropped, and reading goes on with what follows |
| `Framing.EmptyFrameOutcome` | back/cmd/stdiscosrv/replication.go:269-277 | a length of zero is skipped and reading goes on |
| `Framing.FramingRoundTrip` | back/cmd/stdiscosrv/replication.go:96-140 | for any mix of records and heartbeats of encodable size, the receiver yields exactly the non-heartbeat records in order and goes on with what follows |
| `Framing.SentIsReceived` | back/cmd/stdiscosrv/replication.go:250-295 | a stream of whole frames leaves nothing over |
| `Framing.BrokenConnection` | back/cmd/stdiscosrv/replication.go:250-295 | a connection cut anywhere, even inside a frame, delivers a prefix of the records |
| `Addresses.LatestIsLatest` | back/cmd/stdiscosrv/database.go:352-362 | the map of an address list holds exactly its addresses, each with an expiry that occurs and that none exceeds |
| `Addresses.LatestUnique` | back/cmd/stdiscosrv/database.go:276-347 | that description determines the map |
| `Addresses.LatestOfSameElements` | back/cmd/stdiscosrv/database.go:364-369 | order and repetition do not affect the map, so sorting a copy is harmless |
| `Addresses.MergeIsJoin` | back/cmd/stdiscosrv/database.go:276-347 | for all inputs, sorted or not and with duplicates, the merged list's map is the pointwise maximum of both maps |
| `Addresses.MergeWithin` | back/cmd/stdiscosrv/database.go:276-347 | every merged entry comes from one of the inputs, with multiplicity |
| `Addresses.MergeDominates` | back/cmd/stdiscosrv/database.go:276-347 | every input entry is covered by a merged entry of the same address that expires no earlier, and every merged entry is an input entry |
| `Addresses.MergeSorted` | back/cmd/stdiscosrv/database.go:276-347 | merging sorted lists gives a sorted list |
| `Addresses.SortedMeans` | back/cmd/stdiscosrv/database.go:373-375 | sorted means by address, in the byte order of strings |
| `Addresses.MergeIsAscending` | back/cmd/stdiscosrv/database.go:276-347 | merging lists without repeated addresses gives one entry per address, in ascending order |
| `Sorting.StringLessIff` | back/cmd/stdiscosrv/database.go:373-375 | the order of strings: a proper prefix, or smaller at the first difference |
| `Addresses.MergeLoop` | back/cmd/stdiscosrv/database.go:300-345 | the two-index loop with its three exits computes the functional merge |
| `Addresses.Merge` | back/cmd/stdiscosrv/database.go:276-347 | unsorted inputs are sorted first; the result is sorted, joins both maps, takes the later `seen` and resets the miss counters |
| `Addresses.JoinCommutes` | back/cmd/stdiscosrv/database.go:276-347 | merging commutes on the maps |
| `Addresses.JoinAssociates` | back/cmd/stdiscosrv/database.go:276-347 | merging associates on the maps |
| `Addresses.JoinIdempotent` | back/cmd/stdiscosrv/database.go:276-347 | merging a list with itself adds nothing |
| `Addresses.Expire` | back/cmd/stdiscosrv/database.go:352-362 | removing in place, one element at a time, keeps exactly the entries not expired, in order, and restricts the map to the addresses still live |
| `Addresses.ExpireCommutesWithMerge` | back/cmd/stdiscosrv/database.go:276-362 | expiring before or after merging gives the same addresses and expiries |
| `Addresses.Announcement` | back/cmd/stdiscosrv/apisrv.go:286-306 | the announced list is sorted and gives every announced address the same expiry |
| `Store.LevelDBStore.Put` | back/cmd/stdiscosrv/database.go:71-96 | the stored bytes are exactly the encoding although the marshal buffer is reused and may be longer; reading back gives the record |
| `Store.LevelDBStore.Get` | back/cmd/stdiscosrv/database.go:142-169 | a missing or undecodable record reads as the empty one; of any other, counters and times come back as decoded, and exactly the addresses not expired |
| `Store.LookupIs` | back/cmd/stdiscosrv/database.go:142-169 | the same of the specification function that the runs are stated with |
| `Store.LevelDBStore.Merge` | back/cmd/stdiscosrv/database.go:98-140 | one serialized step: the stored record's map becomes the join of the announced and the still live stored addresses, its `seen` the later of the announced and the stored one, and its miss counters zero |
| `Store.MergeKeepsInv` | back/cmd/stdiscosrv/database.go:98-140 | a merge keeps the store in agreement with the log |
| `Store.TickKeepsInv` | back/cmd/stdiscosrv/database.go:142-169 | agreement survives the clock moving on |
| `Store.ReadKeepsInv` | back/cmd/stdiscosrv/apisrv.go:180-208 | reading a miss, and deciding to delete a stale record, keep the invariant on writes still to come |
| `Store.CompleteIsSafeIff` | back/cmd/stdiscosrv/apisrv.go:202-208 | completing such a write keeps the agreement for all keys if and only if a lookup of its key would at that moment still find nothing |
| `Store.RunKeepsInv` | back/cmd/stdiscosrv/database.go:98-169 | the invariant holds throughout every run in which each completed write is harmless |
| `Store.LookupIsTheLog` | back/cmd/stdiscosrv/database.go:98-169 | refinement: at every point of every run in which no merge on the same key comes between a read and its write, `get` returns exactly the addresses ever merged for the key whose latest expiry has not passed, each with that expiry |
| `Store.LookupIsTheLogIff` | back/cmd/stdiscosrv/apisrv.go:180-208 | the exact condition, for whole runs: every lookup up to a point is the log if and only if each write completed before it found nothing live under its key |
| `Store.PendingHistory` | back/cmd/stdiscosrv/database.go:98-140 | in every run, a write still to come is marked as overtaken if and only if its key was merged since its read |
| `Store.LookupIsTheLogUnlessOvertaken` | back/cmd/stdiscosrv/apisrv.go:180-208 | so lookups are the log in every run in which no completed write was overtaken, stated on the events alone |
| `Queries.ApiServer.HandleGET` | back/cmd/stdiscosrv/apisrv.go:180-213 | what a lookup answers, how it counts a miss, and the record that every tenth miss leaves to be put: no addresses, the stored `seen` |
| `Queries.MissIsAnEventIff` | back/cmd/stdiscosrv/apisrv.go:202-208 | the runs of the store allow for exactly those writes |
| `Queries.IsAbandoned` | back/cmd/stdiscosrv/database.go:224-257 | a record is deleted if and only if it decodes, none of its addresses is live, and it was neither seen nor asked for in sixty days |
| `Queries.DeletionIsAnEventIff` | back/cmd/stdiscosrv/database.go:245-253 | the runs of the store allow for exactly those deletions |
| `Store.SplitWriteLosesAnAnnouncement` | back/cmd/stdiscosrv/apisrv.go:180-208 | without the condition any announcement can be lost: for every key, address and expiry not yet passed, a run in which a late miss write wipes it out |
| `Store.ReplicasConverge` | back/cmd/stdiscosrv/replication.go:147-170 | servers that received the same announcements for a key in any order and multiplicity know the same addresses |
| `Store.ReplicasAnswerAlike` | back/cmd/stdiscosrv/replication.go:285-294 | at the same time they answer lookups with the same addresses and expiries |
| `Replication.ReplicationIsComplete` | back/cmd/stdiscosrv/replication.go:96-140 | over an unbroken connection, with heartbeats anywhere, the records received and merged make the receiver know exactly what was announced, for every key |
| `Replication.ReplicationIsPrefix` | back/cmd/stdiscosrv/replication.go:250-295 | over a connection that breaks anywhere, the receiver knows what a prefix of the announcements says |
| `Replication.ReplicatingServersAnswerAlike` | back/cmd/stdiscosrv/replication.go:244-297 | two servers that replicate to each other over unbroken connections answer every lookup with the same addresses, wherever a device announced itself |
| `Relay.NewSessionKeepsInv` | back/cmd/strelaysrv/session.go:30-63 | registering a session under its two keys keeps the invariant |
| `Relay.RedeemKeepsInv` | back/cmd/strelaysrv/session.go:65-75 | a key is redeemed at most once, for the session it was issued for |
| `Relay.OfferKeepsInv` | back/cmd/strelaysrv/session.go:118-129 | offering a connection never meets a closed channel; it is taken by a waiting `Serve` or rejected and closed |
| `Relay.ServeStepKeepsInv` | back/cmd/strelaysrv/session.go:138-186 | select, append, closing the channel, timing out and closing the connections keep the invariant |
| `Relay.ActivateKeepsInv` | back/cmd/strelaysrv/session.go:170-172 | a session enters `activeSessions` once |
| `Relay.ProxyKeepsInv` | back/cmd/strelaysrv/session.go:249-281 | the proxy counter is the number of running proxies |
| `Relay.RemoveActive` | back/cmd/strelaysrv/session.go:198-205 | the range loop without a break over a shrinking slice removes exactly the session, by moving the last entry into its place, and clears the vacated slot |
| `Relay.Registry.NewSession` | back/cmd/strelaysrv/session.go:56-60 | the locked section of `newSession` performs the transition system's step: both keys are registered |
| `Relay.Registry.FindSession` | back/cmd/strelaysrv/session.go:65-75 | performs the redeeming step: a found session is returned and its key deleted at once, so no second caller finds it |
| `Relay.Registry.AddActive` | back/cmd/strelaysrv/session.go:170-172 | appending, with or without a new backing array, performs the activation step |
| `Relay.Registry.RemoveSession` | back/cmd/strelaysrv/session.go:194-206 | the locked section at the end of `Serve` performs the clean-up step |
| `Relay.Registry.DropSessions` | back/cmd/strelaysrv/session.go:77-88 | closes a connection if and only if it belongs to an active session in which the device is the server or the client |
| `Relay.DeviceGone` | back/cmd/strelaysrv/listener.go:250-256 | the step of the transition system closes exactly those and changes nothing else |
| `Relay.CleanUpKeepsInv` | back/cmd/strelaysrv/session.go:194-206 | deleting both keys and the `activeSessions` entry leaves no trace of the session in either registry |
| `Relay.HandlerKeepsInv` | back/cmd/strelaysrv/listener.go:147-162 | join (check and set as two steps), exit and `dropSessions` keep the invariant; every outbox belongs to a live joined handler of its device |
| `Relay.RunKeepsInv` | back/cmd/strelaysrv/session.go:131-215 | the invariant holds after every interleaving of all steps |
| `Relay.ChannelSafety` | back/cmd/strelaysrv/session.go:118-149 | in every run nobody sends on or closes a closed channel, and no session is offered a third connection |
| `Relay.Pairing` | back/cmd/strelaysrv/session.go:131-172 | in every run a session that proxies joins two different connections, one admitted by its server key and the other by its client key |
| `Relay.SessionCanProxy` | back/cmd/strelaysrv/session.go:131-172 | such sessions exist: under any two different keys a run from the start reaches a proxying session that holds the two connections |
| `Relay.ProxyingSessionEnds` | back/cmd/strelaysrv/session.go:155-215 | from there it can run to its end: both proxies counted and done, both connections closed, `Serve` returned |
| `Relay.LonelySessionTimesOut` | back/cmd/strelaysrv/session.go:181-215 | a session nobody joins can time out, and its keys are gone with it |
| `Relay.RegistriesAreExact` | back/cmd/strelaysrv/session.go:194-206 | in every run `pendingSessions` maps to no session whose `Serve` has returned, and `activeSessions` has no duplicates and holds exactly the sessions between their append and their removal |
| `Relay.ReturnedSessionsAreClosed` | back/cmd/strelaysrv/session.go:241-247 | when `Serve` has returned, every connection the session took is closed |
| `Relay.JoinIsSafeIff` | back/cmd/strelaysrv/listener.go:159-162 | assigning the outbox keeps at most one joined handler per device, the one the outbox belongs to, if and only if the check before it would still succeed |
| `Relay.OneHandlerPerDeviceIff` | back/cmd/strelaysrv/listener.go:147-162 | for whole runs: each device has at most one joined handler up to a point if and only if no join before it was overtaken by another since its check |
| `Relay.AtOnceIsInTime` | back/cmd/strelaysrv/listener.go:147-162 | in every run in which each check is followed at once by its join, each device has at most one joined handler |
| `Relay.TwoHandlersCanJoin` | back/cmd/strelaysrv/listener.go:147-162 | in general that is false of the code: a run from the start in which two handlers of a device both pass the check and join, and the first to exit leaves the other without its outbox entry |
| `RelayPool.EvictElements` | back/cmd/strelaypoolsrv/main.go:471-485 | evicting a host removes the one relay with that host and no other |
| `RelayPool.Registry.HandleRelayTest` | back/cmd/strelaypoolsrv/main.go:450-502 | the locked section gives the whole state that the transition system's test step gives |
| `RelayPool.TestedIs` | back/cmd/strelaypoolsrv/main.go:463-493 | after a test the relay is known in place of any other with its host, its new timer is pending, and the old one is stopped unless its callback has started |
| `RelayPool.TestStopsTimerIff` | back/cmd/strelaypoolsrv/main.go:463-469 | a test leaves the host with one timer that can call back if and only if no callback was waiting for the lock |
| `RelayPool.TestPutsEvictionOff` | back/cmd/strelaypoolsrv/main.go:463-493 | in every run in which a relay is never tested while a callback for it waits, a known relay stays until its current timer's callback runs |
| `RelayPool.RanIs` | back/cmd/strelaypoolsrv/main.go:504-524 | after a callback no relay with its host is known, the key is gone, and the timer is used up |
| `RelayPool.Registry.RunEviction` | back/cmd/strelaypoolsrv/main.go:504-524 | the callback's range loop, which goes on after a match and leaves a stale tail slot behind, evicts exactly once because hosts are distinct |
| `RelayPool.TestKeepsInv` | back/cmd/strelaypoolsrv/main.go:450-502 | a successful test keeps the registry consistent and leaves the tested relay known |
| `RelayPool.RunKeepsInv` | back/cmd/strelaypoolsrv/main.go:504-524 | a callback, stale or not, keeps the registry consistent |
| `RelayPool.RegistryAgrees` | back/cmd/strelaypoolsrv/main.go:450-524 | in every interleaving known hosts are pairwise distinct, the timer keys are the known hosts, and each known host's timer is pending or has a callback still to run |
| `RelayPool.EvictedEarlyIff` | back/cmd/strelaypoolsrv/main.go:463-469 | a known relay can vanish before its current timer's callback runs if and only if another timer for its host can still call back |
| `RelayPool.RetestedRelayIsEvicted` | back/cmd/strelaypoolsrv/main.go:463-469 | such a run exists: a callback waiting for the lock evicts a relay tested again meanwhile |
| `SliceUtil.RemoveInPlace` | back/lib/sliceutil/sliceutil.go:13-17 | removing unwanted elements one at a time while walking the slice is filtering, order included |
| `SliceUtil.RetainBySwapping` | back/lib/config/config.go:508-521 | the swap-remove loop keeps exactly the wanted elements, as a multiset |
| `SliceUtil.RemoveDuplicates` | back/lib/config/config.go:523-557 | afterwards IDs are unique, every ID is still there except the empty one where it is not allowed, and nothing was invented |
| `Sorting.IsSorted` | back/cmd/stdiscosrv/database.go:277-284 | `sort.IsSorted` compares neighbours only, yet decides sortedness |
| `Config.EnsureMyDevice` | back/lib/config/config.go:273-288 | adds the local device if and only if it has an ID and is not listed |
| `Config.PrepareDeviceList` | back/lib/config/config.go:303-320 | the list is strictly sorted, holds exactly the listed non-empty IDs and the local one, every entry is an original or the new local one, and the map is that of the list |
| `Config.DeviceListIs` | back/lib/config/config.go:303-320 | the same in plain terms: ascending IDs, every configured non-empty ID still there, nothing new but the plain local device |
| `Config.EnsureDevicePresent` | back/lib/config/config.go:491-506 | adds the local device to a folder if and only if it has an ID and is not listed |
| `Config.EnsureNoUntrustedTrustingSharing` | back/lib/config/config.go:559-573 | removes exactly the entries of untrusted devices without password in a folder that is not encrypted; its unguarded map lookup never misses |
| `Config.PrepareFolder` | back/lib/config/folderconfiguration.go:183-196 | the folder's devices are strictly sorted, known, permitted and original or the added local one; no wanted ID is lost except to a forbidden entry |
| `Config.FolderIs` | back/lib/config/folderconfiguration.go:183-196 | the same in plain terms: ascending known devices, none of them untrusted without a password unless the folder is received encrypted, and whoever was on the list and may be there stays, as does the local device |
| `Config.FolderIdempotent` | back/lib/config/folderconfiguration.go:183-196 | preparing a prepared folder again under the same ID changes nothing, although the local device may be added and removed again |
| `Prepare.DeduplicateObservedFolders` | back/lib/config/deviceconfiguration.go:85-94 | per ignored folder exactly the entry with the latest time remains, the first of equals |
| `Prepare.DeduplicatedIs` | back/lib/config/deviceconfiguration.go:85-94 | every folder has an entry, one of those listed, and none listed is later |
| `Prepare.FirstOfEquals` | back/lib/config/deviceconfiguration.go:85-94 | of several with the latest time it is the first |
| `Prepare.SortedObservedFolders` | back/lib/config/deviceconfiguration.go:74-83 | the entries of the map, each once, sorted by time whatever the iteration order |
| `Prepare.PrepareDevice` | back/lib/config/deviceconfiguration.go:27-52 | blank addresses become "dynamic"; ignored folders are deduplicated, unshared and sorted; untrusted devices lose introducer and auto-accept |
| `Prepare.DeviceIs` | back/lib/config/deviceconfiguration.go:27-52 | what changes in a device and what does not: trusted ones keep their flags, every unshared ignored folder keeps its latest entry, in order of time |
| `Prepare.DeviceIdempotent` | back/lib/config/deviceconfiguration.go:27-52 | preparing a device again keeps everything but addresses, and keeps the order of ignored folders if their times differ |
| `Prepare.OrderIsKeptIff` | back/lib/config/deviceconfiguration.go:74-83 | the order of ignored folders is sure to survive another prepare if and only if their times are pairwise distinct |
| `Prepare.AddressesStayIff` | back/lib/config/config.go:380-390 | preparing again keeps a device's addresses if and only if removing the deprecated ones, after the default was applied, left some; otherwise they become "dynamic" |
| `Prepare.OnlyDeprecatedAddress` | back/lib/config/config.go:380-390 | a device whose only address is not blank but deprecated ends up without any, and with "dynamic" after another prepare |
| `Prepare.ListenAddressesStay` | back/lib/config/optionsconfiguration.go:35 | listen addresses come out trimmed, distinct and supported, and preparing again keeps them |
| `StringUtil.UniqueTrimmedStrings` | back/lib/stringutil/stringutil.go:17-30 | the loop over a set of seen strings computes the functional form |
| `StringUtil.TrimIs` | back/lib/stringutil/stringutil.go:21 | only spaces go, and only from the ends |
| `StringUtil.UniqueTrimmedElements` | back/lib/stringutil/stringutil.go:17-30 | every string is there once, trimmed, and nothing else is |
| `StringUtil.UniqueTrimmedGrows` | back/lib/stringutil/stringutil.go:17-30 | first occurrences count: more strings only add to the end |
| `Prepare.Configuration.RemoveDeprecatedProtocols` | back/lib/config/config.go:380-390 | the listen addresses and every device lose exactly their deprecated addresses, in place and in order |
| `Prepare.NoErrorMeans` | back/lib/config/config.go:329-342 | there is no error if and only if every folder has a path and an ID of its own |
| `Prepare.FirstErrorIs` | back/lib/config/config.go:329-342 | otherwise the error is that of the first folder with one: missing ID before missing path before duplicate ID |
| `Prepare.PrepareFolders` | back/lib/config/config.go:322-357 | reports the first folder's error, else prepares and sorts all folders and records for each device exactly the folders shared with it |
| `Prepare.Configuration.PrepareFoldersAndDevices` | back/lib/config/config.go:290-301 | device list, folders and devices in this order: the first folder's error, or all three prepared |
| `Prepare.Configuration.PrepareIgnoredDevices` | back/lib/config/config.go:365-378 | the in-place filter keeps exactly the ignored devices that are not configured, in order |
| `Prepare.Configuration.Prepare` | back/lib/config/config.go:246-271 | the steps of `prepare` that concern devices, folders, ignored devices and defaults, in the code's order: its error, and the relation between old and new configuration |
| `Prepare.PreparedIsWell` | back/lib/config/config.go:246-378 | whenever `prepare` succeeds, the configuration is consistent: devices unique, non-empty, sorted, with the local one; folders unique and sorted, shared with known distinct devices and with untrusted ones only encrypted; nothing both ignored and configured |
| `Prepare.PrepareKeeps` | back/lib/config/config.go:246-378 | and nothing gets lost: every device and folder is still there, sharing stays where it is no danger, trusted devices keep their flags, exactly the deprecated addresses go, and an ignored device or folder is dropped only where it was added or shared |
| `Prepare.PrepareIsIdempotent` | back/lib/config/config.go:246-363 | a second `prepare` under the same ID leaves folders, ignored devices, listen addresses and defaults unchanged, and devices up to blank addresses and the order of ignored folders of equal time; with neither, the configuration is a fixed point |
| `Migrations.Apply` | back/lib/config/migrations.go:65-76 | sorts the set in place and applies it in that order |
| `Migrations.ApplyOneIs` | back/lib/config/migrations.go:89-97 | one migration: nothing at or above its target, else its conversion, if it has one, and the new version |
| `Migrations.AppliesExactlyPending` | back/lib/config/migrations.go:65-97 | exactly the conversions with a target above the starting version run, once each, in ascending order |
| `Migrations.FinalVersion` | back/lib/config/migrations.go:65-97 | the version ends at the greater of the start and the highest target |
| `Migrations.ListingOrderIsIrrelevant` | back/lib/config/migrations.go:65-76 | for distinct targets the order in which migrations are listed has no effect |
| `Migrations.ApplyIsIdempotent` | back/lib/config/migrations.go:65-97 | applying the set again does nothing |
| `Migrations.UpgradePathIsIrrelevant` | back/lib/config/migrations.go:65-97 | upgrading in two stages through any cut gives the same configuration as upgrading at once |
| `Rotation.RotatedFile.constructor` | back/cmd/vaporcito/monitor.go:374-396 | opening a log changes nothing in it: the old contents stay its oldest part, no other file is touched, and the size taken over is that of the file |
| `Rotation.RotatedFile.Rotate` | back/cmd/vaporcito/monitor.go:416-435 | the descending renames, with missing files skipped, equal moving all files up by one place at once |
| `Rotation.RotatedFile.Write` | back/cmd/vaporcito/monitor.go:398-414 | outcome and whole new state of a write, with failing create, short writes and a double close |
| `Rotation.FittingWrite` | back/cmd/vaporcito/monitor.go:398-414 | a write that fits goes to the end of the file and leaves everything else alone |
| `Rotation.LargeWrite` | back/cmd/vaporcito/monitor.go:398-435 | a write that does not fit starts a new file, or none if it cannot be created, and moves each other file up by one |
| `Rotation.ClosedWrite` | back/cmd/vaporcito/monitor.go:398-414 | once closed, a file refuses writes unless it opens anew, and a second rotation panics |
| `Rotation.MovedDropsOldest` | back/cmd/vaporcito/monitor.go:416-435 | a rotation loses exactly the oldest file, and that only if another takes its place |
| `Rotation.LogIsSuffix` | back/cmd/vaporcito/monitor.go:398-435 | after any sequence of writes the files from the highest number down to the base hold a suffix of what was there plus everything written |
| `Rotation.NothingLostAtFirst` | back/cmd/vaporcito/monitor.go:398-435 | nothing at all is lost while there are numbers left to rotate to |
| `Rotation.FirstRotationsKeepAll` | back/cmd/vaporcito/monitor.go:361-363 | a log that starts as one file keeps everything through its first `maxFiles` rotations |
| `Rotation.SizeIsTracked` | back/cmd/vaporcito/monitor.go:398-414 | in every run `currentSize` is the size of the file being written |
| `Rotation.FilesAreBounded` | back/cmd/vaporcito/monitor.go:398-414 | in every run each file is at most `maxSize` large, or holds just one write, or is as it was at the start |
| `Rotation.NumbersAreBounded` | back/cmd/vaporcito/monitor.go:416-435 | no run creates a file numbered above the highest slot |
| `Rotation.KeepsMaxFilesIff` | back/cmd/vaporcito/monitor.go:361-363 | at most `maxFiles` old files are kept if and only if `maxFiles` is at least one; zero keeps one all the same |
| `Rotation.PanicNeedsFailedCreate` | back/cmd/vaporcito/monitor.go:398-414 | a write closes a closed file, which panics, if and only if it needs a rotation and some earlier attempt needed one that could not create the file |
| `Rotation.WriteCanPanic` | back/cmd/vaporcito/monitor.go:398-414 | under all settings and from every open file, two large enough writes while creating fails lead to the panic |
| `LogFilter.JoinOfLines` | back/cmd/vaporcito/crash_reporting.go:124 | the lines the input is split into, joined by line breaks, are the input, and none holds a line break |
| `LogFilter.KeptIs` | back/cmd/vaporcito/crash_reporting.go:124-147 | kept are the first non-blank line and everything from the first line starting with "Panic ", or that line alone, or nothing |
| `LogFilter.StripIff` | back/cmd/vaporcito/crash_reporting.go:142-144 | a line loses a prefix if and only if it is a non-empty bracketed ID, one character and a non-empty message; what stays is the message |
| `LogFilter.AppendLine` | back/cmd/vaporcito/crash_reporting.go:130-145 | one kept line, appended in place over bytes already read, ends no later than the line did |
| `LogFilter.FilterLogLines` | back/cmd/vaporcito/crash_reporting.go:121-151 | writing into the array that lines are still read from gives exactly what the copying specification gives |
| `Csrf.CsrfManager.constructor` | back/lib/api/api_csrf.go:46-58 | a manager that finds the file of another starts with exactly its tokens, in order; without a file it starts with none |
| `Csrf.CsrfManager.Load` | back/lib/api/api_csrf.go:165-180 | the scanner loop appends the lines of the file, in order |
| `Csrf.CsrfManager.ValidToken` | back/lib/api/api_csrf.go:110-126 | accepts exactly the listed tokens, moves the accepted one to the front and otherwise only permutes |
| `Csrf.CsrfManager.NewToken` | back/lib/api/api_csrf.go:128-143 | puts the token in front, drops the last one only if there are 25, and saves |
| `Csrf.CsrfManager.Save` | back/lib/api/api_csrf.go:145-163 | writes one token to a line, or nothing at all |
| `Csrf.LinesOfText` | back/lib/api/api_csrf.go:145-180 | loading what was saved gives the tokens back, in order |
| `Csrf.LinesEnd` | back/lib/api/api_csrf.go:176-179 | a line may end in a carriage return and a line break, and the last one in nothing |
| `Csrf.ListIsMostRecent` | back/lib/api/api_csrf.go:110-143 | in every run with fresh tokens the list is the 25 most recently created or used tokens, most recent first |
| `Csrf.ValidUntil25Others` | back/lib/api/api_csrf.go:110-143 | a token is still valid if and only if fewer than 25 distinct other tokens were created or used since its own last use |
| `Csrf.ListIsBounded` | back/lib/api/api_csrf.go:128-143 | the list has at most 25 entries and no duplicates |
| `Csrf.FileHoldsTokens` | back/lib/api/api_csrf.go:128-180 | if the last created token was saved, loading the file gives the tokens in memory, however often they were used since |
| `Csrf.FileHoldsTokensIff` | back/lib/api/api_csrf.go:128-180 | for fresh tokens, file and memory hold the same tokens if and only if the last created one was saved |
| `Ldap.EscapeRunes` | back/lib/api/api_auth.go:326-331 | the loop replaces the listed runes one after another |
| `Ldap.ListsAreSuitable` | back/lib/api/api_auth.go:312-324 | both lists start with the backslash, have no duplicates and contain nothing an escape sequence is made of |
| `Ldap.SequentialIsSimultaneous` | back/lib/api/api_auth.go:326-331 | replacing one rune after another equals mapping each character once |
| `Ldap.UnescapeInverts` | back/lib/api/api_auth.go:326-331 | an explicit unescape recovers the value |
| `Ldap.EscapingIsInjective` | back/lib/api/api_auth.go:326-331 | different values never escape to the same text |
| `Ldap.EscapesAre` | back/lib/api/api_auth.go:312-324 | both escapes spelled out: every character of a value is written by itself, as two tables say |
| `Ldap.NothingGetsThrough` | back/lib/api/api_auth.go:312-324 | no star, parenthesis or NUL is left in a filter, and none of the characters special in a distinguished name |
| `Ldap.OutputIsInert` | back/lib/api/api_auth.go:326-331 | the output contains no listed rune except the backslash |
| `Ldap.TwoDigitsIff` | back/lib/api/api_auth.go:326-331 | for any suitable list with NUL in it, escapes have the two-digit form if and only if the value has no NUL |
| `Ldap.FilterEscapeIsStandardIff` | back/lib/api/api_auth.go:312-317 | so the filter escape has the form of section 3 of RFC 4515 if and only if the value has no NUL |
| `Ldap.DNEscapeIsStandardIff` | back/lib/api/api_auth.go:319-324 | and the escape for distinguished names the hexadecimal form of section 2.4 of RFC 4514 |

## Left out

- Messages.RecordRoundTrip: assumes, like the generated code, that an encoding is no longer than the largest `int`.
- Wire.DecodeConcat: says that both decodings fail or both succeed with the same message; which error is reported can depend on absolute positions through the wrap-around checks.
- Unmarshal.ReadField: the three generated methods repeat this code; it is factored out once, with the field table of each message as a parameter.
- Store.LookupIsTheLog: in runs the miss counters and the times recorded with them are arbitrary, as only addresses are claimed; how they are counted is `Queries.ApiServer.HandleGET`.
- Replication.ReplicatingServersAnswerAlike: the order in which a server merges its own and the received announcements is free; that merging happens at all is assumed, not its timing.
- Store.ReplicasAnswerAlike: speaks of addresses only, since replication drops `seen` (back/cmd/stdiscosrv/replication.go:147-151); dropped sends are announcements the other server did not receive.
- Framing.Send: the ticker that puts a heartbeat into an empty outbox and the write deadlines are not modelled; heartbeats are ordinary empty records in the outbox, and a deadline is one way for the connection to fail.
- Relay.Pairing: keys are the random numbers drawn; that the two keys of a session and those of different sessions differ is not assumed anywhere, and where two keys coincide the later session takes the entry over, as in the code.
- Relay.RegistriesAreExact: the overall limits, byte counters, pings and the messages sent back are left out; they do not touch the registries.
- Relay.RunKeepsInv: goroutines are steps on values; only the sections that hold `sessionMut` are also given as methods on the registry's fields and backing array (`Relay.Registry`), each proved to perform its step. Failing random numbers, for which no session is created, are left out.
- Relay: liveness, such as sessions eventually pairing, is not claimed; `AddConnection` may fail when `Serve` is not at its select. The rate limiter (`take`) is left out.
- Prepare.PrepareIsIdempotent: names, GUI settings, the other options and the reflection in `Defaults.prepare` are not part of the configuration modelled.
- Config.PrepareFolder: marker names, versioning, paths and the numeric clamps of folderconfiguration.go:197-234 are single-branch defaults and left out.
- Prepare.Configuration.Prepare: GUI settings, the options other than listen addresses (independent clamps) and the reflective filling of nil slices are left out; migrations, which run last, are the separate module Migrations. After an error the configuration is not used by the callers and its contents are not specified.
- Rotation.RotatedFile.constructor: when Lstat or create fails there is no object, only the error.
- Migrations.Apply: the bodies of the individual conversions are arbitrary functions.
- Rotation.RotatedFile.Write: renames succeed unless the file is missing; other rename errors are only logged by the code. Sizes do not overflow 64 bits.
- LogFilter.FilterLogLines: bytes are modelled as characters.
- RelayPool.RegistryAgrees: the network test itself, statistics, locations, metrics and the file of known relays are left out; time is abstracted to timers that may run out at any moment.
- Csrf.FileHoldsTokens: the unbounded line length of the scanner is not modelled, as tokens are 32 letters and digits.
- `SetDevices`, `SetFolders`, the restart window of `monitorMain`, `numberedFile`, `sozDatabase` and `addressStrs` would only add easy members.
- TLS, sockets, HTTP handlers, LevelDB, metrics, logging, GeoIP, LDAP binding and password hashing.
- The other generated codecs of lib/config, which are the same code over larger schemas.
