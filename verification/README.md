# everything-imu: engines, modelled and proved

A Dafny model of the stateful engines of everything-imu, the bridge that turns
controllers, phones and wearables into SlimeVR trackers. Each engine is given twice: as
values and functions, about which the properties are proved, and, where the program
updates things in place, as a class or an in-place method proved to compute exactly those
functions. `dafny verify dfyconfig.toml` checks all of it.

| file | engine |
|---|---|
| `bits.dfy`, `byte_vectors.dfy`, `wrappers.dfy` | machine words as bounded naturals, exclusive-or, little-endian bytes, bytes of bits, `Option` |
| `crc32.dfy`, `crc_multiples.dfy`, `crc_identity.dfy`, `dualsense_output.dfy` | the reflected CRC-32 (section 8 of RFC 1952) that seals Bluetooth output reports, which payloads collide under it, its published values, and the output reports |
| `fnv_mac.dfy` | MAC addresses from serials by FNV-1a (section 2 of draft-eastlake-fnv) |
| `hopx_reframer.dfy`, `hopx_resync.dfy` | the incremental parser of 14-byte IMU records, and what noise in front of a stream costs it |
| `packet_loss.dfy` | loss accounting from a wrapping sequence number |
| `remote_protocol.dfy`, `remote_datagrams.dfy`, `utf8.dfy` | the datagram format of remote hubs, the same byte by byte, and UTF-8 (section 3 of RFC 3629) |
| `remote_routing.dfy`, `remote_runs.dfy`, `remote_delivery.dfy` | routes, rumble cells and event queues of the hub listener as values, what holds of every run, and what a reader gets |
| `remote_hub.dfy`, `remote_service.dfy` | the same listener on the heap: two maps, shared cells with identity, bounded queues |
| `registry.dfy`, `app_state.dfy` | the device registry as atomic steps of concurrent tasks, and as objects |
| `registry_macs.dfy`, `registry_liveness.dfy` | exactly when its MACs are unique, and exactly when its entries are the live tasks |
| `rate_calibration.dfy`, `periodic_stream.dfy` | the fusion timestep from the delivery rate, in general and on a steady stream |
| `hardware_clock.dfy`, `timestep_driver.dfy` | the fusion timestep from the device clock, and the pipeline fields both paths update |
| `spi_calibration.dfy`, `spi_reconciliation.dfy` | Joy-Con calibration blocks, and which of them wins |
| `latency.dfy` | the latency window and its order statistics |
| `tesla_heading.dfy` | yaw rate and acceleration from a car's heading and speed |

How the program is carried over: bytes and words are bounded naturals with every
truncation written out; floats are exact reals, except floats of the wire (samples,
rumble intensity), which are 32-bit words, ordered as IEEE 754 orders them where the
program compares them; instants are microseconds,
nanoseconds or seconds, and times that decide something are arguments; channels are
sequences with a count of what was taken; a lock held is one step; names stay the UTF-8
bytes they arrive as.

Where the code and its own comments disagree the model follows the code. The timestep
hysteresis is 5 per cent, not the 3 per cent of the comment at
`crates/core/src/pipeline.rs:879`. The guard "only adopt factory cal if no user override
already won" at `crates/device-joycon/src/jc1.rs:318` never holds anything back
(`SpiReconciliation.FactoryAlwaysAdopted`); exactly when an override survives is
`SpiReconciliation.ForceKeptIff`. "Any interval above twice the median is one miss"
holds for the upper median (`Latency.SnapshotIsSound`).

## Model

| member | source | states |
|---|---|---|
| Crc32.UpdateRegister | crates/device-dualsense/src/device.rs:362-369 | the masked shift loop over one byte is eight steps of the bit register on the register xored with the byte |
| Crc32.WithSeed | crates/device-dualsense/src/device.rs:353-360 | seed byte, then every payload byte, then the complement, for payloads of any length |
| Crc32.StepLinear | crates/device-dualsense/src/device.rs:364-367 | one bit step distributes over exclusive-or, for all pairs of 32-bit registers |
| Crc32.StepsInjective | crates/device-dualsense/src/device.rs:364-367 | n bit steps send two registers to the same value exactly when they were the same |
| Crc32.FeedIsFeedBits | crates/device-dualsense/src/device.rs:362-369 | the byte register equals a bit-serial register fed the payload bit by bit, low bit first |
| Crc32.BurstCollision | crates/device-dualsense/src/device.rs:353-369 | two payloads of equal length whose bits differ only inside a run of at most 33 bits have the same checksum if and only if they are equal or their difference is the generator polynomial itself |
| Crc32.FourByteWindowDetected | crates/device-dualsense/src/device.rs:353-369 | damage inside any four consecutive bytes always changes the checksum, at any length and seed |
| Crc32.FiveByteWindowCollides | crates/device-dualsense/src/device.rs:353-369 | the four-byte bound is sharp: two different five-byte payloads with equal checksums |
| CrcMultiples.CollisionIffMultiple | crates/device-dualsense/src/device.rs:353-369 | two payloads of the same length, whatever it is, have the same checksum at any seed if and only if their bit difference is a carry-less multiple of the 33-bit generator |
| Crc32.ResidueIffChecksum | crates/device-dualsense/src/device.rs:353-369 | after a body and four more bytes the register holds one fixed residue if and only if those four bytes are the little-endian checksum of the body |
| CrcIdentity.CheckValue | crates/device-dualsense/src/device.rs:353-369 | the published check value: the checksum of the digits 1 to 9 is 0xCBF43926, register by register |
| CrcIdentity.ResidueValue | crates/device-dualsense/src/device.rs:362-369 | the residue is 0xDEBB20E3 |
| CrcIdentity.GeneratorExponents | crates/device-dualsense/src/device.rs:364-367 | the generator has exactly the coefficients x^32, 26, 23, 22, 16, 12, 11, 10, 8, 7, 5, 4, 2, 1 and 0 |
| DualSenseOutput.SealFrame | crates/device-dualsense/src/device.rs:276-280 | the four bytes written make the whole 78-byte report end in the residue and leave the 74 before them alone |
| DualSenseOutput.FillDs5Payload | crates/device-dualsense/src/device.rs:284-306 | exactly the listed payload bytes are written, from whatever offset the payload starts at; every other byte keeps its value |
| DualSenseOutput.BuildDs5BtReport | crates/device-dualsense/src/device.rs:271-282 | for every output state: 78 bytes, the specified 74-byte body, and as trailer the little-endian checksum over 0xA2 and that body |
| DualSenseOutput.BuildDs4BtReport | crates/device-dualsense/src/device.rs:322-341 | the same for the DualShock 4 layout |
| DualSenseOutput.BuildDs5UsbReport | crates/device-dualsense/src/device.rs:264-269 | for every output state, the 48 bytes of the USB layout: the same payload one byte earlier, no checksum |
| DualSenseOutput.BuildDs4UsbReport | crates/device-dualsense/src/device.rs:308-320 | for every output state, the 32 bytes of the DualShock 4 USB layout |
| DualSenseOutput.PlayerPatterns | crates/device-dualsense/src/device.rs:235-243 | the lights and colours of the five masks with 0 to 4 bits, in numbers |
| DualSenseOutput.BluetoothFields | crates/device-dualsense/src/device.rs:271-341 | where amplitude, lights and colour stand in a Bluetooth report, in numbers |
| DualSenseOutput.UsbFields | crates/device-dualsense/src/device.rs:264-320 | the same for a USB report |
| DualSenseOutput.ValidFrameIff | crates/device-dualsense/src/device.rs:271-282 | a 78-byte frame is accepted if and only if its last four bytes are the checksum of the first 74 |
| DualSenseOutput.DamagedFrameRejected | crates/device-dualsense/src/device.rs:271-282 | a sealed frame altered in any four consecutive bytes, checksum included, is never accepted |
| DualSenseOutput.AmplitudeIsNearest | crates/device-traits/src/rumble.rs:9-21 | the motor byte is a nearest whole number to 255 times the clamped intensity, zero for not-a-number, and grows with the intensity |
| DualSenseOutput.OutputChannel.WriteOutput | crates/device-dualsense/src/device.rs:67-83 | nothing before the first input report, the USB report below 78 bytes, a sealed Bluetooth report from 78 bytes on, an error when not started; the state is left alone |
| DualSenseOutput.OutputChannel.SetLedMask | crates/device-dualsense/src/device.rs:153-162 | stores both LED masks and keeps rumble even when nothing can be sent, and what is sent is the report over the new state for the transport in use |
| DualSenseOutput.OutputChannel.SetRumble | crates/device-dualsense/src/device.rs:164-172 | for every intensity, out of range or not a number included: only the amplitude changes, even when nothing can be sent, and what is sent is the report over the new state |
| FnvMac.Fnv1a64 | crates/device-dualsense/src/factory.rs:228-235 | the loop computes the 64-bit FNV-1a fold of the bytes |
| FnvMac.OddTimesInjective | crates/device-dualsense/src/factory.rs:225-235 | multiplying by an odd number permutes the residues modulo any power of two |
| FnvMac.AbsorbLow | crates/device-dualsense/src/factory.rs:228-235 | the low k bits of the hash after a byte depend on the low k bits before it and the byte alone, injectively, for every k from 8 to 64 |
| FnvMac.CommonSuffix | crates/device-dualsense/src/factory.rs:228-235 | a common suffix neither makes nor breaks equality of the low k bits |
| FnvMac.MacIffLowBits | crates/device-dualsense/src/factory.rs:220-223 | DualSense MACs are equal exactly when the low 40 bits of the hashes are, Steam Deck MACs exactly when the low 24 are |
| FnvMac.OneByteChangesMac | crates/device-steam-deck/src/factory.rs:190-205 | two serials of equal length that differ in exactly one byte never get the same MAC, from either factory |
| FnvMac.SuffixKeepsMacCollisions | crates/device-dualsense/src/factory.rs:220-235 | appending the same bytes to two serials neither makes nor breaks a MAC collision |
| FnvMac.PublishedValues | crates/device-dualsense/src/factory.rs:225-235 | the published 64-bit FNV-1a values of no bytes and of "foobar", byte by byte |
| FnvMac.MacReadsBack | crates/device-dualsense/src/factory.rs:220-223 | behind 02 a DualSense MAC reads back to the hash modulo 2^40, behind 02 28 DE a Steam Deck MAC to the hash modulo 2^24, low byte first |
| HopxReframer.RecordParser.DrainChunks | crates/device-hopx/src/protocol.rs:116-147 | the buffer loop with marker search, one-byte lookahead and resync computes the one-pass segmentation of old buffer plus new bytes: same records, same remainder |
| HopxReframer.RecordParser.FeedRaw | crates/device-hopx/src/protocol.rs:110-112 | one decoded record per drained chunk, in order |
| HopxReframer.DrainConserves | crates/device-hopx/src/protocol.rs:116-147 | input equals emitted records and dropped bytes in order, followed by what stays buffered |
| HopxReframer.DrainShape | crates/device-hopx/src/protocol.rs:116-147 | emitted chunks start with the marker; what stays is under 14 bytes, empty or marker-led, and draining it again does nothing |
| HopxReframer.DrainJustified | crates/device-hopx/src/protocol.rs:120-145 | every emitted record is followed by a boundary byte or by nothing yet; every dropped byte was no marker or was refused by the byte after its record |
| HopxReframer.SplitInvariance | crates/device-hopx/src/protocol.rs:116-147 | feeding a then b equals feeding a followed by b, unless the feed of a ended by emitting a record with nothing behind it and b starts with a byte that would have refused it |
| HopxReframer.SplitHarmlessIff | crates/device-hopx/src/protocol.rs:134-140 | a cut after a is invisible for every continuation if and only if the feed of a did not emit a record without lookahead |
| HopxReframer.RunConserves | crates/device-hopx/src/protocol.rs:98-147 | over any sequence of feeds of any bytes, 14 times emitted plus dropped plus buffered is the number of bytes fed |
| HopxReframer.RunIsOnePass | crates/device-hopx/src/protocol.rs:98-147 | a sequence of feeds all cut cleanly equals one feed of the concatenation |
| HopxReframer.StreamDecodes | crates/device-hopx/src/protocol.rs:116-147 | a stream of 0x22 records and blocks that start with 0x25 and contain no 0x22 drains to exactly its records, in order |
| HopxReframer.AnyCutDecodes | crates/device-hopx/src/protocol.rs:98-147 | the same stream cut into feeds anywhere and any number of times still yields exactly its records, in order |
| HopxResync.NoiseHarmlessIff | crates/device-hopx/src/protocol.rs:116-147 | for every byte string: no bytes whatever in front of it cost it a record if and only if each of the at most 13 places where a false record can let the parser go on is harmless |
| HopxResync.NoiseCostsNoRecord | crates/device-hopx/src/protocol.rs:116-147 | for every stream whose records hide no boundary byte behind their marker: whatever bytes come first, its records still come out, all of them, in order and last |
| HopxResync.NoiseCostsNoRecordOverFeeds | crates/device-hopx/src/protocol.rs:98-147 | the same over feeds: whatever was fed before, cut anyhow, and whatever noise still precedes the stream, no record of it is missing if it is cut cleanly |
| HopxResync.WholeItemsResyncAtOnce | crates/device-hopx/src/protocol.rs:98-147 | after feeds of any bytes at all, notifications that carry whole items lose no record, from the first one on |
| HopxResync.UnguardedRecordLost | crates/device-hopx/src/protocol.rs:134-140 | a concrete record that ends in the marker byte and is lost behind a single marker byte |
| HopxReframer.RawRoundTrip | crates/device-hopx/src/protocol.rs:150-163 | decoding the encoding of a record gives it back, for every sequence byte and signed channel value |
| HopxReframer.RawIs | crates/device-hopx/src/protocol.rs:157-163 | each channel in numbers: the signed word, low byte first, at its two bytes |
| HopxReframer.ValuesSurviveAnyCut | crates/device-hopx/src/protocol.rs:107-163 | records encoded, concatenated and cut anywhere come out with the channel values that went in |
| PacketLoss.LossStats.Record | crates/device-remote/src/factory.rs:43-70 | one packet updates the counters and the window as the value model says |
| PacketLoss.StepAccountsIff | crates/device-remote/src/factory.rs:45-53 | what one packet adds to received plus lost is the true advance of the sender counter if and only if that advance is between 1 and 999, whatever wraps in between |
| PacketLoss.Conservation | crates/device-remote/src/factory.rs:43-70 | for a counter advancing by 1 to 999 per packet and seen modulo 65536, received plus lost is the true distance since the last reset, or that plus one before the first, over any number of wraps and resets |
| PacketLoss.LossSinceOpener | crates/device-remote/src/factory.rs:43-70 | for any arrivals, duplicates, overtaken packets and restarts included: lost is the sum of advance less one over the advances of 2 to 999 since the packet that opened the window, and received counts the packets since |
| PacketLoss.OpenerIsLast | crates/device-remote/src/factory.rs:60-68 | the window is opened anew exactly by the first packet ten seconds or more after the opener of the window before |
| RemoteProtocol.ParseImuSamples | crates/device-remote/src/protocol.rs:204-233 | the sample loop reads every 45-byte sample in bounds and equals the indexed description of the burst |
| RemoteProtocol.RoundTrip | crates/device-remote/src/protocol.rs:98-233 | parsing the encoding of a message with any trailing bytes gives the message back if and only if it is not a hello without timestamp followed by eight or more bytes |
| RemoteProtocol.BurstRoundTrip | crates/device-remote/src/protocol.rs:158-173 | bursts of 0 to 255 samples, with or without sequence number, survive any trailing bytes |
| RemoteProtocol.HelloRoundTrip | crates/device-remote/src/protocol.rs:107-125 | the hello case of the round trip, with the exact condition on the optional timestamp |
| RemoteProtocol.AnnounceRoundTrip | crates/device-remote/src/protocol.rs:126-149 | the announce case of the round trip |
| RemoteProtocol.ParsedIsWellFormed | crates/device-remote/src/protocol.rs:98-200 | whatever bytes arrive, a parsed message is one the encoder could have sent |
| RemoteDatagrams.ParseIff | crates/device-remote/src/protocol.rs:98-233 | a datagram parses to a message if and only if its bytes, at offsets from its start and in numbers, are those of that message: magic, version, type, lengths, kind, flags, words and UTF-8 |
| Utf8.ValidIffText | crates/device-remote/src/protocol.rs:117-117 | a name is accepted if and only if it is the encoding of some sequence of Unicode scalar values |
| RemoteProtocol.EncodeInjective | crates/device-remote/src/protocol.rs:98-200 | different messages have different encodings |
| RemoteProtocol.LongestMessage | crates/device-remote/src/factory.rs:134-137 | no message is longer than 11486 bytes, which fits the 16384-byte receive buffer |
| RemoteProtocol.AckEchoesTimestamp | crates/device-remote/src/protocol.rs:246-252 | two acknowledgements are equal exactly when their timestamps are |
| RemoteDatagrams.AckSays | crates/device-remote/src/protocol.rs:236-252 | an acknowledgement is 45 49 4D 55 01 02 01, alone or followed by the timestamp of the hello, from which it can be read back |
| RemoteDatagrams.RumbleSays | crates/device-remote/src/protocol.rs:254-262 | a rumble packet in numbers: 45 49 4D 55 01 08, the handle and the intensity word |
| RemoteProtocol.RumbleRoundTrip | crates/device-remote/src/protocol.rs:254-262 | a rumble packet is 12 bytes from which handle and intensity can be read back |
| RemoteProtocol.OutboundIsNotInbound | crates/device-remote/src/protocol.rs:98-106 | acknowledgements and rumble packets are never mistaken for inbound messages |
| RemoteRouting.TouchPeerInv | crates/device-remote/src/factory.rs:77-92 | touching a hub leaves its cell holding the source address and every other cell as it was |
| RemoteRouting.SweepInv | crates/device-remote/src/factory.rs:140-149 | a sweep keeps the routing invariant |
| RemoteRouting.StepInv | crates/device-remote/src/factory.rs:138-168 | every datagram, sweep and consumer step keeps it: each route names a device of its own key whose cell is the one stored for its IP, and no queue exceeds 256 |
| RemoteRouting.RunInv | crates/device-remote/src/factory.rs:138-168 | the invariant holds after every run from an empty hub |
| RemoteRuns.StepRoute | crates/device-remote/src/factory.rs:171-273 | one step does to each key's route what an independent per-key description says: refreshed, recorded, ended, created or untouched |
| RemoteRuns.RumbleFollowsHub | crates/device-remote/src/factory.rs:77-92 | in every run the cell of a live route's device is the one stored for its IP and holds the source of the last hello, announce or routed event from that IP, whichever handle it was for |
| RemoteRuns.HoldsHubCellIff | crates/device-remote/src/factory.rs:73-92 | whether its own route is live or not, a device holds the cell stored for its IP if and only if its IP kept a route at every sweep since it was registered |
| RemoteRuns.SweptDeviceIsLeftBehind | crates/device-remote/src/factory.rs:73-92 | a concrete run in which it does not: announce, sweep after 20 s, announce from another port; the first device keeps its cell with the old address |
| RemoteRuns.OutlivingDeviceFollowsHub | crates/device-remote/src/factory.rs:73-92 | so a device that outlived its route still rumbles to the last contact of its IP while another route of that IP is live |
| RemoteRuns.LastSeenIsLastTouch | crates/device-remote/src/factory.rs:192-198 | a live route's time stamp is that of the last announce or event for its key in the log |
| RemoteRuns.SweepExact | crates/device-remote/src/factory.rs:140-149 | a sweep keeps exactly the routes last touched, by the log, less than 15 000 000 microseconds ago, unchanged, and exactly the cells of their IPs |
| RemoteRuns.RouteEndsIff | crates/device-remote/src/factory.rs:140-273 | a route ends exactly by a remove for its key, an event meeting a closed receiver, or a sweep when stale |
| RemoteRuns.RegistrationsAreSeparated | crates/device-remote/src/factory.rs:192-214 | between two registrations of the same key one of those endings happened |
| RemoteRuns.StepDelivers | crates/device-remote/src/factory.rs:250-273 | a step hands a device the event offered to its key exactly when its route is live, its receiver open and its queue not full; nothing else is ever handed over |
| RemoteDelivery.OpenIff | crates/device-remote/src/device.rs:77-111 | a device's queue is open if and only if the log shows no end of its reader since its registration |
| RemoteDelivery.ReceivedIs | crates/device-remote/src/device.rs:89-105 | what its reader has received is, in order, one of the events sent for each time it asked while its queue was open and something waited |
| RemoteDelivery.ConsumeMakesRoom | crates/device-remote/src/factory.rs:263-271 | a full open queue accepts again as soon as its reader has taken an event |
| RemoteDelivery.NothingLostIff | crates/device-remote/src/factory.rs:250-273 | while its route lives and its reader is there, a device has been sent exactly the events offered to its key since registration if and only if none came while 256 were waiting, which is read off the log alone |
| RemoteDelivery.PacedReaderLosesNothing | crates/device-remote/src/factory.rs:250-273 | a reader that asks at least once between any two events is sent every one of them |
| RemoteRuns.DeliveredInOrder | crates/device-remote/src/factory.rs:250-273 | what a device was sent is an in-order subsequence of the events for its own key since its registration |
| RemoteRuns.LossIsPerRegistration | crates/device-remote/src/factory.rs:206-230 | a live route's loss counters are those of the numbered bursts for its key since registration alone |
| RemoteHubs.EventQueue.TrySend | crates/device-remote/src/factory.rs:263-271 | accepts in order while open and below capacity, and tells full from closed |
| RemoteHubs.RemoteHub.TouchHubPeer | crates/device-remote/src/factory.rs:77-92 | the stored cell object is rewritten in place, or created once, and handed out; the hub stands for the touched model value |
| RemoteHubs.RemoteHub.Deliver | crates/device-remote/src/factory.rs:250-273 | refresh, touch, then send without waiting, on the live maps and queues; a closed receiver drops the route |
| RemoteHubs.RemoteHub.RegisterDevice | crates/device-remote/src/factory.rs:192-214 | an announce adds at most one device, which holds the very cell object stored for its IP |
| RemoteHubs.RemoteHub.SweepRoutes | crates/device-remote/src/factory.rs:140-149 | both maps are filtered in place to the swept model value |
| RemoteHubs.RemoteHub.HandleMsg | crates/device-remote/src/factory.rs:171-248 | each message takes the live objects from one model value to the next, hands out a device exactly when it registered one, and answers a hello with its own timestamp |
| RemoteService.Serve | crates/device-remote/src/factory.rs:138-168 | the listener loop over raw datagrams, sweeps and consumer steps ends in the state of the model run |
| RemoteService.LiveDeviceRumblesToLastContact | crates/device-remote/src/device.rs:123-135 | on the heap: every live route belongs to a device whose cell object is the one the hub stores for its IP, holding that IP's last contact |
| RemoteService.RumbleLiveDevice | crates/device-remote/src/device.rs:123-135 | rumble for a live device of a hub after any run: a packet that reads back to its own handle and to the single-precision intensity asked for, or the end of 0.0 to 1.0 it lies beyond, not-a-number let through; addressed to the last contact of its IP in the log |
| RemoteService.DevicesOfOneHubShareACell | crates/device-remote/src/factory.rs:73-92 | two live devices of one hub IP hold the same cell object |
| Registry.StepKeepsMacsUnique | crates/core/src/app_state.rs:103-117 | with one registrar, every step keeps MACs unique among the entries |
| Registry.OneRegistrarKeepsMacsUnique | crates/core/src/supervisor.rs:33-64 | so does every interleaving of its evict, spawn and insert steps with disconnects, exits, reaps and shutdowns |
| Registry.LookupIsUnambiguous | crates/core/src/app_state.rs:195-208 | a lookup by MAC then has at most one entry to find |
| RegistryMacs.StepUniqueIff | crates/core/src/app_state.rs:94-191 | with any number of registrars, from unique MACs a step leads to unique MACs if and only if it is not an insert whose MAC already stands under another id |
| RegistryMacs.UniqueThroughoutIff | crates/core/src/app_state.rs:94-191 | a run keeps MACs unique throughout if and only if no step of it was such an insert |
| RegistryMacs.ClashIffOvertaken | crates/core/src/app_state.rs:103-186 | in the log: an insert meets its own MAC under another id if and only if, since its registrar's evict, another registrar inserted that MAC and the entry is still present |
| RegistryMacs.UniqueIffNeverOvertaken | crates/core/src/app_state.rs:94-191 | MACs are unique throughout a run if and only if no registrar was overtaken like that |
| Registry.TwoRegistrarsCanCollide | crates/core/src/app_state.rs:94-191 | a concrete run of two registrars in which one is overtaken and two entries end with one MAC |
| Registry.ReapExactIff | crates/core/src/app_state.rs:156-166 | a reap keeps the entries equal to the tasks the ledger of inserts, evictions and reaps calls registered if and only if the entry under the task's id, if any, is its own |
| Registry.InsertExactIff | crates/core/src/app_state.rs:167-186 | an insert keeps them equal if and only if the task was not reaped before |
| Registry.StaleReapRemovesSuccessor | crates/core/src/app_state.rs:158-163 | without that order: a late reap removes the entry of the task that replaced it |
| Registry.InsertAfterReapLeavesGhost | crates/core/src/app_state.rs:156-167 | without that order: a task reaped between spawn and insert leaves an entry nothing removes |
| RegistryLiveness.StepLiveEntriesIff | crates/core/src/app_state.rs:94-191 | from a registry whose entries are all of live tasks a step leads to such a registry if and only if it is neither the end without reap of a running task that holds its entry nor the insert of a task no longer live |
| RegistryLiveness.LiveEntriesThroughoutIff | crates/core/src/app_state.rs:94-191 | a run never has an entry of a dead task if and only if no step of it was one of those two |
| RegistryLiveness.ExitLeavesDeadEntry | crates/core/src/app_state.rs:154-166 | a concrete run: evict, spawn, insert, then an ending by another error than a disconnect; the order was kept and the entry of the dead pipeline stays |
| RegistryLiveness.StepLiveSetIff | crates/core/src/app_state.rs:94-191 | from a registry that is exactly the live tasks entered and not superseded a step leads to such a registry if and only if it is none of three: those two, and a reap that finds a successor's entry |
| RegistryLiveness.LiveSetThroughoutIff | crates/core/src/app_state.rs:94-191 | the registry is exactly those live tasks throughout a run if and only if no step of it was one of the three |
| RegistryLiveness.OrderlyRunsAreLive | crates/core/src/app_state.rs:152-167 | if no task disconnects before its insert, no id is entered while an earlier task of it is live, and a pipeline ends without a reap only after being superseded, then the entries are exactly the live tasks entered and not superseded, from start to end |
| RegistryLiveness.StepLiveIff | crates/core/src/app_state.rs:103-166 | a step leaves a task live if and only if it was and the step is not the eviction of its entry, its return with another error, or its reap |
| RegistryLiveness.LiveUntilEnded | crates/core/src/app_state.rs:103-166 | over a run: a task is live at a later point if and only if it was and none of those three came between |
| RegistryLiveness.EvictedStaysOver | crates/core/src/app_state.rs:110-114 | a pipeline whose entry an evict removed is not live at any later point |
| RegistryLiveness.OneLivePerMac | crates/core/src/app_state.rs:100-186 | with one registrar and in order, no two live pipelines past their registration and not drained by a shutdown share a MAC |
| AppStates.AppState.Evict | crates/core/src/app_state.rs:103-117 | the loop removes and stops exactly the entries under another id with the same MAC, cancels their tasks, and is the evict step |
| AppStates.AppState.StaleAreOver | crates/core/src/app_state.rs:110-114 | after it the task object of every entry it removed is over |
| AppStates.AppState.Insert | crates/core/src/app_state.rs:167-186 | the new handle replaces whatever the id had, every other entry stays, and is the insert step |
| AppStates.AppState.RegisterDevice | crates/core/src/app_state.rs:94-191 | undisturbed, the three parts end with the device registered under a fresh handle, no other entry of its MAC, every other entry kept, and the device announced once |
| AppStates.AppState.Finish | crates/core/src/app_state.rs:156-158 | a pipeline that returns leaves the registry to the reap, and only a running task can |
| AppStates.AppState.Reap | crates/core/src/app_state.rs:156-166 | removes by id, unless the task was cancelled first |
| AppStates.AppState.Shutdown | crates/core/src/app_state.rs:376-394 | empties the map and signals every handle that was in it |
| AppStates.AppState.SetMounting | crates/core/src/app_state.rs:195-208 | changes exactly one matching entry; when MACs are unique, that is every matching entry |
| RateCalibration.WindowsTile | crates/core/src/pipeline.rs:901-920 | in every run the closed windows follow each other without gap from the first counted batch, last at least 4 s, and with the open count hold every sample after the warm-up exactly once |
| RateCalibration.SmoothedWithinRates | crates/core/src/pipeline.rs:917-927 | whatever range holds every window's rate holds the smoothed rate |
| RateCalibration.RetimedIff | crates/core/src/pipeline.rs:1048-1054 | the timestep is replaced exactly when it is more than five per cent off |
| RateCalibration.TimestepFollowsRate | crates/core/src/pipeline.rs:929-952 | at every point of every run the timestep is within five per cent of the clamped reciprocal of the smoothed rate, or still the initial one if no window has closed |
| PeriodicStream.DuringWindow | crates/core/src/pipeline.rs:881-953 | the exact state after any number of batches of a steady stream |
| PeriodicStream.SmoothedRateError | crates/core/src/pipeline.rs:917-927 | for n samples every T seconds and K batches to a window, the smoothed rate after the m-th window is off by exactly 0.75^(m-1) r/K, because only the first window counts one batch too many |
| PeriodicStream.ChangesOnceIffHarmless | crates/core/src/pipeline.rs:881-953 | for every steady stream, at any rate and window length: from every start the timestep changes at most once, however long the stream, if and only if the first window's surplus moves the clamped reciprocal of the rate by at most five per cent |
| PeriodicStream.TimestepChangesOnce | crates/core/src/pipeline.rs:929-952 | which holds whenever a window has at least 20 batches |
| PeriodicStream.ChangesOnceIff | crates/core/src/pipeline.rs:881-953 | when neither the first window's rate nor the true one is clamped, the timestep changes at most once from every start if and only if a window holds at least 20 batches |
| PeriodicStream.TimestepChangesTwice | crates/core/src/pipeline.rs:929-952 | with fewer, and rates inside the clamp band, a far-off start is corrected by the first window and again by the twelfth |
| PeriodicStream.QuarterSecondStream | crates/core/src/pipeline.rs:881-953 | a concrete one: 20 samples every quarter second, 16 batches to a window |
| HardwareClock.DifferenceExactIff | crates/core/src/pipeline.rs:641-645 | the truncated wrapping difference of two 64-bit times is the true one if and only if that is a 32-bit count |
| HardwareClock.AcceptedTicks | crates/device-dualsense/src/report.rs:113-122 | for counter readings less than one wrap apart, an accepted difference means the counter did not wrap and is within two ticks of a third of the gap |
| HardwareClock.PlausibleTicksAccepted | crates/core/src/pipeline.rs:645-646 | without a wrap every gap of 3 to 299 997 ticks is accepted |
| HardwareClock.TimestampOfReport | crates/device-dualsense/src/report.rs:91-122 | the four bytes after the accelerometer block are the little-endian tick count, whatever stands around them; a DualShock 4 reports zero |
| HardwareClock.ZeroReadingsLeaveNoTrace | crates/core/src/pipeline.rs:639-655 | dropping the zero timestamps from a batch changes nothing |
| HardwareClock.EstimatorRetires | crates/core/src/pipeline.rs:656-665 | once one difference is accepted, the smoothed one stays within (0, 0.1) s and the rate estimator's own fields never change again |
| HardwareClock.EstimatorUntilThen | crates/core/src/pipeline.rs:656-665 | until then the pipeline's timestep state is that of the rate estimator, batch for batch |
| HardwareClock.ZeroClockUsesRate | crates/device-dualsense/src/report.rs:110-122 | a device whose timestamps are all zero is timed by the delivery rate alone, over any run |
| HardwareClock.TimestepFollowsClock | crates/core/src/pipeline.rs:656-662 | while the clock drives, the timestep is within five per cent of the smoothed difference |
| HardwareClock.SmoothedWithinGaps | crates/core/src/pipeline.rs:639-655 | a tick counter whose gaps lie in a range, over any number of wraps and readings, is smoothed to a value within that range over three, give or take two thirds of a microsecond |
| HardwareClock.ClockError | crates/core/src/pipeline.rs:639-655 | from an average A, after k further readings g microseconds apart, over any wraps of the low word, the average is off from g by exactly 0.9^k (A - g) |
| HardwareClock.ThreeReadings | crates/core/src/pipeline.rs:639-655 | a first difference of 4 ms and a second of 5 ms average to 4.1 ms |
| HardwareClock.ImplausibleGap | crates/core/src/pipeline.rs:645-646 | a gap of nothing, or of 100 000 microseconds or more, is remembered as a reading and leaves the average alone |
| TimestepDrivers.TimestepDriver.CalibrateRate | crates/core/src/pipeline.rs:881-953 | the early returns and field updates compute the value model's step |
| TimestepDrivers.TimestepDriver.HandleSamples | crates/core/src/pipeline.rs:630-665 | a batch of samples updates clock and rate fields as the value model says |
| SpiCalibration.FillAxisCoeffs | crates/device-joycon/src/spi_cal.rs:54-75 | the loop fills each axis independently |
| SpiCalibration.CoefficientIff | crates/device-joycon/src/spi_cal.rs:65-72 | the quotient is used exactly when the span is strictly between half and twice the nominal divisor, the nominal coefficient otherwise |
| SpiCalibration.ParsedIsPlausible | crates/device-joycon/src/spi_cal.rs:83-150 | exactly the blocks of at least 24 bytes parse, always to coefficients strictly within 0.5 to 2 times nominal and offsets within 2000 and 1000; implausible offsets give zeros and nominal coefficients |
| SpiCalibration.BlockRoundTrip | crates/device-joycon/src/spi_cal.rs:83-150 | offsets and sensitivities written in the 24-byte layout are read back: implausible offsets as zeros, never-programmed sensitivities as absent, whatever follows the block |
| SpiCalibration.BlockScales | crates/device-joycon/src/spi_cal.rs:54-139 | each axis of a plausible block is scaled by 4.0 (936.0) over its span exactly when a sensitivity was programmed and the span lies strictly between 8192 and 32768 (6685.5 and 26742), and by 4.0/16384 (936.0/13371) otherwise |
| SpiCalibration.ReplyRoundTrip | crates/device-joycon/src/report.rs:95-120 | an acknowledged flash read is recovered whatever stands in the header and after the data |
| SpiCalibration.ReplyAcceptedIff | crates/device-joycon/src/report.rs:95-120 | a report is taken for an acknowledged flash read if and only if it has at least 20 bytes, id 0x21, 0x90 at byte 13, 0x10 at byte 14 and the announced number of data bytes; its address is the four bytes from 15, low first |
| SpiReconciliation.OthersIgnored | crates/device-joycon/src/jc1.rs:302-350 | replies about any other address than the three asked for, and factory blocks too short to read, change nothing |
| SpiCalibration.MagicIs | crates/device-joycon/src/jc1.rs:325-330 | the override magic is B2 A1, the bytes of 0xA1B2 low first |
| SpiReconciliation.Reconciler.HandleReply | crates/device-joycon/src/jc1.rs:302-350 | one reply updates calibration, magic flag and waiting block as the value model says |
| SpiReconciliation.Reconciler.HandleReport | crates/device-joycon/src/jc1.rs:137-150 | a report that is not an acknowledged flash read leaves everything as it is |
| SpiReconciliation.NeverBoth | crates/device-joycon/src/jc1.rs:325-347 | over every sequence of replies a confirmed magic and a waiting override never stand side by side, and the calibration in force is plausible |
| SpiReconciliation.FactoryAlwaysAdopted | crates/device-joycon/src/jc1.rs:318-323 | so the factory guard is vacuous: every readable factory block is adopted, override in force or not |
| SpiReconciliation.FactoryFirst | crates/device-joycon/src/jc1.rs:302-350 | when the one factory reply comes first, any order of the rest ends on the last override block |
| SpiReconciliation.LastForceWins | crates/device-joycon/src/jc1.rs:302-350 | for every sequence of replies, absent magics and short blocks included, the reader ends on the block that came into force last, and on the initial calibration if none did; when a block comes into force is read off the replies before it |
| SpiReconciliation.ForceKeptIff | crates/device-joycon/src/jc1.rs:302-350 | a block once in force is the one read at the end if and only if nothing comes into force after it, when what comes after reads differently |
| SpiReconciliation.LateFactoryWins | crates/device-joycon/src/jc1.rs:318-323 | a concrete sequence in which a late factory reply displaces the override |
| Latency.WindowIsLast | crates/core/src/latency.rs:66-82 | after any run the two windows are exactly the last 256 intervals and the last 256 sends |
| Latency.IntervalIs | crates/core/src/latency.rs:66-82 | an interval is the time between two arrivals in whole microseconds, rounded down, as far as 32 bits hold it, and zero if the clock went back |
| Latency.SummaryOfMultisets | crates/core/src/latency.rs:84-118 | the snapshot depends only on the multisets in the windows |
| Latency.ElementOfRank | crates/core/src/latency.rs:128-134 | the k-th element of the sorted window is in the window, with more than k values at most it and at most k below it |
| Latency.PercentilesByRank | crates/core/src/latency.rs:84-134 | every percentile of the snapshot, of intervals and of sends, is the window value of its rank, counted without sorting; p50 is the upper median |
| Latency.SnapshotIsSound | crates/core/src/latency.rs:84-118 | p50, p95 and p99 are in order, and the drop estimate counts the values above twice p50 and is always less than half the window |
| Latency.LatencyTracker.RecordArrival | crates/core/src/latency.rs:66-74 | an arrival extends the interval window and returns the interval, if there was an earlier arrival |
| Latency.LatencyTracker.RecordSend | crates/core/src/latency.rs:76-82 | a send extends the send window only |
| Latency.NoJitterIff | crates/core/src/latency.rs:136-152 | the spread of the snapshot is never negative, and zero if and only if all intervals of the window are the same |
| Latency.VarianceOverPairs | crates/core/src/latency.rs:136-152 | n (n - 1) times the variance is the sum of the squared differences over all unordered pairs of intervals in the window |
| Latency.RankNearest | crates/core/src/latency.rs:128-134 | a rank is a nearest whole number to its share of the way to the last value |
| Latency.LatencyTracker.TakeSnapshot | crates/core/src/latency.rs:84-118 | the method computes the summary of the windows, zeros for an empty one |
| TeslaHeading.UnwrappedDelta | crates/device-tesla/src/imu.rs:90-99 | the two loops terminate with the shortest turn |
| TeslaHeading.ShortestTurnUnique | crates/device-tesla/src/imu.rs:87-99 | it is the only angle in (-180, 180] that differs by whole turns |
| TeslaHeading.ImuSynth.Ingest | crates/device-tesla/src/imu.rs:50-84 | incomplete frames change nothing; complete ones replace all three fields, and a sample comes out exactly when the gap is over 1 ms |
| TeslaHeading.RunAccounts | crates/device-tesla/src/imu.rs:50-84 | over any run, samples integrated back plus swallowed frames give the heading change modulo 360 and the speed change exactly |
| TeslaHeading.HeadingConserved | crates/device-tesla/src/imu.rs:50-84 | with complete frames more than 1 ms apart and incomplete ones anywhere between, nothing is missing |
| TeslaHeading.HeadingConservedIff | crates/device-tesla/src/imu.rs:67-72 | in general heading and speed are conserved if and only if the swallowed turns and gains cancel |
| TeslaHeading.CloseFramesLoseTurn | crates/device-tesla/src/imu.rs:67-72 | a concrete run that loses: two complete frames a millisecond apart with a quarter turn and a gain of speed between them |
| TeslaHeading.OnACircle | crates/device-tesla/src/imu.rs:67-84 | at constant speed v on a circle of radius r the sample shows no change of speed, the yaw rate v / r and the sideways acceleration v^2 / r |
| TeslaHeading.Units | crates/device-tesla/src/imu.rs:50-84 | miles, degrees and gravity in metres, radians and metres per second squared |

## Left out

- RateCalibration.TimestepFollowsRate: the filter behind `set_timestep` is a field assignment here; what VQF, Madgwick and BasicVqf do with it is not modelled.
- Latency.SnapshotIsSound: ranks use exact arithmetic, so a tie that single precision rounds the other way is not captured.
- Latency.LatencyTracker.TakeSnapshot: carries the variance of the intervals; the jitter of the program is its square root.
- PacketLoss.Conservation: the 64-bit totals are unbounded here and the log lines are not modelled.
- DualSenseOutput.OutputChannel.SetRumble: the amplitude is rounded from an exact real, with not-a-number as a case of its own; the HID write itself and its errors are outside.
- RemoteService.RumbleLiveDevice: the send itself, its errors and a poisoned lock are outside.
- DualSenseOutput.OutputChannel.WriteOutput: ends with the report built; the lock, the write on a blocking thread and their errors are outside.
- RemoteService.Serve: one arrival at a time; receive errors, which the loop skips, and the wait for a full registry channel are outside.
- AppStates.AppState.Evict: cancellation is taken to reach a task before it gets the lock.
- AppStates.AppState.RegisterDevice: the pipeline configuration, the handshake and the lazy SlimeVR connection built between the two critical sections are outside, and of the announcement only its order and its id are modelled.
- AppStates.AppState.Shutdown: the bounded wait for each task after its signal is outside.
- Registry.OneRegistrarKeepsMacsUnique: is about one supervisor; `restart_synthetic` starts a second one over the same state, and for that `RegistryMacs.UniqueIffNeverOvertaken` is the exact statement.
- TeslaHeading.RunAccounts: exact arithmetic; non-finite frame values are outside.
- IEEE rounding everywhere: coefficients, rates, averages and headings are exact reals.
- The reader loop of a remote device after its queue (event renaming, haptics-only endpoints) and `finish_mag_calibration`.
- Transports, threads, OAuth and REST, tray, updater, web view, TypeScript interface, OSC haptics, persistence: input and output without a claim to prove.
- Sensor fusion, axis remaps, magnetometer calibration, gravity autoscale, the logarithmic rumble frame: outside exact arithmetic or settled by reading one branch.
- 3DS, Vita and the HID enumeration loops: simpler copies of the remote hub's routing.
- Fixed-offset input parsers, LED maps beyond what the output reports need, device tables and settings strings.
