# Verified model of the Launa spa controller

The firmware connects a Balboa spa, over its RS-485 bus, to MQTT and updates itself over the
air. This project models its stateful parts and proves what they keep over every run, every
way data can be cut up, and every point at which the power can fail. Verify everything with
`dafny verify dfyconfig.toml`.

- **Updates** (`Flash`, `Otadata`, `OtaUpdater`, `OtaHeader`, `OtaSafety`, `EspOta`, `OtaRun`). NOR flash erases to 0xFF and
  programs by bitwise AND; a plan of operations may be cut between any two. The updater class
  and the boot-slot routines follow such plans on a chip that may refuse operations. The main
  theorem, `OtaSafety.LifetimeSafe`, covers whole lifetimes of calls, power cuts and reboots;
  `OtaRun.UpdateAndConfirm` drives the class through an undisturbed update, which goes through.
- **Checksums** (`Lfsr`, `Crc`). The three CRC loops are linear, invertible register machines; what they
  detect is proved once for every such machine and then for each polynomial.
- **Application logic** (`Protocol`, `CommandTracker`, `Timers`, `SpaModel`, `SpaSafety`, `SpaQueue`, `SpaRequests`,
  `SpaApp`, `SpaRun`). `Spa.Perform` is one step of the state machine of frames, requests, ticks and
  pump timers; the class `SpaApp` is proved to take exactly those steps, and the theorems speak of its runs
  (`SpaRun.RunFromBoot`). Queue entries carry ghost tickets that say what becomes of each.
- **MQTT** (`Mqtt`, `MqttBuffer`, `MqttPublish`, `MqttSession`, `MqttClient`, `MqttRun`): lengths, reassembly, the
  bounded receive buffer, the codec, the client's own parser and receive loop, and the way of a list
  of messages through a network that cuts it up anyhow.
- **Stored passwords** (`Encryption`), **configuration over the serial line** (`SerialConfig`,
  `SerialRun`), the **rate limiter** and the **log buffer**, each against an independent specification.

Classes have the fields of the structures they stand for. Each method is tied to a function on
values, and the theorems are about that function. Time is a parameter of every call that reads
the clock. The block cipher and the UTF-8 test are parameters too, so results hold for all of
them.

## What the proofs turned up

Where a stated or expected property is false of the code, the model keeps the code and the lemmas
named give failing inputs and the exact condition.

- `write` leaves the pending bytes out of its size test, so up to three bytes too many are accepted,
  and `finalize` then programs one word behind the partition; behind the first one lies the
  running firmware (`FlushInsideIff`, `OverrunAccepted`, `OverrunHitsRunning`).
- `begin` after a successful `finalize`, before the reboot, erases the partition that is already
  selected (`BeginKeepsSelectedIff`).
- Selecting the partition that is already selected, as `rollback_and_reboot` and a repairing
  `mark_valid` do, is not safe against a power cut in most states (`ReselectCutSafeIff`).
- On blank otadata, selecting the first partition ends up selecting the second (`SetBootSelects`,
  `BlankExceptionExample`).
- A first chunk refused for its size switches the header check off (`HeaderGap`); nothing else does
  (`HeaderStepIff`), and what any list of writes has accepted begins with the magic exactly if no
  chunk slips in behind such a refusal (`AcceptedImageIff`).
- A reconnection registers without passing on the channel: there is no client id, so a Ready for
  anybody is answered (`StepCoherentIff`, `ReconnectedAnswersAnybody`). It needs a previous channel,
  which nothing outside the tests sets; without one it never happens (`NoReconnection`). An
  assignment seen while registered is adopted without looking at its hash (`StepOwnChannelIff`).
- Passwords above 495 bytes cannot be read back, because the hex decoder stops at 1,024 characters
  (`PasswordRoundTrip`).
- A stream of MQTT packets can overfill the receive buffer, if the reads fall badly, exactly if a
  packet is longer than 1,537 bytes and exceeds 2,048 with all behind it (`OverfullIff`). Topics of
  65,536 bytes and more are truncated in their length field (`PublishRoundTrip`).
- The rate limiter lets through up to twice its limit within one window length (`PassedAtMostTwice`,
  `TwiceIsReached`): more than ten exactly if a window turns in the stretch and what passes before
  and behind the turn, told from the times alone, exceeds ten (`MoreThanLimitIff`, `PassedInStretch`).
- The queue's capacity of 32 is checked for requests over MQTT only. A status exceeds it exactly if it
  adds more than there is room for (`QueueFitsIff`), and no length bounds the queue over all runs
  (`QueueUnbounded`).
- The otadata layout in the comment of `crates/launa-esp-ota/src/lib.rs:15-20` is out of date; the model
  follows `crates/launa-esp-ota/src/flash.rs:6-17`.

`LifetimeSafe` asks of callers what they can check before each call (`OtaSafety.Careful`): begin only
while the running partition is selected, and finalize only an image that fits. Rewriting the running
slot is restricted only where the power fails during it: after the erase, or on blank otadata
(`OtaSafety.RewriteKeeps`). Sequence numbers must have room; they grow by at most two a call.

## Model

| member | source | states |
|---|---|---|
| `Lfsr.CollisionIffZeroSyndrome` | crates/launa-esp-ota/src/crypto.rs:8-49 | For every linear register machine and any two equal-length messages from the same start: the registers collide exactly if the difference of the messages drives the zero register back to zero. |
| `Lfsr.WindowDetected` | crates/launa-esp-ota/src/crypto.rs:8-49 | If a machine detects windows of n bytes, two messages that differ at most inside one window of n bytes share a register only if they are equal, wherever the window is. |
| `Lfsr.WordParallel` | crates/launa-esp-ota/src/crypto.rs:8-49 | Up to four bytes from the zero register leave the same register fed byte by byte as XORed in as one word first and shifted through afterwards. |
| `CrcMpeg.Crc32Update` | crates/launa-esp-ota/src/crypto.rs:8-21 | The nested byte and bit loops compute the register function that the theorems below are about. |
| `CrcMpeg.ChunksLeaveNoTrace` | crates/launa-esp-ota/src/crypto.rs:8-26 | Updating with two chunks in turn equals one update with their concatenation, so a running CRC does not see how data was cut. |
| `CrcMpeg.BurstDetected` | crates/launa-esp-ota/src/crypto.rs:8-26 | Two images of equal length that differ at most within four consecutive bytes have the same CRC-32 exactly if they are equal. |
| `CrcMpeg.UndetectedIffZeroSyndrome` | crates/launa-esp-ota/src/crypto.rs:8-26 | Two images of equal length share a CRC-32 exactly if their bytewise difference has register zero from register zero. |
| `CrcOta.ComputeCrc32Ota` | crates/launa-esp-ota/src/crypto.rs:36-49 | The reflected loop with its final complement computes the otadata CRC function. |
| `CrcOta.SequenceCheckInjective` | crates/launa-esp-ota/src/crypto.rs:36-49 | On 4-byte sequence numbers the otadata CRC is injective. |
| `Crc8.ComputeFrameCheck` | crates/launa-protocol/src/crc8.rs:9-22 | The frame-check loop computes the CRC-8 function. |
| `Crc8.ByteErrorDetected` | crates/launa-protocol/src/crc8.rs:9-22 | Two frames of equal length that differ in one byte never share a CRC-8. |
| `Flash.ProgramErased` | crates/launa-esp-ota/src/flash.rs:118-143 | Programming is a bitwise AND; on erased cells it stores exactly the data. |
| `Flash.RunPrefix` | crates/launa-esp-ota/src/flash.rs:220-242 | A power cut inside two consecutive plans is a cut inside the first, or all of the first and a cut inside the second. |
| `Flash.RunWithin` | crates/launa-esp-ota/src/flash.rs:94-143 | Any list of operations confined to a range leaves every cell outside the range alone. |
| `Flash.FollowsConcat` | crates/launa-esp-ota/src/flash.rs:220-323 | A routine that completed one plan and then followed another, failing or not, followed their concatenation. |
| `Otadata.NextSeq` | crates/launa-esp-ota/src/flash.rs:275-285 | The chosen number is the least one above the maximum that selects the partition, and at most two above. |
| `Otadata.EntryRoundTrip` | crates/launa-esp-ota/src/flash.rs:160-217 | A built entry validates and gives its number back exactly unless the number is 0xFFFFFFFF. |
| `Otadata.AlteredSeqRejected` | crates/launa-esp-ota/src/flash.rs:160-168 | Two valid entries that differ at most in their sequence bytes are equal: an altered number alone never validates. |
| `Otadata.ReadSlots` | crates/launa-esp-ota/src/flash.rs:182-208 | A successful read reports exactly the validity and number of both slots; it fails only if the chip does. |
| `Otadata.DetectRunning` | crates/launa-esp-ota/src/flash.rs:340-355 | Detection answers the partition selected by the larger valid number, the first one if there is none. |
| `Otadata.WriteSlot` | crates/launa-esp-ota/src/flash.rs:220-242 | The slot write carries out a prefix of erase-then-program, all of it on success. |
| `Otadata.SlotErased` | crates/launa-esp-ota/src/flash.rs:231-235 | Between erase and program the slot is invalid, the other slot is untouched and so is everything outside otadata. |
| `Otadata.SlotRewritten` | crates/launa-esp-ota/src/flash.rs:220-242 | After both operations the slot holds the entry and every other byte, the sector tail and the other slot included, is unchanged. |
| `Otadata.SearchNext` | crates/launa-esp-ota/src/flash.rs:275-285 | The upward search loop finds that least number. |
| `Otadata.SearchSeed` | crates/launa-esp-ota/src/flash.rs:301-317 | The downward search loop finds the greatest number below the new one that selects the other partition, or its starting number if there is none. |
| `Otadata.SetBootPartition` | crates/launa-esp-ota/src/flash.rs:259-323 | On any chip, failing or not, what is done to flash is a prefix of the planned operations, and all of them on success. |
| `Otadata.SetBootCut` | crates/launa-esp-ota/src/flash.rs:259-323 | After any number k of the planned operations both slots are as the small two-slot table says. |
| `Otadata.SetBootSelects` | crates/launa-esp-ota/src/flash.rs:259-355 | Afterwards both slots are valid, the maximum has grown by one or two, and detection answers the partition exactly if some number was valid and nonzero before, or the partition is the second, or the second slot was valid. |
| `Otadata.SetBootFrame` | crates/launa-esp-ota/src/flash.rs:220-323 | Every byte outside the two 32-byte entries is unchanged. |
| `Otadata.SetBootWellFormed` | crates/launa-esp-ota/src/flash.rs:259-323 | At every cut each valid slot still carries a nonzero number that selects its own partition. |
| `Otadata.SwitchCutSafe` | crates/launa-esp-ota/src/flash.rs:259-323 | Switching to the partition not selected: a cut before the second operation leaves the old selection, any later one has the new. |
| `Otadata.ReselectCut` | crates/launa-esp-ota/src/flash.rs:259-323 | Re-selecting the selected partition: it is still selected after k operations exactly unless k is one and it is the second partition or the second slot is valid, or k is four and no number was in use. |
| `Otadata.ReselectCutSafeIff` | crates/launa-esp-ota/src/flash.rs:259-323 | Re-selecting the selected partition keeps it selected at every cut and at the end exactly if it is the first, the second slot is invalid and some number was in use, although both slots are kept so that one bad sector does no harm. |
| `Otadata.BlankExceptionExample` | crates/launa-esp-ota/src/flash.rs:301-304 | On blank otadata, selecting the first partition makes detection answer the second. |
| `OtaUpdater.BeginStreams` | crates/launa-esp-ota/src/ota.rs:99-121 | After `begin` the target is erased and streams the empty image; no operation leaves the target. |
| `OtaUpdater.ProgramExtends` | crates/launa-esp-ota/src/ota.rs:173-187 | Programming behind what a region holds meets erased cells only and extends what it holds by the data. |
| `OtaUpdater.WriteStreams` | crates/launa-esp-ota/src/ota.rs:123-209 | An accepted chunk extends the streamed image: offset plus pending is the length, whole words are in flash, the CRC is the image's; only erased cells inside the target are programmed. |
| `OtaUpdater.WriteRejects` | crates/launa-esp-ota/src/ota.rs:123-154 | A chunk that is not accepted fails, touches no flash and changes nothing but the header flag. |
| `OtaUpdater.FlushCompletes` | crates/launa-esp-ota/src/ota.rs:222-234 | If the image fits, flushing leaves exactly the image followed by 0xFF, inside the target and on erased cells. |
| `OtaUpdater.AnyChunking` | crates/launa-esp-ota/src/ota.rs:123-209 | However an image of legal size and header is cut, empty chunks included, every write succeeds and the streamed image is the concatenation. |
| `OtaUpdater.WritesOnceEach` | crates/launa-esp-ota/src/ota.rs:173-187 | For every list of chunks, those that come after a rejected one included, the programmed ranges are whole words one behind the other: none is programmed twice. |
| `OtaUpdater.ImageSession` | crates/launa-esp-ota/src/ota.rs:99-234 | A whole session: all calls succeed, the target is the image followed by 0xFF, the running CRC is the one-shot CRC, and since the erase no word was programmed twice. |
| `OtaSafety.CallSafe` | crates/launa-esp-ota/src/ota.rs:99-341 | Any call a careful caller makes, cut after any number of operations, leaves the running partition's bytes unchanged and the selected partition either the running one or one holding the complete image. |
| `OtaSafety.CallDone` | crates/launa-esp-ota/src/ota.rs:99-341 | Any call a careful caller makes, carried out to its end, leaves flash and updater safe for the next one; a completed repair or rollback asks no care unless otadata is blank. |
| `OtaSafety.CallGrowth` | crates/launa-esp-ota/src/flash.rs:259-323 | No call, complete or cut, raises the maximum number by more than two. |
| `OtaSafety.RunSafe` | crates/launa-esp-ota/src/ota.rs:99-341 | Over every run of calls, cuts and reboots from a safe state, flash and updater stay safe, the flash well-formed, and the selected partition holds known good contents or an image completed on the way. |
| `OtaSafety.SessionSafe` | crates/launa-esp-ota/src/ota.rs:99-341 | Over every run of calls without a power cut the running partition stays the same, keeps all its bytes, and the world stays safe. |
| `OtaSafety.RunningKeptAt` | crates/launa-esp-ota/src/ota.rs:99-341 | At every event of every run from a boot, cut off or not, the partition it runs from keeps all its bytes; after a cut the device runs from what is then selected. |
| `OtaSafety.LifetimeSafe` | crates/launa-esp-ota/src/ota.rs:99-341 | From any well-formed flash, over every sequence of careful calls with power cuts and reboots in between: the selected partition holds what was selected at the start or an image that was streamed in full and for which `finalize` was called; no event changes a byte of the partition it runs from; since the last boot the running partition is the one then selected, unchanged, and the selected contents are its own or those of an image completed since; if no chunk was longer than a partition, every completed image begins with the magic. |
| `OtaSafety.RunTold` | crates/launa-esp-ota/src/ota.rs:132-154 | The header clause of that theorem from any safe state: over every run of calls and cuts with short chunks only, every image completed begins with the magic. |
| `OtaSafety.UpdateTakesEffect` | crates/launa-esp-ota/src/ota.rs:99-249 | From any well-formed flash, an update of a legal image in any chunks goes through: the other partition is then selected and holds exactly the image, and the partition it ran from is as it was. |
| `OtaSafety.BeginKeepsSelectedIff` | crates/launa-esp-ota/src/ota.rs:99-121 | `begin` keeps the contents of the selected partition exactly if that is the running one or it was blank: after `finalize` and before a reboot it erases the new image. |
| `OtaSafety.FlushInsideIff` | crates/launa-esp-ota/src/ota.rs:144-154 | The accepted total exceeds the partition by at most three bytes, and the flush stays inside exactly if it does not exceed it. |
| `OtaSafety.OverrunAccepted` | crates/launa-esp-ota/src/ota.rs:144-154 | The size test leaves the pending bytes out: four bytes on top of size minus one are accepted. |
| `OtaSafety.OverrunHitsRunning` | crates/launa-esp-ota/src/ota.rs:222-234 | An overrun of the first partition programs the first word of the second; the running image there survives exactly if those bits were already clear. |
| `OtaHeader.HeaderGap` | crates/launa-esp-ota/src/ota.rs:132-154 | A chunk refused for its size still passes for the header: a later chunk without the magic is accepted. |
| `OtaHeader.HeaderStepIff` | crates/launa-esp-ota/src/ota.rs:132-154 | A write keeps it true that the header flag tells of a begun image and that this begins with the magic, exactly unless it is a first chunk that begins with the magic and is longer than the partition. |
| `OtaHeader.AcceptedImageIff` | crates/launa-esp-ota/src/ota.rs:123-209 | Over every list of writes, rejected ones included, what was accepted is empty or begins with the magic exactly if no chunk without the magic fits in behind one refused for its size before any that fits and has the magic. |
| `OtaHeader.ShortChunksChecked` | crates/launa-esp-ota/src/ota.rs:123-209 | With no chunk longer than the partition, what any list of writes has accepted is empty or begins with the magic. |
| `OtaSafety.MarkValidSettles` | crates/launa-esp-ota/src/ota.rs:251-334 | After `mark_valid` nothing needs validation or repair, so a second call does nothing, and if the running partition was selected it still is. |
| `EspOta.EspOtaFlash.constructor` | crates/launa-esp-ota/src/ota.rs:48-66 | A new updater targets the other partition, is idle and has a buffer of its own. |
| `EspOta.EspOtaFlash.EraseRange` | crates/launa-esp-ota/src/flash.rs:94-115 | Erases the target sector by sector; what was done is a prefix of that plan, all of it on success. |
| `EspOta.EspOtaFlash.Begin` | crates/launa-esp-ota/src/ota.rs:99-121 | The method has the state, operations and result of the specified call; a failing chip leaves a prefix and the updater unchanged. |
| `EspOta.EspOtaFlash.AlignedWrite` | crates/launa-esp-ota/src/flash.rs:118-143 | Programs the data padded with 0xFF to whole words, at the target's offset, or nothing. |
| `EspOta.EspOtaFlash.StoreWords` | crates/launa-esp-ota/src/ota.rs:159-196 | Whole words of pending plus chunk go to flash, the offset advances by them and the rest becomes the pending bytes. |
| `EspOta.EspOtaFlash.Write` | crates/launa-esp-ota/src/ota.rs:123-209 | The method has the state, operations and result of the specified call, every rejection included; after a flash fault nothing was programmed, the chunk is in the CRC already and the pending bytes are lost. |
| `EspOta.EspOtaFlash.FlushPending` | crates/launa-esp-ota/src/ota.rs:222-234 | Programs the padded pending bytes and empties the buffer, or changes nothing on a fault. |
| `EspOta.EspOtaFlash.Finalize` | crates/launa-esp-ota/src/ota.rs:211-249 | The method has the state, operations and result of the specified call; on a fault flash has a prefix of flush-then-switch, the update is still in progress, and nothing is pending any more exactly if an operation was carried out. The updater can be called again afterwards, `begin` included. |
| `EspOta.EspOtaFlash.MarkValid` | crates/launa-esp-ota/src/ota.rs:251-295 | Repairs exactly when the specification says so, with those operations or a prefix of them. |
| `EspOta.EspOtaFlash.NeedsValidationNow` | crates/launa-esp-ota/src/ota.rs:297-334 | Answers the specified predicate on a chip that can be read, and never misses a needed validation. |
| `EspOta.EspOtaFlash.RollbackAndReboot` | crates/launa-esp-ota/src/ota.rs:336-341 | Follows the operations that select the running partition. |
| `EspOta.EspOtaFlash.VerifyHash` | crates/launa-esp-ota/src/ota.rs:343-356 | Succeeds exactly if the expected value is the one-shot CRC of all accepted bytes. |
| `OtaRun.Install` | crates/launa-esp-ota/src/ota.rs:99-249 | Begin, write in any chunks and finalize on a chip that does not fail: all succeed, the other partition is selected and holds exactly the image, and the one that ran is unchanged. |
| `OtaRun.UpdateAndConfirm` | crates/launa-esp-ota/src/ota.rs:99-295 | The same, then a reboot and `mark_valid`: the image stays selected, nothing is left to validate, and the old partition is still there. |
| `Tracking.Position` | crates/launa-core/src/command_tracker.rs:127 | The first pending entry with the expectation, if there is one. |
| `Tracking.SurvivorsDistinct` | crates/launa-core/src/command_tracker.rs:145-188 | A verification keeps expectations pairwise distinct and retries at most two. |
| `Tracking.SurvivorsConserve` | crates/launa-core/src/command_tracker.rs:145-188 | Every entry survives, is confirmed or expires, and retries counted are accounted for by survivors and removed entries. |
| `Tracking.RunKeeps` | crates/launa-core/src/command_tracker.rs:123-188 | Over every run since a reset: pushed = confirmed + expired + pending, at most eight pending with distinct expectations, retries at most two each and at most twice the pushed entries in all. |
| `Tracking.CommandTracker.Track` | crates/launa-core/src/command_tracker.rs:123-143 | Updates the entry with the same expectation, drops at eight, else appends. |
| `Tracking.CommandTracker.Collect` | crates/launa-core/src/command_tracker.rs:150-164 | The downward loop collects exactly the indices of confirmed or expired and of retried entries, in descending order. |
| `Tracking.CommandTracker.Resend` | crates/launa-core/src/command_tracker.rs:166-172 | Counts exactly the collected retries in place and returns their commands, last entry first. |
| `Tracking.CommandTracker.Remove` | crates/launa-core/src/command_tracker.rs:176-180 | Sorting the indices and removing from the highest leaves exactly the order-preserving filter of the entries. |
| `Tracking.CommandTracker.Verify` | crates/launa-core/src/command_tracker.rs:145-188 | The three loops together are one order-preserving filter and map, with its counters and retried commands. |
| `Timers.PumpStillRunning` | crates/launa-core/src/timers.rs:43-56 | A started pump timer still runs exactly if every observation so far was on and before the deadline. |
| `Timers.PumpFiresIff` | crates/launa-core/src/timers.rs:43-56 | It fires at an observation exactly if all observations since the start were on and this is the first at or past the deadline; so at most once per start. |
| `Timers.PumpTimerManager.TickAll` | crates/launa-core/src/timers.rs:97-105 | Ticks all six timers and returns the toggles of those that fire, in order. |
| `Timers.PumpTimerManager.StartTimer` | crates/launa-core/src/timers.rs:107-113 | Starts the timer of pump 1 to 6 and returns its toggle; any other index does nothing. |
| `Timers.PumpTimerManager.CancelAll` | crates/launa-core/src/timers.rs:116-120 | Stops all six timers. |
| `Timers.HoldFiresIff` | crates/launa-core/src/timers.rs:154-174 | Over every trace it fires exactly at the first observation of a hold stretch that lies at least the timeout after the stretch was first observed. |
| `Timers.HoldFiresOncePerStretch` | crates/launa-core/src/timers.rs:154-174 | Between two firings hold mode was observed released. |
| `Timers.HoldModeTimer.Tick` | crates/launa-core/src/timers.rs:154-174 | The method changes the timer and fires as specified. |
| `Spa.Find` | crates/launa-core/src/spa_app.rs:511-560 | The first queued command that matches, or none. |
| `SpaSafety.SentInOrder` | crates/launa-core/src/spa_app.rs:453-458 | Over every run, queued commands are sent in strictly increasing ticket order: none twice, none overtaking an older one, and whatever is queued is younger than all that was sent. |
| `SpaSafety.SentOnlyOnReady` | crates/launa-core/src/spa_app.rs:442-464 | A queued command is sent exactly on a Ready the application may answer, as the only command of that step; other frames send nothing and an empty queue sends nothing-to-send. |
| `SpaSafety.ForeignReadyIgnored` | crates/launa-core/src/spa_app.rs:445-452 | Exactly when a registered application's Ready changes nothing: on a foreign channel, or without client id and queue when the time was already noted. |
| `SpaSafety.SentOnGrantedChannel` | crates/launa-core/src/spa_app.rs:442-479 | In every run from a boot, up to the first reconnection or foreign assignment, whatever is taken from the queue is its first entry and answers a Ready on the very channel registration was granted. |
| `SpaSafety.NoReconnection` | crates/launa-core/src/spa_app.rs:340-388 | Booted without a previous channel, a run meets no reconnection, so only foreign assignments end that guarantee. |
| `SpaSafety.TickCommands` | crates/launa-core/src/spa_app.rs:580-713 | A tick sends at most the stale probe, and only with a client id left. |
| `SpaSafety.MqttQueueBounded` | crates/launa-core/src/spa_app.rs:507-574 | Over every run at most 32 commands from MQTT are queued, whatever retries and timers add. |
| `SpaQueue.QueueFitsIff` | crates/launa-core/src/spa_app.rs:401-458 | From at most 32 entries, an event leaves at most 32 exactly unless it is a status to a registered application whose retries, expired pump timers and hold release exceed the room left. |
| `SpaQueue.QueueUnbounded` | crates/launa-core/src/spa_app.rs:401-440 | For every n there is a run from boot that leaves n entries queued: pump timers started and run off in turn with no Ready in between. |
| `SpaSafety.StepCoherentIff` | crates/launa-core/src/spa_app.rs:340-388 | Registered and having a client id go together after every event except the answer to a reconnection. |
| `SpaSafety.ReconnectedAnswersAnybody` | crates/launa-core/src/spa_app.rs:442-464 | After a reconnection there is no client id, and a Ready on any channel is answered with the first queued command. |
| `SpaSafety.StepOwnChannelIff` | crates/launa-core/src/spa_app.rs:472-479 | The client id stays the granted channel exactly until a reconnection or an assignment naming another channel, which is adopted whoever it is for. |
| `SpaSafety.RunCoherent` | crates/launa-core/src/spa_app.rs:307-395 | In every run from a start without previous channel, registered and having a client id go together. |
| `SpaSafety.UnregisteredIsSilent` | crates/launa-core/src/spa_app.rs:312-395 | While unregistered a frame gets at most one answer, which is an acknowledgement or the answer to a reconnection, takes nothing from the queue and leaves queue, tracker and timers alone; no tick puts a frame on the bus. |
| `SpaSafety.TickGivesUpIff` | crates/launa-core/src/spa_app.rs:619-691 | A tick unregisters exactly on lost CTS or staleness, and then queue, tracker and timers are empty; otherwise it leaves them alone. |
| `SpaSafety.LossesMatchRecoveries` | crates/launa-core/src/spa_app.rs:423-440 | Over every run, alerts for a lost spa minus recoveries is one if the spa is lost and zero otherwise. |
| `SpaSafety.TrackerInApp` | crates/launa-core/src/spa_app.rs:406-458 | In every run the tracker obeys its conservation law and bounds since it was last given up. |
| `SpaRequests.FindIffCounted` | crates/launa-core/src/spa_app.rs:551-560 | Searching the queue finds an entry exactly when one is counted. |
| `SpaRequests.RequestedToggles` | crates/launa-core/src/spa_app.rs:544-564 | A request that drops nothing flips the parity of its own toggle in the queue and leaves every other toggle alone. |
| `SpaRequests.RequestedTemperature` | crates/launa-core/src/spa_app.rs:508-517 | A request that drops nothing leaves at most one temperature queued, the last requested. |
| `SpaRequests.RapidRequests` | crates/launa-core/src/spa_app.rs:507-574 | For every sequence of requests without a drop: each item is queued (presses mod 2) times, and at most one temperature, the last requested. |
| `SpaApplication.SpaApp.constructor` | crates/launa-core/src/spa_app.rs:107-157 | A new application is in the boot state and has a tracker and timers of its own. |
| `SpaApplication.SpaApp.OnMqttCommand` | crates/launa-core/src/spa_app.rs:507-574 | The method changes queue and counters as the specified request does, drops included. |
| `SpaApplication.SpaApp.HandleRegistration` | crates/launa-core/src/spa_app.rs:312-395 | While unregistered: new link state and frames are the specified handshake step. |
| `SpaApplication.SpaApp.HandleStatus` | crates/launa-core/src/spa_app.rs:401-441 | A status confirms, retries, ticks timers and publishes as specified. |
| `SpaApplication.SpaApp.HandleReady` | crates/launa-core/src/spa_app.rs:442-464 | A Ready sends, tracks or ignores as specified. |
| `SpaApplication.SpaApp.ProcessFrame` | crates/launa-core/src/spa_app.rs:307-504 | The method has exactly the new state, actions and sent entry of the specified step. |
| `SpaApplication.SpaApp.ResetRegistrationState` | crates/launa-core/src/spa_app.rs:251-263 | Unregisters and empties queue, tracker and timers. |
| `SpaApplication.SpaApp.CheckRegistration` | crates/launa-core/src/spa_app.rs:584-617 | Timeouts and the missing-query alert as specified. |
| `SpaApplication.SpaApp.CheckCts` | crates/launa-core/src/spa_app.rs:619-649 | Resets everything exactly when CTS is lost. |
| `SpaApplication.SpaApp.CheckStale` | crates/launa-core/src/spa_app.rs:651-691 | Probes, and on staleness resets everything and publishes, as specified. |
| `SpaApplication.SpaApp.Tick` | crates/launa-core/src/spa_app.rs:580-713 | The method has exactly the new state and actions of the specified step. |
| `SpaApplication.SpaApp.StartPumpTimer` | crates/launa-core/src/spa_app.rs:296-304 | Starts the timer and sends its toggle at once. |
| `SpaRun.RunFromBoot` | crates/launa-core/src/spa_app.rs:107-713 | The class, booted and driven through any events in order, ends in the state and has taken the actions of the specified run; so losses and recoveries balance and at most 32 commands from MQTT are queued. |
| `Mqtt.EncodeRemainingLength` | crates/launa-mqtt/src/mqtt_codec.rs:19-31 | The loop appends exactly the base-128 form of the length, least digit first. |
| `Mqtt.DecodeRemainingLength` | crates/launa-mqtt/src/packet.rs:21-44 | The loop over multiplier and value computes the base-128 value of the length bytes, or nothing if they do not end within five bytes or within the buffer. |
| `Mqtt.LengthRoundTrip` | crates/launa-mqtt/src/packet.rs:21-44 | An encoded length followed by anything decodes to itself exactly below 2^35, which covers every length of section 2.2.3 of MQTT 3.1.1; longer ones decode to nothing. |
| `Mqtt.FourBytesAreStandard` | crates/launa-mqtt/src/packet.rs:21-44 | A length that ends within four bytes is at most 268,435,455, so it fits 32-bit words too. |
| `Mqtt.DecodeStable` | crates/launa-mqtt/src/packet.rs:21-44 | A decoded header does not change when more bytes arrive. |
| `Mqtt.ExtractConserves` | crates/launa-mqtt/src/packet.rs:51-63 | The packets joined with the residue are the input, and no packet is left in the residue. |
| `Mqtt.ExtractLater` | crates/launa-mqtt/src/packet.rs:51-63 | Extracting before more bytes arrive gives the same packets and residue as extracting after. |
| `Mqtt.ReassemblyIndependent` | crates/launa-mqtt/src/packet.rs:51-63 | For any stream and any cut into reads, packets and residue are those of the whole stream. |
| `Mqtt.RxBuffer.TryExtractPacket` | crates/launa-mqtt/src/packet.rs:51-63 | Drains exactly the first complete packet, or leaves the buffer alone. |
| `Mqtt.RxBuffer.ExtractPackets` | crates/launa-mqtt/src/packet.rs:51-63 | Repeated extraction returns all complete packets and leaves the residue. |
| `MqttPublish.EncodePublish` | crates/launa-mqtt/src/mqtt_codec.rs:146-179 | Rejects QoS above 1 and a missing packet id, else appends exactly the packet. |
| `MqttPublish.BodyRoundTrip` | crates/launa-mqtt/src/mqtt_codec.rs:260-291 | A body parses back to its message exactly if the topic's length fits 16 bits; the length field of a longer topic is truncated. |
| `MqttPublish.PublishRoundTrip` | crates/launa-mqtt/src/mqtt_codec.rs:146-292 | Encoding then parsing gives the message back exactly if the topic is below 65,536 bytes and the remaining length below 2^35. |
| `MqttPublish.PacketComplete` | crates/launa-mqtt/src/mqtt_codec.rs:146-179 | An encoded message is one whole packet of a stream. |
| `MqttPublish.ReadPublish` | app/src/mqtt_client.rs:718-760 | The client's parser with its moving index computes the specified parse, every short or malformed packet included. |
| `MqttPublish.ParsersAgree` | app/src/mqtt_client.rs:718-760 | On packets of their announced length the client's parser returns what the codec's accepts and fails where that reports a short packet; where the topic is not UTF-8 it returns the message with payload and id as they are and an empty topic, exactly if the packet is long enough. |
| `Mqtt.ExtractJoined` | crates/launa-mqtt/src/packet.rs:51-63 | Whole packets joined up come apart as they were. |
| `MqttClient.MessagesSurviveSegmentation` | app/src/mqtt_client.rs:618-760 | Any list of messages that fit, encoded, joined and cut into reads in any way, arrives as the same topics, payloads and ids in order, acknowledged once each if it has an id, with nothing left over. |
| `MqttBuffer.ResidueWaits` | app/src/mqtt_client.rs:669-681 | At any moment of a stream of whole packets, what waits in the buffer is a proper part of one packet, and it and the bytes to come are that packet and all behind it. |
| `MqttBuffer.NeverOverfull` | app/src/mqtt_client.rs:669-681 | A stream without a packet that is longer than 1,537 bytes and exceeds 2,048 bytes with all that follows it arrives complete, however it is cut into reads of at most 512 bytes. |
| `MqttBuffer.OverfullIff` | app/src/mqtt_client.rs:675-679 | Some cut of a stream of whole packets into reads of at most 512 bytes overfills the 2,048-byte buffer exactly if some packet is longer than 1,537 bytes and exceeds 2,048 bytes together with all behind it. |
| `MqttClient.Client.Feed` | app/src/mqtt_client.rs:669-681 | Stores a read, or clears the buffer and fails if it would hold more than 2,048 bytes. |
| `MqttClient.Client.ProcessPublish` | app/src/mqtt_client.rs:718-760 | Returns the message and sends the acknowledgement as specified, or ends the connection. |
| `MqttClient.Client.ProcessPackets` | app/src/mqtt_client.rs:711-790 | Every packet type comes to its outcome and answer. |
| `MqttClient.Client.Recv` | app/src/mqtt_client.rs:618-645 | Hands over the next message or the end of the connection, answering silently handled packets on the way, or says that a read is needed; what is buffered behind that is left as it was. |
| `MqttSession.HandleNext` | app/src/mqtt_client.rs:618-645 | Handling all packets comes to handling them up to the next message and then the rest: the same messages, answers and end of connection. |
| `MqttClient.Client.RecvAll` | app/src/mqtt_client.rs:618-645 | Asking until a read is needed or the connection ends yields the messages, answers and end of connection of all buffered packets in order, and leaves only the residue. |
| `MqttRun.Deliver` | app/src/mqtt_client.rs:618-760 | The class, fed a list of messages that fit, none too long for the buffer, in reads of at most 512 bytes cut in any way, hands over exactly these messages, sends exactly their acknowledgements, and keeps nothing. |
| `Encryption.IncrementCounter` | app/src/crypto.rs:85-92 | The in-place loop with its early exit computes the carried increment. |
| `Encryption.IncrementAddsOne` | app/src/crypto.rs:85-92 | The increment adds one to the big-endian value, modulo 256 to the number of bytes. |
| `Encryption.CounterValue` | app/src/crypto.rs:97-106 | The counter of block k is start plus k, modulo the range. |
| `Encryption.CountersDistinct` | app/src/crypto.rs:97-106 | No two blocks less than 2^128 apart share a counter. |
| `Encryption.CounterLayout` | app/src/crypto.rs:121-123 | For 2^32 blocks the nonce stays in front and the big-endian block number stands behind it. |
| `Encryption.NoncesKeepApart` | app/src/crypto.rs:121-123 | Messages under different nonces of less than 2^32 blocks share no counter. |
| `Encryption.CtrInvolution` | app/src/crypto.rs:97-106 | For every block cipher, applying counter mode twice gives the input back. |
| `Encryption.CtrAt` | app/src/crypto.rs:97-106 | Every byte of a whole block is combined with the keystream byte of its own block's counter. |
| `Encryption.CtrCrypt` | app/src/crypto.rs:97-106 | The in-place loop over blocks computes counter mode. |
| `Encryption.PadRoundTrip` | app/src/crypto.rs:124-132 | Unpadding undoes padding. |
| `Encryption.HexRoundTrip` | crates/launa-protocol/src/hex.rs:15-58 | Hex decodes to the bytes exactly up to 1,024 characters, to nothing above. |
| `Encryption.HexString` | crates/launa-protocol/src/hex.rs:15-22 | The loop produces the lowercase hex digits. |
| `Encryption.PasswordRoundTrip` | app/src/crypto.rs:113-229 | For every nonce and block cipher, a stored password decrypts to itself exactly up to 495 bytes; a longer one comes back as the stored text. |
| `Encryption.EncryptString` | app/src/crypto.rs:113-146 | The method produces the specified text. |
| `Encryption.TruncatePadding` | app/src/crypto.rs:209-220 | Takes off padding only where all of it is right. |
| `Encryption.MaybeDecryptString` | app/src/crypto.rs:152-229 | The method decrypts or passes through as specified, for every malformed value too. |
| `SerialConfig.KeyOf` | app/src/serial_config.rs:82-107 | Every printed key names its own field. |
| `SerialConfig.PortRoundTrip` | app/src/serial_config.rs:87-90 | A printed port parses to itself. |
| `SerialConfig.FindEquals` | app/src/serial_config.rs:62 | The position found is that of the first equals sign. |
| `SerialConfig.PollLater` | app/src/serial_config.rs:41-76 | A poll on more bytes is the poll on fewer, continued. |
| `SerialConfig.PollsReportOnce` | app/src/serial_config.rs:41-76 | A transmission that one poll would report is reported exactly once however it is spread over polls. |
| `SerialConfig.SentIsPayload` | xtask/src/config_flash.rs:105-112 | Sending line by line leaves the payload as it is, however long its lines are, if no value holds a line break. |
| `SerialConfig.PairsMakeConfig` | app/src/serial_config.rs:79-108 | The printed pairs over the defaults make the configuration, omitted credentials included. |
| `SerialConfig.OnlyPlainReceived` | app/src/serial_config.rs:41-122 | Over every byte stream, a received configuration has no line breaks and no line above 256 bytes. |
| `SerialConfig.ConfigRoundTrip` | xtask/src/config_flash.rs:56-112 | What the tool sends is received as that configuration exactly if no value holds a line break and no line exceeds 256 bytes; then it is received once, with nothing left over, however the bytes are spread over polls. |
| `SerialConfig.BuildPayload` | xtask/src/config_flash.rs:56-69 | The pushes build exactly the printed lines. |
| `SerialConfig.SendLines` | xtask/src/config_flash.rs:105-112 | The loop over lines sends each with one CR LF. |
| `SerialConfig.SendConfig` | xtask/src/config_flash.rs:56-112 | What the tool sends for a configuration is its printed payload line by line. |
| `SerialConfig.SerialConfigReceiver.Poll` | app/src/serial_config.rs:41-76 | The byte loop has the new state, report, response and unread rest of the specified poll. |
| `SerialConfig.SerialConfigReceiver.ParseAndRespond` | app/src/serial_config.rs:79-122 | Applies the pairs in order, refuses a bad port, answers, and resets in both cases. |
| `SerialConfig.SerialConfigReceiver.Reset` | app/src/serial_config.rs:124-128 | Back to the fresh state. |
| `SerialRun.PollsArePlain` | app/src/serial_config.rs:41-122 | However often the receiver is polled, every configuration that comes out is free of line breaks and lines above 256 bytes. |
| `SerialRun.Transfer` | app/src/serial_config.rs:41-122 | From the tool to a new receiver, the bytes arriving in pieces of any sizes: the configuration comes out exactly if it is plain, and then it is all that comes out, is acknowledged once and leaves nothing over. |
| `RateLimiting.RateLimiter.Check` | crates/launa-core/src/rate_limiter.rs:50-59 | The method has the specified new counters and verdict. |
| `RateLimiting.CounterIsWindow` | crates/launa-core/src/rate_limiter.rs:50-59 | The counters are the number of commands in the current window and its start, as told from the times alone. |
| `RateLimiting.AllowedIff` | crates/launa-core/src/rate_limiter.rs:50-59 | A command passes exactly if it is among the first ten of its window. |
| `RateLimiting.DroppedOnlyWhenFull` | crates/launa-core/src/rate_limiter.rs:50-59 | A command is dropped only if ten of the same window passed before it and the window started less than 10,000 ms ago. |
| `RateLimiting.PassedAtMostTwice` | crates/launa-core/src/rate_limiter.rs:50-59 | For nondecreasing times, at most 20 commands pass in any half-open 10,000 ms. |
| `RateLimiting.PassedIsShare` | crates/launa-core/src/rate_limiter.rs:50-59 | From any state and for any nondecreasing times from the start of a stretch of 10,000 ms on: what passes in it is what the quota leaves of the commands before the current window turns, plus up to ten of the others, counted without running the limiter. |
| `RateLimiting.PassedInStretch` | crates/launa-core/src/rate_limiter.rs:50-59 | In a whole run, how many commands pass in any stretch of 10,000 ms, told from the times alone: what the window current at its start has left of ten, out of the commands before that window turns, plus up to ten of those behind the turn. |
| `RateLimiting.MoreThanLimitIff` | crates/launa-core/src/rate_limiter.rs:50-59 | More than ten pass in a stretch exactly if these two numbers together exceed ten. |
| `RateLimiting.TwiceIsReached` | crates/launa-core/src/rate_limiter.rs:50-59 | The bound of 20 is met. |
| `RateLimiting.CheckAll` | crates/launa-core/src/rate_limiter.rs:50-59 | A new limiter asked for each command in turn lets through exactly the first ten of each window. |
| `LogBuffer.TruncatedLongest` | crates/launa-core/src/log_buffer.rs:70-80 | A prefix of whole characters fits 128 bytes exactly if it is no longer than the truncated message. |
| `LogBuffer.Truncate` | crates/launa-core/src/log_buffer.rs:70-80 | The scan computes that truncation. |
| `LogBuffer.RingPush` | crates/launa-core/src/log_buffer.rs:91-96 | Overwriting the oldest entry of a full ring and moving the head appends in chronological order. |
| `LogBuffer.RemoteLogBuffer.SetEnabled` | crates/launa-core/src/log_buffer.rs:54-56 | Changes the switch only. |
| `LogBuffer.RemoteLogBuffer.Push` | crates/launa-core/src/log_buffer.rs:65-97 | While enabled, the entries are the last 16 of the old ones and the truncated new one; else unchanged. |
| `LogBuffer.RemoteLogBuffer.Drain` | crates/launa-core/src/log_buffer.rs:101-118 | Returns the entries oldest first and empties the buffer. |
| `LogBuffer.BufferIsHistory` | crates/launa-core/src/log_buffer.rs:65-118 | After any interleaving of calls, the buffer and every drain are the last 16 entries pushed while enabled since the previous drain. |
| `LogBuffer.MakeAll` | crates/launa-core/src/log_buffer.rs:65-118 | The class, through any calls, returns drain by drain the last 16 truncated entries of the history told from the calls. |

## Left out

- Otadata.SetBootPartition: requires the largest number to be at most 0xFFFFFFFC, where the next
  numbers are ordinary ones; above it the 32-bit additions would wrap or give the erased value.
- OtaSafety.LifetimeSafe: the same bound, as room for two more numbers per call.
- Flash.ProgramErased: a power cut inside one program operation is not modelled; an entry torn that way
  is taken to fail its CRC.
- Otadata.NextSeq: the debug assertion beside the search is not modelled; it is implied.
- Mqtt.DecodeRemainingLength: `usize` is taken as wide enough for the fifth length byte, as on a 64-bit
  host; on a 32-bit device its contribution would wrap. Lengths of up to four bytes, all that MQTT 3.1.1
  section 2.2.3 allows, are not affected (`Mqtt.FourBytesAreStandard`).
- MqttClient.Client.Recv: keep-alive pings, read timeouts and retries, and failing sends are not modelled;
  where the program would go on to read, the method returns.
- MQTT CONNECT, CONNACK, SUBSCRIBE and SUBACK, topics, discovery and state formatting: templates and
  parsers without a partner.
- Encryption.PasswordRoundTrip: the key from eFuse, AES and the random nonce are parameters.
- SerialConfig.ConfigRoundTrip: the UART is a byte list, delays are left out, and every line counts as UTF-8
  because the values are strings on the sending side.
- RateLimiting.RateLimiter.Check: the counter is unbounded, where the program's word could overflow.
- SpaApplication.SpaApp.CheckRegistration: the one-byte count of failed attempts wraps around, as in a release
  build; with overflow checks the 256th timeout in a row would panic instead.
- Tracking.CommandTracker.Verify: the 32-bit counters of drops and retries are unbounded.
- SpaApplication.SpaApp.ProcessFrame: frame decoding, message dispatch and status parsing are given as the
  parse result of a frame; encoding into frames is left out (a command whose encoding fails is sent as an
  empty frame).
- SpaApplication.SpaApp.Tick: the fields for the last unregistered frame and the last registration probe
  are never read and left out, as are log lines, the heap monitor and the registration state's name.
- The test helpers `force_registered`, `force_reset_registration` and `set_previous_channel`; a previous
  channel can be given at the start.
- `SpaApp::force_publish`, and the remaining-time accessors of the timers: settled by reading one branch.
- Sub-objects that Rust owns (tracker, timers, buffers) are distinct constant fields of the classes here.
- UART, WiFi, TCP, NVS, watchdog and task code, the web server, the simulator and the other tools.
