# MicroNUX: a verified model of its protocols, codecs and service loops

MicroNUX brings Linux up on an ESP32-P4: a loader prepares memory protection, DMA permissions and the
display and jumps to a kernel; small userspace services talk to a radio co-processor, answer device
queries and supervise jobs; Python scripts build the binary artifacts and hold the executable contracts
between the parts. This project models the parts where state, arithmetic and agreement across files
meet, one Dafny module each, and proves what they promise.

| module | models |
|---|---|
| `Wrappers`, `Checks`, `Bytes` | optional values and results; checks made in order; octets and little-endian numbers |
| `Crc32` | CRC-32 bit by bit (section 8 of RFC 1952, reflected polynomial 0xEDB88320) and what it detects |
| `Firmware` | the JD9365 panel firmware builder and parser |
| `ColdContract` | the ABI-v3 display contract: the loader's side and the Linux validator |
| `ColdRejection` | which reason that validator gives |
| `ColdHandoff` | the loader's cold publish protocol over memory with a data cache |
| `Ownership` | the triple-buffer ownership machine, over whole runs with pixels and commit numbers |
| `HealthCheck` | the scan-out and diagnostics health checks over parsed samples |
| `Splash` | boot splash, incremental progress redraw and partial cache flush |
| `Protobuf` | varints, fields and the bounded buffer of the network control tool |
| `Rpc` | serial frames over short reads and the request/response exchange |
| `AssociationWait` | the hysteresis of waiting for a stable association |
| `DmaPms` | the DMA permission registers and the installed allowlist |
| `Pmp` | physical memory protection entries and the Linux window |
| `Manifest` | the boot manifest: packer, loader validation and kernel loading |
| `Seccomp` | the generated system-call filter and a classic BPF machine |
| `DeviceService` | the eight-slot device service |
| `JobMonitor` | output forwarding and supervision of a job |

Code that updates state is modelled by classes and methods with loops; each is proved against a
specification, and what the source promises is proved about that specification. What the program cannot
decide (cache evictions, heap addresses, register read-backs, clocks, I2C and socket results, the pieces
a stream arrives in, polls and process states) is an arbitrary choice or an arbitrary input list, so the
results hold for all of it. `dafny verify dfyconfig.toml` checks the project.

## Main results

- **Publish protocol.** In every boot, with any failure and any eviction, no reader accepts the contract
  between the completed invalidation and the commit; after the commit every reader accepts it; a failed boot
  leaves every reader rejecting it unless the invalidations at its start and at its end both fail. The commit
  needs the cache invalidation and not just the write-back: a cached reader sees the contract if and only
  if no magic octet stayed cached.
- **Two sides of one contract.** The Linux validator accepts a blob if and only if it is the loader's
  contract for a passing reservation; accepted memory is disjoint from everybody else's.
- **Triple buffering.** No tearing, every completion shows the newest commit, commit numbers on screen
  strictly increase, a fault freezes an active model, and the health checks raise no false alarm.
- **Codecs.** Firmware, contract, manifest, fields and frames round-trip in both directions where the
  format allows it; a CRC-protected artifact never survives damage within four octets.
- **Policies.** The DMA allowlist, the PMP window and the system-call filter mean exactly what they are
  meant to, at every intermediate register state too.
- **Services.** At most one properly justified response per connection; an output budget that holds for
  any chunking and interleaving; exact conditions for a wall verdict and for a group left alive.
- **Redraw.** An incremental redraw with a partial flush leaves on the panel what a full redraw would.

## Where the code and a natural promise differ

Each is kept as the code has it, shown by a concrete case, and delimited.

- The revision check of `app_main` precedes the invalidation: on unsupported silicon an old contract stays
  (`ColdHandoff.Loader.AppMain`). An invalidation whose write-back fails protects cached readers only
  (`ColdHandoff.UnwrittenZeros`); `AppMain` says when that matters, and that it does if nothing ever
  leaves the cache.
- While the ownership model is idle, `queue_render` leaves the queued buffer as render buffer, so a later
  draw is what a start shows (`Ownership.ImpoliteDrawIsShown`; `Ownership.NoTearing` says exactly when a
  queued buffer changes, `Ownership.StartShows` exactly which frame is shown). A faulted idle model still
  starts, and `Ownership.FaultKeepsRoles` says exactly when a fault freezes the roles.
- The firmware's prelude count is outside its CRC (`Firmware.OctetCorruption` gives the exact condition).
- A failed `waitpid` ends the supervision without killing the group (`JobMonitor.SurvivingGroups`;
  `JobMonitor.SparedExactly` gives the exact condition).
- The packer's default `max_memory_end` admits images that the early-deny loader refuses
  (`Manifest.PackageAccepted` gives the exact condition, `Manifest.DefaultLimitTooWide` an image).
- Call number 0, reached once every 2^32 calls, is dropped as a zero integer, so only such a call can match
  a response without a number (`Rpc.UntaggedMatches`; `Rpc.UntaggedAccepted` shows such a response).
- A disconnect event whose innermost record is malformed is refused, yet the record's fields up to the
  malformed one are kept (`Rpc.Client.RecordStationEvent`).

## Model

| member | source | states |
|---|---|---|
| `Crc32.MeetingRegisters` | buildroot-external/package/micronux-jd9365-firmware/generate_firmware.py:105 | Two registers that meet after absorbing up to 32 bits each differed at the start exactly by the bits they were fed |
| `Crc32.BurstDetected` | buildroot-external/package/micronux-jd9365-firmware/generate_firmware.py:149 | Messages of one length that differ only within 32 consecutive bits, and differ there, have different CRCs |
| `Crc32.FourOctetsDetected` | buildroot-external/package/micronux-jd9365-firmware/generate_firmware.py:149 | The same for four consecutive octets |
| `Crc32.OctetIsTableLookup` | buildroot-external/package/micronux-jd9365-firmware/generate_firmware.py:105 | Eight bit-serial steps equal the one-octet table step of section 8 of RFC 1952, for every register value and octet |
| `Crc32.ShiftIsRfc` | buildroot-external/package/micronux-jd9365-firmware/generate_firmware.py:105 | One shift of the register is the table loop's step of section 8 of RFC 1952 with the polynomial 0xEDB88320 |
| `Crc32.CrcIsRfc` | buildroot-external/package/micronux-jd9365-firmware/generate_firmware.py:105 | The bit-serial CRC is what the sample code of section 8 of RFC 1952 computes, for every message |
| `Crc32.PrintedEntry` | buildroot-external/package/micronux-jd9365-firmware/generate_firmware.py:105 | The table entry for 128 has the printed value 0xEDB88320 |
| `Crc32.RunLinear` | buildroot-external/package/micronux-jd9365-firmware/generate_firmware.py:105 | The register is linear over exclusive-or of register and message |
| `Crc32.Residue` | scripts/m9-2-display-contract-test.py:472-473 | A message followed by its own CRC drives the register to one fixed value whatever the message |
| `Crc32.SealedFourOctets` | scripts/m9-2-display-contract-test.py:472-473 | Two CRC-sealed blobs of one length that agree outside four consecutive octets, CRC field included, are equal |
| `Firmware.NormalizeItems` | buildroot-external/package/micronux-jd9365-firmware/generate_firmware.py:42-81 | The items are accepted if and only if each is within the format limits, and then the records describe them in order |
| `Firmware.Normalize` | buildroot-external/package/micronux-jd9365-firmware/generate_firmware.py:61-84 | An accepted source has 1 to 512 records, at least as many as its prelude, all within the format limits |
| `Firmware.BuildBlob` | buildroot-external/package/micronux-jd9365-firmware/generate_firmware.py:92-120 | The builder returns the header and payload of the normalized records, or the first error of the source |
| `Firmware.JoinRecords` | buildroot-external/package/micronux-jd9365-firmware/generate_firmware.py:94-101 | The append loop produces the concatenated record encodings |
| `Firmware.ParseBlob` | buildroot-external/package/micronux-jd9365-firmware/generate_firmware.py:123-183 | The parser's checks in their order, with the record list or the first error |
| `Firmware.ReadRecords` | buildroot-external/package/micronux-jd9365-firmware/generate_firmware.py:152-167 | The offset loop reads exactly the recursive record grammar, trailing octets rejected |
| `Firmware.ParseOfEncode` | buildroot-external/package/micronux-jd9365-firmware/generate_firmware.py:92-183 | Parsing inverts building for every admissible record list and prelude count, header fields included |
| `Firmware.EncodeOfParse` | buildroot-external/package/micronux-jd9365-firmware/generate_firmware.py:123-183 | Every accepted blob is octet for octet the encoding of its parse result |
| `Firmware.SourceRoundTrip` | buildroot-external/package/micronux-jd9365-firmware/generate_firmware.py:42-183 | Every accepted source parses back to its own items and prelude count |
| `Firmware.PayloadFits` | buildroot-external/package/micronux-jd9365-firmware/generate_firmware.py:102-103 | After normalization the payload is at most 34816 octets, so the too-large error is unreachable |
| `Firmware.EncodeRecordsInjective` | buildroot-external/package/micronux-jd9365-firmware/generate_firmware.py:95-101 | Different record lists have different payloads |
| `Firmware.PayloadBurstRejected` | buildroot-external/package/micronux-jd9365-firmware/generate_firmware.py:148-150 | Any change within four consecutive payload octets of an accepted blob is rejected |
| `Firmware.OctetCorruption` | buildroot-external/package/micronux-jd9365-firmware/generate_firmware.py:123-172 | One wrong octet anywhere is accepted if and only if it lies in the prelude count and leaves it at most the record count |
| `Firmware.SamePayload` | buildroot-external/package/micronux-jd9365-firmware/generate_firmware.py:123-172 | Accepted blobs with one payload differ in nothing but the prelude count |
| `Firmware.MaximaMeaning` | buildroot-external/package/micronux-jd9365-firmware/generate_firmware.py:104-120 | The two maxima in the header are reached by some record and exceeded by none |
| `ColdContract.PackOfUnpack` | scripts/m9-2-display-contract-test.py:424-434 | Packing the unpacked fields of any 192-octet blob gives the blob back |
| `ColdContract.UnpackOfPack` | scripts/m9-2-display-contract-test.py:424-434 | Unpacking packed fields gives every field back if each fits its width |
| `ColdContract.ValidateColdRelinquish` | scripts/m9-2-display-contract-test.py:449-634 | The validator's rules in their order decide the stated verdict on blob and hardware |
| `ColdContract.CheckFrames` | scripts/m9-2-display-contract-test.py:525-550 | The loop over framebuffer addresses finds the first misplaced or overlapping one |
| `ColdContract.ReservationMeaning` | loader/main/micronux_mipi_dsi.c:468-492 | The loader's 32-bit placement checks never wrap and mean exactly the plain placement conditions |
| `ColdContract.PolicyIsExact` | loader/main/micronux_mipi_dsi.c:505-515 | For a passing reservation the rounded PMS windows are the published ranges themselves |
| `ColdContract.AliasesAgree` | loader/main/micronux_mipi_dsi.c:151-157 | A cached address and its uncached alias have the same bus address |
| `ColdContract.LoaderContractAccepted` | loader/main/micronux_mipi_dsi.c:604-669 | Every reservation that passes yields a contract and PMS windows the validator accepts |
| `ColdContract.AcceptedIsLoaderContract` | scripts/m9-2-display-contract-test.py:449-634 | Every accepted blob is the loader's contract of its own two addresses, octet for octet, and the hardware is as the loader leaves it |
| `ColdContract.AcceptedIff` | scripts/m9-2-display-contract-test.py:449-634 | Acceptance in full: an accepted blob is a loader contract for a passing reservation on ready hardware, and conversely |
| `ColdContract.AcceptedMemoryDisjoint` | scripts/m9-2-display-contract-test.py:525-634 | Three framebuffers and descriptor page of any accepted contract are pairwise disjoint and disjoint from SD DMA, kernel RAM, user pool and comms |
| `ColdContract.DamageRejected` | scripts/m9-2-display-contract-test.py:472-473 | Any change within four consecutive octets of an accepted contract is rejected whatever the hardware reports |
| `ColdRejection.RejectionIsFirst` | scripts/m9-2-display-contract-test.py:449-634 | Every verdict with its reason: the first broken of the rules listed, in order; the validator's other reasons are never given |
| `ColdHandoff.MagicZeroRejected` | scripts/m9-2-display-contract-test.py:455-460 | While the magic is zero in memory and cache, cached and uncached readers both reject |
| `ColdHandoff.Invisible` | loader/main/micronux_mipi_dsi.c:174-189 | Evictions, cleanings and fills change no cached view and cannot revive the magic |
| `ColdHandoff.CommitVisibility` | loader/main/micronux_mipi_dsi.c:670-706 | After the commit an uncached reader sees the contract; a cached one sees it if and only if no magic octet was left cached |
| `ColdHandoff.WritebackAloneIsStale` | loader/main/micronux_mipi_dsi.c:670-706 | Staging stores, a plain write-back and the commit leave memory with the contract and cached readers rejecting it; with the invalidating write-back both see it |
| `ColdHandoff.JumpedIsAccepted` | loader/main/micronux_mipi_dsi.c:700-707 | What a jumping loader leaves is accepted through the cache and past it |
| `ColdHandoff.UnwrittenZeros` | loader/main/micronux_mipi_dsi.c:191-200 | The zero stores of an invalidation whose write-back fails can leave an old contract accepted in memory while cached readers see zeros |
| `ColdHandoff.Loader.constructor` | loader/main/micronux_loader.c:156-162 | The boot starts over any coherent memory with every readiness flag clear |
| `ColdHandoff.Loader.Environment` | loader/main/micronux_mipi_dsi.c:174-189 | Any number of evictions, cleanings and fills keeps the invariant and the cached view |
| `ColdHandoff.Loader.InvalidateContract` | loader/main/micronux_mipi_dsi.c:191-200 | Success means that the whole contract is zero in memory and through the cache in the state recorded; failure still leaves cached readers zeros |
| `ColdHandoff.Loader.EarlyDark` | loader/main/micronux_mipi_dsi.c:290-298 | Invalidate first, then the external command sequence; the readiness flag records both |
| `ColdHandoff.Loader.FailCleanup` | loader/main/micronux_mipi_dsi.c:300-304 | Cleanup leaves cached readers a zero contract, every reader a zero magic if the write-back works, and never undoes an invalidation |
| `ColdHandoff.Loader.ReserveDmaMemory` | loader/main/micronux_mipi_dsi.c:454-526 | The policy is marked ready exactly if the addresses pass all placement checks and the memory was cleared |
| `ColdHandoff.Loader.Prepare` | loader/main/micronux_mipi_dsi.c:546-567 | Succeeds exactly after the early dark sequence, with a reservation and quiesced hardware |
| `ColdHandoff.Loader.Handoff` | loader/main/micronux_mipi_dsi.c:569-587 | Succeeds exactly after quiescence with the display state unchanged |
| `ColdHandoff.Loader.Stage` | loader/main/micronux_mipi_dsi.c:589-693 | Succeeds exactly after the handoff with matching registers and a working write-back, and then leaves the complete contract with a zero magic in memory and nothing cached |
| `ColdHandoff.Loader.Commit` | loader/main/micronux_mipi_dsi.c:695-707 | One uncached word completes the contract for every reader |
| `ColdHandoff.Loader.Fail` | loader/main/micronux_loader.c:232-241 | Failing cleans up exactly when the external sequence was started |
| `ColdHandoff.Loader.AppMain` | loader/main/micronux_loader.c:733-1050 | The boot jumps if every step succeeds and else aborts with the reason of the first that fails. In every boot, with any cache activity, a magic that is zero for all readers stays so in every later state except the last one of a boot that jumps, which holds the contract of the addresses reserved and has a wiped contract on its way; a failed boot on supported silicon leaves cached readers zeros, and every reader a zero magic if the invalidation at its start or at its end gets through; if nothing ever leaves the cache memory stays as it was |
| `ColdHandoff.JumpsExactly` | loader/main/micronux_loader.c:733-1050 | A boot meets no failure if and only if the silicon is revision 1.3 and each of the results it depends on, named one by one, is good |
| `Checks.FirstMeaning` | loader/main/micronux_loader.c:733-1050 | Of checks made in order, the first problem is none if and only if no check finds one, and else is found by a check before which none finds any |
| `Ownership.OwnershipModel.constructor` | scripts/m9-2-display-contract-test.py:747-757 | A new model has front 0, render 1 and nothing queued |
| `Ownership.OwnershipModel.QueueRender` | scripts/m9-2-display-contract-test.py:771-786 | The field updates of queue_render, idle, active and faulted |
| `Ownership.OwnershipModel.Start` | scripts/m9-2-display-contract-test.py:788-797 | Starting adopts a queued frame and is refused when active |
| `Ownership.OwnershipModel.Complete` | scripts/m9-2-display-contract-test.py:799-819 | The field updates of complete, with failed rearms and faults |
| `Ownership.InvRun` | scripts/m9-2-display-contract-test.py:759-819 | The role and accounting invariant holds in every state of every run |
| `Ownership.NoTearing` | scripts/m9-2-display-contract-test.py:771-819 | No step changes a pixel of the front buffer; the queued buffer changes exactly when an idle model's renderer draws into it |
| `Ownership.NewestCommit` | scripts/m9-2-display-contract-test.py:771-786 | The remembered commit is a particular earlier queue request with no later one in between |
| `Ownership.CompletionShowsNewestCommit` | scripts/m9-2-display-contract-test.py:799-819 | A completion puts on screen exactly the newest committed frame as it was when queued |
| `Ownership.NeverGoesBack` | scripts/m9-2-display-contract-test.py:788-819 | Commit numbers put on screen strictly increase over the run |
| `Ownership.Accounting` | scripts/m9-2-display-contract-test.py:759-819 | requests = completions + superseded + adopted + queued, and generation = attempts - failures + starts, in every state |
| `Ownership.FaultFreezes` | scripts/m9-2-display-contract-test.py:771-819 | Once an active model has faulted, roles, flip counts and screen never change |
| `Ownership.FaultKeepsRoles` | scripts/m9-2-display-contract-test.py:771-819 | Over every run after a fault, roles and flip counts are kept if and only if the model was active, had nothing queued, or has not been started since |
| `Ownership.StartShows` | scripts/m9-2-display-contract-test.py:771-797 | Starting an idle model shows exactly the frame drawn last since the newest commit, or the committed one if nothing was drawn since |
| `Ownership.PoliteRunsShowCommits` | scripts/m9-2-display-contract-test.py:771-797 | If nothing is drawn into a queued buffer, a start too shows exactly what was committed |
| `Ownership.ImpoliteDrawIsShown` | scripts/m9-2-display-contract-test.py:771-797 | A concrete idle run that shows a frame that was never committed |
| `Ownership.RunsMoveForward` | scripts/m9-2-display-contract-test.py:771-819 | All counters and the list of shown frames only grow along a run |
| `HealthCheck.Verdict` | scripts/m9-hardware-test.py:507-586 | None is returned if and only if there are enough samples, each is healthy, no counter regresses between neighbours, and the flip and progress asked for are there |
| `HealthCheck.ContractProblem` | scripts/m9-hardware-test.py:686-760 | The checking loop with its early returns reports the first problem |
| `HealthCheck.CleanIsMonotone` | scripts/m9-hardware-test.py:557-572 | A None verdict makes every checked counter, named one by one, monotone over all pairs of samples |
| `HealthCheck.QuietSample` | scripts/m9-hardware-test.py:514-556 | A sample draws no complaint if and only if every field, named one by one, is as it should be |
| `HealthCheck.ComplaintIsFirst` | scripts/m9-hardware-test.py:514-556 | The complaint about a sample is the first of the rules of its line, in order, that it breaks |
| `HealthCheck.VerdictMeaning` | scripts/m9-hardware-test.py:507-586 | A report passes if and only if it is long enough, all fields of all samples are sound, no counter goes back between any two samples, and the flip and progress asked for are there |
| `HealthCheck.NoFalseAlarm` | scripts/m9-hardware-test.py:507-586 | Samples anywhere along a run with a completion and no failed rearm raise no alarm, and a flip between them is observed |
| `Splash.FillRect` | loader/main/micronux_mipi_dsi.c:965-985 | Exactly the pixels of the clipped rectangle take the colour, all writes in bounds |
| `Splash.DrawText` | loader/main/micronux_mipi_dsi.c:1008-1030 | Exactly the pixels of the lit glyph cells take the colour |
| `Splash.TextInkRows` | loader/main/micronux_mipi_dsi.c:1008-1030 | Text never leaves its seven rows of cells |
| `Splash.TextInkMeaning` | loader/main/micronux_mipi_dsi.c:1008-1042 | A text puts ink on exactly the pixels in a lit cell of one of its characters, six cells apart, bit 4 of a glyph row leftmost |
| `Splash.GlyphsDiffer` | loader/main/micronux_mipi_dsi.c:939-963 | Different characters of the font have different glyphs |
| `Splash.RenderProgress` | loader/main/micronux_mipi_dsi.c:1047-1098 | Every pixel afterwards: text, strip, filling, border or what was there; returns the bar's row |
| `Splash.RedrawForgets` | loader/main/micronux_mipi_dsi.c:1047-1098 | Drawing one percentage after any other gives the pixels of drawing it alone |
| `Splash.OnlyFlushedChange` | loader/main/micronux_mipi_dsi.c:1411-1439 | Every pixel that changes lies in the flushed rows |
| `Splash.FlushedBytes` | loader/main/micronux_mipi_dsi.c:1425-1434 | Those rows are the byte range of the flush, which ends inside the framebuffer |
| `Splash.BarMeaning` | loader/main/micronux_mipi_dsi.c:1058-1071 | The filling is the percentage of the inner width rounded down, grows with it, is empty at 0, and full exactly at 100 |
| `Splash.PercentReads` | loader/main/micronux_mipi_dsi.c:1073-1086 | The text written reads as the percentage and consists of known glyphs |
| `Splash.NoWrap` | loader/main/micronux_mipi_dsi.c:965-1127 | For a framebuffer whose size is a 32-bit number no size, bar, pixel-index, flush-range or text-corner expression wraps in 32 bits |
| `Splash.RenderSplash` | loader/main/micronux_mipi_dsi.c:1100-1127 | The full splash, pixel by pixel, at 0 percent |
| `Splash.BootDisplay.Show` | loader/main/micronux_mipi_dsi.c:1366-1374 | The display becomes ready exactly when the flush works, with the whole first splash on the panel |
| `Splash.BootDisplay.Progress` | loader/main/micronux_mipi_dsi.c:1411-1448 | A higher percentage becomes visible exactly when the partial flush works, and then the panel equals a full redraw at it; progress never falls, clamps at 100, and stays on a failed flush, which disturbs only the progress rows |
| `Protobuf.DecodeVarint` | buildroot-external/package/micronux-netctl/micronux-netctl.c:137-155 | The shift loop computes the varint at the offset or rejects it |
| `Protobuf.VarintMeaning` | buildroot-external/package/micronux-netctl/micronux-netctl.c:137-155 | A successful varint takes 1 to 10 octets, ends at the first unmarked one, and equals its 7-bit digit sum modulo 2^64 |
| `Protobuf.VarintRead` | buildroot-external/package/micronux-netctl/micronux-netctl.c:95-107 | Every number in range is read back from its encoding, wherever it stands |
| `Protobuf.NextField` | buildroot-external/package/micronux-netctl/micronux-netctl.c:157-184 | A field that is read lies within the buffer, moves the offset forward and has a legal number; octets are a slice of the message |
| `Protobuf.FieldRefused` | buildroot-external/package/micronux-netctl/micronux-netctl.c:157-186 | A field is malformed if and only if its key, value or length is, its number is 0 or its type is unknown |
| `Protobuf.PbNext` | buildroot-external/package/micronux-netctl/micronux-netctl.c:157-184 | The imperative reader agrees with the field grammar on arbitrary octets |
| `Protobuf.FieldsRoundTrip` | buildroot-external/package/micronux-netctl/micronux-netctl.c:95-184 | Every field list is recovered in order, zero-valued integers dropped |
| `Protobuf.RoundTrip` | buildroot-external/package/micronux-netctl/micronux-netctl.c:95-184 | The same for a whole message |
| `Protobuf.ResponseStatus` | buildroot-external/package/micronux-netctl/micronux-netctl.c:461-477 | The first matching integer modulo 2^32, 0 when absent, error when a field before it is malformed |
| `Protobuf.StatusExactly` | buildroot-external/package/micronux-netctl/micronux-netctl.c:461-477 | For any octets: the first matching integer before any malformed field, else an error if there is such a field and 0 if not |
| `Protobuf.StatusRoundTrip` | buildroot-external/package/micronux-netctl/micronux-netctl.c:114-121 | A status that was encoded reads back as encoded, a dropped zero included |
| `Protobuf.Buffer.constructor` | buildroot-external/package/micronux-netctl/micronux-netctl.c:47-50 | A new buffer is empty |
| `Protobuf.Buffer.Append` | buildroot-external/package/micronux-netctl/micronux-netctl.c:69-78 | All octets are appended, or none when they do not fit |
| `Protobuf.Buffer.PutVarint` | buildroot-external/package/micronux-netctl/micronux-netctl.c:95-107 | Succeeds exactly when the whole varint fits, and then has appended it |
| `Protobuf.Buffer.PutKey` | buildroot-external/package/micronux-netctl/micronux-netctl.c:109-112 | The same for a field key |
| `Protobuf.Buffer.PutUint` | buildroot-external/package/micronux-netctl/micronux-netctl.c:114-121 | The same for an integer field; zero appends nothing |
| `Protobuf.Buffer.PutOctets` | buildroot-external/package/micronux-netctl/micronux-netctl.c:123-129 | The same for an octet-string field |
| `Rpc.FramesRoundTrip` | buildroot-external/package/micronux-netctl/micronux-netctl.c:281-312 | Frames are recovered from the octet stream in the order they were sent |
| `Rpc.Link.ReadExact` | buildroot-external/package/micronux-netctl/micronux-netctl.c:248-279 | The octets read are the next ones of the stream for every splitting into short reads; success, position and reads used up are exactly as specified |
| `Rpc.PullSucceeds` | buildroot-external/package/micronux-netctl/micronux-netctl.c:248-279 | If no read is at fault and there is time for octet by octet, a read of what the stream still holds succeeds for every splitting |
| `Rpc.PullFails` | buildroot-external/package/micronux-netctl/micronux-netctl.c:248-279 | A read fails only for a fault, a timeout or the end of the stream |
| `Rpc.FrameSucceeds` | buildroot-external/package/micronux-netctl/micronux-netctl.c:281-312 | Over such a link every frame that stands in the stream is got |
| `Rpc.Link.ReadFrame` | buildroot-external/package/micronux-netctl/micronux-netctl.c:281-312 | A frame is returned exactly as it stands in the stream, and always over a reliable link; a bad one is reported only where none stands |
| `Rpc.Client.RecordStationEvent` | buildroot-external/package/micronux-netctl/micronux-netctl.c:314-374 | An event is refused exactly when one of its three nested messages is malformed; the record is untouched until the third is reached, and then holds its fields up to the first malformed one, all of them if the event is accepted |
| `Rpc.RecordReadBack` | buildroot-external/package/micronux-netctl/micronux-netctl.c:314-374 | A disconnect event around a record of any fields, below 2^32 octets, is accepted, and what is recorded is what the fields say |
| `Rpc.DisconnectReadBack` | buildroot-external/package/micronux-netctl/micronux-netctl.c:363-374 | Any 32-bit reason and signed signal strength a peer sends are recorded, zero and negative included |
| `Rpc.ReadAnswer` | buildroot-external/package/micronux-netctl/micronux-netctl.c:431-449 | Type, id, uid and payload of one response from a cleared buffer, which never overflows |
| `Rpc.ResponseReadBack` | buildroot-external/package/micronux-netctl/micronux-netctl.c:431-457 | The response a peer sends to a call matches it, a uid of 0 included, and hands over the payload octet for octet in any number of pieces |
| `Rpc.PiecesMerge` | buildroot-external/package/micronux-netctl/micronux-netctl.c:441-448 | A payload in one field and the same payload cut in two read alike |
| `Rpc.BuildMessage` | buildroot-external/package/micronux-netctl/micronux-netctl.c:390-393 | The request message, exactly when it fits |
| `Rpc.BuildRequest` | buildroot-external/package/micronux-netctl/micronux-netctl.c:394-401 | The framed request, exactly when it fits |
| `Rpc.RequestReadBack` | buildroot-external/package/micronux-netctl/micronux-netctl.c:390-401 | A peer that parses what was sent finds the same endpoint, type, id, uid and payload, a uid of 0 left out |
| `Rpc.StopsVerdict` | buildroot-external/package/micronux-netctl/micronux-netctl.c:418-458 | An exchange stops at a frame if and only if it does not pass over it, with the one verdict due to that frame |
| `Rpc.FrameFates` | buildroot-external/package/micronux-netctl/micronux-netctl.c:418-452 | Unknown endpoints and responses with another uid are passed over; malformed events and responses end the call with their own error |
| `Rpc.ListenReliable` | buildroot-external/package/micronux-netctl/micronux-netctl.c:411-458 | Over a reliable link, for every splitting, an exchange ends with the verdict on the first frame it does not pass over and the stream right after it; it is lost only if there is no such frame |
| `Rpc.ListenFails` | buildroot-external/package/micronux-netctl/micronux-netctl.c:411-416 | An exchange loses the link only for a fault, a timeout or the end of the stream |
| `Rpc.AnswersServed` | buildroot-external/package/micronux-netctl/micronux-netctl.c:376-495 | Over a reliable link the number of requests of a session that are answered is the one reckoned on the peer's frames alone |
| `Rpc.SessionFollowsPeer` | buildroot-external/package/micronux-netctl/micronux-netctl.c:376-495 | The same for any frames a peer encodes and every splitting of them into reads |
| `Rpc.Client.Exchange` | buildroot-external/package/micronux-netctl/micronux-netctl.c:376-459 | Success only with the payload of the first response frame that matches type, id and uid, every earlier frame passed over, nothing else in the buffer, and the stream left right after that frame; each failure names the frame or link event behind it; outcome and link are exactly as specified, so over a reliable link a first matching response with a payload is returned; the call is logged |
| `Rpc.Client.Session` | buildroot-external/package/micronux-netctl/micronux-netctl.c:479-495 | A command's requests are answered in order, stopping exactly at the first that is not; over a reliable link their number is the one the peer's frames give; over the whole log no answer is one to an earlier call or was read by one |
| `Rpc.NoneStale` | buildroot-external/package/micronux-netctl/micronux-netctl.c:385-452 | Over any sequence of calls, none within 2^32 of another is answered with a frame that answers that other one under any id |
| `Rpc.UidsDistinct` | buildroot-external/package/micronux-netctl/micronux-netctl.c:385 | Two calls share a number if and only if a multiple of 2^32 calls lies between them |
| `Rpc.StaleNeverAccepted` | buildroot-external/package/micronux-netctl/micronux-netctl.c:450-452 | Within 2^32 calls a frame that answers an earlier call never matches a later one |
| `Rpc.UntaggedMatches` | buildroot-external/package/micronux-netctl/micronux-netctl.c:450-452 | A frame without a uid is taken by a call if and only if it is a response to the called message and the call is numbered 0 |
| `Rpc.UntaggedAccepted` | buildroot-external/package/micronux-netctl/micronux-netctl.c:450-457 | A concrete response without a uid that call 2^32 - 1 takes |
| `DmaPms.ShareExact` | loader/main/micronux_dma_pms.c:179-189 | With the regions set, a register holding its mask grants exactly its master's share |
| `DmaPms.SafeIsWithin` | loader/main/micronux_dma_pms.c:143-189 | Cleared registers, or any part of the grants over finished regions, allow nothing beyond the allowlist |
| `DmaPms.InstalledIsExact` | loader/main/micronux_dma_pms.c:192-258 | The register values that are read back grant the allowlist and nothing else |
| `DmaPms.NeverReachable` | loader/main/micronux_mipi_dsi.c:505-515 | With the loader's reservation no master reaches kernel RAM, user pool or comms |
| `DmaPms.ReservationUnmasked` | loader/main/micronux_dma_pms.c:116-126 | The register's address masking cuts nothing off the reserved regions |
| `DmaPms.Unit.WriteRegion` | loader/main/micronux_dma_pms.c:116-126 | Both bounds are stored masked and no permission changes in between |
| `DmaPms.InstalledIsAccepted` | buildroot-external/board/micronux/patches-peripherals/linux/0030-video-fbdev-add-ABI-v3-native-cold-probe.patch:464-474 | What the loader installs for its reservation, read back by Linux, makes Linux accept the contract on otherwise ready hardware |
| `DmaPms.AcceptedGrants` | buildroot-external/board/micronux/patches-peripherals/linux/0030-video-fbdev-add-ABI-v3-native-cold-probe.patch:464-474 | Under an accepted contract the two registers and four regions Linux reads grant the display channel exactly the windows of the contract's own reservation |
| `DmaPms.Unit.ReadBack` | loader/main/micronux_dma_pms.c:192-258 | True exactly when every region and permission register holds its value |
| `DmaPms.Unit.Prepare` | loader/main/micronux_dma_pms.c:138-258 | Success implies the installed values and the exact allowlist even on a unit that garbles writes; on a faithful unit no state from the 62nd clearing write on grants more, a channel of 4 or above leaves nothing granted, and every other call succeeds |
| `Seccomp.CheckedReturns` | buildroot-external/package/micronux-job-supervisor/micronux-job-exec.c:287-294 | Every program the kernel's check takes reaches one of its own returns on every input |
| `Seccomp.FilterChecked` | buildroot-external/package/micronux-job-supervisor/micronux-job-exec.c:157-290 | The filter of any list has only forward in-range jumps; it is acceptable if and only if the list has at most 2045 entries |
| `Seccomp.FilterMeaning` | buildroot-external/package/micronux-job-supervisor/micronux-job-exec.c:157-286 | Kill if and only if the architecture is not RISCV32, else allow if and only if the number is in the list, else EPERM |
| `Seccomp.MoreAllowsMore` | buildroot-external/package/micronux-job-supervisor/micronux-job-exec.c:24-26 | Order and repetition of the list do not matter and a longer list only allows more |
| `DeviceService.Permitted` | buildroot-external/package/micronux-device-service/micronux-deviced.c:60-82 | Only root passes the administrative check; everybody passes the others |
| `DeviceService.ContainsMeaning` | buildroot-external/package/micronux-device-service/micronux-deviced.c:185 | A set of devices contains a mask if and only if it has every bit the mask has |
| `DeviceService.RespondKeeps` | buildroot-external/package/micronux-device-service/micronux-deviced.c:125-145 | A justified response keeps every other connection's state and leaves the slot cleared |
| `DeviceService.AdmitKeeps` | buildroot-external/package/micronux-device-service/micronux-deviced.c:256-259 | A new connection takes nothing over from the slot's previous occupant |
| `DeviceService.NoteKeeps` | buildroot-external/package/micronux-device-service/micronux-deviced.c:203-206 | What is received from one connection touches no other |
| `DeviceService.OverlayIsPadded` | buildroot-external/package/micronux-device-service/micronux-deviced.c:205-216 | A short packet over cleared storage leaves the packet and zeros |
| `DeviceService.Service.CloseClient` | buildroot-external/package/micronux-device-service/micronux-deviced.c:116-123 | Closing clears the whole slot |
| `DeviceService.Service.Respond` | buildroot-external/package/micronux-device-service/micronux-deviced.c:125-145 | One response is logged for the slot's connection and the slot is freed |
| `DeviceService.Judge` | buildroot-external/package/micronux-device-service/micronux-deviced.c:153-188 | The version, capability, mask and timeout checks decide by user, request and devices as stated |
| `DeviceService.DecisionJustified` | buildroot-external/package/micronux-device-service/micronux-deviced.c:147-188 | What is decided at once is justified by the client's own packet and user |
| `DeviceService.Service.ProcessRequest` | buildroot-external/package/micronux-device-service/micronux-deviced.c:147-201 | The decided status is sent; else an unreadable clock is reported, or the client waits with deadline now + timeout; nothing else changes |
| `DeviceService.Service.ReceiveRequest` | buildroot-external/package/micronux-device-service/micronux-deviced.c:203-219 | A packet of any length is answered or starts a wait, a lost connection clears the slot, no data changes nothing; no other slot is touched |
| `DeviceService.Service.AcceptClient` | buildroot-external/package/micronux-device-service/micronux-deviced.c:230-260 | The connection takes the first free slot, which holds nothing but its own data; with no free slot or a failed accept nothing changes |
| `DeviceService.Service.ServeWaiter` | buildroot-external/package/micronux-device-service/micronux-deviced.c:368-378 | A waiter gets OK if its devices are there, else TIMEOUT if the clock failed or its deadline has passed, else stays as it is |
| `DeviceService.Service.Pass` | buildroot-external/package/micronux-device-service/micronux-deviced.c:331-379 | After every pass each remaining waiter has an unmet mask of 1 to 7 and an unexpired deadline; a connection leaves its slot only answered or with its peer gone, and a waiter that stays is unchanged; earlier responses stand, and time-outs were decided on this pass's clock |
| `DeviceService.Service.Serve` | buildroot-external/package/micronux-device-service/micronux-deviced.c:331-387 | Over any number of passes no response is undone, each connection gets at most one, with its own uid's capabilities and its own request id, justified by its own packet and the time it asked |
| `DeviceService.ResponseMeaning` | buildroot-external/package/micronux-device-service/micronux-deviced.c:147-201 | ADMIN_PROBE succeeds only for uid 0, WAIT only with a snapshot that has every bit of the mask, and times out only with a bit missing and no earlier than asked |
| `JobMonitor.AttemptedLeft` | buildroot-external/package/micronux-job-supervisor/micronux-run.c:161-174 | The write loop leaves octets behind if and only if one of the writes it made failed or took nothing |
| `JobMonitor.FedBudgetary` | buildroot-external/package/micronux-job-supervisor/micronux-run.c:152-178 | Whatever the chunk, the copy stays within the budget and is the whole budgeted prefix if and only if no write so far was at fault |
| `JobMonitor.ForwardedSeen` | buildroot-external/package/micronux-job-supervisor/micronux-run.c:144-193 | One call reads exactly the octets readable before the end, an error or a stream that would block |
| `JobMonitor.DrainedMeaning` | buildroot-external/package/micronux-job-supervisor/micronux-run.c:149-192 | Those octets are what all reads before the first that ends the call deliver, and the stream stays open unless that read is its end or an error |
| `JobMonitor.Copier.constructor` | buildroot-external/package/micronux-job-supervisor/micronux-run.c:200-207 | Nothing is read, copied or exceeded at the start |
| `JobMonitor.Copier.WriteOut` | buildroot-external/package/micronux-job-supervisor/micronux-run.c:161-174 | The accepted octets are written in pieces as the writes take them, up to the first write at fault |
| `JobMonitor.Copier.Chunk` | buildroot-external/package/micronux-job-supervisor/micronux-run.c:152-178 | One chunk has exactly the specified effect on what was read, what was copied and the writes made, and keeps the budget invariant |
| `JobMonitor.Copier.Forward` | buildroot-external/package/micronux-job-supervisor/micronux-run.c:144-193 | The read loop has exactly the specified effect, for any chunking; exceeded holds if and only if total > 32768 |
| `JobMonitor.InvRun` | buildroot-external/package/micronux-job-supervisor/micronux-run.c:216-264 | The relations between reaping, killing and reasons hold in every run |
| `JobMonitor.KillByReason` | buildroot-external/package/micronux-job-supervisor/micronux-run.c:216-264 | A reaped child's group was killed; wall, monitor and no reason imply a killed group, wait implies a spared one |
| `JobMonitor.SparedExactly` | buildroot-external/package/micronux-job-supervisor/micronux-run.c:216-264 | A finished job's group is alive if and only if some pass failed to wait for a child that had no reason against it and was within its limit, and no poll failed from that pass on |
| `JobMonitor.AllKilledIfNoWaitError` | buildroot-external/package/micronux-job-supervisor/micronux-run.c:248-263 | If waiting for the child never fails, every finished job's group was killed |
| `JobMonitor.SurvivingGroups` | buildroot-external/package/micronux-job-supervisor/micronux-run.c:257-262 | Two concrete runs that end with the group alive after a failed wait |
| `JobMonitor.ReasonStays` | buildroot-external/package/micronux-job-supervisor/micronux-run.c:220-247 | Once there is a reason or the child is gone, the verdict is monitor if some later pass fails to poll and stays as it is if none does |
| `JobMonitor.WallExactly` | buildroot-external/package/micronux-job-supervisor/micronux-run.c:216-264 | The verdict is wall if and only if some pass that began at or after the limit or without a clock found the child running with no reason against it, and no poll failed from that pass on |
| `JobMonitor.MonitorJob` | buildroot-external/package/micronux-job-supervisor/micronux-run.c:195-299 | The loop computes the specified run, copy and exit code, and the copied output is the first min(total, 32768) octets read if and only if no write made was at fault |
| `JobMonitor.Report` | buildroot-external/package/micronux-job-supervisor/micronux-run.c:269-298 | A policy kill reports 124 if and only if the reason is wall and 125 otherwise; else the exit code, 128 plus the signal, or 125 for an unclear status |
| `Pmp.AuditedWindow` | loader/main/micronux_loader.c:642-677 | Under the installed map user mode may read, write or execute an address if and only if it lies in 0x48400000 up to 0x49f00000 |
| `Pmp.AuditedDeny` | loader/main/micronux_loader.c:642-677 | Under the map before installation user mode has no access at all |
| `Pmp.GuardedWithin` | loader/main/micronux_loader.c:693-698 | A map in which only the window's entry permits anything allows nothing outside the window |
| `Pmp.NapotPower` | loader/main/micronux_loader.c:644-676 | Trailing ones of an address register encode the range size of section 3.7 of the RISC-V Privileged Architecture |
| `Pmp.StepsWithin` | loader/main/micronux_loader.c:693-698 | None of the states an entry write passes through allows more than the window |
| `Pmp.Unit.ResetAndSet` | loader/main/micronux_loader.c:693-698 | The entry is switched off, its address set, then its configuration |
| `Pmp.Unit.Audit` | loader/main/micronux_loader.c:642-677 | True exactly when all sixteen entries have their audited values |
| `Pmp.Unit.Prepare` | loader/main/micronux_loader.c:680-731 | Success implies the exact window even on a unit that garbles writes; on a faithful unit it succeeds if and only if the first audit passes, and no intermediate state allows more |
| `Manifest.ValidateOfEncode` | loader/main/micronux_loader.c:287-324 | A manifest at the head of the partition is accepted exactly when its payload is loadable, and then decodes to it |
| `Manifest.EncodeOfCheck` | loader/main/micronux_loader.c:298-324 | Every accepted 128 octets are the sealed manifest of what was read from them |
| `Manifest.PackageAccepted` | scripts/m3-pack.py:27-83 | Whatever the packer's limit, the loader accepts its manifest if and only if the memory span ends at or below 0x49300000, always so for that limit, with equal sizes and digests |
| `Manifest.PackageMeaning` | scripts/m3-pack.py:27-60 | The packer takes an image and a device tree if and only if magic, text offset, memory span, limit and declared size are as stated, octet by octet |
| `Manifest.DefaultLimitTooWide` | scripts/m3-pack.py:27-29 | A concrete image that the packer's default limit accepts and the loader refuses |
| `Manifest.DamageRefused` | loader/main/micronux_loader.c:298-306 | Any change within four consecutive octets of an accepted manifest is refused |
| `Manifest.AllocationSpanHolds` | loader/main/micronux_loader.c:831-850 | After acceptance the 128-byte-rounded kernel span check can never fail |
| `Manifest.LoadKernel` | loader/main/micronux_loader.c:349-365 | The chunk loop copies exactly the image, and its progress reports never fall and end at 80 |
| `AssociationWait.CommandWait` | buildroot-external/package/micronux-netctl/micronux-netctl.c:791-847 | The wait ends at the first round that decides it, with that round's outcome |
| `AssociationWait.VerdictMeaning` | buildroot-external/package/micronux-netctl/micronux-netctl.c:799-844 | When each of the five outcomes of a round is given |
| `AssociationWait.StableExactly` | buildroot-external/package/micronux-netctl/micronux-netctl.c:811-827 | A round is stable if and only if an unbroken run of zero statuses that ends with it spans 2000 ms from its start |
| `AssociationWait.ConnectedMeansStable` | buildroot-external/package/micronux-netctl/micronux-netctl.c:811-827 | Success implies that the final unbroken run of zero statuses spans at least 2000 ms between first and last reading |
| `AssociationWait.DropoutsDelay` | buildroot-external/package/micronux-netctl/micronux-netctl.c:825-827 | With a clock that does not run backwards, every dropout and everything before it lies at least 2000 ms before a success |

## Left out

- The legacy ABI-v2 handoff (`make_handoff`, `validate_handoff`) and live panel bring-up: the ABI-v3 contract carries the harder rules.
- The Linux kernel patches: what the cold probe checks is modelled from its executable contract in Python, and from the patch itself only which permission registers it reads.
- Source-text, hash and marker-order checks of the scripts, serial capture, log parsing and shell strings: text with fixed answers.
- SHA-256: digests are inputs of the manifest model; that equal digests mean equal images is not modelled.
- ESP-IDF internals: the ROM CRC routine is taken to be the same CRC-32 as `zlib.crc32`, `PMP_RESET_AND_ENTRY_SET` to clear the configuration, set the address and set the configuration in this order, `PMP_ENTRY_ADDR_READ` to return the register shifted left by two, and the PMS address mask to be bits 31 to 12.
- The checks between the preparation of the display and its handoff (storage, manifest, kernel and device tree loading): one step of the boot, with the reason it reports as an input; `Manifest` models some of them.
- The quiescing register sequences of GDMA, DSI and the PHY: each is one step that succeeds or fails.
- `cold_execute_external_command_sequence`: its I2C writes are one step that succeeds or fails.
- Non-M7 profiles of the loader (locked PMP pair, wider kernel limit): the modelled profile has the stricter rules.
- The system-call numbers of the filter list: the result holds for any list.
- Resource limits, capability dropping and descriptor closing of `micronux-job-exec`: effects of system calls only.
- Wi-Fi provisioning commands, Ignite runner, display test ioctls, isolation and arena tests: thin wrappers or easy loops.
- Termination of `forward_output` against a child that writes forever, of reads interrupted forever, and real-time bounds: the streams, links, rounds and ticks are arbitrary finite lists.
- Signal handling of the device service: a stop is the end of an arbitrary number of passes.
- HealthCheck.NoFalseAlarm: the fields the ownership machine says nothing about (timers, underruns, bridge state) are taken to report healthy hardware.
- ColdHandoff.Loader.AppMain: between staging and commit no cached access to the line of the magic is assumed, because the loader makes none; a magic octet filled there would make cached readers reject the contract.
