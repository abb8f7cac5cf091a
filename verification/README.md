# ECU flashing stack and CAN signal codecs — a Dafny model

This project models the logic of a UDS (ISO 14229-1) diagnostic tool that
flashes ECU firmware over CAN. It also models the Python CAN signal
codecs and the CAN simulator that go with it. Everything the hardware or
the host does (the ZLG driver, files, clocks, threads) is a parameter or
a script.

| module (file) | models |
|---|---|
| `Bits` (bits.dfy), `HexText` (hex_text.dfy), `PyText` (py_text.dfy), `Wrappers` (wrappers.dfy) | bytes, bit arithmetic and bitwise OR on naturals, .NET hex parsing and `X2`/`X4` formatting, Python string helpers, `Option`/`Result` |
| `CanTransport` (can_transport.dfy) | `ICanTransport` as a class: a script of incoming frames (or a silent timeout) and a log of sent frames |
| `IsoTp`, `IsoTpProperties` (iso_tp.dfy, iso_tp_properties.dfy) | `IsoTpClient`: Single, First, Consecutive and Flow Control frames (ISO 15765-2), sending, receiving, request/response, and the send/receive round trip |
| `UdsNrc`, `UdsHelpers`, `UdsService` (uds_nrc.dfy, uds_helpers.dfy, uds_service.dfy) | positive/negative response classification, the NRC name table, the service catalogue and its session and capability masks |
| `UdsClient` (uds_client.dfy) | session control, ReadDataByIdentifier, ClearDiagnosticInformation and the 0x78 response-pending loop |
| `Security`, `AppConfig` (security.dfy, app_config.dfy) | key-level selection and seed normalisation around an AES decrypt given as a parameter; the AES key table in the configuration |
| `IntelHex`, `BinToHex`, `HexRoundTrip`, `HexAddressRule` (intel_hex.dfy, bin_to_hex.dfy, hex_round_trip.dfy, hex_address_rule.dfy) | the Intel HEX reader (records 00/01/02/04, segment building), the writer (checksummed records, type-04 records at every 64 KiB boundary), the round trip writer → reader, and the reader's address rule as written against the format's |
| `FlashScript`, `Flashing`, `FlashingProperties` (flash_script.dfy, flashing.dfy, flashing_properties.dfy) | `FlashManager`: padding with 0xCC to 128 bytes, block slicing, the modulo-256 block counter, block and file retries, and the whole flashing sequence against a scripted UDS oracle |
| `CanSignals`, `SignalCodec`, `Msg0x117`, `Adapter0x117` (can_signals.dfy, signal_codec.dfy, msg_0x117.dfy, adapter_0x117.dfy) | enum-member sanitising, unique member names, Motorola bit positions, big-endian signal packing, the 29-signal 0x117 message and its encode/decode round trip, the simulator's adapter |
| `SimServer` (sim_server.dfy) | the simulator's response rules: ID and masked-payload matching, signal or raw responses, parser choice and `_hx` |

Bytes are naturals below 256. Integer widths that matter (the 16-bit
address of a record, the 12-bit ISO-TP length, the modulo-256 block
counter) are written out. C# `/` on non-negative values and Python `//`
on positive divisors agree with Dafny's `/` where they are used.

## Model

| member | source | states |
|---|---|---|
| UdsNrc.OfByte | uds_tools/zlg_sample_csharp/zlg_sample_csharp/Enums/UdsNrc.cs:6-16 | the byte cast `(UdsNrc)b` is total: every byte gives a well-formed code whose byte is `b` |
| UdsNrc.CodeRoundTrip | uds_tools/zlg_sample_csharp/zlg_sample_csharp/Enums/UdsNrc.cs:6-16 | casting a code's byte back gives the same code |
| UdsNrc.AsStringOfByte | uds_tools/zlg_sample_csharp/zlg_sample_csharp/Enums/UdsNrc.cs:60-61 | the byte overload names a byte; the "Unknown NRC (0xXX)" text appears exactly for the bytes outside the fifteen named codes |
| UdsNrc.UnknownOnlyUnlisted | uds_tools/zlg_sample_csharp/zlg_sample_csharp/Enums/UdsNrc.cs:38-57 | the switch falls to its default arm exactly for unnamed codes |
| UdsNrc.NameCarriesCode | uds_tools/zlg_sample_csharp/zlg_sample_csharp/Enums/UdsNrc.cs:38-57 | every text, named or unknown, ends with " (0x" + the code in `X2` + ")" |
| UdsNrc.ListedNameCarriesCode | uds_tools/zlg_sample_csharp/zlg_sample_csharp/Enums/UdsNrc.cs:41-55 | each of the fifteen names ends with its own code and does not start with "U" |
| UdsNrc.NamesDistinct | uds_tools/zlg_sample_csharp/zlg_sample_csharp/Enums/UdsNrc.cs:38-57 | two codes with the same text are the same code |
| UdsNrc.TryParseNrc | uds_tools/zlg_sample_csharp/zlg_sample_csharp/Enums/UdsNrc.cs:25-36 | the parsed code is always a well-formed `UdsNrc` |
| UdsNrc.TryParseNrcContract | uds_tools/zlg_sample_csharp/zlg_sample_csharp/Enums/UdsNrc.cs:25-36 | parsing succeeds iff the response has at least 3 bytes and starts with 0x7F; it then reports bytes 1 and 2, and otherwise both outputs are 0 |
| UdsNrc.NegativeResponseRoundTrip | uds_tools/zlg_sample_csharp/zlg_sample_csharp/Enums/UdsNrc.cs:25-36 | `7F sid nrc` followed by anything parses back to `sid` and `nrc` |
| UdsNrc.PositiveAndNegativeOnlyFor3F | uds_tools/zlg_sample_csharp/zlg_sample_csharp/Enums/UdsNrc.cs:21-36 | a response is both positive and a negative response only for request SID 0x3F, where SID + 0x40 wraps to 0x7F |
| UdsNrc.IsPositive | uds_tools/zlg_sample_csharp/zlg_sample_csharp/Enums/UdsNrc.cs:21-22 | a response is positive iff its first byte is the request SID plus 0x40, truncated to a byte; `PositiveAndNegativeOnlyFor3F` proves that only request SID 0x3F lets one response be both positive and negative |
| UdsNrc.AsString | uds_tools/zlg_sample_csharp/zlg_sample_csharp/Enums/UdsNrc.cs:38-57 | the name of each listed NRC, "Unknown NRC (0x..)" for every other code; `UnknownOnlyUnlisted`, `NameCarriesCode` and `NamesDistinct` prove which codes are unknown and that names tell codes apart |
| UdsService.ServiceOfSid | uds_tools/zlg_sample_csharp/zlg_sample_csharp/Enums/UdsService.cs:7-45 | the byte cast and the enum's byte values are inverse on the 25 services |
| UdsService.Get | uds_tools/zlg_sample_csharp/zlg_sample_csharp/Enums/UdsService.cs:182-184 | the lookup finds a row exactly for bytes that name a service, and it is that service's row |
| UdsService.PositiveResponseSid | uds_tools/zlg_sample_csharp/zlg_sample_csharp/Enums/UdsService.cs:197 | the positive response SID passes the positive-response test for the request SID and, for every named service, is not 0x7F (only the unnamed value 0x3F would give 0x7F) |
| UdsService.CatalogKeysAreSids | uds_tools/zlg_sample_csharp/zlg_sample_csharp/Enums/UdsService.cs:74-180 | every row is stored under the SID of the service it describes |
| UdsService.EntryService | uds_tools/zlg_sample_csharp/zlg_sample_csharp/Enums/UdsService.cs:74-180 | each service's row names that service |
| UdsService.CatalogComplete | uds_tools/zlg_sample_csharp/zlg_sample_csharp/Enums/UdsService.cs:74-180 | every service has a row, so `Get` never throws on an enum value |
| UdsService.SidInjective | uds_tools/zlg_sample_csharp/zlg_sample_csharp/Enums/UdsService.cs:7-45 | no two services share a SID |
| UdsService.ToMaskFlags | uds_tools/zlg_sample_csharp/zlg_sample_csharp/Enums/UdsService.cs:189-195 | exactly the three defined sessions map to a mask, each a single flag of `All` |
| UdsService.NotAllowedOutsideCatalogue | uds_tools/zlg_sample_csharp/zlg_sample_csharp/Enums/UdsService.cs:186-187 | an undefined session byte, or a byte that names no service, is never allowed |
| UdsService.AllowedIsFlag | uds_tools/zlg_sample_csharp/zlg_sample_csharp/Enums/UdsService.cs:186-187 | for a defined session, `IsAllowedIn` is membership of that session's flag in the row's mask |
| UdsService.DownloadOnlyInProgramming | uds_tools/zlg_sample_csharp/zlg_sample_csharp/Enums/UdsService.cs:165-179 | RequestDownload, RequestUpload, TransferData and RequestTransferExit are allowed in the programming session and no other |
| UdsService.AllMaskEverywhere | uds_tools/zlg_sample_csharp/zlg_sample_csharp/Enums/UdsService.cs:186-195 | a service tagged `All` is allowed in exactly the three defined sessions |
| UdsService.DefaultSessionServices | uds_tools/zlg_sample_csharp/zlg_sample_csharp/Enums/UdsService.cs:74-187 | the services allowed in the default session are exactly the nine the catalogue tags with `Default` or `All` |
| UdsService.HasUnion | uds_tools/zlg_sample_csharp/zlg_sample_csharp/Enums/UdsService.cs:199-200 | testing a combined flag set holds iff one of its flags holds; `None` never holds |
| UdsService.SubFunctionFlags | uds_tools/zlg_sample_csharp/zlg_sample_csharp/Enums/UdsService.cs:173-179 | TransferData has no sub-function; DiagnosticSessionControl and RequestDownload have one |
| UdsService.Sid | uds_tools/zlg_sample_csharp/zlg_sample_csharp/Enums/UdsService.cs:7-45 | the byte value of each of the 25 services; `ServiceOfSid` and `SidInjective` prove it one-to-one and inverted by `ServiceOf` |
| UdsService.ServiceOf | uds_tools/zlg_sample_csharp/zlg_sample_csharp/Enums/UdsService.cs:8-44 | the cast of a byte to the enum, None for a byte that names no service; `ServiceOfSid` proves it the inverse of `Sid` |
| UdsService.Entry | uds_tools/zlg_sample_csharp/zlg_sample_csharp/Enums/UdsService.cs:74-180 | the catalogue row stored under each service; `EntryService`, `CatalogKeysAreSids` and `CatalogComplete` prove every row is stored under its own SID and every service has one |
| UdsService.ToMask | uds_tools/zlg_sample_csharp/zlg_sample_csharp/Enums/UdsService.cs:189-195 | sessions 01, 02 and 03 to their flag, every other byte to no flag; `ToMaskFlags` proves which byte gives which flag |
| UdsService.IsAllowedIn | uds_tools/zlg_sample_csharp/zlg_sample_csharp/Enums/UdsService.cs:186-187 | a catalogued service whose session mask meets the session's flag; `AllowedIsFlag`, `NotAllowedOutsideCatalogue` and `DownloadOnlyInProgramming` prove what it admits |
| UdsService.Has | uds_tools/zlg_sample_csharp/zlg_sample_csharp/Enums/UdsService.cs:199-200 | a catalogued service whose capability set meets the one asked for; `HasUnion` and `SubFunctionFlags` prove what it admits |
| UdsClient.Ensure | uds_tools/zlg_sample_csharp/zlg_sample_csharp/UdsClient.cs:17 | a missing options record means the defaults, which wait out response-pending; a given one is used as it is |
| UdsClient.PendingIsNrc78 | uds_tools/zlg_sample_csharp/zlg_sample_csharp/UdsClient.cs:45 | the loop condition 7F sid 78 is exactly a negative response to sid whose code is ResponsePending |
| UdsClient.RequestShort | uds_tools/zlg_sample_csharp/zlg_sample_csharp/UdsClient.cs:26-27 | a request of at most 7 bytes goes out as one Single Frame, then the response is received |
| UdsClient.PendingLoopFacts | uds_tools/zlg_sample_csharp/zlg_sample_csharp/UdsClient.cs:45-49 | the pending loop returns the first response that is not pending, negative ones included, and only ever sends Flow Controls, never the request again |
| UdsClient.ChangeSessionContract | uds_tools/zlg_sample_csharp/zlg_sample_csharp/UdsClient.cs:19-31 | the session request is the Single Frame 02 10 sub; the answer is "accepted" exactly for 50 sub; a pending answer is not waited out and reads as "not accepted" |
| UdsClient.SessionAcceptedIsPositive | uds_tools/zlg_sample_csharp/zlg_sample_csharp/UdsClient.cs:29-30 | accepting a session is the positive-response test for 0x10 plus the echo of the sub-function |
| UdsClient.ReadDidContract | uds_tools/zlg_sample_csharp/zlg_sample_csharp/UdsClient.cs:33-52 | ReadDataByIdentifier sends 03 22 high low and then only Flow Controls; without pending handling it returns the first response, with it never a pending one |
| UdsClient.ReadDidAfterPending | uds_tools/zlg_sample_csharp/zlg_sample_csharp/UdsClient.cs:40-51 | a pending answer followed by the real one returns the real one, the request having been sent once |
| UdsClient.ClearDtcContract | uds_tools/zlg_sample_csharp/zlg_sample_csharp/UdsClient.cs:54-76 | ClearDiagnosticInformation sends 04 14 FF FF FF, then only Flow Controls; a first answer that is not pending decides the result at once |
| UdsClient.DtcClearedIsPositive | uds_tools/zlg_sample_csharp/zlg_sample_csharp/UdsClient.cs:74-75 | clearing succeeded exactly when the final response is positive for 0x14 |
| UdsClient.PendingStep | uds_tools/zlg_sample_csharp/zlg_sample_csharp/UdsClient.cs:45-49 | one turn of the pending loop: a failed receive ends the loop with its error, a successful one continues from its response and consumes an event |
| UdsClient.PendingDone | uds_tools/zlg_sample_csharp/zlg_sample_csharp/UdsClient.cs:45 | a response that is not pending ends the loop with it |
| UdsClient.PendingRequestLoops | uds_tools/zlg_sample_csharp/zlg_sample_csharp/UdsClient.cs:40-45 | with pending handling on and an answered request, the loop starts from that answer |
| UdsClient.IsPending | uds_tools/zlg_sample_csharp/zlg_sample_csharp/UdsClient.cs:45 | a `7F sid 78` response; `PendingIsNrc78` proves it is exactly a negative response with NRC 0x78 for that request |
| UdsClient.PendingRequestSpec | uds_tools/zlg_sample_csharp/zlg_sample_csharp/UdsClient.cs:39-51 | the request, then the pending loop from its answer when the options ask for it; `PendingRequestLoops` and `ReadDidAfterPending` state it, and `UdsClient.Client.RequestWithPending` is proved against it |
| UdsClient.PendingLoop | uds_tools/zlg_sample_csharp/zlg_sample_csharp/UdsClient.cs:45-49 | receive again while the response is pending; `PendingLoopFacts`, `PendingStep` and `PendingDone` prove it ends on the first response that is not pending or on a failed receive, and sends only Flow Control frames |
| UdsClient.ChangeSessionSpec | uds_tools/zlg_sample_csharp/zlg_sample_csharp/UdsClient.cs:19-31 | request `10 sub`, one response, true iff it is `50 sub`; `ChangeSessionContract` and `SessionAcceptedIsPositive` state it |
| UdsClient.ReadDidSpec | uds_tools/zlg_sample_csharp/zlg_sample_csharp/UdsClient.cs:33-52 | request `22 hi lo`, then the pending loop when asked for; `ReadDidContract` and `ReadDidAfterPending` state it |
| UdsClient.ClearDtcSpec | uds_tools/zlg_sample_csharp/zlg_sample_csharp/UdsClient.cs:54-76 | request `14 FF FF FF`, the pending loop, true iff the final response starts with 0x54; `ClearDtcContract` and `DtcClearedIsPositive` state it |
| UdsClient.Client.constructor | uds_tools/zlg_sample_csharp/zlg_sample_csharp/UdsClient.cs:15 | the client keeps its ISO-TP client |
| UdsClient.Client.ChangeSession | uds_tools/zlg_sample_csharp/zlg_sample_csharp/UdsClient.cs:19-31 | the method's result, frames and consumed events are those of `ChangeSessionSpec` |
| UdsClient.Client.ReadDid | uds_tools/zlg_sample_csharp/zlg_sample_csharp/UdsClient.cs:33-52 | the method follows `ReadDidSpec` under the options `Ensure` gives |
| UdsClient.Client.ClearDtc | uds_tools/zlg_sample_csharp/zlg_sample_csharp/UdsClient.cs:54-76 | the method follows `ClearDtcSpec` under the options `Ensure` gives |
| UdsClient.Client.RequestWithPending | uds_tools/zlg_sample_csharp/zlg_sample_csharp/UdsClient.cs:39-51 | request, then the pending loop when the options ask for it, as `PendingRequestSpec` says |
| UdsClient.Client.ReceiveWhilePending | uds_tools/zlg_sample_csharp/zlg_sample_csharp/UdsClient.cs:45-49 | the while loop follows `PendingLoop`: it keeps receiving, without resending, while the answer is 7F sid 78 |
| IsoTp.Pci | uds_tools/zlg_sample_csharp/zlg_sample_csharp/IsoTpClient.cs:36 | a PCI byte's high nibble is the frame type and its low nibble the length or sequence number |
| IsoTp.PciIsOr | uds_tools/zlg_sample_csharp/zlg_sample_csharp/IsoTpClient.cs:45 | the C# OR of the type and the nibble equals the sum the model uses, since the bits do not overlap |
| IsoTp.BlockSize | uds_tools/zlg_sample_csharp/zlg_sample_csharp/IsoTpClient.cs:55-57 | a Flow Control block size of 0 becomes 255, any other value is kept; the result is always 1 to 255 |
| IsoTp.FfLength | uds_tools/zlg_sample_csharp/zlg_sample_csharp/IsoTpClient.cs:106 | the First Frame length is the low PCI nibble times 256 plus byte 1, so it is below 4096 |
| IsoTp.FfLengthIsOr | uds_tools/zlg_sample_csharp/zlg_sample_csharp/IsoTpClient.cs:106 | the C# shift-and-OR equals that sum |
| IsoTp.SnStep | uds_tools/zlg_sample_csharp/zlg_sample_csharp/IsoTpClient.cs:72-73 | the sender's wrapping counter (increment, 15 wraps to 0) stays equal to (k + 1) mod 16 for the k-th Consecutive Frame |
| IsoTp.IsoTpClient.constructor | uds_tools/zlg_sample_csharp/zlg_sample_csharp/IsoTpClient.cs:17-22 | the client keeps its transport and its transmit and receive identifiers |
| IsoTp.IsoTpClient.SendIsoTp | uds_tools/zlg_sample_csharp/zlg_sample_csharp/IsoTpClient.cs:30-89 | the result, the frames sent with the transmit ID and the bus events consumed are exactly those of `SendSpec` |
| IsoTp.IsoTpClient.AwaitFlowControl | uds_tools/zlg_sample_csharp/zlg_sample_csharp/IsoTpClient.cs:50-57 | the Flow Control wait after a First Frame follows `FirstFlowControl`, sends nothing, and yields a block size of 1 to 255 |
| IsoTp.IsoTpClient.SendConsecutiveFrames | uds_tools/zlg_sample_csharp/zlg_sample_csharp/IsoTpClient.cs:59-87 | the Consecutive Frame loop, with a Flow Control awaited after each block, follows `CfSpec` |
| IsoTp.IsoTpClient.SendInBlock | uds_tools/zlg_sample_csharp/zlg_sample_csharp/IsoTpClient.cs:69-83 | one turn of that loop sends its frame and, at the end of a block, takes the next Flow Control: the trace advances by that frame and a new block starts, or a missing or non-Flow-Control answer ends the transfer with that error |
| IsoTp.IsoTpClient.ReceiveIsoTp | uds_tools/zlg_sample_csharp/zlg_sample_csharp/IsoTpClient.cs:91-136 | the receiver's result, its Flow Control and the events it consumes are those of `RecvSpec` |
| IsoTp.IsoTpClient.ReceiveConsecutiveFrames | uds_tools/zlg_sample_csharp/zlg_sample_csharp/IsoTpClient.cs:117-130 | the receiver's Consecutive Frame loop follows `Reassemble` and sends nothing |
| IsoTp.IsoTpClient.RequestAsync | uds_tools/zlg_sample_csharp/zlg_sample_csharp/IsoTpClient.cs:24-28 | sending and then receiving follows `RequestSpec`; a send error ends the exchange |
| IsoTp.IsoTpClient.ReceiveOnlyAsync | uds_tools/zlg_sample_csharp/zlg_sample_csharp/IsoTpClient.cs:138-142 | a receive on its own follows `RecvSpec` |
| IsoTpProperties.CfCountBound | uds_tools/zlg_sample_csharp/zlg_sample_csharp/IsoTpClient.cs:63-71 | the Consecutive Frame loop runs once for each k below ceil((n - 6) / 7) |
| IsoTpProperties.CfFramesLayout | uds_tools/zlg_sample_csharp/zlg_sample_csharp/IsoTpClient.cs:59-87 | a payload of n > 7 bytes is followed by ceil((n - 6) / 7) Consecutive Frames, the j-th of them being frame j |
| IsoTpProperties.ConsecutiveFrameLayout | uds_tools/zlg_sample_csharp/zlg_sample_csharp/IsoTpClient.cs:65-68 | each Consecutive Frame has 8 bytes: 0x20 plus (k + 1) mod 16, the next at most seven payload bytes, then zeros |
| IsoTpProperties.SendShort | uds_tools/zlg_sample_csharp/zlg_sample_csharp/IsoTpClient.cs:32-39 | a payload of at most 7 bytes goes out as one Single Frame (length, payload, zero padding) and nothing is awaited |
| IsoTpProperties.TwelveBitLength | uds_tools/zlg_sample_csharp/zlg_sample_csharp/IsoTpClient.cs:45-46 | the First Frame's two length fields keep the length modulo 4096 |
| IsoTpProperties.SendFirstFrame | uds_tools/zlg_sample_csharp/zlg_sample_csharp/IsoTpClient.cs:42-48 | a longer payload starts with a First Frame: type 1, the 12-bit length, then the first six bytes; the length is exact iff it is at most 4095 |
| IsoTpProperties.NonFlowControlRejected | uds_tools/zlg_sample_csharp/zlg_sample_csharp/IsoTpClient.cs:51-53 | a frame other than Flow Control after the First Frame stops the send with an error, after the First Frame only |
| IsoTpProperties.CfSpecInBlock | uds_tools/zlg_sample_csharp/zlg_sample_csharp/IsoTpClient.cs:63-76 | a Consecutive Frame that does not complete a block is sent without waiting |
| IsoTpProperties.CfSpecBlockEnd | uds_tools/zlg_sample_csharp/zlg_sample_csharp/IsoTpClient.cs:76-83 | a Consecutive Frame that completes a block is followed by a wait for a Flow Control, which starts a new block |
| IsoTpProperties.CfSpecBlockEndTimeout | uds_tools/zlg_sample_csharp/zlg_sample_csharp/IsoTpClient.cs:79-81 | when no Flow Control comes after a block, the transfer times out |
| IsoTpProperties.FcNeededCount | uds_tools/zlg_sample_csharp/zlg_sample_csharp/IsoTpClient.cs:74-83 | the sender awaits (blk + n) / bs Flow Controls while it sends n more frames |
| IsoTpProperties.LastCompletesBlockMod | uds_tools/zlg_sample_csharp/zlg_sample_csharp/IsoTpClient.cs:74-83 | the last frame completes a block exactly when blk + n is a multiple of the block size |
| IsoTpProperties.CfSpecWithFlowControl | uds_tools/zlg_sample_csharp/zlg_sample_csharp/IsoTpClient.cs:59-87 | given the Flow Controls it awaits, the loop sends every remaining Consecutive Frame and succeeds; later block sizes are ignored |
| IsoTpProperties.SendWithFlowControl | uds_tools/zlg_sample_csharp/zlg_sample_csharp/IsoTpClient.cs:30-89 | with 1 + CfCount / bs Flow Controls a long payload goes out as exactly its segments: First Frame, then every Consecutive Frame |
| IsoTpProperties.CfSpecMissingLastFlowControl | uds_tools/zlg_sample_csharp/zlg_sample_csharp/IsoTpClient.cs:74-83 | when the last frame completes a block, the sender still waits for a Flow Control; with one fewer, it times out after sending every frame |
| IsoTpProperties.FlowControlAfterLastBlock | uds_tools/zlg_sample_csharp/zlg_sample_csharp/IsoTpClient.cs:63-83 | a payload whose Consecutive Frame count is a multiple of the block size times out unless a Flow Control follows the last block |
| IsoTpProperties.ReceiveSingle | uds_tools/zlg_sample_csharp/zlg_sample_csharp/IsoTpClient.cs:97-103 | a Single Frame yields exactly pci & 0x0F bytes from index 1 and nothing is sent |
| IsoTpProperties.ReceiveUnsupported | uds_tools/zlg_sample_csharp/zlg_sample_csharp/IsoTpClient.cs:135 | PCI types other than 0 and 1 are refused and nothing is sent |
| IsoTpProperties.ReassembleFacts | uds_tools/zlg_sample_csharp/zlg_sample_csharp/IsoTpClient.cs:117-132 | the reassembly loop sends nothing, consumes events, and a success has exactly the declared length and keeps the buffer as its prefix |
| IsoTpProperties.ReceiveConsumes | uds_tools/zlg_sample_csharp/zlg_sample_csharp/IsoTpClient.cs:91-136 | a successful receive consumes at least one event and sends at most one Flow Control |
| IsoTpProperties.ReceiveFirstFrame | uds_tools/zlg_sample_csharp/zlg_sample_csharp/IsoTpClient.cs:104-116 | a First Frame is answered by exactly one Flow Control 30 00 00; a success has the declared length and starts with the First Frame's six bytes |
| IsoTpProperties.ReceiveShortFirstFrame | uds_tools/zlg_sample_csharp/zlg_sample_csharp/IsoTpClient.cs:106-118 | a First Frame declaring fewer than six bytes yields its six data bytes, as the loop does not run |
| IsoTpProperties.ReassembleWrongSequence | uds_tools/zlg_sample_csharp/zlg_sample_csharp/IsoTpClient.cs:123-124 | a Consecutive Frame out of sequence is an error |
| IsoTpProperties.ReassembleStep | uds_tools/zlg_sample_csharp/zlg_sample_csharp/IsoTpClient.cs:118-129 | the receiver takes the sender's k-th Consecutive Frame and appends its data bytes |
| IsoTpProperties.ReassembleSent | uds_tools/zlg_sample_csharp/zlg_sample_csharp/IsoTpClient.cs:117-132 | the receiver turns the sender's Consecutive Frames from the k-th on into the rest of the payload |
| IsoTpProperties.RoundTrip | uds_tools/zlg_sample_csharp/zlg_sample_csharp/IsoTpClient.cs:30-136 | the frames the sender produces for a payload of up to 4095 bytes are received back as that payload |
| IsoTpProperties.SendThenReceive | uds_tools/zlg_sample_csharp/zlg_sample_csharp/IsoTpClient.cs:24-136 | end to end: what the sender puts on the bus, given the Flow Controls it needs, the receiver turns back into the payload |
| IsoTp.SingleFrame | uds_tools/zlg_sample_csharp/zlg_sample_csharp/IsoTpClient.cs:35-38 | the length nibble, the data and zero padding to 8 bytes; `SendShort` and `ReceiveSingle` prove it is what is sent and read back |
| IsoTp.FirstFrame | uds_tools/zlg_sample_csharp/zlg_sample_csharp/IsoTpClient.cs:43-48 | 0x10 with the high length nibble, the low length byte and the first 6 bytes; `TwelveBitLength` and `SendFirstFrame` state its layout |
| IsoTp.ConsecutiveFrame | uds_tools/zlg_sample_csharp/zlg_sample_csharp/IsoTpClient.cs:65-68 | the sequence-number PCI and the k-th 7-byte slice after the first 6 bytes; `ConsecutiveFrameLayout` and `CfFramesLayout` state its layout |
| IsoTp.CfSpec | uds_tools/zlg_sample_csharp/zlg_sample_csharp/IsoTpClient.cs:59-87 | the Consecutive Frame loop with a Flow Control wait after every full block; `CfSpecInBlock`, `CfSpecBlockEnd` and `CfSpecWithFlowControl` state its steps |
| IsoTp.SendSpec | uds_tools/zlg_sample_csharp/zlg_sample_csharp/IsoTpClient.cs:30-89 | the frames `SendIsoTp` sends and how it ends; `IsoTp.IsoTpClient.SendIsoTp` is proved against it and `SendWithFlowControl` states its whole log |
| IsoTp.Reassemble | uds_tools/zlg_sample_csharp/zlg_sample_csharp/IsoTpClient.cs:117-132 | collect Consecutive Frames while the buffer is short, checking each sequence number; `ReassembleFacts`, `ReassembleStep` and `ReassembleWrongSequence` state its steps |
| IsoTp.RecvSpec | uds_tools/zlg_sample_csharp/zlg_sample_csharp/IsoTpClient.cs:91-136 | the message `ReceiveIsoTp` returns and the frames it consumes; `ReceiveConsumes` and `RoundTrip` prove it reads back what `SendSpec` sends |
| IsoTp.RequestSpec | uds_tools/zlg_sample_csharp/zlg_sample_csharp/IsoTpClient.cs:24-28 | send the request, then receive the response; a send error ends the exchange. `IsoTp.IsoTpClient.RequestAsync` is proved against it, and `UdsClient.RequestShort` states what it sends and reads for a short request |
| CanTransport.Await | uds_tools/zlg_sample_csharp/zlg_sample_csharp/ZlgCanTransport_ZCAN.cs:266-290 | a receive consumes only events, at least one when it delivers a frame |
| CanTransport.AwaitTakesFromFront | uds_tools/zlg_sample_csharp/zlg_sample_csharp/ZlgCanTransport_ZCAN.cs:266-290 | a receive only consumes the front of the queue, and it delivers the data of a frame for the expected identifier that was on the bus |
| CanTransport.AwaitHead | uds_tools/zlg_sample_csharp/zlg_sample_csharp/ZlgCanTransport_ZCAN.cs:278-283 | a frame for the expected identifier at the head of the queue is delivered at once |
| CanTransport.AwaitSkipsOthers | uds_tools/zlg_sample_csharp/zlg_sample_csharp/ZlgCanTransport_ZCAN.cs:278 | frames for other identifiers ahead of the awaited one are dropped |
| CanTransport.ScriptedTransport.Send | uds_tools/zlg_sample_csharp/zlg_sample_csharp/ICanTransport.cs:12 | a send appends the frame to the bus log and leaves the incoming queue alone |
| CanTransport.ScriptedTransport.Receive | uds_tools/zlg_sample_csharp/zlg_sample_csharp/ZlgCanTransport_ZCAN.cs:254-290 | the receive loop delivers what `Await` says, consumes the same events, and sends nothing |
| HexText.Hex2 | uds_tools/zlg_sample_csharp/zlg_sample_csharp/BinToHexConverter.cs:59 | `X2` prints exactly two characters |
| HexText.Hex4 | uds_tools/zlg_sample_csharp/zlg_sample_csharp/BinToHexConverter.cs:59 | `X4` prints exactly four characters |
| HexText.HexBytes | uds_tools/zlg_sample_csharp/zlg_sample_csharp/BinToHexConverter.cs:58 | the dash-free `BitConverter.ToString` prints two characters per byte |
| HexText.DigitValue | uds_tools/zlg_sample_csharp/zlg_sample_csharp/IntelHexParser.cs:24 | a hex digit, of either case, is worth less than 16 |
| HexText.ParseHex | uds_tools/zlg_sample_csharp/zlg_sample_csharp/IntelHexParser.cs:24-26 | a successful `byte.Parse`/`ushort.Parse` with HexNumber never exceeds the type's maximum; empty, non-hex or signed text is a format error, a larger value an overflow |
| HexText.HexValueOfDigits | uds_tools/zlg_sample_csharp/zlg_sample_csharp/IntelHexParser.cs:24 | two hex digits are worth 16 times the first plus the second |
| HexText.DigitOfHexChar | uds_tools/zlg_sample_csharp/zlg_sample_csharp/BinToHexConverter.cs:59 | every digit `X2` prints parses back to its value and is not white space |
| HexText.Hex2Digits | uds_tools/zlg_sample_csharp/zlg_sample_csharp/BinToHexConverter.cs:59 | what `X2` prints is two hex digits worth the byte |
| HexText.ParseHex2 | uds_tools/zlg_sample_csharp/zlg_sample_csharp/BinToHexConverter.cs:59 | parsing what `X2` printed gives the byte back |
| HexText.HexValueAppend | uds_tools/zlg_sample_csharp/zlg_sample_csharp/IntelHexParser.cs:25 | appending two hex digits multiplies the value by 256 and adds theirs |
| HexText.ParseHex4 | uds_tools/zlg_sample_csharp/zlg_sample_csharp/BinToHexConverter.cs:59 | parsing what `X4` printed gives the 16-bit value back |
| HexText.HexBytesAt | uds_tools/zlg_sample_csharp/zlg_sample_csharp/BinToHexConverter.cs:58 | characters 2i and 2i+1 of the dash-free hex string are byte i in `X2` |
| HexText.Hex2Injective | uds_tools/zlg_sample_csharp/zlg_sample_csharp/BinToHexConverter.cs:58-59 | different bytes print differently |
| HexText.NatDecimal | uds_tools/zlg_sample_csharp/zlg_sample_csharp/AppConfig.cs:78 | a natural number prints as at least one decimal digit and nothing else |
| HexText.Decimal | uds_tools/zlg_sample_csharp/zlg_sample_csharp/AppConfig.cs:78 | `int.ToString()` is never empty |
| HexText.DecimalSingleDigit | uds_tools/zlg_sample_csharp/zlg_sample_csharp/AppConfig.cs:78 | the key "1" (or "2") is looked up for level 1 (or 2) and for no other level |
| PyText.StripStart | can_tools/auto_generate_can_msg.py:39 | stripping the front leaves a suffix that starts with a non-space |
| PyText.StripEnd | can_tools/auto_generate_can_msg.py:39 | stripping the end leaves a prefix that ends with a non-space |
| PyText.Strip | can_tools/auto_generate_can_msg.py:39 | `str.strip` gives text no longer than the input that neither starts nor ends with white space |
| PyText.StripKeepsMiddle | can_tools/auto_generate_can_msg.py:39 | `str.strip` removes only the white space at the two ends: the result is a contiguous slice of the input |
| PyText.Upper | can_tools/auto_generate_can_msg.py:40 | `upper` maps each character and keeps the length |
| PyText.Lower | can_tools/auto_generate_can_msg.py:43 | `lower` maps each character and keeps the length |
| UdsHelpers.SameIsPositive | uds_tools/zlg_sample_csharp/zlg_sample_csharp/UdsHelpers.cs:8-9 | the helper copy of the positive-response test agrees with the canonical one on every input |
| UdsHelpers.SameTryParseNrc | uds_tools/zlg_sample_csharp/zlg_sample_csharp/UdsHelpers.cs:12-23 | the helper copy of the negative-response parser agrees with the canonical one on every input |
| UdsHelpers.SameAsString | uds_tools/zlg_sample_csharp/zlg_sample_csharp/UdsHelpers.cs:26-44 | the helper name table gives the same text as the canonical table for every code, the "Unknown NRC" fallback included |
| UdsHelpers.IsPositive | uds_tools/zlg_sample_csharp/zlg_sample_csharp/UdsHelpers.cs:8-9 | the helper's positive-response test; `SameIsPositive` proves it equal to `UdsNrc.IsPositive` on every input |
| UdsHelpers.TryParseNrc | uds_tools/zlg_sample_csharp/zlg_sample_csharp/UdsHelpers.cs:12-23 | the helper's negative-response parse; `SameTryParseNrc` proves it equal to `UdsNrc.TryParseNrc` on every input |
| UdsHelpers.AsString | uds_tools/zlg_sample_csharp/zlg_sample_csharp/UdsHelpers.cs:26-44 | the helper's name table; `SameAsString` proves it equal to `UdsNrc.AsString` on every code |
| Security.NormaliseSeedLayout | uds_tools/zlg_sample_csharp/zlg_sample_csharp/SecurityAlgorithm.cs:32-37 | the cipher input keeps the seed's first min(len, 16) bytes and is zero after them; a seed of 16 bytes or more is cut to its first 16 |
| Security.NormaliseSeedIgnoresTail | uds_tools/zlg_sample_csharp/zlg_sample_csharp/SecurityAlgorithm.cs:32-37 | bytes after the 16th never reach the cipher |
| Security.NormaliseSeed | uds_tools/zlg_sample_csharp/zlg_sample_csharp/SecurityAlgorithm.cs:32-37 | a 16-byte seed as is, otherwise its first bytes in a zeroed block; `NormaliseSeedLayout` and `NormaliseSeedIgnoresTail` state it |
| Security.SecurityAlgorithm.constructor | uds_tools/zlg_sample_csharp/zlg_sample_csharp/SecurityAlgorithm.cs:7-17 | the two keys start as the built-in level 1 and level 2 keys |
| Security.SecurityAlgorithm.SetKeys | uds_tools/zlg_sample_csharp/zlg_sample_csharp/SecurityAlgorithm.cs:7-17 | the property setters replace both keys |
| Security.SecurityAlgorithm.GenerateKey | uds_tools/zlg_sample_csharp/zlg_sample_csharp/SecurityAlgorithm.cs:19-44 | succeeds iff the selected key has an AES key size, and then is the decryption of the normalised seed under that key; with 16-byte keys it always succeeds |
| Security.SecurityAlgorithm.OtherLevelsUseLevel1 | uds_tools/zlg_sample_csharp/zlg_sample_csharp/SecurityAlgorithm.cs:21 | every level other than 2 behaves exactly as level 1 |
| Security.SecurityAlgorithm.SelectedKey | uds_tools/zlg_sample_csharp/zlg_sample_csharp/SecurityAlgorithm.cs:21 | the level-2 key for level 2, the level-1 key for every other level; `OtherLevelsUseLevel1` and `GenerateKeyDeterministic` state what the choice decides |
| Security.SecurityAlgorithm.GenerateKeyDeterministic | uds_tools/zlg_sample_csharp/zlg_sample_csharp/SecurityAlgorithm.cs:19-44 | the key depends only on the selected AES key and the normalised seed |
| AppConfig.RemoveHexPrefixNoX | uds_tools/zlg_sample_csharp/zlg_sample_csharp/AppConfig.cs:83 | `Replace("0x", "")` leaves text without an 'x' unchanged |
| AppConfig.RemoveHexPrefixSinglePass | uds_tools/zlg_sample_csharp/zlg_sample_csharp/AppConfig.cs:83 | the replacement is one left-to-right pass: "00xx" becomes "0x" |
| AppConfig.ParseKeyBytePrefixed | uds_tools/zlg_sample_csharp/zlg_sample_csharp/AppConfig.cs:83-84 | an entry "0x" + two uppercase digits parses back to its byte |
| AppConfig.ParsedEntries | uds_tools/zlg_sample_csharp/zlg_sample_csharp/AppConfig.cs:81-85 | entry i of the list is parsed on its own, in list order |
| AppConfig.KeyLength | uds_tools/zlg_sample_csharp/zlg_sample_csharp/AppConfig.cs:81 | the loop reads min(16, count) entries |
| AppConfig.AesKeySpec | uds_tools/zlg_sample_csharp/zlg_sample_csharp/AppConfig.cs:80-86 | a successful key is always 16 bytes |
| AppConfig.AesKeyLayout | uds_tools/zlg_sample_csharp/zlg_sample_csharp/AppConfig.cs:80-86 | entries after the 16th are never read; a short list leaves the rest of the key zero; each read entry gives its own key byte |
| AppConfig.Prefixed | uds_tools/zlg_sample_csharp/zlg_sample_csharp/AppConfig.cs:72-73 | the default table's layout: byte i is written as "0x" and its two uppercase digits |
| AppConfig.KeyBytesPrefixed | uds_tools/zlg_sample_csharp/zlg_sample_csharp/AppConfig.cs:81-85 | a key written in that layout is read back byte for byte |
| AppConfig.DefaultKeysAgree | uds_tools/zlg_sample_csharp/zlg_sample_csharp/AppConfig.cs:70-74 | the configured default lists for levels 1 and 2 decode to the keys built into the security algorithm |
| AppConfig.AesKeyOfPrefixed | uds_tools/zlg_sample_csharp/zlg_sample_csharp/AppConfig.cs:76-89 | a 16-byte key written out as entries decodes to itself |
| AppConfig.DefaultLevel1Written | uds_tools/zlg_sample_csharp/zlg_sample_csharp/AppConfig.cs:72 | the level 1 default list is the built-in level 1 key written out |
| AppConfig.DefaultLevel2Written | uds_tools/zlg_sample_csharp/zlg_sample_csharp/AppConfig.cs:73 | the level 2 default list is the built-in level 2 key written out |
| AppConfig.DefaultLevels | uds_tools/zlg_sample_csharp/zlg_sample_csharp/AppConfig.cs:78 | with the defaults, `level.ToString()` finds a list exactly for levels 1 and 2 |
| AppConfig.AesKeyStopsAt | uds_tools/zlg_sample_csharp/zlg_sample_csharp/AppConfig.cs:81-85 | the first entry that fails to parse decides the error |
| AppConfig.AesKeyCompleted | uds_tools/zlg_sample_csharp/zlg_sample_csharp/AppConfig.cs:80-86 | when every read entry parses, the key is those bytes followed by zeros |
| AppConfig.FillKey | uds_tools/zlg_sample_csharp/zlg_sample_csharp/AppConfig.cs:80-86 | the loop over a zeroed `byte[16]` returns exactly the key the list specifies, or the first parse error |
| AppConfig.RemoveHexPrefix | uds_tools/zlg_sample_csharp/zlg_sample_csharp/AppConfig.cs:83 | one pass removing every "0x", never lengthening the text; `RemoveHexPrefixNoX` and `RemoveHexPrefixSinglePass` prove what it removes |
| AppConfig.ParseKeyByte | uds_tools/zlg_sample_csharp/zlg_sample_csharp/AppConfig.cs:83-84 | the entry with "0x" removed, read as a hex byte or an error; `ParseKeyBytePrefixed` proves "0x" + two digits gives their value |
| AppConfig.KeyBytes | uds_tools/zlg_sample_csharp/zlg_sample_csharp/AppConfig.cs:81-85 | the first entries parsed in order, or the first error; `KeyBytesPrefixed` and `AesKeySpec` state it |
| AppConfig.FlashConfig.constructor | uds_tools/zlg_sample_csharp/zlg_sample_csharp/AppConfig.cs:70-74 | a new configuration holds the default key lists |
| AppConfig.FlashConfig.GetAesKey | uds_tools/zlg_sample_csharp/zlg_sample_csharp/AppConfig.cs:76-89 | no key (null) for a level without a list; otherwise the list's key, or the parse error `byte.Parse` throws |
| IntelHex.Field | uds_tools/zlg_sample_csharp/zlg_sample_csharp/IntelHexParser.cs:24-26 | a parsed fixed field lies inside the line and does not exceed its type's largest value |
| IntelHex.DecodeRecord | uds_tools/zlg_sample_csharp/zlg_sample_csharp/IntelHexParser.cs:24-27 | a decoded record has a byte count below 256, a 16-bit address, a byte record type and a data field of exactly two digits per byte |
| IntelHex.Pairs | uds_tools/zlg_sample_csharp/zlg_sample_csharp/IntelHexParser.cs:44-47 | the data field gives one parse per pair of digits |
| IntelHex.DataBytes | uds_tools/zlg_sample_csharp/zlg_sample_csharp/IntelHexParser.cs:44-47 | a successful read gives exactly `byteCount` bytes |
| IntelHex.Flush | uds_tools/zlg_sample_csharp/zlg_sample_csharp/IntelHexParser.cs:51-55 | closing adds the pending segment exactly when it holds data |
| IntelHex.DataRecord | uds_tools/zlg_sample_csharp/zlg_sample_csharp/IntelHexParser.cs:29-47 | a data record that starts right after the current segment extends it; at any other address it closes the current segment and starts a new one; with nothing pending it starts one; the record is placed by the address rule given (`upperAddress | address` as written, base plus offset as corrected, see Findings); the upper address is unchanged |
| IntelHex.Word | uds_tools/zlg_sample_csharp/zlg_sample_csharp/IntelHexParser.cs:60 | the extended-address field is a 16-bit value |
| IntelHex.ReadDataBytes | uds_tools/zlg_sample_csharp/zlg_sample_csharp/IntelHexParser.cs:44-47 | the byte loop gives the record's bytes, or the first bad pair's error |
| IntelHex.ParseLine | uds_tools/zlg_sample_csharp/zlg_sample_csharp/IntelHexParser.cs:20-66 | one pass of the loop body: skipped lines change nothing, a malformed line throws, otherwise the record is applied |
| IntelHex.HandleRecord | uds_tools/zlg_sample_csharp/zlg_sample_csharp/IntelHexParser.cs:29-65 | the record-type dispatch (00 data, 01 end of file, 02 and 04 upper address, others ignored) matches the specification of a record, under either address rule |
| IntelHex.Parse | uds_tools/zlg_sample_csharp/zlg_sample_csharp/IntelHexParser.cs:13-69 | the parser returns exactly the segments the line-by-line specification gives under the address rule given, or the first error |
| IntelHex.Unskipped | uds_tools/zlg_sample_csharp/zlg_sample_csharp/IntelHexParser.cs:22 | the kept lines are the ones that are neither blank nor missing the leading ':' |
| IntelHex.SkippedLinesIgnored | uds_tools/zlg_sample_csharp/zlg_sample_csharp/IntelHexParser.cs:22 | dropping blank lines and lines without ':' leaves the result unchanged |
| IntelHex.RunConcat | uds_tools/zlg_sample_csharp/zlg_sample_csharp/IntelHexParser.cs:20-66 | lines that leave the parser running hand their state on to the following lines |
| IntelHex.PendingNeedsEof | uds_tools/zlg_sample_csharp/zlg_sample_csharp/IntelHexParser.cs:49-57 | without an EOF record the pending data is dropped; an EOF record after the same lines returns it as the last segment, and nothing after the EOF record is read |
| IntelHex.FlushFacts | uds_tools/zlg_sample_csharp/zlg_sample_csharp/IntelHexParser.cs:51-55 | closing keeps every held byte in order and never adds an empty segment |
| IntelHex.DataRecordFacts | uds_tools/zlg_sample_csharp/zlg_sample_csharp/IntelHexParser.cs:29-47 | a data record appends exactly its bytes after everything held |
| IntelHex.ApplyKeepsBytes | uds_tools/zlg_sample_csharp/zlg_sample_csharp/IntelHexParser.cs:29-65 | a data record appends its bytes, an EOF record returns everything held, other records change no bytes, and no empty segment is ever closed |
| IntelHex.ApplyData | uds_tools/zlg_sample_csharp/zlg_sample_csharp/IntelHexParser.cs:29-47 | a data record applies `DataRecord` to the bytes it reads |
| IntelHex.ApplyOther | uds_tools/zlg_sample_csharp/zlg_sample_csharp/IntelHexParser.cs:58-65 | records other than 00 and 01 change only the upper address |
| IntelHex.NoEmptySegments | uds_tools/zlg_sample_csharp/zlg_sample_csharp/IntelHexParser.cs:32-55 | no returned segment is empty |
| IntelHex.LinearAddressIsSum | uds_tools/zlg_sample_csharp/zlg_sample_csharp/IntelHexParser.cs:31 | after a type-04 record, `upperAddress \| address` equals `upperAddress + address` |
| IntelHex.IntendedAddress | uds_tools/zlg_sample_csharp/zlg_sample_csharp/IntelHexParser.cs:31 | the address the Intel HEX format defines (base plus offset) agrees with the OR whenever the base is a multiple of 0x10000 |
| IntelHex.IntendedAddressInjective | uds_tools/zlg_sample_csharp/zlg_sample_csharp/IntelHexParser.cs:31 | under one base, different offsets give different addresses |
| IntelHex.SegmentAddressCollision | uds_tools/zlg_sample_csharp/zlg_sample_csharp/IntelHexParser.cs:31 | after a type-02 record for segment 0x0001, offsets 0x0000 and 0x0010 both map to 0x10 under the OR |
| IntelHex.Skipped | uds_tools/zlg_sample_csharp/zlg_sample_csharp/IntelHexParser.cs:22 | blank or white-space lines and lines without a leading ':'; `SkippedLinesIgnored` proves they do not change the result |
| IntelHex.Absolute | uds_tools/zlg_sample_csharp/zlg_sample_csharp/IntelHexParser.cs:31 | the OR of the upper address and the offset; `LinearAddressIsSum` and `SegmentAddressCollision` prove where it agrees with the sum and where it does not |
| IntelHex.Place | uds_tools/zlg_sample_csharp/zlg_sample_csharp/IntelHexParser.cs:31 | where a data record lands under each rule: the OR as written, base plus offset as corrected |
| IntelHex.ApplyRecord | uds_tools/zlg_sample_csharp/zlg_sample_csharp/IntelHexParser.cs:29-65 | what a decoded record does to the parser's variables; `ApplyKeepsBytes`, `ApplyData` and `ApplyOther` state it per record type |
| IntelHex.StepLine | uds_tools/zlg_sample_csharp/zlg_sample_csharp/IntelHexParser.cs:20-66 | one line: skipped, a parse error, or the record applied; `RunConcat` proves lines that leave the parser running chain |
| IntelHex.Run | uds_tools/zlg_sample_csharp/zlg_sample_csharp/IntelHexParser.cs:20-66 | the `foreach` over the lines: it runs out of lines or stops at an EOF record; `RunConcat`, `PendingNeedsEof` and `RunRulesAgree` state it |
| IntelHex.ParseSpec | uds_tools/zlg_sample_csharp/zlg_sample_csharp/IntelHexParser.cs:13-69 | the whole file read with base plus offset; `HexRoundTrip.RoundTrip` proves it reads back what `BinToHex` writes |
| IntelHex.ParseAsWritten | uds_tools/zlg_sample_csharp/zlg_sample_csharp/IntelHexParser.cs:13-69 | the whole file read with the OR placement of line 31; `RulesAgree`, `HexAddressRule.AsWrittenRoundTrip` and `HexAddressRule.ParsedCollision` state where it agrees with `ParseSpec` and where it does not |
| IntelHex.ApplyRulesAgree | uds_tools/zlg_sample_csharp/zlg_sample_csharp/IntelHexParser.cs:29-65 | with a base that is a multiple of 0x10000, any record other than type 02 does the same under both rules and keeps such a base |
| IntelHex.RunRulesAgree | uds_tools/zlg_sample_csharp/zlg_sample_csharp/IntelHexParser.cs:20-66 | from such a base, lines without a type-02 record give the same result under both rules |
| IntelHex.RulesAgree | uds_tools/zlg_sample_csharp/zlg_sample_csharp/IntelHexParser.cs:13-69 | the parser as written and the corrected one return the same segments for every file without a type-02 record |
| HexAddressRule.SegRec | uds_tools/zlg_sample_csharp/zlg_sample_csharp/IntelHexParser.cs:58-61 | a type-02 record carrying a segment number as its two data bytes |
| HexAddressRule.StepSeg | uds_tools/zlg_sample_csharp/zlg_sample_csharp/IntelHexParser.cs:58-61 | reading a type-02 line sets the upper address to the segment times 16 and changes nothing else, under either rule |
| HexAddressRule.RunsTo | uds_tools/zlg_sample_csharp/zlg_sample_csharp/IntelHexParser.cs:29-61 | a segment record, bytes at offsets 0x0000 and 0x0010 and EOF give two one-byte segments at the addresses the rule picks |
| HexAddressRule.ParsedCollision | uds_tools/zlg_sample_csharp/zlg_sample_csharp/IntelHexParser.cs:31 | for segment 0x0001 the parser as written returns both bytes at 0x10, in two overlapping segments; the corrected parser returns them at 0x10 and 0x20 |
| HexAddressRule.WrittenLinesLinear | uds_tools/zlg_sample_csharp/zlg_sample_csharp/BinToHexConverter.cs:16-44 | no line the converter writes is a type-02 record |
| HexAddressRule.AsWrittenRoundTrip | uds_tools/zlg_sample_csharp/zlg_sample_csharp/IntelHexParser.cs:13-69 | the parser as written reads the converter's output back as one segment at the base holding the image (none for an empty image) |
| BinToHex.Line | uds_tools/zlg_sample_csharp/zlg_sample_csharp/BinToHexConverter.cs:59 | a record's line has 11 characters plus two per data byte |
| BinToHex.Lines | uds_tools/zlg_sample_csharp/zlg_sample_csharp/BinToHexConverter.cs:9-46 | one line per record written, in order |
| BinToHex.LineLength | uds_tools/zlg_sample_csharp/zlg_sample_csharp/BinToHexConverter.cs:28-34 | a data record holds 1 to 16 bytes, no more than remain, and never crosses the end of its 64 KiB page |
| BinToHex.NextOffset | uds_tools/zlg_sample_csharp/zlg_sample_csharp/BinToHexConverter.cs:28-40 | each loop turn advances the offset by 1 to 16 bytes without passing the end |
| BinToHex.WriteRecord | uds_tools/zlg_sample_csharp/zlg_sample_csharp/BinToHexConverter.cs:48-60 | the byte-wise checksum loop and the formatted line equal the record's line with the two's-complement checksum of its bytes |
| BinToHex.LinesAppend | uds_tools/zlg_sample_csharp/zlg_sample_csharp/BinToHexConverter.cs:9-46 | the lines of two record lists are the lines of each, in order |
| BinToHex.LinesSnoc | uds_tools/zlg_sample_csharp/zlg_sample_csharp/BinToHexConverter.cs:44 | writing one more record adds its line at the end |
| BinToHex.ChunkLines | uds_tools/zlg_sample_csharp/zlg_sample_csharp/BinToHexConverter.cs:16-41 | a loop turn writes the optional type-04 record and then the data record |
| BinToHex.WriteChunk | uds_tools/zlg_sample_csharp/zlg_sample_csharp/BinToHexConverter.cs:16-41 | one turn of the `while` loop writes the records the specification gives and moves `offset` and `currentUpperAddress` as it says |
| BinToHex.Convert | uds_tools/zlg_sample_csharp/zlg_sample_csharp/BinToHexConverter.cs:9-46 | the converter writes exactly the lines of the specified records: a type-04 record whenever the upper address changes, data records, then the EOF record |
| BinToHex.ChecksumCancels | uds_tools/zlg_sample_csharp/zlg_sample_csharp/BinToHexConverter.cs:50-56 | the bytes of a record and its checksum add up to 0 modulo 256 |
| BinToHex.DataOfAppend | uds_tools/zlg_sample_csharp/zlg_sample_csharp/BinToHexConverter.cs:9-46 | the data carried by two record lists is the data of each, in order |
| BinToHex.ChunkFacts | uds_tools/zlg_sample_csharp/zlg_sample_csharp/BinToHexConverter.cs:16-41 | a loop turn writes well-formed records that carry the bytes from `offset` to the turn's end |
| BinToHex.EndsWithEof | uds_tools/zlg_sample_csharp/zlg_sample_csharp/BinToHexConverter.cs:44 | well-formed records before a list ending in the EOF record keep it ending there |
| BinToHex.TerminatedPrepend | uds_tools/zlg_sample_csharp/zlg_sample_csharp/BinToHexConverter.cs:16-44 | well-formed records before a terminated list keep it terminated, their data first |
| BinToHex.RecordsFromFacts | uds_tools/zlg_sample_csharp/zlg_sample_csharp/BinToHexConverter.cs:16-44 | from any offset, the records are well formed, end in exactly one EOF record and carry the rest of the image in order |
| BinToHex.ConvertFacts | uds_tools/zlg_sample_csharp/zlg_sample_csharp/BinToHexConverter.cs:9-46 | the whole file is well-formed records carrying the image in order, then one EOF record |
| BinToHex.FirstRecordIsExt | uds_tools/zlg_sample_csharp/zlg_sample_csharp/BinToHexConverter.cs:14-26 | the first record of a non-empty image is the type-04 record for the base address's upper 16 bits |
| BinToHex.LineFields | uds_tools/zlg_sample_csharp/zlg_sample_csharp/BinToHexConverter.cs:59 | each field of a line sits where a reader looks for it: ':' then length, address, type, data and checksum |
| BinToHex.EofLine | uds_tools/zlg_sample_csharp/zlg_sample_csharp/BinToHexConverter.cs:44 | the last line is always ":00000001FF" |
| BinToHex.Checksum | uds_tools/zlg_sample_csharp/zlg_sample_csharp/BinToHexConverter.cs:50-56 | the two's complement of the record's byte sum; `ChecksumCancels` proves the record's bytes and checksum sum to 0 modulo 256 |
| BinToHex.ExtRec | uds_tools/zlg_sample_csharp/zlg_sample_csharp/BinToHexConverter.cs:24 | the type-04 record for an upper address; `HexRoundTrip.ExtDecodes` proves the reader gets the upper address back |
| BinToHex.RecordsFrom | uds_tools/zlg_sample_csharp/zlg_sample_csharp/BinToHexConverter.cs:16-44 | the records the loop writes from an offset on, then EOF; `RecordsFromFacts` and `ChunkFacts` state their shape |
| BinToHex.Chunk | uds_tools/zlg_sample_csharp/zlg_sample_csharp/BinToHexConverter.cs:18-38 | one turn of the `while` loop: a type-04 record when the upper address bits change, then one data record; `ChunkFacts` and `ChunkLines` state what it writes and `BinToHex.WriteChunk` is proved against it |
| BinToHex.ConvertSpec | uds_tools/zlg_sample_csharp/zlg_sample_csharp/BinToHexConverter.cs:9-46 | all records of one conversion; `ConvertFacts` states their shape and `HexRoundTrip.RoundTrip` that the reader gets the image back |
| HexRoundTrip.LineDecodes | uds_tools/zlg_sample_csharp/zlg_sample_csharp/IntelHexParser.cs:22-27 | a line the converter writes is not skipped and its fields decode to the record's length, address, type and data text |
| HexRoundTrip.DataDecodes | uds_tools/zlg_sample_csharp/zlg_sample_csharp/IntelHexParser.cs:44-47 | the data field the converter writes reads back as the record's bytes |
| HexRoundTrip.ExtDecodes | uds_tools/zlg_sample_csharp/zlg_sample_csharp/IntelHexParser.cs:62-65 | the two bytes of a type-04 record read back as its upper address |
| HexRoundTrip.StepExt | uds_tools/zlg_sample_csharp/zlg_sample_csharp/IntelHexParser.cs:62-65 | reading a written type-04 line sets the upper address to that value shifted by 16 |
| HexRoundTrip.StepData | uds_tools/zlg_sample_csharp/zlg_sample_csharp/IntelHexParser.cs:29-47 | reading a written data line applies the data-record rule to its bytes |
| HexRoundTrip.StepEof | uds_tools/zlg_sample_csharp/zlg_sample_csharp/IntelHexParser.cs:49-57 | reading the written EOF line closes the pending segment and stops |
| HexRoundTrip.TurnDataStep | uds_tools/zlg_sample_csharp/zlg_sample_csharp/BinToHexConverter.cs:28-40 | with the turn's upper address set, the turn's data record continues the open segment at the base |
| HexRoundTrip.DataExtends | uds_tools/zlg_sample_csharp/zlg_sample_csharp/IntelHexParser.cs:29-47 | the data record of one writer turn extends the open segment (or opens it at the base) |
| HexRoundTrip.ChunkRead | uds_tools/zlg_sample_csharp/zlg_sample_csharp/BinToHexConverter.cs:16-41 | after the lines of one writer turn, the parser holds one open segment at the base with all bytes written so far |
| HexRoundTrip.RoundTripEnd | uds_tools/zlg_sample_csharp/zlg_sample_csharp/BinToHexConverter.cs:44 | the EOF line returns the one open segment, or nothing for an empty image |
| HexRoundTrip.RoundTripFrom | uds_tools/zlg_sample_csharp/zlg_sample_csharp/BinToHexConverter.cs:16-44 | the records from any offset, read from the matching parser state, end in one segment holding the whole image |
| HexRoundTrip.RoundTrip | uds_tools/zlg_sample_csharp/zlg_sample_csharp/BinToHexConverter.cs:9-46 | converting an image that fits below 4 GiB and parsing the lines gives exactly one segment at the base address holding the image (none for an empty image) |
| FlashScript.ResetsSnoc | uds_tools/zlg_sample_csharp/zlg_sample_csharp/FlashManager.cs:139 | a logged call adds one to the count of ECU resets exactly when it is the reset |
| FlashScript.Head | uds_tools/zlg_sample_csharp/zlg_sample_csharp/FlashManager.cs:46 | an ECU with nothing left to say answers with a timeout; otherwise its next scripted answer |
| FlashScript.Tail | uds_tools/zlg_sample_csharp/zlg_sample_csharp/FlashManager.cs:46 | an answer, once given, is gone; an empty queue stays empty |
| FlashScript.Ack | uds_tools/zlg_sample_csharp/zlg_sample_csharp/FlashManager.cs:46 | a call whose result is discarded is logged, consumes at most one answer, and counts a reset only when it is the reset |
| FlashScript.Flag | uds_tools/zlg_sample_csharp/zlg_sample_csharp/FlashManager.cs:52 | a call returning bool is logged and consumes one answer when it returns |
| FlashScript.Seed | uds_tools/zlg_sample_csharp/zlg_sample_csharp/FlashManager.cs:61 | RequestSeed is logged and consumes one answer when it returns; the answer may be a null array |
| FlashScript.Window | uds_tools/zlg_sample_csharp/zlg_sample_csharp/FlashManager.cs:171 | RequestDownload is logged and consumes one answer when it returns |
| FlashScript.Nrc | uds_tools/zlg_sample_csharp/zlg_sample_csharp/FlashManager.cs:199 | TransferData is logged and consumes one answer when it returns |
| FlashScript.ScriptedUds.constructor | uds_tools/zlg_sample_csharp/zlg_sample_csharp/FlashManager.cs:13 | the client starts from the given script |
| FlashScript.ScriptedUds.AckCall | uds_tools/zlg_sample_csharp/zlg_sample_csharp/FlashManager.cs:46 | the call changes the client's state as `Ack` says |
| FlashScript.ScriptedUds.FlagCall | uds_tools/zlg_sample_csharp/zlg_sample_csharp/FlashManager.cs:52 | the call changes the client's state as `Flag` says |
| FlashScript.ScriptedUds.SeedCall | uds_tools/zlg_sample_csharp/zlg_sample_csharp/FlashManager.cs:61 | the call changes the client's state as `Seed` says |
| FlashScript.ScriptedUds.WindowCall | uds_tools/zlg_sample_csharp/zlg_sample_csharp/FlashManager.cs:171 | the call changes the client's state as `Window` says |
| FlashScript.ScriptedUds.NrcCall | uds_tools/zlg_sample_csharp/zlg_sample_csharp/FlashManager.cs:199 | the call changes the client's state as `Nrc` says |
| Flashing.NoLaterTotal | uds_tools/zlg_sample_csharp/zlg_sample_csharp/FlashManager.cs:30 | any two paths are ordered one way or the other |
| Flashing.NoLater | uds_tools/zlg_sample_csharp/zlg_sample_csharp/FlashManager.cs:30 | ordinal string order; `NoLaterTotal` proves it total, and `SortByPath` sorts by it |
| Flashing.Insert | uds_tools/zlg_sample_csharp/zlg_sample_csharp/FlashManager.cs:30 | insertion keeps the files (as a multiset) and keeps a sorted list sorted |
| Flashing.SortedCons | uds_tools/zlg_sample_csharp/zlg_sample_csharp/FlashManager.cs:30 | a file no later than the head of a sorted list extends it sorted |
| Flashing.SortByPath | uds_tools/zlg_sample_csharp/zlg_sample_csharp/FlashManager.cs:30 | `OrderBy(f => f)` gives a permutation of the listing sorted by path |
| Flashing.Pad | uds_tools/zlg_sample_csharp/zlg_sample_csharp/FlashManager.cs:157-166 | the padded data is a multiple of 128 bytes, less than 128 bytes longer, starts with the data and ends in 0xCC bytes; aligned data is unchanged |
| Flashing.TotalBlocksIsCeiling | uds_tools/zlg_sample_csharp/zlg_sample_csharp/FlashManager.cs:179-180 | for a positive block size, totalBlocks blocks cover the data and no whole block lies past it |
| Flashing.TruncDiv | uds_tools/zlg_sample_csharp/zlg_sample_csharp/FlashManager.cs:180 | C#'s integer division, rounding toward zero; `TotalBlocksIsCeiling` uses it for the block count |
| Flashing.TotalBlocks | uds_tools/zlg_sample_csharp/zlg_sample_csharp/FlashManager.cs:180 | the block count as the program computes it; `TotalBlocksIsCeiling` proves it the ceiling of length over block size for a positive block size |
| Flashing.Counter | uds_tools/zlg_sample_csharp/zlg_sample_csharp/FlashManager.cs:189 | the block sequence counter `(i + 1) % 256`; `FlashingProperties.BlocksLog` proves block i is sent with it |
| Flashing.BlockStartsInside | uds_tools/zlg_sample_csharp/zlg_sample_csharp/FlashManager.cs:182-185 | every block of the loop starts inside the data |
| Flashing.BlockAt | uds_tools/zlg_sample_csharp/zlg_sample_csharp/FlashManager.cs:184-187 | every block of the loop is non-empty and at most blockSize bytes |
| Flashing.SendBlockFrom | uds_tools/zlg_sample_csharp/zlg_sample_csharp/FlashManager.cs:192-225 | the block loop only consumes answers and appends to the log |
| Flashing.SendBlock | uds_tools/zlg_sample_csharp/zlg_sample_csharp/FlashManager.cs:192-225 | one block with up to two attempts; `FlashingProperties.BlockRetry` states its outcomes |
| Flashing.SendBlocksFrom | uds_tools/zlg_sample_csharp/zlg_sample_csharp/FlashManager.cs:182-237 | the block loop over a segment only consumes answers and appends to the log |
| Flashing.SendBlocksStep | uds_tools/zlg_sample_csharp/zlg_sample_csharp/FlashManager.cs:182-231 | one turn of the for loop: send block i with counter (i+1)%256, stop on anything but success, else go on with i+1 |
| Flashing.Transfer | uds_tools/zlg_sample_csharp/zlg_sample_csharp/FlashManager.cs:179-187 | the transfer only consumes answers; maxBlockLen 2 and 1 are the division by zero and the negative length the code runs into |
| Flashing.SendSegment | uds_tools/zlg_sample_csharp/zlg_sample_csharp/FlashManager.cs:155-245 | a segment only consumes answers; a plain `false` always consumed at least one |
| Flashing.SendSegmentsFrom | uds_tools/zlg_sample_csharp/zlg_sample_csharp/FlashManager.cs:155-246 | the segments in order only consume answers; a plain `false` consumed at least one |
| Flashing.FlashHexFile | uds_tools/zlg_sample_csharp/zlg_sample_csharp/FlashManager.cs:152-247 | a file only consumes answers; a parse error throws before any call |
| Flashing.Reauthenticate | uds_tools/zlg_sample_csharp/zlg_sample_csharp/FlashManager.cs:101-111 | the retry preamble consumes answers and makes no reset |
| Flashing.Attempt | uds_tools/zlg_sample_csharp/zlg_sample_csharp/FlashManager.cs:98-114 | one try of a file consumes answers; a plain `false` consumed at least one, so the uncounted retry cannot loop for ever |
| Flashing.FileAttemptsFrom | uds_tools/zlg_sample_csharp/zlg_sample_csharp/FlashManager.cs:94-125 | the file loop ends, having only consumed answers |
| Flashing.FileAttemptsStep | uds_tools/zlg_sample_csharp/zlg_sample_csharp/FlashManager.cs:96-125 | one turn of the file loop: an exception counts an attempt, `true` ends the loop, `false` retries without counting |
| Flashing.FlashFile | uds_tools/zlg_sample_csharp/zlg_sample_csharp/FlashManager.cs:94-131 | the retry loop for one file; `FileAttemptsStep`, `RefusalsAreNotCounted` and `SilentEcuGivesUp` state it |
| Flashing.Wakeup | uds_tools/zlg_sample_csharp/zlg_sample_csharp/FlashManager.cs:44-48 | the wake-up consumes answers and appends to the log |
| Flashing.Prepare | uds_tools/zlg_sample_csharp/zlg_sample_csharp/FlashManager.cs:42-84 | steps 0 to 4 consume answers and make no reset |
| Flashing.Unlock | uds_tools/zlg_sample_csharp/zlg_sample_csharp/FlashManager.cs:50-76 | the session and SecurityAccess steps consume answers and make no reset |
| Flashing.Silence | uds_tools/zlg_sample_csharp/zlg_sample_csharp/FlashManager.cs:78-84 | the DTC and communication steps consume answers and make no reset |
| Flashing.FlashFilesFrom | uds_tools/zlg_sample_csharp/zlg_sample_csharp/FlashManager.cs:88-135 | the files in order consume answers and make no reset |
| Flashing.FilesThenReset | uds_tools/zlg_sample_csharp/zlg_sample_csharp/FlashManager.cs:86-143 | the file loop followed by the soft reset only appends to the log and consumes answers; `true` means the soft reset was the last call |
| Flashing.FlashSpec | uds_tools/zlg_sample_csharp/zlg_sample_csharp/FlashManager.cs:28-150 | the sequence only appends to the log and consumes answers; `true` means the last call made was the soft reset |
| Flashing.Reset | uds_tools/zlg_sample_csharp/zlg_sample_csharp/FlashManager.cs:138-139 | the last step logs one EcuReset(SoftReset) and consumes at most one answer |
| Flashing.ConfiguredKey | uds_tools/zlg_sample_csharp/zlg_sample_csharp/FlashManager.cs:19-25 | a level the configuration does not name keeps the default key; one it names gives a 16-byte key or an error |
| Flashing.KeyFor | uds_tools/zlg_sample_csharp/zlg_sample_csharp/FlashManager.cs:69 | the level-1 key for a seed: the decryption of the normalised seed under the level-1 key; `Flashing.FlashManager.GenerateKey` is proved against it and `FlashingProperties.KeyRejected` states that the key sent is this one |
| Flashing.FlashManager.WithKeys | uds_tools/zlg_sample_csharp/zlg_sample_csharp/FlashManager.cs:14-25 | the manager holds the client and a fresh algorithm with the given keys |
| Flashing.FlashManager.Create | uds_tools/zlg_sample_csharp/zlg_sample_csharp/FlashManager.cs:16-26 | without configuration the default keys; with one, each level's key as `ConfiguredKey` gives it, and an error when either key is malformed |
| Flashing.FlashManager.PadData | uds_tools/zlg_sample_csharp/zlg_sample_csharp/FlashManager.cs:159-166 | the copy-and-fill loop gives `Pad` of the data |
| Flashing.FlashManager.GenerateKey | uds_tools/zlg_sample_csharp/zlg_sample_csharp/FlashManager.cs:69 | the key is the level-1 key for the seed |
| Flashing.FlashManager.SendBlockData | uds_tools/zlg_sample_csharp/zlg_sample_csharp/FlashManager.cs:192-225 | the retry loop has the result and the client state of `SendBlock` |
| Flashing.FlashManager.SendBlocks | uds_tools/zlg_sample_csharp/zlg_sample_csharp/FlashManager.cs:182-237 | the block loop has the result and the client state of `SendBlocksFrom` |
| Flashing.FlashManager.TransferBlocks | uds_tools/zlg_sample_csharp/zlg_sample_csharp/FlashManager.cs:179-237 | the transfer has the result and the client state of `Transfer` |
| Flashing.FlashManager.SendSegmentData | uds_tools/zlg_sample_csharp/zlg_sample_csharp/FlashManager.cs:157-244 | one segment has the result and the client state of `SendSegment` |
| Flashing.FlashManager.FlashHexFileData | uds_tools/zlg_sample_csharp/zlg_sample_csharp/FlashManager.cs:152-247 | `FlashHexFileAsync` has the result and the client state of `FlashHexFile` |
| Flashing.FlashManager.Renew | uds_tools/zlg_sample_csharp/zlg_sample_csharp/FlashManager.cs:101-111 | the retry preamble has the result and the client state of `Reauthenticate` |
| Flashing.FlashManager.AttemptFile | uds_tools/zlg_sample_csharp/zlg_sample_csharp/FlashManager.cs:98-114 | one try has the result and the client state of `Attempt` |
| Flashing.FlashManager.FlashFileData | uds_tools/zlg_sample_csharp/zlg_sample_csharp/FlashManager.cs:94-131 | the file loop has the result and the client state of `FlashFile` |
| Flashing.FlashManager.PrepareEcu | uds_tools/zlg_sample_csharp/zlg_sample_csharp/FlashManager.cs:42-84 | steps 0 to 4 have the result and the client state of `Prepare` |
| Flashing.FlashManager.Flash | uds_tools/zlg_sample_csharp/zlg_sample_csharp/FlashManager.cs:28-150 | `FlashAsync` has the result and the client state of `FlashSpec` |
| FlashingProperties.ChunksConcat | uds_tools/zlg_sample_csharp/zlg_sample_csharp/FlashManager.cs:182-187 | cutting data into blockSize pieces and joining them gives the data back; all pieces but the last are full |
| FlashingProperties.ChunksCount | uds_tools/zlg_sample_csharp/zlg_sample_csharp/FlashManager.cs:180 | the number of pieces is totalBlocks |
| FlashingProperties.BlockAtIsChunk | uds_tools/zlg_sample_csharp/zlg_sample_csharp/FlashManager.cs:184-187 | block i of the loop is piece i of the data |
| FlashingProperties.BlocksCoverData | uds_tools/zlg_sample_csharp/zlg_sample_csharp/FlashManager.cs:179-187 | the blocks sent are exactly the data cut into blockSize pieces, ceil(len/blockSize) of them, all but the last full, together the whole data |
| FlashingProperties.ShortWindows | uds_tools/zlg_sample_csharp/zlg_sample_csharp/FlashManager.cs:179-187 | maxBlockLen 2 divides by zero; maxBlockLen 1 makes the block count 2 - len, so only data shorter than 2 bytes reaches the negative array length |
| FlashingProperties.BlockRetryLog | uds_tools/zlg_sample_csharp/zlg_sample_csharp/FlashManager.cs:192-225 | a block is sent twice when the first attempt fails, else once |
| FlashingProperties.SecondAttemptLog | uds_tools/zlg_sample_csharp/zlg_sample_csharp/FlashManager.cs:194-199 | the retry sends the block exactly once more |
| FlashingProperties.BlockRetryOutcome | uds_tools/zlg_sample_csharp/zlg_sample_csharp/FlashManager.cs:201-224 | a block succeeds iff the first answer is 0x00 or the first fails and the retry answers 0x00 or 0x73; it fails iff both fail |
| FlashingProperties.SecondAttemptOutcome | uds_tools/zlg_sample_csharp/zlg_sample_csharp/FlashManager.cs:201-224 | the retry succeeds iff it answers 0x00 or 0x73 and fails iff it answers another code or a caught exception |
| FlashingProperties.BlockRetry | uds_tools/zlg_sample_csharp/zlg_sample_csharp/FlashManager.cs:192-225 | the outcome facts and the log facts of one block together; an exception the filter does not catch passes through |
| FlashingProperties.BlockRunCons | uds_tools/zlg_sample_csharp/zlg_sample_csharp/FlashManager.cs:182-199 | a block sent once or twice followed by the run of the later blocks is a run |
| FlashingProperties.BlocksLog | uds_tools/zlg_sample_csharp/zlg_sample_csharp/FlashManager.cs:182-237 | the calls of the block loop are TransferData calls for blocks i, i+1, ... in order, each once or twice, with counter (i+1)%256 and the block's bytes |
| FlashingProperties.LogSplit | uds_tools/zlg_sample_csharp/zlg_sample_csharp/FlashManager.cs:182-240 | the log after a prefix splits into the part just sent and the rest |
| FlashingProperties.SegmentUnfold | uds_tools/zlg_sample_csharp/zlg_sample_csharp/FlashManager.cs:171-244 | a granted download logs RequestDownload, then the block loop, then RequestTransferExit if every block went through |
| FlashingProperties.ExitAppended | uds_tools/zlg_sample_csharp/zlg_sample_csharp/FlashManager.cs:239-244 | RequestTransferExit comes only after a complete run of blocks |
| FlashingProperties.SegmentLog | uds_tools/zlg_sample_csharp/zlg_sample_csharp/FlashManager.cs:155-245 | a segment logs RequestDownload for the padded length, then the blocks in order, then possibly RequestTransferExit |
| FlashingProperties.DownloadRefusedFailsFile | uds_tools/zlg_sample_csharp/zlg_sample_csharp/FlashManager.cs:171-176 | a maxBlockLen of 0 fails the file with no further call |
| FlashingProperties.RefusalsAreNotCounted | uds_tools/zlg_sample_csharp/zlg_sample_csharp/FlashManager.cs:96-125 | refused downloads do not count as attempts: after n refusals the file loop is still at its first attempt, with n download requests logged |
| FlashingProperties.SilentEcuGivesUp | uds_tools/zlg_sample_csharp/zlg_sample_csharp/FlashManager.cs:94-131 | an ECU that answers nothing fails the file after three attempts, logging one download request and two session requests |
| FlashingProperties.RenewIgnoresRefusals | uds_tools/zlg_sample_csharp/zlg_sample_csharp/FlashManager.cs:101-111 | the retry preamble ignores refusals of the session, of the seed and of the key |
| FlashingProperties.WakeupDone | uds_tools/zlg_sample_csharp/zlg_sample_csharp/FlashManager.cs:44-48 | three answered TesterPresent calls are the whole wake-up |
| FlashingProperties.EmptyDirectory | uds_tools/zlg_sample_csharp/zlg_sample_csharp/FlashManager.cs:31-35 | no HEX file: `false` and no call at all |
| FlashingProperties.SessionRefused | uds_tools/zlg_sample_csharp/zlg_sample_csharp/FlashManager.cs:52-56 | a refused Extended session fails the sequence right after the wake-up |
| FlashingProperties.SeedMissing | uds_tools/zlg_sample_csharp/zlg_sample_csharp/FlashManager.cs:61-66 | a null or empty seed fails the sequence before any key is sent |
| FlashingProperties.KeyRejected | uds_tools/zlg_sample_csharp/zlg_sample_csharp/FlashManager.cs:69-74 | a rejected key fails the sequence after the key for the received seed was sent |
| FlashingProperties.FilesRunInOrder | uds_tools/zlg_sample_csharp/zlg_sample_csharp/FlashManager.cs:88-135 | the files are flashed one after the other: after the first k succeed, the rest of the loop runs from the state they left |
| FlashingProperties.StopsAtFirstFailure | uds_tools/zlg_sample_csharp/zlg_sample_csharp/FlashManager.cs:127-131 | the first file that fails ends the sequence with that file's verdict; no later file is touched |
| FlashingProperties.ResetOnlyAfterEveryFile | uds_tools/zlg_sample_csharp/zlg_sample_csharp/FlashManager.cs:137-139 | the ECU reset is sent exactly once, and only when preparation and every file succeeded |
| CanSignals.SkipRun | can_tools/auto_generate_can_msg.py:39 | what is left after a run of non-alphanumerics starts with an alphanumeric character |
| CanSignals.SkipUnderscores | can_tools/auto_generate_can_msg.py:40 | a run of "_" is skipped; text not starting with "_" is untouched |
| CanSignals.Guarded | can_tools/auto_generate_can_msg.py:41-44 | the last two steps never give an empty name |
| CanSignals.ReplaceRunsShape | can_tools/auto_generate_can_msg.py:39 | after the first `re.sub` every character is [0-9A-Za-z_], no two "_" are adjacent, and a leading alphanumeric is kept |
| CanSignals.CollapseNoOp | can_tools/auto_generate_can_msg.py:40 | collapsing "_" runs changes nothing once no two "_" are adjacent |
| CanSignals.CoreShape | can_tools/auto_generate_can_msg.py:39-40 | after replacing, collapsing and upper-casing the label is [0-9A-Z_] without "__" |
| CanSignals.NotKeyword | can_tools/auto_generate_can_msg.py:43 | nothing starting with "_" is a keyword |
| CanSignals.GuardedShape | can_tools/auto_generate_can_msg.py:41-44 | the "VALUE" default and the "_" prefix keep [0-9A-Z_] without "__", and leave no leading digit and no keyword |
| CanSignals.SanitizedIsMemberName | can_tools/auto_generate_can_msg.py:31-45 | `sanitize_enum_member` always gives a non-empty name of [0-9A-Z_], with no "__", not starting with a digit, that is no keyword |
| CanSignals.GuardedCases | can_tools/auto_generate_can_msg.py:41-44 | empty becomes "VALUE"; a leading digit or a keyword gets "_" in front; anything else is kept |
| CanSignals.SanitizeEmpty | can_tools/auto_generate_can_msg.py:39-42 | a label that is blank after stripping becomes "VALUE" |
| CanSignals.SanitizeLeadingDigit | can_tools/auto_generate_can_msg.py:43-44 | a label starting with a digit gets "_" before that digit |
| CanSignals.ReplaceRuns | can_tools/auto_generate_can_msg.py:39 | every maximal run of non-alphanumeric characters becomes one "_"; `ReplaceRunsShape` states it |
| CanSignals.CollapseUnderscores | can_tools/auto_generate_can_msg.py:40 | every run of "_" becomes one; `CollapseNoOp` and `CoreShape` state it |
| CanSignals.SanitizeEnumMember | can_tools/auto_generate_can_msg.py:31-45 | the whole sanitiser; `SanitizedIsMemberName`, `SanitizeEmpty` and `SanitizeLeadingDigit` prove the result is a usable member name |
| CanSignals.MotorolaPositions | can_tools/auto_generate_can_msg.py:47-55 | position i is the pair (p // 8, p % 8) of bit p = start - i, with the bit index in 0..7 |
| CanSignals.PositionsDistinct | can_tools/auto_generate_can_msg.py:47-55 | no pair appears twice |
| CanSignals.GetMotorolaBitPositions | can_tools/auto_generate_can_msg.py:47-55 | the loop builds `MotorolaPositions` |
| CanSignals.UniqueName | can_tools/auto_generate_can_msg.py:23-29 | a new base is returned as it is and recorded with 0; a seen one has its counter raised and comes back with that counter as suffix |
| CanSignals.NamesFor | can_tools/auto_generate_can_msg.py:160-163 | one name per label |
| CanSignals.Repeat | can_tools/auto_generate_can_msg.py:160-163 | n copies of one label |
| CanSignals.RepeatedRequests | can_tools/auto_generate_can_msg.py:23-29 | the same base requested n times gives base, base_1, ..., base_(n-1), and the counter ends at n-1 |
| CanSignals.DuplicateMemberNames | can_tools/auto_generate_can_msg.py:23-29 | labels "A", "A", "A 1" give the member names "A", "A_1", "A_1": a duplicate member in the generated enum |
| CanSignals.NamesForSnoc | can_tools/auto_generate_can_msg.py:160-163 | one more label adds one call at the end |
| CanSignals.NatDecimalLength | can_tools/auto_generate_can_msg.py:29 | numbers from 10 on print with at least two digits |
| CanSignals.NatDecimalInjective | can_tools/auto_generate_can_msg.py:29 | different counters print differently |
| CanSignals.SuffixedInjective | can_tools/auto_generate_can_msg.py:29 | different counters give different suffixed names |
| CanSignals.MemberNames.constructor | can_tools/auto_generate_can_msg.py:159 | `used_members = {}` |
| CanSignals.MemberNames.UniqueMemberName | can_tools/auto_generate_can_msg.py:23-29 | the method changes `used` and returns the name as `UniqueName` says |
| CanSignals.MemberNames.FreshMemberName | can_tools/auto_generate_can_msg.py:23-29 | the corrected version: the name returned was not taken before and is taken after; nothing is forgotten; a new base is kept as it is |
| CanSignals.MemberNames.FreshMemberNames | can_tools/auto_generate_can_msg.py:159-163 | with the corrected version the names of one enum are pairwise distinct |
| SignalCodec.SetBit | can_tools/examples/dbc_adapters/generate_0x117.py:323-325 | `data[byte_i] \|= 1 << bit_i` behind the index guard keeps the buffer's length |
| SignalCodec.SetBitEffect | can_tools/examples/dbc_adapters/generate_0x117.py:323-325 | ORing in one bit sets exactly that payload position, when it lies in the buffer, and changes no other |
| SignalCodec.EncodeSignal | can_tools/examples/dbc_adapters/generate_0x117.py:321-327 | one signal's encoder block keeps the 64-byte buffer's length |
| SignalCodec.EncodeSignalBit | can_tools/examples/dbc_adapters/generate_0x117.py:321-327 | after an encoder block a position is set iff it was set before or it is one of the signal's positions inside the buffer and the matching value bit, counted from the most significant, is 1 |
| SignalCodec.EncodeFields | can_tools/examples/dbc_adapters/generate_0x117.py:307-308 | the encoder always returns 64 bytes |
| SignalCodec.EncodeFieldsBit | can_tools/examples/dbc_adapters/generate_0x117.py:307-865 | a payload bit is set iff some signal carries a 1 to it; every bit no signal covers stays 0 |
| SignalCodec.FromAppend | can_tools/examples/dbc_adapters/generate_0x117.py:185-271 | two tables above a bound join into one above any lower bound |
| SignalCodec.DisjointAppend | can_tools/examples/dbc_adapters/generate_0x117.py:185-271 | a disjoint table wholly below a bound and one wholly above it join into a disjoint table |
| SignalCodec.NotCarried | can_tools/examples/dbc_adapters/generate_0x117.py:307-865 | a position no signal covers carries no value bit |
| SignalCodec.OwnerDecides | can_tools/examples/dbc_adapters/generate_0x117.py:307-865 | in a disjoint table the one signal covering a position alone decides that bit |
| SignalCodec.EncodeBytes | can_tools/examples/dbc_adapters/generate_0x117.py:307-865 | the encoder's loops fill the buffer as `EncodeFields` says |
| SignalCodec.PyIndex | can_tools/examples/dbc_adapters/generate_0x117.py:908 | `data[i]` on bytes succeeds iff -len <= i < len, and a non-negative index reads that byte |
| SignalCodec.DecodeSignalDefined | can_tools/examples/dbc_adapters/generate_0x117.py:906-910 | a decoder block raises IndexError exactly when one of its positions is out of Python's reach |
| SignalCodec.DecodeSignalBit | can_tools/examples/dbc_adapters/generate_0x117.py:906-910 | inside the payload a decoder block never raises, yields less than 2^LEN, and bit LEN-1-i of its value is the bit at position offset-i |
| SignalCodec.DecodeSignalStep | can_tools/examples/dbc_adapters/generate_0x117.py:907-909 | step n reads position offset-(n-1), inside the payload, and ORs in 2^(LEN-n) when that bit is set |
| SignalCodec.DecodeFields | can_tools/examples/dbc_adapters/generate_0x117.py:867-1304 | a decoded table has one value per signal |
| SignalCodec.DecodeFieldsDefined | can_tools/examples/dbc_adapters/generate_0x117.py:867-1304 | the whole decoder succeeds iff every signal's block does |
| SignalCodec.DecodeFieldsAt | can_tools/examples/dbc_adapters/generate_0x117.py:1304 | value i of the decoded record is signal i's own decoding |
| SignalCodec.DecodeBytes | can_tools/examples/dbc_adapters/generate_0x117.py:867-1304 | the decoder's loops give `DecodeFields`, stopping at the first IndexError |
| SignalCodec.DecodeBlock | can_tools/examples/dbc_adapters/generate_0x117.py:907-910 | one signal's Motorola loop gives that signal's `DecodeSignal` value, or None at the first IndexError |
| SignalCodec.DecodeSignal | can_tools/examples/dbc_adapters/generate_0x117.py:907-910 | the first n steps of one signal's decoder block; `DecodeSignalBit`, `DecodeSignalDefined` and `SignalRoundTrip` state what it reads |
| SignalCodec.NoneSticks | can_tools/examples/dbc_adapters/generate_0x117.py:907-908 | once a read raises, the block raises |
| SignalCodec.NoneSticksFields | can_tools/examples/dbc_adapters/generate_0x117.py:867-1304 | once a block raises, the decoder raises |
| SignalCodec.DecodedBit | can_tools/examples/dbc_adapters/generate_0x117.py:906-910 | a payload holding the low LEN bits of v at the signal's positions decodes to bits of v mod 2^LEN |
| SignalCodec.EncodedBitOwned | can_tools/examples/dbc_adapters/generate_0x117.py:307-865 | in a disjoint table, the encoded bit at a signal's k-th position is bit k of that signal's value |
| SignalCodec.RoundTripBit | can_tools/examples/dbc_adapters/generate_0x117.py:307-1304 | bit k of a decoded signal of an encoded disjoint table is bit k of the value mod 2^LEN |
| SignalCodec.SignalRoundTrip | can_tools/examples/dbc_adapters/generate_0x117.py:307-1304 | decoding one signal of an encoded disjoint table gives its value mod 2^LEN |
| SignalCodec.RoundTrip | can_tools/examples/dbc_adapters/generate_0x117.py:307-1304 | decode(encode(values)) succeeds and gives every signal its value mod 2^LEN |
| Msg0x117.ToEnum | can_tools/examples/dbc_adapters/generate_0x117.py:12-19 | `to_enum` gives the member for a member value, the plain int for any other value when not strict, and raises exactly when strict and the value is no member |
| Msg0x117.Values | can_tools/examples/dbc_adapters/generate_0x117.py:309 | `int(msg.<field>)` gives one value per signal |
| Msg0x117.Encode | can_tools/examples/dbc_adapters/generate_0x117.py:307-865 | `generate_0x117_can_msg_bytes` returns 64 bytes |
| Msg0x117.Decode | can_tools/examples/dbc_adapters/generate_0x117.py:867-1304 | a decoded record has all 29 fields |
| Msg0x117.GenerateBytes | can_tools/examples/dbc_adapters/generate_0x117.py:307-865 | the encoder gives `Encode` of the record |
| Msg0x117.DecodeMessage | can_tools/examples/dbc_adapters/generate_0x117.py:867-1304 | the decoder gives `Decode` of the data |
| Msg0x117.Typed | can_tools/examples/dbc_adapters/generate_0x117.py:1304 | the value of a decoded field: `to_enum` of its enum, or the plain int; `RoundTrip` and `ExactRoundTrip` state what decoding gives back |
| Msg0x117.RunsDisjoint | can_tools/examples/dbc_adapters/generate_0x117.py:185-271 | the bit ranges within the first, second, fifth and sixth runs of fields do not overlap |
| Msg0x117.Run3Disjoint | can_tools/examples/dbc_adapters/generate_0x117.py:200-229 | the bit ranges of the FD_ warning fields do not overlap |
| Msg0x117.Run4Disjoint | can_tools/examples/dbc_adapters/generate_0x117.py:230-256 | the bit ranges of the error-flag fields do not overlap |
| Msg0x117.RunBounds | can_tools/examples/dbc_adapters/generate_0x117.py:185-271 | each run of fields lies wholly below the next |
| Msg0x117.TableIsRuns | can_tools/examples/dbc_adapters/generate_0x117.py:185-271 | the table is the six runs in order |
| Msg0x117.TableDisjoint | can_tools/examples/dbc_adapters/generate_0x117.py:185-271 | no bit of the payload belongs to two of the 29 signals |
| Msg0x117.NamesDistinct | can_tools/examples/dbc_adapters/generate_0x117.py:276-305 | the record's 29 field names are distinct |
| Msg0x117.NamesDistinctLow | can_tools/examples/dbc_adapters/generate_0x117.py:277-286 | the first ten field names differ from every later one |
| Msg0x117.NamesDistinctMiddle | can_tools/examples/dbc_adapters/generate_0x117.py:287-296 | the next ten field names differ from every later one |
| Msg0x117.NamesDistinctHigh | can_tools/examples/dbc_adapters/generate_0x117.py:297-305 | the last nine field names are distinct |
| Msg0x117.TableFits | can_tools/examples/dbc_adapters/generate_0x117.py:185-271 | every signal lies within bytes 0 to 40 and has no negative position |
| Msg0x117.MembersFit | can_tools/examples/dbc_adapters/generate_0x117.py:49-181 | every enum member fits its signal's width |
| Msg0x117.DecodeNeeds41Bytes | can_tools/examples/dbc_adapters/generate_0x117.py:867-1304 | decoding succeeds iff the data has at least 41 bytes; shorter data raises IndexError |
| Msg0x117.RoundTrip | can_tools/examples/dbc_adapters/generate_0x117.py:307-1304 | decode(encode(m)) gives each field its value mod 2^LEN, typed by its enum again |
| Msg0x117.ExactRoundTrip | can_tools/examples/dbc_adapters/generate_0x117.py:307-1304 | a record of enum members and a raw speed below 256 decodes back to itself |
| Msg0x117.DefaultRoundTrip | can_tools/examples/dbc_adapters/generate_0x117.py:276-305 | the default record is well typed and survives the round trip |
| Adapter0x117.FindName | can_tools/examples/dbc_adapters/generator_adapter_0x117.py:16 | the name search finds a signal of that name at or after the start, or there is none |
| Adapter0x117.FindOwnName | can_tools/examples/dbc_adapters/generator_adapter_0x117.py:16 | with distinct names every signal's name finds that very signal |
| Adapter0x117.FieldIndex | can_tools/examples/dbc_adapters/generator_adapter_0x117.py:16 | among the record's fields, `hasattr(msg, k)` holds iff k names one, and then gives its index; dunder attributes such as `__class__` or `__doc__` also pass `hasattr`, but setting them either raises (and the `except` swallows it) or leaves the encoded fields alone, so the model treats every non-field key as ignored |
| Adapter0x117.FieldIndexOf | can_tools/examples/dbc_adapters/generator_adapter_0x117.py:16 | every field name finds its own field |
| Adapter0x117.AsDictAt | can_tools/examples/dbc_adapters/generator_adapter_0x117.py:8-10 | the dictionary holds exactly the first n names, each mapped to its own field |
| Adapter0x117.AsDictKeys | can_tools/examples/dbc_adapters/generator_adapter_0x117.py:8-10 | every key of the dictionary is a field name |
| Adapter0x117.AsDict | can_tools/examples/dbc_adapters/generator_adapter_0x117.py:8-10 | the record's fields as a dictionary by name; `AsDictAt` and `AsDictKeys` state its keys and values |
| Adapter0x117.Parsed | can_tools/examples/dbc_adapters/generator_adapter_0x117.py:4-11 | {} for another ID, the decoded dictionary for 0x117, None when decoding raises; `ParseFrame`, `OtherIdsIgnored` and `ParsedKeys` state it |
| Adapter0x117.ParseFrame | can_tools/examples/dbc_adapters/generator_adapter_0x117.py:4-11 | `parse_frame` gives `Parsed` |
| Adapter0x117.OtherIdsIgnored | can_tools/examples/dbc_adapters/generator_adapter_0x117.py:5-6 | any ID other than 0x117 gives {} |
| Adapter0x117.ParsedKeys | can_tools/examples/dbc_adapters/generator_adapter_0x117.py:4-11 | a 0x117 frame parses iff it has at least 41 bytes, and then its keys are exactly the field names |
| Adapter0x117.Updated | can_tools/examples/dbc_adapters/generator_adapter_0x117.py:14-19 | the record after the updates has all 29 fields |
| Adapter0x117.EncodeSignals | can_tools/examples/dbc_adapters/generator_adapter_0x117.py:13-22 | `encode_signals` returns one frame, ID 0x117, of 64 bytes, encoding the defaults with the updates applied |
| Adapter0x117.NonFieldKeysIgnored | can_tools/examples/dbc_adapters/generator_adapter_0x117.py:16 | an update whose key is no field changes nothing |
| Adapter0x117.EncodeParseRoundTrip | can_tools/examples/dbc_adapters/generator_adapter_0x117.py:4-22 | parse_frame of encode_signals(u) gives every updated field its value mod 2^LEN and every other field its default, typed by its enum |
| SimServer.Fit8 | can_tools/examples/can_sim_server_zlg.py:325-326 | `(b + bytes(8))[:8]` is eight bytes: b's bytes, then zeros |
| SimServer.MaskedZip | can_tools/examples/can_sim_server_zlg.py:327 | masking through `zip` gives as many bytes as the shorter operand |
| SimServer.PayloadMatchesIff | can_tools/examples/can_sim_server_zlg.py:323-328 | with mask and request data both set, a frame passes iff it has at least eight bytes and its first eight agree with the request on every masked bit; later bytes are ignored |
| SimServer.ShortFramesNeverMatch | can_tools/examples/can_sim_server_zlg.py:327 | a frame shorter than eight bytes never passes a filtering rule, because `zip` cuts the masked frame short |
| SimServer.ZeroMaskMatchesLongFrames | can_tools/examples/can_sim_server_zlg.py:323-328 | an all-zero mask lets every frame of eight or more bytes pass |
| SimServer.And | can_tools/examples/can_sim_server_zlg.py:327 | the bytewise AND of frame and mask; `MaskedZip` and `PayloadMatchesIff` use it |
| SimServer.PayloadMatches | can_tools/examples/can_sim_server_zlg.py:323-328 | the payload filter of a rule; `PayloadMatchesIff`, `ShortFramesNeverMatch` and `OneSidedFilterIgnored` state what it admits |
| SimServer.Responses | can_tools/examples/can_sim_server_zlg.py:320-332 | what every rule contributes, in order; `ResponsesAppend` and `EveryMatchFires` state it |
| SimServer.Reaction | can_tools/examples/can_sim_server_zlg.py:320-332 | one rule queues at most one response |
| SimServer.OtherIdsNoReaction | can_tools/examples/can_sim_server_zlg.py:321 | a rule answers only its own request ID |
| SimServer.OneSidedFilterIgnored | can_tools/examples/can_sim_server_zlg.py:323 | with the mask or the request data missing the payload is not looked at |
| SimServer.SignalsWin | can_tools/examples/can_sim_server_zlg.py:329-332 | a rule with signals answers with them; a raw frame goes out iff the rule has no signals and names both a raw ID and raw data |
| SimServer.ResponsesAppend | can_tools/examples/can_sim_server_zlg.py:320 | the answer to a list of rules is the answer to its first part followed by the answer to the rest |
| SimServer.EveryMatchFires | can_tools/examples/can_sim_server_zlg.py:320-332 | every rule contributes its own reaction in its place; an answering rule does not stop the loop. An exception from evaluating or encoding the signals of one rule (`_enqueue_signals` runs inside the loop, line 330) ends the loop before the later rules; the receive loop catches it (lines 234 and 256). The model has no such exception, see Left out |
| SimServer.Server.constructor | can_tools/examples/can_sim_server_zlg.py:183-190 | the server starts with its rules and an empty transmit queue |
| SimServer.Server.MaybeRespond | can_tools/examples/can_sim_server_zlg.py:319-332 | `_maybe_respond` appends to the queue exactly the responses of all rules, in configuration order |
| SimServer.ChooseParser | can_tools/examples/can_sim_server_zlg.py:193-194 | the parser of the frame's ID when there is one, else the default parser, else none |
| SimServer.FromHex | can_tools/examples/can_sim_server_zlg.py:98 | `bytes.fromhex` reads at most one byte per two characters |
| SimServer.RemoveSpaces | can_tools/examples/can_sim_server_zlg.py:97 | `replace(" ", "")` leaves no space and never lengthens the text |
| SimServer.RemoveSpacesNoOp | can_tools/examples/can_sim_server_zlg.py:97 | text without spaces is left as it is |
| SimServer.HexCharPlain | can_tools/examples/can_sim_server_zlg.py:98 | an uppercase hex digit parses back to its value and is no white space |
| SimServer.HexBytesDigits | can_tools/examples/can_sim_server_zlg.py:98 | every character of a byte string's uppercase hex text is a hex digit |
| SimServer.FromHexOfHexBytes | can_tools/examples/can_sim_server_zlg.py:98 | `bytes.fromhex` reads back the hex text of a byte string |
| SimServer.HxRoundTrip | can_tools/examples/can_sim_server_zlg.py:95-98 | a configured hex string written with two uppercase digits per byte gives those bytes back |
| SimServer.SplitPairAccepted | can_tools/examples/can_sim_server_zlg.py:97-98 | " 1 2 " is accepted as the single byte 0x12, because spaces are removed before parsing |
| SimServer.SplitPairRejected | can_tools/examples/can_sim_server_zlg.py:98 | `bytes.fromhex` alone rejects a space inside a byte pair |
| SimServer.Hx | can_tools/examples/can_sim_server_zlg.py:95-98 | absent stays absent, otherwise stripped, spaces removed and read as hex; `HxRoundTrip`, `SplitPairAccepted` and `SplitPairRejected` state it |
| Wrappers.Collect | uds_tools/zlg_sample_csharp/zlg_sample_csharp/AppConfig.cs:80-85 | a loop that parses element by element and throws on the first bad one returns, when it succeeds, one value per element |
| Wrappers.CollectAt | uds_tools/zlg_sample_csharp/zlg_sample_csharp/AppConfig.cs:84 | each collected value is its own element's parse |
| Wrappers.CollectErrorSticks | uds_tools/zlg_sample_csharp/zlg_sample_csharp/AppConfig.cs:84 | once an element fails, the loop fails with that error whatever follows |
| Wrappers.CollectStopsAt | uds_tools/zlg_sample_csharp/zlg_sample_csharp/AppConfig.cs:84 | the first failing element decides the loop's error |
| Wrappers.CollectPrefix | uds_tools/zlg_sample_csharp/zlg_sample_csharp/AppConfig.cs:80-85 | elements past the count are never looked at |
| Wrappers.CollectAllOk | uds_tools/zlg_sample_csharp/zlg_sample_csharp/IntelHexParser.cs:44-47 | the loop succeeds with the values when every element parses |

## Left out

- Timing: `Task.Delay`, STmin pacing, stopwatches and `CancelAfter`. A timeout or a cancellation is a scripted silent receive (`CanTransport`) or a `Raise` outcome of the UDS script (`FlashScript`). The 1000 ms Flow Control wait and the UDS timeout option appear only as that outcome. The pending loops run over a finite script of responses, since their only bound is the cancel timer.
- Concurrency: the ZLG transport's receive thread and locks, `ClearBuffer` (never called by `IsoTpClient`), and the simulator's `_rx_loop`, `_tx_loop` and `_periodic_loop` threads and queue. The simulator's queue is a sequence the rule matching appends to.
- The ZLG driver (`ZlgCanTransport_ZCAN.cs`): P/Invoke calls and marshalling. Only the shape of its receive loop (skip other identifiers, time out when nothing arrives) is modelled, as `CanTransport.Await`.
- The AES-ECB decrypt in `SecurityAlgorithm.GenerateKey`: a function parameter, since it is foreign cryptography. Only the key choice, the seed normalisation and the 16-byte output are modelled.
- The bodies of the UDS calls `FlashManager` makes (TesterPresent, SecurityAccess, ControlDTCSetting, CommunicationControl, RequestDownload, TransferData, RequestTransferExit, EcuReset): their results come from a script, with no wire layout.
- File and directory access: `Directory.GetFiles` with its `*.hex` filter, `File.ReadLines` and `StreamWriter`. The flasher takes the file names and their segments. The parser takes the lines. The writer returns the lines.
- The culture-sensitive string comparison of `OrderBy` over file names: the model orders names by comparing character codes (`Flashing.NoLater`).
- Console and log output, debug prints, `Program.cs`, `BatchParser.cs`, `ZFlashGenerator.cs`, the JSON converters and `AppConfig.Load`. Only `FlashConfig.GetAesKey` and the default key table of `AppConfig.cs` are modelled.
- YAML loading (`load_config`), the ZLG calls of the simulator, `_eval_formula` and `_enqueue_signals`: a rule's response signals are queued as a `SignalUpdate` value rather than evaluated and encoded. So the model has no exception from a formula or from an encoder; in the program such an exception ends `_maybe_respond` before the later rules (`SimServer.EveryMatchFires` covers only the case without one), and the receive loop logs it and goes on with the next frame. `CanParserAdapter` and the cantools DBC loader are not part of this model.
- Signal values other than integers (floats, scaled physical values) and the little-endian branches of the 0x117 codec, which no signal of that message uses.
- The 29 per-signal blocks of `generate_0x117_can_msg_bytes` and `decode_0x117_can_msg` are modelled as one loop over a table of the 29 offsets and lengths. Each block of the source does the same work with its own constants.
- The code emission of `auto_generate_can_msg.py` (enum classes, dataclasses, OPC-UA JSON, directory cleaning) beyond `sanitize_enum_member`, `unique_member_name` and `get_motorola_bit_positions`.
- `tx_tester.py`, `rx_sniffer.py` and `txrx_selftest.py`: hardware send and receive loops.
- Flashing.FlashHexFile, Flashing.FlashManager.FlashHexFileData: the segments flashed are those of `IntelHex.ParseSpec` (base plus offset), not of the OR the program computes. The two agree on every file without a type-02 record (`IntelHex.RulesAgree`), so on every file `BinToHex` writes (`HexAddressRule.AsWrittenRoundTrip`), and differ after a type-02 record (`HexAddressRule.ParsedCollision`).
- Flashing.FlashManager.Flash: the file retry loop of `FlashAsync` retries a file without bound while the file returns a plain `false`. The model runs it against a finite script, where it ends once the script is used up (every call then times out and counts as an exception).

## Findings

| source | as written | input that shows it | evidently intended | confidence | as-written member | corrected member |
|---|---|---|---|---|---|---|
| uds_tools/zlg_sample_csharp/zlg_sample_csharp/IntelHexParser.cs:31 | a data record's absolute address is `upperAddress \| address` | a type-02 record for segment 0x0001 (upper address 0x10) followed by data records at offsets 0x0000 and 0x0010: the OR places both at 0x10 | the Intel HEX format adds the offset to the base, so the records belong at 0x10 and 0x20; for type-04 bases the two agree | medium: the writer only emits type-04 records, where OR and sum agree; not executed | HexAddressRule.ParsedCollision | IntelHex.IntendedAddress |
| can_tools/auto_generate_can_msg.py:23-29 | `unique_member_name` appends `_k` for the k-th repeat of a base without checking that the suffixed name is free | enum labels "A", "A", "A 1" sanitise to "A", "A", "A_1" and are named "A", "A_1", "A_1" | every member name of one enum is distinct | high: the duplicate member makes the generated `IntEnum` class raise; not executed | CanSignals.DuplicateMemberNames | CanSignals.MemberNames.FreshMemberNames |

`IntelHex.Parse` takes the address rule as a parameter. `IntelHex.ParseAsWritten` reads a file with the OR of the source, and `IntelHex.ParseSpec` with base plus offset (`IntendedAddress`); the flasher uses `ParseSpec`. `IntelHex.RulesAgree` proves that the two read every file without a type-02 record alike, `HexAddressRule.AsWrittenRoundTrip` that the parser as written reads back everything `BinToHex` writes, and `HexAddressRule.ParsedCollision` that they part ways on the file above.
