# aiocomfoconnect in Dafny

A model of the client library for the Zehnder ComfoConnect LAN C bridge
(aiocomfoconnect), with the properties that its protocol code promises
proved about the model.

The library talks to the bridge over TCP port 56747. Every message is a
length-prefixed frame:

- a 4-byte big-endian length;
- a 16-byte source id and a 16-byte destination id;
- a 2-byte big-endian header length;
- a protocol-buffer header (`GatewayOperation`);
- a protocol-buffer body.

Requests carry a reference number. Replies are matched to waiting futures
through an event bus keyed by that reference. Notifications (sensor values,
alarms, close-session) are dispatched on their type. On top of this,
`ComfoConnect` builds remote method invocation (RMI) payloads, decodes
property replies by type code, maps ventilation settings to and from bytes,
holds back sensor values for a moment after connecting, and decodes alarm
bits through one of two firmware-dependent error catalogues. Bridges are
found by a UDP discovery protocol.

Two helper scripts ship with the repository and are modelled too:

- the pcap decoder, which cuts frames out of a captured byte stream;
- a vendored TCP session tracker, which provides modulo-2^32 sequence
  arithmetic, a window test, TCP option encoders, the option parser,
  direction-insensitive network tuples, and the reset, SYN and handshake
  branches of its connection state machine.

Modules, one per concept:

| module | file | models |
|---|---|---|
| `Results` | results.dfy | `Option` / `Result` |
| `Bytes` | bytes.dfy | byte strings, big- and little-endian integers, `to_bytes` / `from_bytes` |
| `Hex` | hex.dfy | `bytes.hex()` and `bytes.fromhex()` |
| `Utf8` | utf8.dfy | strict UTF-8 decoding and `rstrip("\x00")` |
| `Util` | util.dfy | `bytestring` |
| `Const` | const.dfy | type codes, units, error catalogues |
| `Codec` | codec.dfy | `Message.encode` / `Message.decode`, de-framing |
| `DecodePcap` | pcap.dfy | `read_message` and its draining loop |
| `EventBus` | eventbus.dfy | `EventBus.add_listener` / `emit` |
| `Bridge` | bridge.dfy | connect, `_send`, the `cmd_*` requests, `_read` status check, `_read_messages` dispatch |
| `Rmi` | rmi.dfy | property request payloads and property decoding |
| `Settings` | settings.dfy | the ventilation setting getters and setters |
| `SensorHold` | sensors.dfy | sensor callback, hold-back, register / deregister, connect |
| `Alarms` | alarms.dfy | `_alarm_callback` |
| `Discovery` | discovery.dfy | `BridgeDiscoveryProtocol` |
| `TcpSeq` | tcpseq.dfy | sequence-number arithmetic (section 3.3 of RFC 793) |
| `TcpOptions` | tcpoptions.dfy | option builders, padding, option parser |
| `TcpSession` | tcpsession.dfy | `NetworkTuple`, `TCPSession` state transitions |

Protocol buffers are not modelled. A `Codec.Catalog` value of
serialise/parse functions is passed to every member that needs one. The
discovery response parser is a parameter in the same way.

Three behaviours of the code are worth knowing, because the model follows
them:

- `EventBus.emit` ends with `del self.listeners[event_name]`
  (aiocomfoconnect/bridge.py:56). On a reference with no waiter this
  raises KeyError. `_read_messages` does not catch KeyError
  (aiocomfoconnect/bridge.py:245-257), so the reader task ends
  (`EventBus.Emit`, `Bridge.UnknownReferenceStopsReader`).
- `_read_messages` catches only a protocol-buffer DecodeError among the
  decoding failures. A header type missing from `REQUEST_MAPPING` makes
  `Message.decode` call None (aiocomfoconnect/bridge.py:467-468), and a
  frame shorter than 34 bytes makes `struct.unpack` fail
  (aiocomfoconnect/bridge.py:458). Both exceptions end the reader
  (`Codec.UnmappedTypeIsNotDecodeError`, `Bridge.Step`). So does an
  exception raised by a sensor or alarm callback, which runs inside the
  reader (`Bridge.OldFirmwareAlarmStopsReader`). A reader that ended with
  an exception makes every later `disconnect` and `connect` raise it
  again (aiocomfoconnect/bridge.py:117-123;
  `Bridge.ReaderEndDecidesReconnect`).
- The TCP option parser (script/tcpsession/tcpsession.py:415-428) advances
  by the length byte minus 2 after reading two bytes. A length byte of 0
  makes it re-read the same kind forever. A length byte of 1 still moves
  the index forward, and the length byte itself is read as the next kind
  (`TcpOptions.LengthOneRereads`). So the loop diverges only on a 0 length
  byte (`TcpOptions.DivergesOnlyAtZero`).

## Model

| member | source | states |
|---|---|---|
| Bytes.UnsignedBE | aiocomfoconnect/bridge.py:178 | a big-endian n-byte field reads as a value below 256^n |
| Bytes.PackBE | aiocomfoconnect/bridge.py:448-449 | `struct.pack(">H")` / `struct.pack(">L")` of an in-range value writes exactly 2 / 4 bytes; Bytes.UnpackPackBE pins their contents |
| Bytes.UnpackPackBE | aiocomfoconnect/bridge.py:448-449 | a value packed big-endian in n bytes (`struct.pack`) reads back as itself |
| Bytes.PackUnpackBE | aiocomfoconnect/bridge.py:458 | every byte string is the big-endian packing of the value it reads as |
| Bytes.SignedLE | aiocomfoconnect/bridge.py:218 | signed little-endian reading: 0 for the empty string; otherwise within the two's-complement range, negative exactly when the top byte is at least 128, and equal to the unsigned value or that minus 256^n |
| Bytes.ToSignedLE | aiocomfoconnect/comfoconnect.py:236 | `to_bytes(n, "little", signed=True)` succeeds exactly when the value fits the signed n-byte range (OverflowError otherwise) and yields n bytes |
| Bytes.SignedLERoundTrip | aiocomfoconnect/comfoconnect.py:236 | what `to_bytes(signed=True)` writes, `from_bytes(signed=True)` reads back as the same integer |
| Bytes.SignedLEInverse | aiocomfoconnect/comfoconnect.py:107 | every non-empty byte string is the signed encoding of its own signed value |
| Bytes.UnsignedLE | aiocomfoconnect/comfoconnect.py:109 | unsigned little-endian reading yields a value below 256^n for n bytes |
| Bytes.PackLE | aiocomfoconnect/comfoconnect.py:236 | the little-endian packing of a value below 256^n has n bytes; Bytes.UnpackPackLE pins the contents |
| Bytes.UnpackPackLE | aiocomfoconnect/comfoconnect.py:109 | a value packed little-endian in n bytes reads back unsigned as itself |
| Bytes.PackUnpackLE | aiocomfoconnect/comfoconnect.py:109 | every byte string is the little-endian packing of its unsigned value |
| Bytes.TopByteSign | aiocomfoconnect/comfoconnect.py:107 | the unsigned value reaches half the range exactly when the top byte is at least 128 |
| Hex.ToHex | aiocomfoconnect/bridge.py:471 | `hex()` writes two lower-case hex digits per byte |
| Hex.FromHex | aiocomfoconnect/bridge.py:451 | `fromhex()` yields at most one byte per two characters, None for the ValueError |
| Hex.FromHexToHex | aiocomfoconnect/bridge.py:471 | `fromhex(b.hex())` gives b back |
| Hex.ToHexFromHex | aiocomfoconnect/bridge.py:451 | an even-length digit string of either case parses, has half as many bytes, and `hex()` of it is its lower-case spelling |
| Util.Bytestring | aiocomfoconnect/util.py:3-5 | succeeds exactly when every integer is in 0..255; the output length is one per integer plus each bytes element's length |
| Util.BytesOf | aiocomfoconnect/comfoconnect.py:102 | `bytes(list)` succeeds exactly when every element is a byte, and is then that list |
| Util.BytestringOfInts | aiocomfoconnect/util.py:3-5 | on a list of integers only, `bytestring` equals `bytes(list)` |
| Util.BytestringAppend | aiocomfoconnect/util.py:5 | `bytestring(a + b)` succeeds exactly when both halves do, and is then their concatenation |
| Util.BytestringSingle | aiocomfoconnect/util.py:5 | a bytes element is copied verbatim; an integer becomes one byte or fails outside 0..255 |
| Const.TableLengths | aiocomfoconnect/const.py:62-166 | the three tables cover codes 21..69, 70..104 and 70..86: 49, 35 and 17 entries |
| Const.ErrorsBase | aiocomfoconnect/const.py:62-106 | ERRORS_BASE has keys only in 21..69, and none of 36, 40, 42, 44, 46, 48 |
| Const.Errors | aiocomfoconnect/const.py:108-145 | ERRORS has a key exactly at 70..104 and at the ERRORS_BASE keys, all within 21..104 |
| Const.Errors140 | aiocomfoconnect/const.py:147-166 | ERRORS_140 has a key exactly at 70..86 and at the ERRORS_BASE keys, all within 21..86 |
| Const.CataloguesAgreeOnBase | aiocomfoconnect/const.py:62-109 | every ERRORS_BASE code lies in 21..69 and reads the same in ERRORS and ERRORS_140 |
| Const.Errors140Shifted | aiocomfoconnect/const.py:110-165 | ERRORS_140[c] is ERRORS[c + 4] for c in 70..80 and ERRORS[c + 8] for c in 81..86 |
| Const.CatalogueDomains | aiocomfoconnect/const.py:62-166 | ERRORS_140 keys lie in 21..86 and ERRORS keys in 21..104; both are defined from 70 up to their maximum |
| Const.CatalogueGaps | aiocomfoconnect/const.py:62-106 | codes 36, 40, 42, 44, 46 and 48 are absent from both catalogues |
| Utf8.Decode | aiocomfoconnect/comfoconnect.py:105 | strict UTF-8 decoding yields no more characters than bytes, None for UnicodeDecodeError |
| Utf8.Lead | aiocomfoconnect/comfoconnect.py:105 | a well-formed leading sequence is 1..4 bytes long and encodes a Unicode scalar value |
| Utf8.DecodeEncode | aiocomfoconnect/comfoconnect.py:105 | decoding the UTF-8 encoding of a string gives the string back |
| Utf8.LeadIsEncodeChar | aiocomfoconnect/comfoconnect.py:105 | the bytes of every well-formed lead sequence are the encoding of the code point decoded from them |
| Utf8.EncodeDecode | aiocomfoconnect/comfoconnect.py:105 | every byte string that decodes is the encoding of its decoded string, so strict decoding admits one spelling per string |
| Utf8.DecodeAppend | aiocomfoconnect/comfoconnect.py:105 | two decodable byte strings decode, joined, to the joined strings |
| Utf8.DecodeAscii | aiocomfoconnect/comfoconnect.py:105 | ASCII bytes decode to the characters with the same codes |
| Utf8.RStripNul | aiocomfoconnect/comfoconnect.py:105 | `rstrip("\x00")` keeps a prefix that does not end in NUL and drops only NULs |
| Codec.ParseBody | aiocomfoconnect/bridge.py:467-469 | the body's class follows the header type: RPDO, alarm and RMI-response types parse to those bodies |
| Codec.EncodeRaw | aiocomfoconnect/bridge.py:444-451 | `encode` succeeds exactly when the header is below 2^16 bytes, the frame below 2^32 and both ids are hex; the length prefix is 34 + header + body |
| Codec.Encode | aiocomfoconnect/bridge.py:444-451 | an encoded frame holds at least the prefixes and the serialised header |
| Codec.DecodeRaw | aiocomfoconnect/bridge.py:454-460 | `decode` slices at 16, 32, 34 and 34 + header length; only a frame shorter than 34 bytes fails |
| Codec.Decode | aiocomfoconnect/bridge.py:453-471 | decoding succeeds exactly when the slices, the header and the body for the header's type all parse; an unmapped type is its own failure |
| Codec.DecodeRawEncodeRaw | aiocomfoconnect/bridge.py:444-460 | slicing a frame written with 16-byte ids recovers the ids as lower-case hex and the header and body bytes |
| Codec.DecodeEncode | aiocomfoconnect/bridge.py:444-471 | with canonical ids and a header and body that parse back, decoding what `encode` wrote gives the message |
| Codec.UnmappedTypeIsNotDecodeError | aiocomfoconnect/bridge.py:467-468 | a frame whose header type has no body class fails as a call on None, not as a DecodeError |
| Codec.CanonicalIdBytes | aiocomfoconnect/bridge.py:451 | a 32-digit lower-case id is 16 bytes, and `hex()` of them is the id |
| Codec.Deframe | aiocomfoconnect/bridge.py:173-179 | the reader takes a frame exactly when 4 + the declared length bytes are there, and leaves the rest |
| Codec.DeframeEncoded | aiocomfoconnect/bridge.py:173-179 | a frame written by `encode` followed by anything de-frames to that frame and leaves exactly the rest |
| DecodePcap.ReadMessage | script/decode_pcap.py:80-98 | None with the buffer unchanged when fewer than 4 bytes or fewer than the declared length are there; otherwise bytes 4..4+L and the buffer after them |
| DecodePcap.Drain | script/decode_pcap.py:57 | the draining loop collects non-empty frames in order; the buffer is those frames, the 4 bytes of an empty frame if one stopped the loop, and an unread rest that holds no complete frame otherwise |
| DecodePcap.ReadJoined | script/decode_pcap.py:80-98 | on frames followed by a tail, `read_message` returns the first frame and leaves the other frames and the tail |
| EventBus.Empty | aiocomfoconnect/bridge.py:36-37 | a new bus has no listeners |
| EventBus.AddListener | aiocomfoconnect/bridge.py:39-45 | the future joins the set under its key, creating it when missing or empty; other keys are untouched |
| EventBus.Emit | aiocomfoconnect/bridge.py:47-56 | KeyError exactly when the key has no entry; otherwise every future under it is resolved with the event and the entry is removed |
| EventBus.EmitReachesListener | aiocomfoconnect/bridge.py:39-56 | a future added under a key is resolved by the next emit on it, and the entry is gone afterwards |
| EventBus.EmitTwiceFails | aiocomfoconnect/bridge.py:50-56 | a second emit on the same key, with no listener added in between, raises KeyError |
| Bridge.ErrorFor | aiocomfoconnect/bridge.py:188-207 | OK and unlisted status codes pass; each of the eight failure codes raises an error class |
| Bridge.StatusOf | aiocomfoconnect/bridge.py:190-205 | every error class is raised for its own status code |
| Bridge.ErrorForIsInjective | aiocomfoconnect/bridge.py:190-205 | distinct failure codes raise distinct classes |
| Bridge.Initial | aiocomfoconnect/bridge.py:64-74 | a new bridge is not connected, has no reader task and no waiting reference |
| Bridge.Disconnect | aiocomfoconnect/bridge.py:111-128 | fails, changing nothing, exactly when the reader ended with an exception, and then raises that exception; otherwise the writer is closed, a started reader is over, and the counter and the waiting futures are untouched |
| Bridge.Connect | aiocomfoconnect/bridge.py:92-109 | succeeds exactly when the reader had not crashed and the connection opened; a crashed reader's exception comes out with the bridge unchanged; a timeout or an OSError leaves the bridge as `disconnect` left it; on success the reference is 1, the local id is set, the bus is empty and a new reader runs |
| Bridge.Outgoing | aiocomfoconnect/bridge.py:141-151 | the sent header carries the request type and the current reference, with our id as source and the bridge's as destination |
| Bridge.Send | aiocomfoconnect/bridge.py:134-165 | refuses exactly when not connected, leaving the state alone; registers a listener under the current reference only when a reply is expected; increments the reference by one once the frame is written |
| Bridge.SendAll | aiocomfoconnect/bridge.py:143-165 | the requests sent in a row carry consecutive references |
| Bridge.ReferencesAfterConnect | aiocomfoconnect/bridge.py:102-165 | on one connection the references are 1, 2, 3, ... in sending order, so pairwise distinct |
| Bridge.ConnectEstablishesOneWaiter | aiocomfoconnect/bridge.py:102-104 | after connect every waiting reference is below the counter and has one future |
| Bridge.SendKeepsOneWaiter | aiocomfoconnect/bridge.py:154-165 | a successful send keeps every waiting reference below the counter with one future |
| Bridge.EncodeFailureSharesReference | aiocomfoconnect/bridge.py:154-165 | when `encode` raises after the listener was registered, the next request reuses the reference and the two futures share it |
| Bridge.Prepare | aiocomfoconnect/bridge.py:259-361 | only close-session and keep-alive skip the reply; a uuid that is not hex, or deregistering our own id, raises before sending; an RMI request carries the node id (0 becomes 1) and the message; an RPDO request carries the pdid and a non-zero zone |
| Bridge.PreparedRequestOnTheWire | aiocomfoconnect/bridge.py:134-165 | the frame `_send` writes for a prepared command, read back with `decode`'s slicing, gives that command's type with status OK under the stamped reference, our id and the bridge's, and the serialised body; the reference is awaited exactly when the command expects a reply (or was already awaited) |
| Bridge.Classify | aiocomfoconnect/bridge.py:188-257 | error statuses go to the reference when it is non-zero, else are dropped; then RPDO and alarm notifications go to their callbacks, close-session ends the loop, and only then does a non-zero reference receive the reply |
| Bridge.Deliver | aiocomfoconnect/bridge.py:238-257 | delivering to a reference with no entry ends the reader; otherwise the bus emits and the loop continues |
| Bridge.Invoke | aiocomfoconnect/bridge.py:216-232 | a callback that raises ends the reader with that callback as the reason; one that returns is reported and changes nothing else |
| Bridge.Handle | aiocomfoconnect/bridge.py:216-243 | handling one decoded message makes at most one callback, and only one that returned; a sensor or alarm notification with its callback registered stops the reader exactly when that callback raises |
| Bridge.Step | aiocomfoconnect/bridge.py:209-257 | an incomplete frame ends the loop as a closed connection; a handled frame strictly shortens the input and makes at most one callback, which returned |
| Bridge.RunLoop | aiocomfoconnect/bridge.py:209-257 | every callback the loop reports returned normally, and a loop stopped by a callback was stopped by one that raised |
| Bridge.ReaderStopped | aiocomfoconnect/bridge.py:209-257 | the reader keeps its exception exactly when the loop crashed; the reply table is the one the loop left |
| Bridge.ReaderEndDecidesReconnect | aiocomfoconnect/bridge.py:92-128 | after a crashed reader, `disconnect` and every `connect` raise the reader's exception and change nothing, whatever the network does; after any other end, `connect` succeeds exactly when the connection opens |
| Bridge.StrayReplyBlocksReconnect | aiocomfoconnect/bridge.py:238-240 | a reply to a reference nobody waits on crashes the reader, after which `connect` fails with that KeyError |
| Bridge.OldFirmwareAlarmStopsReader | aiocomfoconnect/comfoconnect.py:154-160 | on firmware 1.4.0 or older, an alarm with an error bit in 87..104 makes `_alarm_callback` raise KeyError inside the reader, which ends it |
| Bridge.SensorFrame | aiocomfoconnect/bridge.py:216-218 | one OK sensor frame whose callback returns yields exactly that callback with the signed little-endian value and leaves the table alone |
| Bridge.StepOnEncoded | aiocomfoconnect/bridge.py:173-243 | a frame written by `encode` that parses back is handled as its message |
| Bridge.ReplyResolvesWaiters | aiocomfoconnect/bridge.py:238-240 | a successful reply to a waiting reference resolves every future there with the body and removes the entry |
| Bridge.UnknownReferenceStopsReader | aiocomfoconnect/bridge.py:238-257 | a reply or error for a reference nobody waits on ends the reader with the uncaught KeyError |
| Bridge.ErrorFramesSkipCallbacks | aiocomfoconnect/bridge.py:252-254 | a frame with an error status never reaches a callback, whatever its type |
| Bridge.SensorStream | aiocomfoconnect/bridge.py:209-250 | a stream of sensor notifications whose callbacks return produces one sensor callback per frame, in order, and ends as a closed connection |
| Rmi.Or0x10 | aiocomfoconnect/comfoconnect.py:117 | `0x10 \| n` is n or n + 16, is 0x10 + n for n below 16, and stays a byte exactly when n does |
| Rmi.Payload | aiocomfoconnect/comfoconnect.py:102-123 | the read payload is [1, unit, subunit, 0x10, id], the write payload [3, unit, subunit, id, value], the multi-read [2, unit, subunit, 1, 0x10 \| n] + ids; ValueError for an argument outside 0..255 |
| Rmi.ParsePayloadRoundTrip | aiocomfoconnect/comfoconnect.py:102-123 | every payload reads back as the request it was built from |
| Rmi.ReadPropertiesCount | aiocomfoconnect/comfoconnect.py:117 | with fewer than 16 ids the fifth byte is 0x10 + n |
| Rmi.DecodeProperty | aiocomfoconnect/comfoconnect.py:100-113 | STRING is decoded UTF-8 with NULs stripped, INT* signed and UINT* unsigned little-endian, BOOL the first byte == 1; any other code or none returns the raw bytes; the two failures are an invalid string and an empty BOOL reply |
| Rmi.TypeCodesDistinct | aiocomfoconnect/const.py:4-13 | the type codes are pairwise distinct |
| Rmi.SignedPropertyRoundTrip | aiocomfoconnect/comfoconnect.py:106-107 | a signed reply written with `to_bytes(signed=True)` reads back as the same integer |
| Rmi.UnsignedPropertyRoundTrip | aiocomfoconnect/comfoconnect.py:108-109 | an unsigned reply written little-endian reads back as the same value |
| Rmi.SignednessExamples | aiocomfoconnect/comfoconnect.py:106-109 | FF FF is -1 as INT16 and 65535 as UINT16; 00 00 is 0 |
| Rmi.StringPropertyRoundTrip | aiocomfoconnect/comfoconnect.py:104-105 | a string encoded as UTF-8 and padded with NULs reads back as the string when it does not end in NUL |
| Rmi.StripPadding | aiocomfoconnect/comfoconnect.py:105 | stripping trailing NULs removes exactly the padding |
| Rmi.BoolProperty | aiocomfoconnect/comfoconnect.py:110-111 | BOOL reads the first byte only: 1 is true, anything else false |
| Settings.EncodeSchedule | aiocomfoconnect/comfoconnect.py:172-177 | a schedule request is 4 bytes (query, clear) or 13 (override) addressed to the schedule unit; an override timeout outside 32 bits overflows |
| Settings.ParseEncodeSchedule | aiocomfoconnect/comfoconnect.py:172-177 | every encodable schedule request reads back as itself |
| Settings.EncodeParseSchedule | aiocomfoconnect/comfoconnect.py:172-177 | every well-formed request is the encoding of what it reads as |
| Settings.LiteralOverride | aiocomfoconnect/comfoconnect.py:204-210 | the fixed 13-byte payloads are overrides with timeout 1 and the last byte as level |
| Settings.OverrideIsBytestring | aiocomfoconnect/comfoconnect.py:236-238 | the `bytestring` list with the spliced timeout bytes is the encoded override |
| Settings.QueryPayload | aiocomfoconnect/comfoconnect.py:183 | every getter's request is the query of its setting's location |
| Settings.LocationsDistinct | aiocomfoconnect/comfoconnect.py:163-315 | distinct schedule settings live at distinct (subunit, item) locations |
| Settings.EnumerationsDistinct | aiocomfoconnect/const.py:169-207 | the names of each enumeration (speeds, settings, profiles, ventilation modes of the temperature/humidity unit, balances) are pairwise distinct, and VentilationMode's "manual" and "auto" differ |
| Settings.SetSpeed | aiocomfoconnect/comfoconnect.py:201-212 | only the four speeds are accepted; each is an override with the speed's code as level |
| Settings.GetSpeed | aiocomfoconnect/comfoconnect.py:181-199 | the reply's last byte 0..3 names the speed at that index; any other byte is a ValueError |
| Settings.SpeedRoundTrip | aiocomfoconnect/comfoconnect.py:181-212 | a reply echoing the level that was set reads as the speed that was set |
| Settings.SpeedCodeRoundTrip | aiocomfoconnect/comfoconnect.py:181-212 | setting the speed that was read writes the code that was read |
| Settings.SetMode | aiocomfoconnect/comfoconnect.py:172-179 | "auto" clears the override and "manual" sets it; any other mode is a ValueError |
| Settings.GetMode | aiocomfoconnect/comfoconnect.py:163-170 | manual exactly when the first byte is 1 |
| Settings.ModeRoundTrip | aiocomfoconnect/comfoconnect.py:163-179 | a reply whose active flag matches the request reads as the mode that was set |
| Settings.SetBypass | aiocomfoconnect/comfoconnect.py:231-240 | "auto" clears; "on" and "off" override with level 1 and 2 and the timeout; a bad mode or an oversize timeout fails |
| Settings.GetBypass | aiocomfoconnect/comfoconnect.py:214-229 | the last byte 0..2 names the setting; anything else is a ValueError |
| Settings.BypassRoundTrip | aiocomfoconnect/comfoconnect.py:214-240 | the bypass reads back as set |
| Settings.SetBalance | aiocomfoconnect/comfoconnect.py:267-279 | two requests, one per subunit 6 and 7, overriding the side that is kept and clearing the other; ValueError with nothing sent for an unknown mode; OverflowError for a timeout outside int32, after nothing for "supply_only" and after the clear of subunit 6 for "exhaust_only" |
| Settings.GetBalance | aiocomfoconnect/comfoconnect.py:242-265 | balance when the flags are equal, supply only for 1/0, exhaust only for 0/1, ValueError otherwise |
| Settings.BalanceRoundTrip | aiocomfoconnect/comfoconnect.py:242-279 | replies flagging each override read back as the balance that was set |
| Settings.SetTimed | aiocomfoconnect/comfoconnect.py:290-311 | boost and away: on overrides the item with the timeout, off clears it |
| Settings.GetTimed | aiocomfoconnect/comfoconnect.py:281-304 | active exactly when the first byte is 1 |
| Settings.TimedRoundTrip | aiocomfoconnect/comfoconnect.py:281-311 | a reply flagging the request reads back as what was set |
| Settings.SetTemperatureProfile | aiocomfoconnect/comfoconnect.py:330-339 | warm 2, normal 0, cool 1 as override level; other names and oversize timeouts fail |
| Settings.GetTemperatureProfile | aiocomfoconnect/comfoconnect.py:313-328 | the last byte 0..2 names the profile; anything else is a ValueError |
| Settings.TemperatureProfileRoundTrip | aiocomfoconnect/comfoconnect.py:313-339 | a reply echoing the level reads as the profile that was set |
| Settings.TemperatureProfileCodeRoundTrip | aiocomfoconnect/comfoconnect.py:313-339 | setting the profile that was read writes the code that was read |
| Settings.VentmodeQuery | aiocomfoconnect/comfoconnect.py:343 | the getter reads property 4, 6 or 7 of the temperature/humidity control unit |
| Settings.SetVentmode | aiocomfoconnect/comfoconnect.py:358-367 | a property write of auto 1, on 2, off 0; other names are a ValueError |
| Settings.GetVentmode | aiocomfoconnect/comfoconnect.py:341-356 | the whole reply read unsigned: 1 auto, 2 on, 0 off (an empty reply is off); anything else is a ValueError |
| Settings.VentmodeRoundTrip | aiocomfoconnect/comfoconnect.py:341-423 | a reply holding the written value, at any width, reads back as the mode that was set |
| Settings.VentmodeCodeRoundTrip | aiocomfoconnect/comfoconnect.py:341-423 | writing the mode that was read writes the value that was read |
| Settings.ClearErrors | aiocomfoconnect/comfoconnect.py:425-427 | the 3-byte request to the error unit is neither a schedule request nor a property request |
| SensorHold.Show | aiocomfoconnect/comfoconnect.py:143-146 | the shown value is converted exactly when the sensor has a `value_fn`, otherwise the raw value |
| SensorHold.SensorUpdate | aiocomfoconnect/comfoconnect.py:127-147 | without a user callback or for an unknown id nothing changes; otherwise the value is stored, and passed on exactly when no hold is armed |
| SensorHold.Replay | aiocomfoconnect/comfoconnect.py:64-66 | the replay completes exactly when every visited id has a value slot, and emits nothing without a user callback or stored values |
| SensorHold.ReplaySound | aiocomfoconnect/comfoconnect.py:64-66 | everything replayed is a registered sensor with its stored value |
| SensorHold.ReplayComplete | aiocomfoconnect/comfoconnect.py:64-66 | a completed replay emits every visited sensor with a stored value and no other |
| SensorHold.Unhold | aiocomfoconnect/comfoconnect.py:58-66 | the hold is dropped; KeyError exactly when a registered sensor has no value slot |
| SensorHold.UnholdReplaysStoredValues | aiocomfoconnect/comfoconnect.py:58-66 | without error, exactly the registered sensors with stored values are passed on, each with its value |
| SensorHold.UnholdInSyncSucceeds | aiocomfoconnect/comfoconnect.py:58-66 | with value slots in step with the registrations, ending the hold never fails |
| SensorHold.HeldValueIsReplayed | aiocomfoconnect/comfoconnect.py:137-141 | a value reported during the hold is not passed on then, and is passed on when the hold ends |
| SensorHold.Register | aiocomfoconnect/comfoconnect.py:84-88 | the sensor is stored with an empty value slot and subscribed |
| SensorHold.Deregister | aiocomfoconnect/comfoconnect.py:90-94 | the unsubscription is sent first; KeyError exactly when the sensor or its value slot is missing |
| SensorHold.DeregisterInSyncSucceeds | aiocomfoconnect/comfoconnect.py:90-94 | deregistering a registered sensor never fails while the slots are in step |
| SensorHold.Resubscribe | aiocomfoconnect/comfoconnect.py:81-82 | connect re-subscribes every registered sensor in registration order |
| SensorHold.ConnectAsWritten | aiocomfoconnect/comfoconnect.py:68-82 | with a session, connect starts it, arms the hold when there is a delay, empties the value dict and re-subscribes |
| SensorHold.ConnectAsWrittenBreaksUnhold | aiocomfoconnect/comfoconnect.py:80 | once a sensor is registered, a reconnect with a delay makes the hold end in KeyError |
| SensorHold.ConnectAsWrittenBreaksDeregister | aiocomfoconnect/comfoconnect.py:80-94 | after a reconnect, deregistering a sensor raises KeyError |
| SensorHold.Connect | aiocomfoconnect/comfoconnect.py:68-82 | the intended connect resets each registered sensor's value to None instead of dropping the slots |
| SensorHold.ConnectThenUnhold | aiocomfoconnect/comfoconnect.py:58-82 | after the intended connect the hold ends without error and replays nothing |
| Alarms.CatalogueFor | aiocomfoconnect/comfoconnect.py:154-158 | ERRORS_140 exactly for firmware up to 3222278144 |
| Alarms.Messages | aiocomfoconnect/comfoconnect.py:160 | succeeds exactly when every bit has a message; the keys are the bits and each maps to its catalogue message |
| Alarms.AlarmCallback | aiocomfoconnect/comfoconnect.py:149-161 | ignored without a user callback; KeyError exactly when some bit is missing from the chosen catalogue; otherwise the node id and the messages |
| Alarms.BaseErrorsIgnoreCatalogue | aiocomfoconnect/comfoconnect.py:154-160 | base error bits decode the same on every firmware |
| Alarms.OlderBitsShifted | aiocomfoconnect/comfoconnect.py:154-160 | on old firmware bit c of 70..80 means what c + 4 means on new firmware, and bit c of 81..86 what c + 8 means |
| Alarms.NewerOnlyBits | aiocomfoconnect/comfoconnect.py:154-160 | bits 87..104 raise KeyError on old firmware and are reported on new firmware |
| Discovery.Init | aiocomfoconnect/discovery.py:17-24 | no bridges, the timer armed, no transport, no result |
| Discovery.ConnectionMade | aiocomfoconnect/discovery.py:26-36 | the request 0A 00 goes to the target on port 56747, or to the broadcast address without a target |
| Discovery.Disconnect | aiocomfoconnect/discovery.py:57-61 | closes the transport and completes with the bridges; a second completion raises |
| Discovery.DatagramReceived | aiocomfoconnect/discovery.py:38-55 | the echo is ignored; a response appends exactly one bridge; with a target it cancels the timer and completes |
| Discovery.TimerFired | aiocomfoconnect/discovery.py:24 | a fired timeout completes with the bridges found; a cancelled one does nothing |
| Discovery.Next | aiocomfoconnect/discovery.py:38-61 | once completed, nothing changes, and a completed discovery is closed |
| Discovery.Run | aiocomfoconnect/discovery.py:38-61 | over any events the target is kept and a completed discovery stays as it is |
| Discovery.UntargetedCollectsAll | aiocomfoconnect/discovery.py:38-61 | without a target the result appears only with the timeout and holds every accepted bridge in arrival order |
| Discovery.TargetStopsAtFirstResponse | aiocomfoconnect/discovery.py:50-55 | with a target the first response ends discovery with exactly that bridge |
| TcpSeq.Inc | script/tcpsession/tcpsession.py:318-326 | None exactly for a negative current value; otherwise in [0, 2^32) and congruent to cur + step |
| TcpSeq.Diff | script/tcpsession/tcpsession.py:358-369 | None exactly when an input is negative; for in-range inputs the distance is in range and `Inc(start, d)` reaches end |
| TcpSeq.DiffUnique | script/tcpsession/tcpsession.py:358-369 | the forward distance is the only in-range distance that reaches end |
| TcpSeq.InWindow | script/tcpsession/tcpsession.py:372-392 | None exactly for a window above 0xFFFF * 0x4000 or a negative start |
| TcpSeq.InWindowIsForwardDistance | script/tcpsession/tcpsession.py:372-392 | for in-range numbers the test is "forward distance below the window", wrap-around included |
| TcpSeq.WindowHoldsStart | script/tcpsession/tcpsession.py:372-392 | a non-empty window holds its start; an empty one does not |
| TcpOptions.WindowScaleOption | script/tcpsession/tcpsession.py:56-63 | 03 03 shift for shift 0..14, empty otherwise |
| TcpOptions.MssOption | script/tcpsession/tcpsession.py:66-73 | 02 04 then the size big-endian for 0..0xFFFF, empty otherwise |
| TcpOptions.TimestampOption | script/tcpsession/tcpsession.py:76-86 | 08 0A then both values big-endian in four bytes when both fit, empty otherwise |
| TcpOptions.Padded | script/tcpsession/tcpsession.py:100 | 1 to 4 NOPs make the length a multiple of 4, four when already aligned |
| TcpOptions.PayloadCreation | script/tcpsession/tcpsession.py:89-101 | the longest prefix of options within 40 bytes, the next one overflowing, then padded |
| TcpOptions.KeyOf | script/tcpsession/tcpsession.py:424-427 | a kind is keyed by its enumeration member exactly when the enumeration has it |
| TcpOptions.Slice | script/tcpsession/tcpsession.py:425 | Python slicing with both ends clamped |
| TcpOptions.ParseFrom | script/tcpsession/tcpsession.py:415-431 | the loop only adds entries |
| TcpOptions.ParseOptions | script/tcpsession/tcpsession.py:407-431 | options without a zero byte always yield a dictionary |
| TcpOptions.DivergesOnlyAtZero | script/tcpsession/tcpsession.py:415-431 | the loop can run forever only at a zero byte |
| TcpOptions.ZeroLengthDiverges | script/tcpsession/tcpsession.py:421-428 | a kind with length byte 0 makes the loop run forever |
| TcpOptions.LengthOneRereads | script/tcpsession/tcpsession.py:421-428 | a length byte of 1 records no data and is re-read as the next kind |
| TcpOptions.ParseOne | script/tcpsession/tcpsession.py:420-428 | a well-formed option records its length and data and parsing resumes right after it |
| TcpOptions.ParseNops | script/tcpsession/tcpsession.py:418-419 | padding parses to a single NOP entry (0, None) |
| TcpOptions.SynOptionsRoundTrip | script/tcpsession/tcpsession.py:407-431 | the MSS, window-scale and timestamp options, built and padded, parse back to their values |
| TcpSession.Equal | script/tcpsession/tcpsession.py:565-573 | equal tuples share the protocol and the same pair of addresses in some order (characterised fully by TcpSession.EqualIsSameOrReversed) |
| TcpSession.SynUnacceptable | script/tcpsession/tcpsession.py:889-890 | a SYN is refused in every state except CLOSED, LISTENING, the four handshake states, CLOSE_WAIT and TIME_WAIT |
| TcpSession.EqualIsSameOrReversed | script/tcpsession/tcpsession.py:565-573 | two tuples are equal exactly when one is the other or its reverse; equality is reflexive and symmetric |
| TcpSession.HashKey | script/tcpsession/tcpsession.py:581-599 | the hashed tuple is the tuple or its reverse, whichever has the smaller end first; none for addresses that are not 4 bytes |
| TcpSession.HashMatchesEquality | script/tcpsession/tcpsession.py:565-599 | equal tuples hash alike and tuples that hash alike are equal |
| TcpSession.Init | script/tcpsession/tcpsession.py:609-642 | client CLOSED, server LISTENING, no session |
| TcpSession.Reset | script/tcpsession/tcpsession.py:649-671 | both sides back to their initial states; the sessions and their count stay |
| TcpSession.Append | script/tcpsession/tcpsession.py:1139 | KeyError exactly when the current session is missing; otherwise only that session grows, by the packet |
| TcpSession.LearnOptions | script/tcpsession/tcpsession.py:1160-1168 | a SYN sets the scale and MSS from its options (0 and -1 without options) and the window as win shifted by the scale |
| TcpSession.Handshake | script/tcpsession/tcpsession.py:1172-1216 | the handshake branch never opens a session, and raises only when the session or the client's last packet is missing |
| TcpSession.Process | script/tcpsession/tcpsession.py:1118-1318 | a non-zero session count with no such session raises KeyError before any branch, because the packet count (line 894) and `get_last_c_pkt` / `get_last_s_pkt` (lines 781-787) index it; a reset always closes both sides; raising means KeyError with no current session, or AttributeError with no client SYN; only the data-transfer and teardown states answer `Beyond`; the client address never changes |
| TcpSession.Feed | script/tcpsession/tcpsession.py:689-711 | after a packet the tracker is never left with both sides CLOSED (that pair is reset at once), keeps the sessions `_process` produced, and is `Beyond` exactly when `_process` is |
| TcpSession.FeedKeepsConsistent | script/tcpsession/tcpsession.py:689-711 | from a consistent tracker no modelled branch raises, and the tracker stays consistent |
| TcpSession.RstClosesBoth | script/tcpsession/tcpsession.py:1125-1140 | a reset closes both sides and files the packet in the current session, or a new one |
| TcpSession.UnacceptableSynClosesBoth | script/tcpsession/tcpsession.py:1141-1146 | a SYN in an established or closing state closes both sides |
| TcpSession.NewSessionOnlyFromListening | script/tcpsession/tcpsession.py:1125-1170 | a session opens exactly from (CLOSED, LISTENING), on a reset from either end or on a client packet whose flags & 0x017 is 0x002; the new session holds just that packet under the next number; after a bare SYN the sides are (SYN_SENT, SYN_RECEIVED) with the client's sequence number taken from it, after a reset both are CLOSED |
| TcpSession.SessionCountKept | script/tcpsession/tcpsession.py:1125-1216 | outside (CLOSED, LISTENING) no packet opens a session |
| TcpSession.EarlierSessionsUnchanged | script/tcpsession/tcpsession.py:1125-1216 | earlier sessions keep their packets and the current one only grows |
| TcpSession.HandshakeEstablishes | script/tcpsession/tcpsession.py:1147-1211 | SYN, SYN-ACK and ACK with matching sequence numbers establish both sides in one session |

## Left out

- Asynchronous plumbing is not modelled: sockets, `asyncio.wait_for` timeouts, the scheduling of task cancellation, `call_later`, and the timing of future resolution. Only the outcome of opening a connection and how the reader task ended are part of the model. The hold-back timer and the discovery timeout are explicit events.
- A future resolved after its timeout raises InvalidStateError; that is not modelled, because futures are identifiers without cancellation.
- Protocol-buffer serialisation and parsing are parameters (`Codec.Catalog`, the discovery parser), not code.
- Logging is not modelled.
- `bytearray_to_bits` is not defined in the util.py shown, so alarm decoding takes the list of bit positions as input.
- `calculate_airflow_constraints` is imported from the same module and is left out for the same reason.
- aiocomfoconnect/sensors.py is not part of this model. Its `value_fn` lambdas produce floats, so a converted value is kept symbolic (`SensorHold.Show`).
- The command-line interface and package defaults are not modelled.
- SensorHold.Replay: the user's `value_fn` and callback are not executed; the model records which sensor was emitted with which raw value.
- Discovery.Next: an exception raised inside `datagram_received` is only logged by the event loop, so the model keeps the state unchanged.
- TcpSession.HashKey: Python's `hash` of the formatted string is modelled by the tuple that string is built from. The string determines the tuple, so equal strings mean equal keys; hash collisions are not modelled.
- TcpSession.Process: the ESTABLISHED, FIN_WAIT and CLOSING branches (script/tcpsession/tcpsession.py:1217-1314) answer `Beyond`. They depend on `slide_window`'s payload trimming, retransmission handling and deep-copied dpkt objects. The final else (script/tcpsession/tcpsession.py:1315-1318) only logs, and the model leaves the tracker unchanged there.
- Bridge.Handle: the callbacks are the application's code, so whether a call raises is a parameter; only `_alarm_callback`'s KeyError is derived from the model (`Bridge.AlarmLookupRaises`).
- `_prev_pkt_ind` is modelled as the packet it points at. Python list aliasing between sessions does not arise in the modelled branches.
- Packet handling in the tracker is left out: dpkt decoding, checksums, hashing, `inet_ntop` / `inet_pton`, pcap reading and writing, and JSON dumps.
- `seq_number_off_by_window` is not modelled: no other modelled code calls it.
- The multi-session `TCPSessions` class is not modelled.
- The numeric values of dpkt's option kinds are taken as the IANA numbers; dpkt itself is not part of this model.
- `decode_message` in decode_pcap.py fills module-global dictionaries from protocol buffers, and is left out.
- TcpOptions.ParseOptions: the loop that never ends is the value `Diverges`, not an actual infinite loop.

## Findings

| source | as written | input that shows it | evidently intended | confidence | as-written member | corrected member |
|---|---|---|---|---|---|---|
| aiocomfoconnect/comfoconnect.py:80 | `connect` with a session replaces `_sensors_values` by an empty dict, while `_unhold_sensors` (line 65) and `deregister_sensor` (line 94) index it for every registered sensor | one registered sensor, reconnect with `sensor_delay` 2, then the hold timer fires before the sensor reports: `_sensors_values[sensor_id]` raises KeyError | reset every registered sensor's stored value to None, keeping the keys in step with `_sensors` | not executed | SensorHold.ConnectAsWrittenBreaksUnhold | SensorHold.ConnectThenUnhold |
