# VDP link stack: a Dafny model

The firmware carries typed robot data from a robot brain, over a UART, to a table of channels shown by a
web dashboard. This project models that link, layer by layer, and proves what each layer promises and
what the layers promise together.

| layer | files | main results |
|---|---|---|
| CRC-32 and packet validation | `Bytes`, `Words`, `Crc`, `Integrity` | the nibble-table register is the bit-serial one of RFC 1662 appendix C.3; passing is the good-FCS residue; every burst within 32 bits is caught |
| COBS framing | `Cobs`, `CobsTheory`, `CobsReference` | the encoder's array loop and the decoder refine recursive definitions; the exact set of packets the pair carries unharmed; a corrected encoder fit for the same wire and buffer |
| UART receiver | `Link`, `Subsequences` | chunk invariance, conservation, resynchronisation after noise anywhere, the bounded queue under every schedule of the two tasks |
| schemas and messages | `Codec`, `CodecTheory`, `WireFormat`, `PacketIO`, `Parts`, `Protocol` | the bytes on the wire, written out; both round trips with their exact domains, prefix freedom, fresh and unaliased decoded trees, every written packet passes |
| channel registry | `Registry`, `RegistryTheory`, `Positions` | listener invariants over every run; what any run of written packets does; delivery of a peer's updates, some or all of them; when position is id and what happens when it is not |
| what the listener sends on | `Answers`, `Witnesses` | the dashboard against the listener's table; exactly which packets are sent for which, when, and over the wire to the far end; the check value of CRC-32 and two telling packets, byte by byte |
| the whole link | `EndToEnd` | wire bytes to callbacks under any noise, cutting and schedule, as a theorem and as code over the objects |
| response queue, dashboard | `ResponseQueue`, `Dashboard` | safety and the values sent under every interleaving; what the dashboard shows and when it advertises |

## How to read it

Code that updates state is imperative here too: `Crc.CRC32`, `Cobs.EncodeBlocks` and `Cobs.CobsDecode`,
`Link.VDBDevice`, `PacketIO.PacketReader` and `PacketIO.PacketWriter`, `Parts.Part`,
`Registry.RegistryListener` and `Dashboard.App` have the loops, fields and buffers of the C++ code. Each
method's contract ties its new state to a function, and the lemmas are about those functions. `WireFormat`,
`CobsReference`, `Witnesses` and the last part of `Answers` say in literals what those functions come to,
for two ends that share a wire and not this code. The
response queue is a state machine whose steps are the atomic actions of its threads.

Numbers travel as their raw bits, floating-point numbers included, little-endian as on the RISC-V target.
A `Boolean` part stores a whole byte, as the source does. Calls into the operating system become
parameters: what `uart_write_bytes` returns. The two tasks around the packet queue take turns as a
scheduler likes. A turn of the UART task is any number of bytes, one included, so the packet task may come
in between any two; `xQueueSend` waits a few ticks for room, and when the packet task makes some in that
time, that is the packet task's turn coming before the byte. Ghost fields record what was sent and which
callbacks were called. A reader that would run past the end of a packet has no value (`None`).

## What is false of the code

* COBS does not carry every packet. In the first block `length` counts from 0 and in later ones from 1, so
  a packet that opens with 255 nonzero bytes gets code 256, stored as 0. And a zero that arrives when its
  block already holds 254 bytes is consumed, yet the decoder does not bring it back. `CobsTheory.RoundTripIff`
  gives the exact domain, `CobsTheory.NotEncodable` the smallest packets outside it, and
  `CobsTheory.SoundEncoder` an encoder without the two faults that agrees with the firmware's exactly where
  the firmware's is right. `Link.LinkDelivers` and `EndToEnd.PeerIsHeard` hold for either.
* `send_packet` is documented to report success. It compares the byte count with `ESP_OK`, which is 0.
  `Link.ReportRightIff` says exactly when the report is right: for an empty packet, or when the write failed
  or stopped part-way. A nonempty packet written whole is always reported as failed
  (`Link.WrittenButReportedFailed` shows one).
* The channel table is not one entry per id: a repeated broadcast is appended again and acknowledged
  again, while channels are looked up by position. `Positions.PositionalIff` says exactly which runs keep
  position and id together: those that broadcast no id already counted. In them every data callback uses the
  schema announced for its id (`Positions.CallbacksUseOwnSchema`). In the others a later channel is read with
  another's schema for good (`Positions.RepeatMisreads`); `Positions.WrongValueDelivered` is a run in which
  0x0102 is sent and 2 is delivered. A peer that announces a channel again only when it was not heard does no
  harm (`RegistryTheory.RunDelivers`). In every run `channels[i].id <= i` (`RegistryTheory.RunKeeps`).
* A queued response is a reference: what is sent is the value at the time the response is written
  (`ResponseQueue.ValueIsThatAtWrite`). `ResponseQueue.ValueIsThatAtPushIff` says exactly when that is the
  value submitted, and `ResponseQueue.ResponseIsNotASnapshot` is a run in which it is not.
* `submit_response` indexes the table before it checks the id, so it can only be called with a known
  position; its own check is then never the one that fails.
* A record's field count that is cut off by the end of a packet is read as 0 and not consumed. A checksum
  does not rule that out, for the name before the count may run on into the checksum and end there.
  `CodecTheory.ParsedIsWritten` says exactly when bytes that parse are those the result is written as: when
  every record's name ends at least four bytes before the end. `Witnesses.CutTaken` is an intact packet of
  eight bytes that puts a record into the table which takes twelve bytes to announce without its checksum.
* The readers check no bound on strings. After a repeated broadcast of a string, a written data packet for
  the channel behind it is read past its end (`Witnesses.ReadPastTheEnd`).

## Model

| member | source | states |
|---|---|---|
| EndToEnd.PeerIsHeard | components/VDP/vdb_device.cpp:92-168 | Under every schedule of the two tasks with the ten-place queue between them, any noise that no checksum accepts, any packets destroyed on the line, and any cutting into chunks: what the data callbacks get is an in-order subsequence of the peer's updates (id and value tree) and the table a beginning of its channels; if no packet was destroyed, no frame met a full queue and the queue is empty, they are all of both. The peer announces each channel once, or again when it was not heard. |
| EndToEnd.Listen | components/VDP/vdb_device.cpp:92-168 | The same, over the mutable device and registry objects. |
| EndToEnd.Alternate | components/VDP/vdb_device.cpp:92-168 | The objects driven through any schedule: the device moves as the turns say, and table, counters and effects as a run over the frames the packet task took. |
| EndToEnd.HandlePacket | components/VDP/vdb_device.cpp:157-166 | One turn of the packet thread takes one frame off the queue and moves the registry as one step on the decoded frame. |
| EndToEnd.Woven | components/VDP/include/vdb/registry-listener.hpp:34-48 | Noise that no checksum accepts, among whatever messages of a faithful peer got through, makes what is heard part of a list that comes to the same as the peer's. |
| EndToEnd.QuietLine | components/VDP/vdb_device.cpp:92-106 | Any faithful peer's nonempty packets, on a line without noise, meet all that PeerIsHeard asks of line and stuffing. |
| EndToEnd.WrittenPacketsCarried | components/VDP/vdb_device.cpp:210-282 | The firmware's stuffing carries a list of nonempty packets if and only if all are encodable, as all of at most 254 bytes are; the corrected one carries every list. |
| Cobs.CobsEncode | components/VDP/vdb_device.cpp:210-251 | The encoder yields a delimiter, the blocks of the recursive definition, a delimiter; nothing for an empty packet; no write leaves a buffer of n + n/254 + 3 bytes. |
| Cobs.EncodeBlocks | components/VDP/vdb_device.cpp:218-250 | The buffer loop with its six indices writes exactly the encoding, and ends by (input left, length), since a full block consumes no input. |
| Cobs.EncodedSize | components/VDP/vdb_device.cpp:215-217 | The encoded size is n + 3 plus the number of blocks closed because they were full, and never more than the allocation. |
| Cobs.SplitsBound | components/VDP/vdb_device.cpp:225-232 | At most one block in 254 input bytes is closed because it is full. |
| CobsReference.FrameIsBlocks | components/VDP/vdb_device.cpp:220-247 | For every packet the frame is its blocks by leading nonzero runs: at most 255 bytes in the first and 254 in the others, each after a code byte one more than its data modulo 256, the zero after a block dropped. |
| Cobs.CobsDecode | components/VDP/vdb_device.cpp:253-282 | On any bytes at all the byte-driven decoder equals the block-at-a-time reference decoder, stays inside its buffer, never underflows its block counter, and yields fewer bytes than it read. |
| CobsReference.DecodeLaws | components/VDP/vdb_device.cpp:260-280 | What determines decoding on any bytes: a zero for a code ends it; a code takes its data, zeros included, or what there is of them; a zero comes before the next block unless the code was 255. |
| CobsTheory.RoundTripIff | components/VDP/vdb_device.cpp:210-282 | Decoding undoes encoding if and only if the packet does not open with 255 nonzero bytes and no zero ends a nonzero run whose length is a positive multiple of 254. |
| CobsTheory.ReceivedExactly | components/VDP/vdb_device.cpp:225-273 | When the packet opens short enough, what arrives is the packet less exactly the zeros met at a full block. |
| CobsTheory.DecodeBody | components/VDP/vdb_device.cpp:225-273 | From any reachable point of the encoder, decoding what it still writes gives the implied zero of the block before and then the rest as received. |
| CobsTheory.LostZerosAre | components/VDP/vdb_device.cpp:225-235 | The zeros lost at full blocks are exactly those that end a run of a positive multiple of 254 nonzero bytes. |
| CobsTheory.ShortPacketsEncodable | components/VDP/vdb_device.cpp:210-282 | Every packet of at most 254 bytes is in the round trip's domain. |
| CobsTheory.NotEncodable | components/VDP/vdb_device.cpp:225-235 | 254 nonzero bytes and a zero, and 255 nonzero bytes, are outside it. |
| CobsTheory.DelimitersOnlyOutside | components/VDP/vdb_device.cpp:218-250 | On the wire a packet is a zero, a nonempty body, a zero; the body has no zero if and only if the packet does not open with 255 nonzero bytes. |
| CobsTheory.SoundEncoder | components/VDP/vdb_device.cpp:210-282 | Closing a full block before looking at the next byte makes the round trip hold for every nonempty packet, puts no delimiter into a frame, fits the buffer of n + n/254 + 3 bytes, and differs from the code exactly on the packets the code loses. |
| Link.ChunkInvariance | components/VDP/vdb_device.cpp:92-106 | However the stream is cut, the same frames come out and the same bytes stay open. |
| Link.SplitConserves | components/VDP/vdb_device.cpp:92-106 | Frames and open buffer hold exactly the nonzero bytes received, in order; no frame is empty or has a zero. |
| Link.SplitFrame | components/VDP/vdb_device.cpp:92-106 | A delimited frame closes whatever was open before it and comes out whole. |
| Link.VDBDevice.HandleUartBytes | components/VDP/vdb_device.cpp:92-106 | Buffer, queue and refusals move byte by byte as the two-task model says; of the frames completed the queue takes the first for which there is room, up to ten waiting, behind those that wait, and the later ones are refused. |
| Link.QueueTakesFirst | components/VDP/vdb_device.cpp:95-98 | The same of the two-task model, from any state and for any bytes. |
| Link.VDBDevice.ReceivePacket | components/VDP/vdb_device.cpp:157-165 | The packet handed on is the decoding of the frame at the head of the queue, which is removed. |
| Link.VDBDevice.SendPacket | components/VDP/vdb_device.cpp:186-205 | The line gains the part of the encoding that was written; the result is whether that count is 0. |
| Link.ReportRightIff | components/VDP/vdb_device.cpp:186-205 | The report tells whether the packet was written whole if and only if the packet is empty or the write failed or stopped after at least one byte; a whole write is reported as sent only for the empty packet. |
| Link.WrittenButReportedFailed | components/VDP/vdb_device.cpp:186-205 | A one-byte packet written whole and reported as failed. |
| Link.Scheduled | components/VDP/vdb_device.cpp:92-168 | Under every schedule, frames handled and waiting are an in-order subsequence of the frames on the line, every frame is handled, waiting or refused, all are there if and only if none met a full queue, and ten frames always fit. |
| Link.LinkDelivers | components/VDP/vdb_device.cpp:92-282 | With noise before, between and after the packets, and any chunking, the decoded frames are exactly the packets, in order, and what the noise spells between them; for the firmware's stuffing on its domain and for the corrected one on every packet. |
| Link.CorruptedInPlace | components/VDP/vdb_device.cpp:92-106 | Bytes of any kind in place of a frame cost at most that frame: the packets before and after come out. |
| Link.FirmwareFaultless | components/VDP/vdb_device.cpp:210-282 | For a nonempty packet the firmware's frame is delimiter-free, nonempty and undone by the decoder if and only if the packet is encodable. |
| Link.SoundFaultless | components/VDP/vdb_device.cpp:210-282 | The corrected frame is so for every nonempty packet. |
| Crc.CRC32.UpdateByte | components/VDP/crc32.cpp:13-21 | Two table look-ups move the state as eight steps of the bit-serial register with polynomial 0xEDB88320. |
| Crc.CRC32.Update | components/VDP/include/vdb/crc32.hpp:27-34 | The array loop moves the state as the bit-serial register fed all bits, lowest of each byte first. |
| Crc.Calculate | components/VDP/include/vdb/crc32.hpp:44-48 | The static helper gives the CRC-32 of the bytes. |
| Crc.TableIsNibbleStep | components/VDP/crc32.cpp:5-7 | Each of the sixteen table entries is its index after four bit steps. |
| Crc.TwoLookups | components/VDP/crc32.cpp:13-21 | Two look-ups, low nibble then high, equal feeding the byte's eight bits one by one. |
| Crc.RunPacked | components/VDP/crc32.cpp:13-21 | Up to 32 input bits act as one word added to the state before as many bit steps. |
| Crc.RunInjectiveInState | components/VDP/crc32.cpp:13-21 | For any fixed input, different states stay different. |
| Crc.RunInjectiveInBits | components/VDP/crc32.cpp:13-21 | From any fixed state, different inputs of equal length up to 32 bits give different states. |
| Witnesses.CheckValue | components/VDP/crc32.cpp:5-23 | The checksum of the digits 123456789 is 0xCBF43926. |
| Words.ReadWordByShifts | components/VDP/protocol.cpp:153-154 | The shifts and ors of the validator put the four trailing bytes together as a little-endian word. |
| Words.ReadWordBytes | components/VDP/include/vdb/protocol.hpp:361-367 | Reading back the bytes a 32-bit number is written as gives the number. |
| Integrity.ValidatePacket | components/VDP/protocol.cpp:138-162 | TooSmall exactly below five bytes, BadChecksum exactly from five bytes on when the packet is not closed with its own checksum, Ok otherwise. |
| Integrity.ValidateCases | components/VDP/protocol.cpp:138-162 | The same three equivalences of the function the theorems use. |
| Integrity.SealValid | components/VDP/protocol.cpp:254-256 | A nonempty body closed with its checksum passes. |
| Integrity.ValidIffSealed | components/VDP/protocol.cpp:138-162 | The packets that pass are exactly those of five bytes or more that the writers' checksum closes. |
| Integrity.Residue | components/VDP/protocol.cpp:149-161 | A packet of five bytes or more passes if and only if the register run over all of it ends at 0xDEBB20E3. |
| Integrity.BurstDetected | components/VDP/protocol.cpp:138-162 | Two passing packets of equal length that differ only inside 32 consecutive bits, wherever these lie, are equal. |
| Integrity.DamageRejected | components/VDP/protocol.cpp:149-158 | A passing packet damaged inside such a window is answered BadChecksum. |
| Integrity.ByteWindowDetected | components/VDP/protocol.cpp:138-162 | The same for four neighbouring bytes, across the boundary of payload and checksum too. |
| PacketIO.PacketReader.GetString | components/VDP/protocol.cpp:189-200 | The bytes up to the next zero, which is consumed. |
| PacketIO.PacketReader.GetNumber | components/VDP/include/vdb/protocol.hpp:267-290 | The little-endian number at the head, or 0 with the head left in place when it would pass the end. |
| PacketIO.PacketWriter.WriteNumber | components/VDP/include/vdb/protocol.hpp:361-367 | Appends the number's little-endian image of the given width. |
| CodecTheory.SchemaRoundTripIff | components/VDP/protocol.cpp:347-385 | Decoding a written schema followed by anything gives the schema and stops where it ends, if and only if its names hold no NUL and its field counts fit 32 bits. |
| CodecTheory.ParseWritten | components/VDP/types.cpp:34-42 | The same at any position of any packet that holds the schema's bytes. |
| CodecTheory.ParsedIsWritten | components/VDP/protocol.cpp:347-385 | Conversely, bytes that decode to a complete tree are the bytes that tree is written as if and only if every record's name, at any depth, ends at least four bytes before the end of the packet; four more bytes after the tree are enough for that. |
| Witnesses.CutTaken | components/VDP/include/vdb/protocol.hpp:275-283 | An intact eight-byte packet whose record name runs on through its checksum is taken in every state and puts a record without fields into the table. |
| CodecTheory.ParsedIsTame | components/VDP/types.cpp:34-42 | Whatever decodes has NUL-free names and 32-bit field counts. |
| CodecTheory.SchemaPrefixFree | components/VDP/types.cpp:81-88 | No schema's bytes are a proper beginning of another's. |
| CodecTheory.MessageRoundTripIff | components/VDP/types.cpp:73-97 | Reading a written value tree back gives the same tree and stops at its end, in any surroundings, if and only if its strings hold no NUL. |
| CodecTheory.ReadConforms | components/VDP/types.cpp:73-77 | Whatever is read has the shape and the number ranges of the schema. |
| WireFormat.TypeBytes | components/VDP/include/vdb/protocol.hpp:118-136 | The twelve leaf types by their type bytes, as written and as read. |
| WireFormat.UnknownTypes | components/VDP/protocol.cpp:347-385 | A type byte above 12 gives no part, once its name has been read. |
| WireFormat.RecordBytes | components/VDP/types.cpp:81-88 | A record's schema is 0, the name and a zero, the field count in four bytes from the least, and the fields. |
| WireFormat.SchemasAppend | components/VDP/types.cpp:85-87 | So do their schemas. |
| WireFormat.TextBytes | components/VDP/types.cpp:203 | A string's value is its characters and a zero. |
| WireFormat.ValuesAppend | components/VDP/types.cpp:93-97 | Values of fields follow each other in field order, with nothing between. |
| WireFormat.TwoFields | components/VDP/types.cpp:81-97 | The bytes of a record of two fields, as schema and as values, in order. |
| WireFormat.LittleEndianAt | components/VDP/include/vdb/protocol.hpp:361-367 | Byte i of a written number is its i-th digit to base 256. |
| WireFormat.NumberSizes | components/VDP/include/vdb/protocol.hpp:361-367 | By kind, every value of eight, four, two or one bytes is in range and written in that many, least significant first. |
| WireFormat.NumberReads | components/VDP/include/vdb/protocol.hpp:267-290 | By kind, how many bytes a number is read from, and 0 without moving when they are not all there. |
| Parts.Part.Record | components/VDP/types.cpp:27 | A record over parts that share no node is itself such a tree. |
| Parts.Part.FromReader | components/VDP/types.cpp:34-42 | The record read holds one decoded part per counted field, all nodes new and none shared, and the reader stops after the last. |
| Parts.Part.MakeDecoder | components/VDP/protocol.cpp:347-385 | The tree built has the schema the bytes spell, all nodes new and none shared; an unknown type byte gives a null pointer. |
| Parts.Part.WriteSchema | components/VDP/include/vdb/types.hpp:295-298 | Appends the wire form of the part's schema and touches nothing else. |
| Parts.Part.WriteRecordSchema | components/VDP/types.cpp:81-88 | The record's header and then each field's schema, in order. |
| Parts.Part.WriteMessage | components/VDP/include/vdb/types.hpp:303 | Appends the wire form of the values held, and touches nothing else. |
| Parts.Part.WriteRecordMessage | components/VDP/types.cpp:93-97 | Each field's values, in order, with no header. |
| Parts.Part.ReadDataFromMessage | components/VDP/include/vdb/types.hpp:288 | The tree afterwards holds the values at the read head, which moves past them; no node outside the tree changes. |
| Parts.Part.ReadFields | components/VDP/types.cpp:73-77 | The same for a record: each field read leaves the fields before it as they were. |
| Protocol.CarryValues | components/VDP/protocol.cpp:282-298 | A data message written from one tree and read into another of the same schema makes the values equal, leaves the first untouched, and the reader moves by the length written. |
| Protocol.CarrySchema | components/VDP/protocol.cpp:262-276 | A broadcast decoded at the other end gives the id and a new, unshared tree of the same names and types. |
| Protocol.WrittenPacketsPass | components/VDP/protocol.cpp:245-336 | All five kinds of packet, for any channel and part, pass validation and decode to their own header. |
| WireFormat.HeaderBits | components/VDP/protocol.cpp:386-399 | Of any header byte, bit 7 is the type, bits 6 and 5 are the function, and no other bit counts. |
| WireFormat.AcknowledgeOpens | components/VDP/protocol.cpp:245-257 | An acknowledgement is 0x20, the id and the checksum. |
| WireFormat.BroadcastOpens | components/VDP/protocol.cpp:262-276 | A broadcast opens with 0x00 and the id, then the schema. |
| WireFormat.DataOpens | components/VDP/protocol.cpp:282-298 | Data opens with 0x80 and the id, then the values. |
| WireFormat.ResponseOpens | components/VDP/protocol.cpp:318-336 | A response opens with 0xC0, the count modulo 256 and the id, then the values. |
| WireFormat.RequestOpens | components/VDP/protocol.cpp:304-313 | A request is 0x60 and its checksum. |
| Protocol.BroadcastReadsBack | components/VDP/protocol.cpp:405-416 | A written broadcast holds its id, and its schema is read back where the decoder looks. |
| Protocol.DataReadsBack | components/VDP/include/vdb/registry-listener.hpp:57-68 | A written data message holds its id, and its values are read back from position 2. |
| Protocol.ResponseReadsBack | components/VDP/protocol.cpp:318-336 | A written response holds the queue length modulo 256 and the id, and its values are read back from position 3. |
| Protocol.WriteChecksum | components/VDP/protocol.cpp:254-256 | Closes whatever has been written with its own checksum. |
| Protocol.WriteChannelAcknowledge | components/VDP/protocol.cpp:245-257 | The writer ends with the channel's acknowledgement, whatever it held before. |
| Protocol.WriteChannelBroadcast | components/VDP/protocol.cpp:262-276 | The writer ends with the broadcast of the channel's id and schema. |
| Protocol.WriteDataMessage | components/VDP/protocol.cpp:282-298 | The writer ends with the data message of the channel's present values. |
| Protocol.WriteRequest | components/VDP/protocol.cpp:304-313 | The writer ends with a bare request. |
| Protocol.WriteResponse | components/VDP/protocol.cpp:318-336 | The writer ends with the front response and the length before the pop; the queue loses its front. |
| Protocol.DecodeBroadcast | components/VDP/protocol.cpp:405-416 | The id is the second byte, the tree a new one of the schema that follows. |
| Registry.RegistryListener.TakePacket | components/VDP/include/vdb/registry-listener.hpp:31-116 | Table, counters, response queue, callbacks and packets sent move exactly as the step function says for every packet; the table keeps its entries; trees stay unshared. |
| Registry.RegistryListener.TakeDataPacket | components/VDP/include/vdb/registry-listener.hpp:54-70 | The channel's own tree takes the values and is handed on with its id; every other channel's values stay; an unknown id changes nothing. |
| Registry.RegistryListener.TakeBroadcastPacket | components/VDP/include/vdb/registry-listener.hpp:71-96 | Appends, announces and acknowledges, in that order, unless the id lies beyond the table, when nothing happens. |
| Registry.RegistryListener.SendResponse | components/VDP/include/vdb/registry-listener.hpp:102-108 | Sends the front response with the present values of its part and pops it. |
| Registry.RegistryListener.SubmitResponse | components/VDP/include/vdb/registry-listener.hpp:123-138 | Queues the given part under the table's id for data, refuses other types; nothing else changes. |
| Registry.RegistryListener.GetRemoteSchema | components/VDP/include/vdb/registry-listener.hpp:140-145 | Null exactly for ids without a tree, otherwise the tree at that position. |
| RegistryTheory.RunKeeps | components/VDP/include/vdb/registry-listener.hpp:34-96 | In every run the table only grows and keeps its entries, ids never exceed positions, what is announced and acknowledged is exactly what was appended, once each and in order; `num_small` grows by the packets below five bytes, `num_bad` by the longer ones their checksum does not close, and the rest are the valid ones. |
| RegistryTheory.WrittenRunKeeps | components/VDP/include/vdb/registry-listener.hpp:31-116 | Runs of written packets of all five kinds and any ids, and of damaged ones, never run a reader past a packet when values for known ids have the table's form; the table is the fold of the announcements, and all of RunKeeps holds. |
| RegistryTheory.MessagesUnderstood | components/VDP/include/vdb/registry-listener.hpp:31-116 | The table and the data callbacks of such a run are those of its messages. |
| RegistryTheory.MessageUnderstood | components/VDP/include/vdb/registry-listener.hpp:31-116 | Any one written or damaged packet, taken in any state, does to table and callbacks what its message says. |
| RegistryTheory.RunDelivers | components/VDP/include/vdb/registry-listener.hpp:31-116 | For a peer that announces its channels in order, each once or again when no earlier announcement arrived, with requests, answers, acknowledgements and damaged packets anywhere between: whichever packets arrive, deliveries are an in-order subsequence of its updates and the table a beginning of its channels; if all arrive, exactly all. |
| RegistryTheory.KeptMessages | components/VDP/include/vdb/registry-listener.hpp:54-96 | The same on messages: whatever is lost, what remains stays readable and is never read with a wrong schema. |
| RegistryTheory.FewerRepeats | components/VDP/include/vdb/registry-listener.hpp:76-84 | A peer that announces each channel once announces nothing the table holds, whatever part of its messages arrives. |
| Positions.StepKeepsPositionalIff | components/VDP/include/vdb/registry-listener.hpp:76-84 | From a table whose positions are its ids, one packet breaks that if and only if it is an intact broadcast of an id already in the table. |
| Positions.PositionalIff | components/VDP/include/vdb/registry-listener.hpp:76-84 | A run from such a table keeps it so if and only if no broadcast id in it repeats one already counted, which the packets alone tell. |
| Positions.CallbacksUseOwnSchema | components/VDP/include/vdb/registry-listener.hpp:54-70 | While none has, every data callback carries the values read with the schema announced for its id, and there is none for an id not announced. |
| Positions.RepeatMisreads | components/VDP/include/vdb/registry-listener.hpp:54-84 | After a repeat, the channel whose number is the table's length then is read with the repeated broadcast's schema in every later state. |
| Positions.WrongValueDelivered | components/VDP/include/vdb/registry-listener.hpp:54-84 | A run of four written packets in which 0x0102 is sent for channel 1 and 2 is delivered. |
| Witnesses.ReadPastTheEnd | components/VDP/include/vdb/registry-listener.hpp:54-84 | A run of four written packets, a string announced twice among them, the last of which is read past its end. |
| RegistryTheory.TakeKeeps | components/VDP/include/vdb/registry-listener.hpp:31-116 | The same for a single packet of any kind. |
| RegistryTheory.QueueHasNoSay | components/VDP/include/vdb/registry-listener.hpp:97-115 | What waits in the response queue never changes the table or the counters. |
| RegistryTheory.RunAppend | components/VDP/include/vdb/registry-listener.hpp:31-116 | Taking two runs one after the other is taking their concatenation. |
| ResponseQueue.QueueIsSafe | components/VDP/include/vdb/registry-listener.hpp:97-138 | In every interleaving of one consumer and any number of producers, no pop meets an empty queue, responses taken followed by jobs waiting are the submissions in order, and each count byte is the length before the pop modulo 256. |
| ResponseQueue.ValueIsThatAtWrite | components/VDP/protocol.cpp:326-331 | In every interleaving the n-th response carries the value its part held at the n-th write, whatever is set afterwards, before the pop included; what is sent are the first of them. |
| ResponseQueue.ValueIsThatAtPushIff | components/VDP/include/vdb/registry-listener.hpp:128-137 | It is the value held at the submission if and only if the part was not set between push and write, or last to that same value. |
| ResponseQueue.ResponseIsNotASnapshot | components/VDP/protocol.cpp:328-331 | A run in which a value set after the submission is the one sent. |
| ResponseQueue.RequestIsTakeOther | components/VDP/include/vdb/registry-listener.hpp:97-110 | A request that is not interleaved does to the queue, and puts on the line, what the listener's own step does. |
| ResponseQueue.SubmitIsAppend | components/VDP/include/vdb/registry-listener.hpp:123-138 | A submission that is not interleaved queues one more reply at the end. |
| ResponseQueue.MutualExclusion | components/VDP/include/vdb/registry-listener.hpp:105-136 | At most one thread is inside a locked section. |
| Dashboard.App.OnBroadcast | main/main.cpp:81-90 | Moves the state as a broadcast event does. |
| Dashboard.App.OnData | main/main.cpp:93-110 | Moves the state as a data event does. |
| Dashboard.ActiveIsLastBlock | main/main.cpp:79-110 | After any trace of callbacks the active channels are exactly the last maximal block of consecutive broadcasts. |
| Dashboard.LastBlockExists | main/main.cpp:79-110 | Every trace has such a block, empty only if nothing was broadcast. |
| Dashboard.AdvertsAreDataBlocks | main/main.cpp:102-108 | Advertisements attempted equal the maximal blocks of data events. |
| Dashboard.AdvertListsChannels | main/main.cpp:102-108 | The advertisement of each block lists the channels active when the block began. |
| Dashboard.ActiveAreLatest | main/main.cpp:81-90 | The active channels are the last of all channels broadcast so far, and all of them if and only if no data came between two broadcasts. |
| Answers.DashboardShowsTable | main/main.cpp:79-110 | After any run of packets the dashboard's channels are the latest entries of the listener's table, and the whole table if and only if no data callback came between two broadcast callbacks. |
| Answers.Show | main/main.cpp:81-110 | The callbacks made for a log of effects leave the dashboard's object as those events say. |
| Answers.OnlyRequestsAreAnswered | components/VDP/include/vdb/registry-listener.hpp:97-115 | An acknowledgement or a response from the peer changes nothing, sends nothing and takes nothing from the queue. |
| Answers.RequestsAreAnswered | components/VDP/include/vdb/registry-listener.hpp:97-113 | A packet with both function bits is answered with the front response, which leaves the queue, or by nothing when none waits. |
| Answers.BroadcastsAreAcknowledged | components/VDP/include/vdb/registry-listener.hpp:71-96 | A packet with header 0 is appended, announced and then acknowledged, or dropped when its id is beyond the table. |
| Answers.DamageIsCounted | components/VDP/include/vdb/registry-listener.hpp:36-44 | A damaged packet changes one counter, which its length decides, and nothing else. |
| Answers.RunSendsExactly | components/VDP/include/vdb/registry-listener.hpp:34-115 | In every run the packets sent are, in order, exactly the acknowledgement of each intact broadcast not ahead of the table and the answer to each intact request that finds a response waiting. |
| Answers.AcknowledgementsFollow | components/VDP/include/vdb/registry-listener.hpp:86-94 | In every run each acknowledgement goes out directly after the callback for its broadcast, and each such callback is followed by its acknowledgement. |
| Answers.RunSends | components/VDP/include/vdb/registry-listener.hpp:89-108 | Every packet a run sends is, as the far end reads it, an acknowledgement, or the answer to an intact request of the run: queue length, id and value of the front response that request found. |
| Answers.Transmit | components/VDP/vdb_device.cpp:186-205 | Sending packets one after another puts their encodings on the line back to back. |
| Answers.AnswersArrive | components/VDP/vdb_device.cpp:92-282 | Cut and decoded at the far end, that line gives exactly the packets of the run, in order, each read as meant; acknowledgements always fit the stuffing. |

## Left out

- UART driver, FreeRTOS scheduling and event handling, WiFi, mDNS, NVS, HTTP and websocket code, REST handlers, the LED: I/O without a hard property.
- JSON visitors, message formatting, pretty printing, hex dumps, logging: they rest on cJSON or only print.
- `RegistryListener::send_data`: it depends on `acked`, which nothing in the repository sets.
- Heap exhaustion, `fields.reserve` for a huge field count included, and the leak of a frame the queue refuses, which is modelled as a drop.
- Reads past the end of a packet by `get_byte` and `get_string`, and null parts met while reading or writing: these are excluded by a precondition (`Decodable`, `.Some?`, `Complete`), since the source has no behaviour to state there.
- Overflow of `num_bad` and `num_small`, which are unbounded here.
- Fetchers, `set_fields`, `clone`, `fetch` and the `response` callbacks: one-line forwarding.
- The subclasses of `Part` are one class with a kind; numbers are bits, so no floating-point arithmetic.
- ResponseQueue.QueueIsSafe: the unlocked `size()` test is one atomic read and a queued part is a handle, because the model of the C++ data race itself would be undefined behaviour.
- Registry.RegistryListener.SubmitResponse: requires a known position for data, because the source indexes the table before its check.
- Parts.Part.Plain: says nothing of the value of a new Boolean, because the source leaves it uninitialised.
- Parts.Part.Record: requires parts that share no node, because values are stated per tree; a record the robot program builds over the same part twice has no such tree. Decoded trees never share.
- ResponseQueue.ValueIsThatAtWrite: reads all of a part in one step, because the queue model knows a part by its whole value; a record set half-way through being written is not modelled.
