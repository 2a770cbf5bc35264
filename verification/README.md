# MST5: a verified model

MST5 is a multiplexed RPC transport over encrypted records, with an end-to-end encrypted media
container on top and an HTTP tunnel underneath. This project models its protocol logic in Dafny and
proves what the pieces promise together: what a sender cuts, buffers, pads, seals, queues and retries
arrives at the other end whole, once and in order.

`dafny verify dfyconfig.toml` checks every file.

## The modules

| module | models |
|---|---|
| `Bytes`, `Crypto` | machine integers, big-endian integers; the AEAD and the key derivation as arbitrary functions with laws |
| `MediaFormat`, `MediaEncrypt`, `MediaUpload`, `NativeUpload`, `MediaDecrypt`, `MediaLayout` | the version 2 media container, its chunk encryptor, the browser upload with its alignment buffer, the native upload without one, the incremental decryptor, and the container byte by byte |
| `Frames`, `Records`, `RecordLayout`, `RecordStream`, `BrowserRecords` | the frame codec, the record layer with rekeying, a record byte by byte, the buffer-reusing writer and reader tasks, the browser's counter-only record layer |
| `Cbor`, `CborTheorems`, `Utf8`, `CborCodec` | the CBOR subset: its meaning, its laws, what text is, the appending encoder and the cursor-based decoder |
| `Multiplexer` | requests, the pending map, dispatch and failure as a transition system over every interleaving |
| `Writer`, `WriterBudget`, `WriterOrder`, `WriterUploads`, `WriterProgress` | the two-queue writer with its byte budget and the media upload loops that feed it, as a transition system |
| `Delivery` | the writer's queues and the record layer composed: what the peer reads |
| `Outbox`, `Account`, `Tunnel`, `TunnelTarget` | the send queue, the reconnecting account client, the tunnel loops, the tunnel's GET target |

Code that works by changing things in place is a class or a method with a loop, proved equal to a
function; the theorems are about the functions. Concurrent code is a total function `Do(state, step)`,
and a theorem about `Run(steps)` for every list of steps is a theorem about every interleaving.

## What is taken for granted

- `Crypto.Lawful`: decryption undoes encryption; a ciphertext is 16 bytes longer than its plaintext,
  also when a ciphertext is accepted that was not made by the sender; the detached form yields the
  same bytes and tag. Nothing else is assumed of the primitives, and `Crypto.ToySuiteIsLawful` shows
  that the laws can be met. Key derivation and decompression are arbitrary functions.
- `usize` has 64 bits, also in the browser, where a container beyond the address space is refused.
  Lengths of real buffers therefore fit a `u64`; where the code checks an overflow, so does the model.
- Errors are not told apart: a call fails or it does not. The state a failed call leaves is modelled.
- Sockets, timers and randomness are steps or scripts that may take any value.
- In `Writer` only the holder of an id sends STREAM_DATA and STREAM_END for it
  (src/connection.rs:422-438, src/connection.rs:493-497): an id belongs to one media upload or to one
  other handle, and `begin` never opens a request with these kinds.
- The widening of a 32-bit float to 64 bits is an arbitrary function on the bits.

## Findings

- A frame can reach a request's channel after the connection's failure did:
  `Multiplexer.FrameMayFollowFailure` gives the interleaving. It happens if and only if the reader had
  looked a frame up for that request before the failure, and it is that frame only
  (`Multiplexer.FollowsExactlyWhenCarried`); `Multiplexer.EveryRunIsSafe` adds that it is never a
  terminal one.
- Generations of account connections are a 32-bit counter widened to 64 bits. They increase if and
  only if fewer than 2^32 connections were published (`Account.GenerationsIncrease`), and every number
  of them can be (`Account.AnyNumberIsPublished`).
- The browser's record layer never rekeys. It is compatible with the native one exactly up to the
  record that reaches 2^18 records or 256 MiB (`BrowserRecords.AgreeExactlyBeforeRekey`), and reads
  native records only up to 4 MiB + 512 bytes (`BrowserRecords.RunsCrossExactly`).
- CBOR values nested deeper than 64 or wider than 4194304 encode without complaint and do not decode
  (`CborTheorems.DecodeOfEncode`, `CborTheorems.NestedDecodes`).
- The native end-to-end uploader has no alignment buffer: it hands every read to the encryptor, so it
  succeeds if and only if its reads are the canonical chunks
  (`NativeUpload.SucceedsExactlyOnCanonicalReads`); two bytes read one at a time fail
  (`NativeUpload.ShortReadFails`). The browser uploader takes any split
  (`MediaUpload.UploadIsContainer`).

## Model
| member | source | states |
|---|---|---|
| MediaFormat.EncryptedMediaSize | src/e2e.rs:440-449 | the checked arithmetic yields 32 + n + 20 * ceil(n / 65536), and fails exactly when that does not fit 64 bits |
| MediaFormat.ContainerSizeIncreases | src/e2e.rs:440-449 | the announced size is strictly increasing in the plaintext size |
| MediaFormat.BodySize | src/e2e.rs:482-521 | all sealed chunks of a plaintext of n bytes take n + 20 * ceil(n / 65536) bytes |
| MediaFormat.BodySplit | src/e2e.rs:482-521 | the sealed body of a + b is that of a, then that of b with continued chunk numbers, when a ends on a chunk boundary |
| MediaFormat.ReadHeaderOfHeader | src/e2e.rs:472-480 | the header gives back size and nonce prefix, whatever follows it |
| MediaFormat.OpenContainerOfContainer | src/e2e.rs:552-613 | opening a container in one shot gives back the plaintext it was made of, in canonical chunks |
| MediaFormat.OpenContainerSize | src/e2e.rs:576-620 | any object that is accepted, honest or not, has exactly the size announced for its plaintext |
| MediaEncrypt.SealAllFrom | src/e2e.rs:482-529 | from any state between chunks, a run of chunks completes if and only if it is the canonical chunking of what is missing, and the outputs are then the sealed body |
| MediaEncrypt.AcceptsExactlyCanonicalChunks | src/e2e.rs:482-529 | chunks are accepted and finished if and only if they are the canonical chunking of the declared size; header and outputs are then the container, of exactly the announced size |
| MediaLayout.NoncesNeverRepeat | src/e2e.rs:633-638 | two nonces of one file, 16 bytes of prefix and the big-endian chunk number each, are equal only for equal chunk numbers |
| MediaLayout.ChunkIsSealedUnder | src/e2e.rs:482-521 | a sealed chunk is its length in four bytes and the AEAD's output under the nonce of its number and associated data that reads back to the caller's data, the header, its number and its length |
| MediaLayout.RunIsSealed | src/e2e.rs:482-521 | output k of every accepted run, finished or not, is chunk k sealed under nonce number k |
| MediaLayout.ContainerLayout | src/e2e.rs:472-521 | a container starts with the 32-byte header, and chunk k lies at 32 + 65556 k, sealed under nonce number k |
| MediaLayout.DeliversOnlyAuthenticated | src/e2e.rs:552-620 | whatever the decryptor delivers and finishes, chunk k is what the AEAD accepted under nonce number k at the place of chunk k |
| MediaEncrypt.MediaEncryptor.constructor | src/e2e.rs:451-470 | a fresh encryptor has written nothing and starts at chunk 0 |
| MediaEncrypt.MediaEncryptor.SealChunk | src/e2e.rs:482-521 | the in-place call has the result and the new state of its specification, also when it fails |
| MediaEncrypt.MediaEncryptor.Finish | src/e2e.rs:523-529 | succeeds if and only if exactly the declared size was written |
| MediaUpload.SealFullKeeps | wasm/src/lib.rs:1042-1062 | sealing full chunks keeps the wire equal to header and sealed body of all but the buffered tail, and fails exactly when whole chunks exceed the declared size |
| MediaUpload.FinishIff | wasm/src/lib.rs:1064-1080 | finishing succeeds if and only if the bytes written are as many as declared, and the wire is then the container |
| MediaUpload.UploadIsContainer | wasm/src/lib.rs:1042-1080 | however a file is cut into writes, the upload succeeds if and only if the writes add up to the declared non-zero size and the container fits 64 bits, and the media node receives the container of the file |
| MediaUpload.NeverMoreThanAnnounced | wasm/src/lib.rs:1275-1287 | whatever is written, accepted or refused, the media stream never carries more than the announced size |
| MediaUpload.StreamCarriesTheWrites | wasm/src/lib.rs:999-1023 | a plain browser upload succeeds exactly when its writes add up to the announced size, and carries just them |
| MediaUpload.BeginUpload | wasm/src/lib.rs:761-798 | refuses size 0 and a container beyond 64 bits; otherwise a fresh upload with an empty buffer, the announced size, and the header sent in pieces |
| MediaUpload.BrowserUpload.constructor | wasm/src/lib.rs:1224-1273 | an open media stream has sent nothing |
| MediaUpload.BrowserUpload.StreamWrite | wasm/src/lib.rs:1275-1287 | bytes beyond the announced size are refused and nothing is sent; others go out as one STREAM_DATA frame for each piece of the negotiated chunk size, none empty, in order, and are counted |
| MediaUpload.BrowserUpload.Write | wasm/src/lib.rs:1042-1062 | the loop over the alignment buffer does what its specification does, to buffer, encryptor and wire |
| MediaUpload.BrowserUpload.Finish | wasm/src/lib.rs:1064-1080 | the buffered tail is sealed and both byte counts are checked as specified |
| NativeUpload.SendAllIsSealAll | src/lib.rs:1508-1528 | the loop is a run of the encryptor that also counts and keeps its outputs; a failed read fails it |
| NativeUpload.SucceedsExactlyOnCanonicalReads | src/lib.rs:1466-1535 | the upload succeeds if and only if no read fails, the container fits 64 bits and the reads are the canonical chunks of the declared bytes; the payloads sent are then the container |
| NativeUpload.ShortReadFails | src/lib.rs:1508-1528 | a source of two bytes that returns them one at a time is refused |
| NativeUpload.NativeEndToEnd | src/lib.rs:1458-1551 | what the native upload sends successfully decrypts, in any fragmentation, to the chunks it read |
| NativeUpload.UploadLoop | src/lib.rs:1494-1535 | the loop has the payloads and the outcome of its specification, also when it fails |
| MediaDecrypt.NextChunkMore | src/e2e.rs:576-611 | more input never changes what the loop has already decided: a taken chunk stays taken, a refusal stays a refusal |
| MediaDecrypt.PushSplits | src/e2e.rs:552-613 | from any state, for any bytes, push(a) then push(b) succeed exactly when push(a + b) does, with the same state and the same chunks |
| MediaDecrypt.PushAllIsOnePush | src/e2e.rs:552-613 | any number of pushes does what one push of all the bytes does |
| MediaDecrypt.RefinesOneShotReader | src/e2e.rs:552-620 | for any bytes in any fragmentation, pushes and finish succeed exactly when the one-shot reader accepts, with its chunks and their total length, and the accepted bytes have the announced size |
| MediaDecrypt.DecryptsContainer | src/e2e.rs:552-620 | the container of any plaintext, the empty one included, decrypts to it in any fragmentation |
| MediaDecrypt.EndToEnd | src/e2e.rs:482-620 | whatever the split into writes at the sender and into pushes at the receiver, the outputs concatenate to the file and finish returns its length |
| MediaDecrypt.MediaDecryptor.constructor | src/e2e.rs:532-546 | a fresh decryptor is in the initial state |
| MediaDecrypt.MediaDecryptor.TakeHeader | src/e2e.rs:554-574 | the header is taken off the buffer if and only if it is a version 2 header; otherwise nothing changes |
| MediaDecrypt.MediaDecryptor.TakeChunk | src/e2e.rs:576-611 | one turn of the loop takes, refuses or waits as specified, and changes only what is specified |
| MediaDecrypt.MediaDecryptor.TakeChunks | src/e2e.rs:575-613 | the loop has the output and the final state of the recursive specification |
| MediaDecrypt.MediaDecryptor.Push | src/e2e.rs:552-613 | a push has the output and the state of its specification, also when it fails |
| MediaDecrypt.MediaDecryptor.Finish | src/e2e.rs:615-620 | returns the plaintext length if and only if the header was read, everything was written and nothing is left over |
| Frames.DecodeOfEncode | src/lib.rs:2999-3097 | every legal frame encodes, and decodes to itself |
| Frames.EncodeOfDecode | src/lib.rs:3025-3097 | whatever decodes to an uncompressed frame is that frame's one encoding, and the frame is legal |
| Frames.DecodesExactly | src/lib.rs:3025-3097 | bytes decode to a frame exactly when the header holds its fields, the kind is known, only RESULT and EVENT_BATCH are compressed, and the payload is the output of the library that the flag names, at most 4 MiB and 64 times its wire length |
| Frames.EncodesExactly | src/lib.rs:2999-3023 | bytes are a frame's encoding exactly when every field of the 40-byte header reads back and the payload follows |
| Records.PaddedLenBound | src/lib.rs:3546-3550 | the largest record length bounds every sealed record |
| Records.ParseOfPadded | src/lib.rs:3487-3545 | parsing undoes padding, for application data and for closes |
| Records.OpenOfSeal | src/lib.rs:3349-3385 | from equal states the opener accepts what the sealer emits, passes its length check, yields the payload and ends in the sealer's state |
| Records.SealKeepsBounds | src/lib.rs:3256-3297 | from a bounded state the limit check never refuses, nonce and byte count stay below 2^18 and 2^28, the pair of generation and nonce moves up, and sealing fails exactly when a rekey would overflow the generation |
| Records.Lockstep | src/lib.rs:3349-3385 | over any successful run both ends stay equal in key, nonce, count and generation across any number of rekeys, and the messages arrive exactly |
| Records.RunIsSafe | src/lib.rs:3256-3297 | every successful run from a bounded state stays bounded and never uses a pair of generation and nonce twice; a run of sealable messages too short to exhaust the generation succeeds |
| Records.FreshRun | src/lib.rs:3246-3385 | from a fresh key, any run of at most 2^64 - 1 sealable messages is sealed and arrives intact |
| RecordLayout.PaddedLenIs | src/lib.rs:3487-3516 | the padded length is the next multiple of 256 up to 1024 bytes and of 128 beyond |
| RecordLayout.ParsesExactly | src/lib.rs:3518-3545 | a plaintext is accepted exactly when it is content type, length, payload and zeros, however much padding it carries |
| RecordLayout.KeysFollowGenerations | src/lib.rs:3272-3297 | along every run, failures included, the key is the one derived from the first by one step for each generation |
| RecordLayout.RecordIsSealedUnder | src/lib.rs:3349-3365 | a record is its sequence number and the AEAD's output under four zero bytes and the little-endian number, with associated data that reads back to label, hash, length and number |
| RecordLayout.RunCarries | src/lib.rs:3349-3365 | record i of every successful run carries message i, padded, under the key of its generation and its own nonce |
| RecordLayout.OpensOnlyAuthenticated | src/lib.rs:3366-3385 | whatever is opened was accepted by the AEAD under this state's key and next nonce, is well formed, and is within the limits |
| RecordLayout.RefusalChangesNothing | src/lib.rs:3366-3385 | a refused record leaves the cipher state as it was |
| RecordLayout.OutOfSequenceIsRefused | src/lib.rs:3366-3385 | a record with any other sequence number than the next is refused |
| RecordLayout.ReplayIsRefused | src/lib.rs:3366-3385 | a record that was accepted is refused when it comes again at once, also across a rekey |
| RecordStream.ReadOfWrite | src/connection.rs:665-731 | a written frame or close in front of any bytes is read back, with the writer's cipher state and exactly those bytes left |
| RecordStream.ReadOfCut | src/connection.rs:758-792 | a record that was cut short is refused and leaves the cipher alone |
| RecordStream.ReadRunOfWriteRun | src/connection.rs:587-641 | whatever was written is read back exactly, in order, up to the first close, ending in equal cipher states if nothing follows a close |
| RecordStream.ReadRunOfPart | src/connection.rs:587-641 | whatever part of a stream arrives, a prefix of the written frames is read from it |
| RecordStream.WriteIntoIsPart | src/connection.rs:552-585 | a socket that breaks has taken a part of the bytes of the whole run, and the writer fails exactly then or when sealing does |
| RecordStream.FramesCross | src/connection.rs:552-641 | from a fresh key every run of legal frames is written without failure and crosses the stream |
| RecordStream.CipherCell.constructor | src/lib.rs:3246-3255 | a new cipher is fresh |
| RecordStream.CipherCell.CommitRecord | src/lib.rs:3272-3297 | the in-place count, rekey and failure leave the specified state |
| RecordStream.RecordWriter.EncodeInto | src/lib.rs:2999-3023 | whatever the buffer held, it holds the frame's encoding afterwards, or the frame is refused |
| RecordStream.RecordWriter.TransportPlaintextInto | src/lib.rs:3487-3516 | whatever the buffer held, it holds the padded plaintext afterwards; a refused payload leaves it alone |
| RecordStream.RecordWriter.SealRecordInto | src/connection.rs:732-756 | whatever the reused buffers held, record bytes, cipher state and success are those of the allocating form |
| RecordStream.RecordWriter.SealCommand | src/connection.rs:665-710 | a frame or a close is sealed in the reused buffers as specified |
| RecordStream.RecordWriter.WriteCommand | src/connection.rs:665-731 | length and record go onto the socket, as far as it takes them |
| RecordStream.RecordWriter.WriteCommands | src/connection.rs:552-585 | over a whole run of frames and closes, on a socket that may break, the buffer-reusing writer equals the specification in bytes, cipher state and success |
| RecordStream.RecordReader.OpenBuffer | src/connection.rs:774-792 | the reused buffer is opened with the result and the state of the allocating form |
| RecordStream.RecordReader.ReadFrame | src/connection.rs:758-792 | whatever the buffer held, one frame is read off the stream as specified, also on malformed or truncated input |
| RecordStream.RecordReader.ReadFrames | src/connection.rs:587-641 | over a whole stream the reader delivers the specified frames until a close or a failure, the end of the stream being one, and ends in the specified state |
| BrowserRecords.NativeStateCompared | src/lib.rs:3272-3297 | the native nonce equals the record number before the first rekey and is smaller ever after |
| BrowserRecords.BrowserCounts | wasm/src/lib.rs:1802-1826 | along a run of sealed records the browser's nonce is the record number and its key never changes |
| BrowserRecords.AgreeExactlyBeforeRekey | wasm/src/lib.rs:1802-1826 | record i is byte for byte the same on both sides if and only if no earlier record reached 2^18 records or 256 MiB; past that the sequence number already differs |
| BrowserRecords.BrowserReceivesNative | wasm/src/lib.rs:1627-1638 | the browser takes native record i, with its payload, if and only if it is before the rekey and within the length it reads |
| BrowserRecords.NativeReceivesBrowser | src/lib.rs:3366-3385 | the native side takes browser record i, with its payload and the sealer's state, if and only if it is before the rekey |
| BrowserRecords.RunsCrossExactly | wasm/src/lib.rs:1802-1858 | over whole runs from one fresh key, each side reads all of the other's records if and only if the last one is before the rekey and, in the browser, none is too long |
| BrowserRecords.BrowserParseIsParse | wasm/src/lib.rs:1840-1858 | the browser's check of an opened plaintext accepts exactly the application records the native one accepts, up to the native payload limit |
| BrowserRecords.OpenCompared | wasm/src/lib.rs:1827-1858 | on any record, well formed or not, the browser accepts exactly what the native layer accepts as application data, with the same payload |
| BrowserRecords.AcceptsAlike | wasm/src/lib.rs:1827-1858 | over a whole run up to the threshold, the browser accepts a sequence of records exactly when the native layer accepts them all as application records, with the same payloads |
| CborTheorems.HeadReads | src/lib.rs:3709-3730 | every head gives back its major type and argument, and leaves what follows it |
| CborTheorems.ReadOfEncode | src/lib.rs:3742-3875 | in front of any suffix the decoder consumes exactly the encoding and yields the normal form if the value fits depth and width, and refuses otherwise |
| CborTheorems.DecodeOfEncode | src/lib.rs:3669-3875 | a value decodes from its encoding, with non-negative integers normalised, if and only if its height is at most 64 and no container has more than 4194304 entries |
| CborTheorems.NestedDecodes | src/lib.rs:3669-3875 | for every height there is an encodable value, and it decodes exactly up to height 64 |
| CborTheorems.PrefixFree | src/lib.rs:3669-3730 | of two encodings at the start of one stream, of any values whatever their depth and width, both are of the same normal form and the same bytes |
| CborTheorems.ReadIsCanonical | src/lib.rs:3742-3875 | any accepted value is within the limits, in normal form, and has no more values in it than bytes were consumed |
| CborTheorems.DecodedIsFixedPoint | src/lib.rs:317-324 | any accepted value survives encoding and decoding unchanged, floats by their bits |
| CborTheorems.ReadsAnyWidth | src/lib.rs:3853-3875 | a head of any width that holds its argument is read like the shortest one |
| CborTheorems.ReadsSingle | src/lib.rs:3742-3822 | a 32-bit float is read as its widened value |
| CborTheorems.Refuses | src/lib.rs:3742-3875 | tags, indefinite and reserved lengths, unknown simple values, integers below the 64-bit range, too deep nesting and the empty input are refused |
| Utf8.ValidExactly | src/lib.rs:3742-3822 | the bytes taken as text are exactly the UTF-8 encodings of sequences of Unicode scalar values |
| CborCodec.CborWriter.PutHead | src/lib.rs:3709-3730 | appends exactly the head |
| CborCodec.CborWriter.Put | src/lib.rs:3669-3707 | appends exactly the encoding, whatever the buffer held |
| CborCodec.CborWriter.PutItems | src/lib.rs:3692-3697 | the loop over an array appends the items' encodings in order |
| CborCodec.CborWriter.PutEntries | src/lib.rs:3698-3705 | the loop over a map appends keys and values in order |
| CborCodec.CborDecoder.Byte | src/lib.rs:3823-3830 | reads the byte at the cursor, or fails at the end without moving |
| CborCodec.CborDecoder.Take | src/lib.rs:3832-3844 | takes exactly the bytes at the cursor, or fails without moving |
| CborCodec.CborDecoder.Argument | src/lib.rs:3853-3875 | reads the argument of a head as specified |
| CborCodec.CborDecoder.Items | src/lib.rs:3742-3822 | the loop over an array finds what the specification finds, with the cursor in bounds, and builds no more values than it consumes bytes |
| CborCodec.CborDecoder.Entries | src/lib.rs:3742-3822 | the same for a map, whose keys must be text |
| CborCodec.CborDecoder.ReadValue | src/lib.rs:3742-3822 | terminates on every input with the cursor in bounds, finds what the specification finds, and builds no more values than it consumes bytes, also when it fails |
| CborCodec.EncodeCbor | src/lib.rs:311-315 | a fresh buffer ends up holding the encoding |
| CborCodec.DecodeCbor | src/lib.rs:317-324 | accepts exactly the inputs that are one value and nothing else |
| Multiplexer.StepKeeps | src/connection.rs:112-171 | every step of begin, dispatch, cancel, remove, drop, fail and close keeps the invariant that at most one party may still end a request |
| Multiplexer.EveryRunIsSafe | src/connection.rs:338-398 | in every interleaving ids are never 0 and strictly increase, a channel carries only frames read for its id, in read order and none after its terminal frame, at most one event ends the request, and at most one frame follows a failure |
| Multiplexer.NothingIsLost | src/connection.rs:352-398 | in every run whose receivers stay open, a request's channel holds exactly the answers found for it while it was pending, in order, but for the one being delivered |
| Multiplexer.FailureReachesThePending | src/connection.rs:338-350 | in every run whose receivers stay open, a request learns of the failure, or is about to, if and only if it was pending when the failure took the map |
| Multiplexer.PendingChangesExactly | src/connection.rs:112-171 | exactly an insert makes a request pending, and exactly a removal, the failure or a terminal answer ends that |
| Multiplexer.BeginMakesPending | src/connection.rs:112-171 | an undisturbed begin issues the next id and makes it pending |
| Multiplexer.ReplyReaches | src/connection.rs:352-398 | an answer to a pending request is put on its channel and on no other, and ends it if and only if it is terminal |
| Multiplexer.OtherFrames | src/connection.rs:352-398 | a late answer and a ping change nothing, and any frame that no server sends stops the reader |
| Multiplexer.FailureReaches | src/connection.rs:338-350 | a failure of an open connection reaches a pending request and leaves none pending |
| Multiplexer.NothingIssuedAfterClose | src/connection.rs:112-171 | a closed connection issues no more ids, whatever is still in progress |
| Multiplexer.AtMostTheCarriedFrame | src/connection.rs:338-398 | after a failure, whatever happens next, a channel gets at most the frame that the reader was carrying for it |
| Multiplexer.FollowsExactlyWhenCarried | src/connection.rs:338-398 | a channel that has seen a failure changes in some continuation if and only if the reader carries a frame for it, and otherwise never again |
| Multiplexer.FrameMayFollowFailure | src/connection.rs:338-398 | a concrete interleaving in which a stream frame arrives behind the failure |
| WriterBudget.StepConserves | src/connection.rs:283-314 | every step moves budget between the free permits and the commands that hold them, and loses none |
| WriterBudget.BudgetIsConserved | src/connection.rs:283-314 | in every reachable state free and held permits add up to 1024, admitted frames never exceed 16 MiB, and a legal frame needs at most 257 permits, so an empty writer admits it |
| WriterOrder.StepKeeps | src/connection.rs:552-585 | what is written, being written and queued for control stays ordered by request id under every step |
| WriterOrder.RequestsInOrder | src/connection.rs:144-169 | in every run request-opening frames are on the wire with strictly increasing ids |
| WriterProgress.QueuesAreFifo | src/connection.rs:283-314 | as long as the writer lives, each of the two queues gives out its commands in the order in which they were put in |
| WriterProgress.ControlIsNotOvertaken | src/connection.rs:559-564 | what is queued for control at any moment goes out before anything else that was not sent then |
| WriterProgress.QueuesAreBounded | src/connection.rs:8-14 | the queues never hold more than 64 and 128 commands |
| WriterProgress.OthersAreAdmitted | src/connection.rs:283-314 | any other legal frame is admitted when its budget is there |
| WriterProgress.ClosesAndFailures | src/connection.rs:552-585 | a close is queued behind all control frames, and a failed write ends the writer |
| WriterProgress.UploadStops | src/lib.rs:1276-1317 | a source that is too long or too short stops its upload |
| WriterProgress.StoppedForGood | src/lib.rs:1276-1317 | a stopped upload stays as it is and has no further frame admitted |
| WriterProgress.UploadGoesThrough | src/lib.rs:1276-1317 | from any quiet moment of any run, an upload whose chunks add up can be taken to its end: all chunks in order, then STREAM_END, and all budget free again |
| WriterProgress.UploadStarts | src/lib.rs:1241-1275 | such a moment exists for every declared size |
| WriterUploads.OwnWrite | src/lib.rs:1276-1317 | a completed write of an upload's own frame advances the upload exactly by that frame |
| WriterUploads.StepKeeps | src/lib.rs:1276-1317 | every step of the connection and of any upload keeps every upload consistent with the wire |
| WriterUploads.OwnersSend | src/connection.rs:493-497 | where every command is owned, as every step keeps it, stream data with an upload's id is that upload's and the other way round |
| WriterUploads.EndFollowsAllData | src/lib.rs:1276-1317 | whenever a STREAM_END with an upload's id is on the wire, all STREAM_DATA with that id precede it, and their payloads are one by one the chunks its reads returned, as many bytes as declared |
| WriterUploads.EndLeavesAfterAllData | src/lib.rs:1276-1317 | the same already when the STREAM_END is queued or being written |
| Delivery.PeerReadsTheWire | src/connection.rs:552-641 | in every run of the writer sealing succeeds, and the peer reads exactly the frames before the first close in the order the queues gave them out |
| Delivery.PeerReadsAPrefix | src/connection.rs:552-641 | whatever part of the bytes arrives, the peer reads a prefix of those frames |
| Delivery.MediaNodeHasTheFile | src/lib.rs:1276-1317 | whatever part of the bytes arrives, a peer that has read an upload's STREAM_END has read exactly the chunks of its source, as many bytes as declared |
| Outbox.FailureSchedules | src/outbox.rs:137-156 | a failure is final exactly when the attempts reach the limit; otherwise the retry is due after min(max_delay, initial * 2^min(attempts before, 31)) |
| Outbox.DelaysDouble | src/outbox.rs:137-156 | the delay doubles from the initial one up to 2^31 times |
| Outbox.EnqueueAppends | src/outbox.rs:95-104 | a known id is refused; a new item goes behind all others and is due at once |
| Outbox.ClaimTakesTheFirstDue | src/outbox.rs:106-114 | a claim takes the first item that is due, and fails only if none is |
| Outbox.DeliveredIsDone | src/outbox.rs:127-135 | a delivered item is complete, without error, and never due again |
| Outbox.FailedWaits | src/outbox.rs:137-156 | a failed item keeps its error and is due again exactly from its retry time on, or not at all |
| Outbox.RetriedIsDue | src/outbox.rs:158-169 | a failed item that is retried by hand is due at every time, with its attempts kept; any other is left alone |
| Outbox.ProgressMoves | src/outbox.rs:116-125 | progress moves only while an item is being sent, and at most to 99 |
| Outbox.OthersAreLeftAlone | src/outbox.rs:106-169 | every operation on an item leaves all other items, all payloads and the order alone |
| Outbox.RemovalKeepsOrder | src/outbox.rs:171-174 | removal drops exactly the delivered items and works part by part |
| Outbox.PayloadsAreKept | src/outbox.rs:95-174 | over every sequence of operations an item keeps the payload it was enqueued with |
| Outbox.StepKeeps | src/outbox.rs:95-174 | every operation keeps ids unique, progress consistent with the state, and claims within the bound |
| Outbox.RetriesAreBounded | src/outbox.rs:95-174 | over every sequence of operations ids stay unique, Sending means at most 99 and Delivered exactly 100, and an item is claimed at most max(max_attempts, 1) times plus its manual retries |
| Outbox.Queue.Enqueue | src/outbox.rs:95-104 | appends the item if and only if its id is new |
| Outbox.Queue.ClaimReady | src/outbox.rs:106-114 | claims the first ready item and names it, or changes nothing |
| Outbox.Queue.UpdateProgress | src/outbox.rs:116-125 | sets at most 99 on an item being sent, and nothing else |
| Outbox.Queue.MarkDelivered | src/outbox.rs:127-135 | the first item with the id becomes delivered |
| Outbox.Queue.MarkFailed | src/outbox.rs:137-156 | the saturating in-place arithmetic leaves the specified item |
| Outbox.Queue.RetryFailed | src/outbox.rs:158-169 | requeues a failed item at once, and nothing else |
| Outbox.Queue.RemoveDelivered | src/outbox.rs:171-174 | keeps exactly the undelivered items, in order |
| Account.StepKeeps | src/account.rs:273-338 | every step keeps generations equal to publication numbers modulo 2^32 and the connector's re-check in force |
| Account.GenerationsIncrease | src/account.rs:273-312 | published generations strictly increase if and only if fewer than 2^32 were published |
| Account.AnyNumberIsPublished | src/account.rs:273-312 | for every n some run publishes n connections, so the wrap is reached |
| Account.PublishOverwritesNothingLive | src/account.rs:273-312 | in every interleaving a connect never replaces a live connection |
| Account.InvalidateTakesExactlyItsOwn | src/account.rs:314-338 | before the counter wraps, a failed request removes and closes what is published if and only if that is the connection it used |
| Account.RequestUsesTheLive | src/account.rs:273-286 | a request is given what is published exactly while it is live |
| Account.DeadMakesWay | src/account.rs:262-286 | a connection that died or was taken out is given to no request and makes way for a new one |
| Account.PublishedIsCurrent | src/account.rs:301-312 | what a connect publishes is new, is what everybody finds, and is what its request uses |
| Account.RequestCbor | src/account.rs:179-260 | every attempt carries the same kind, payload and nonce, a COMMAND without a nonce gets one non-zero nonce, the drawn one unless that is zero, there are exactly as many attempts as the surroundings let through, and it succeeds exactly when one is answered |
| Tunnel.NumberJoins | src/m5oh.rs:253-318 | a new number extends a well-numbered open log by exactly its payload |
| Tunnel.RetryJoins | src/m5oh.rs:253-318 | repeating the last request leaves the log well numbered and adds no bytes |
| Tunnel.Gather | src/m5oh.rs:263-277 | coalesces consecutive local bytes until a chunk is full, a pause or the end; empty only at the end |
| Tunnel.Send | src/m5oh.rs:278-312 | sends a request once, and once more exactly when the first was lost and the reconnect worked; a closing reply costs one reconnect; it finishes exactly when all of that works |
| Tunnel.UploadOne | src/m5oh.rs:262-317 | one turn binds one number to one payload and end flag and extends the stream by exactly what was gathered |
| Tunnel.UploadLoop | src/m5oh.rs:253-318 | under any failures and reconnects numbers run from 1, each bound to one payload and end flag and sent at most twice, payloads form a prefix of the local bytes, all of them on success, and it fails only where a failure ended it |
| Tunnel.Fetch | src/m5oh.rs:328-355 | one number is asked for, and once more after a reconnect exactly when the reply was lost |
| Tunnel.DownloadLoop | src/m5oh.rs:320-377 | under any failures each request asks for the number that the bodies so far leave next, each body is written exactly once and in order, one per reply, with at most a part of one more if the local socket breaks; the loop finishes with the last body, stops at a double loss or a bad connect, and makes one connect for each lost and each closing reply |
| TunnelTarget.DecodeOfBase64 | src/lib.rs:3878-3926 | the tolerant decoder undoes unpadded base64url on every input but the empty one, which it refuses |
| TunnelTarget.TargetRoundTrip | src/m5oh.rs:450-478 | the text behind the prefix gives back destination and payload, each route byte at its permuted place, and the target fits 23552 bytes if and only if the payload is at most 17653 bytes |
| TunnelTarget.PlainTargetRoundTrip | src/m5oh.rs:450-467 | without a destination the target is the bare path or carries the payload alone |
| TunnelTarget.Base64At | src/m5oh.rs:480-497 | character k of the text stands for bits 6k to 6k + 5 of the input in the URL-safe alphabet |
| TunnelTarget.DecodeIsTolerant | src/lib.rs:3878-3926 | padded text and text with whitespace decode too |
| TunnelTarget.RouteRoundTrip | wasm/src/lib.rs:104-129 | the selector of a route gives back destination and reserved field, each byte at its permuted place |
| TunnelTarget.StrictDecodesExactly | wasm/src/lib.rs:2185-2206 | the browser takes a selector as bytes exactly when it is their text |
| TunnelTarget.BrowserTargetIsNative | wasm/src/lib.rs:2185-2206 | from the selector of a destination, with or without a record, the browser builds the native client's target |
| TunnelTarget.Base64UrlNoPad | src/m5oh.rs:480-497 | the appending loop yields the base64url text |
| TunnelTarget.DecodeBase64 | src/lib.rs:3878-3915 | the loops that strip whitespace, pad and decode yield the specified result |

## Left out
- MediaFormat.OpenContainer: on a 32-bit target the decryptor narrows the remaining size; only the 64-bit meaning is modelled.
- MediaUpload.Upload: the transport behind the media stream is reliable here, and so are the sends of `NativeUpload.Upload`; a send that fails ends the real upload too, with no further writes.
- Tunnel.Gather: how many bytes a pause of two milliseconds lets through is up to the script, not to a clock.
- Account.Do: jittered backoff, deadlines and the classification of errors are parameters of the turns; what `current` has to do with changed credentials is not claimed, because the code does not order those steps.
- Writer.Do: the contents of writer timeouts; a timed-out sender is a step that may happen at any time. A future of `begin_stream` that is dropped midway is a released lock.
- Multiplexer.Do: the 64-request permit count, because a dropped handle frees its permit before its entry is removed; answers to PING and the event broadcast, which do not touch a request's channel.
- Outbox.Run: queues loaded from JSON, whose ids are not checked for uniqueness, and the syntax check of new ids.
- Cbor.Encode: lengths of 2^64 and more, which no buffer has.
- The handshake, the primitives themselves, zstd and DEFLATE.
- The version 4 message padding and key wrapping of `src/e2e.rs`, `BrowserSession::read_exact` and resumable uploads: each would add only a short codec or a variation of what is here.
- The `Client` methods and opcode tables, `src/messenger.rs`, `src/image.rs`, session files, and the JNI, C and Android layers.
