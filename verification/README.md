# RAMCloud Java client binding and ping service, in Dafny

This project models two small pieces of RAMCloud.

**The Java client binding.** The `RAMCloud` Java object talks to the native
client library through one 2 MiB little-endian `ByteBuffer`, and every call
reuses it:

- Rewind the buffer, then write the request frame from offset 0: the cluster
  handle, table id, length-prefixed key and value, and the 12-byte
  reject-rules block.
- Call the native entry point, then rewind again.
- Read the 4-byte status. A nonzero status throws. Otherwise read the
  operation's result: a version, a table id, an incremented value or a
  read's value.

The model keeps this shape:

- `JavaBinding.RAMCloud` is a class holding the buffer as an `array<byte>`,
  its cursor, the cluster handle and the shared zero reject-rules array.
- Each frame writer is proved to leave exactly the frame from the pure
  definitions in `WireFrames` at the front of the buffer, with every later
  byte unchanged.
- Each operation is proved to return what the response decoders in
  `WireFrames` compute from the buffer the native side left behind.
- `WireFrames` proves every frame and every response parses back to its
  fields.
- `RejectRulesCodec` proves the reject-rules encoding is invertible and
  canonical.
- `Bytes` proves the little-endian `putInt`/`putLong`/`getInt`/`getLong`
  codecs are mutually inverse, with Java's two's complement written out.

The native library is an oracle. Each call is given the response bytes as a
parameter. The call records the request it was handed (the buffer up to the
cursor) in a ghost log. It then overwrites the front of the buffer with the
response.

**The ping service.** `PingService.dispatch` sends three opcodes to their
handlers and rejects all others with `UnimplementedRequestError`:

- `ping` echoes its nonce.
- `proxyPing` reads a service locator from the request payload, pings that
  server with nonce 99999, and reports the elapsed nanoseconds when 99999
  comes back. Otherwise it reports -1, and a timeout also reports -1. Any
  other exception from the inner ping is not caught and fails the request.
- `getMetrics` appends the serialized metrics to the reply and puts their
  length in the response header.

`PingService.Rpc` and `PingService.PingService` are classes whose handler
methods update the RPC's response header and reply payload. The clock
readings, the inner ping's outcome, the cycles-to-nanoseconds conversion and
the serialized metrics are inputs.

Where the code and its comments disagree, the model follows the code:

- The comment inside `proxyPing` (src/PingService.cc:75-76) calls the
  matching nonce "an incorrect response". The code records the elapsed time
  in exactly that case, and so does the model.
- The documentation of `getRejectRulesBytes` says absent rules give a null
  array. The code returns the shared twelve-byte zero array
  (RAMCloud.java:56-58), and so does the model.

## Model

All RAMCloud.java paths below are `bindings/java/src/main/java/edu/stanford/ramcloud/RAMCloud.java`.

| member | source | states |
|---|---|---|
| Bytes.FromLittleEndianInverse | bindings/java/src/main/java/edu/stanford/ramcloud/RAMCloud.java:166 | reading back the `width` little-endian bytes of any number below 256^width gives that number |
| Bytes.LittleEndianInverse | bindings/java/src/main/java/edu/stanford/ramcloud/RAMCloud.java:166 | re-encoding the number read from any byte sequence reproduces the sequence |
| Bytes.LittleEndianByte | bindings/java/src/main/java/edu/stanford/ramcloud/RAMCloud.java:63-65 | byte i of the little-endian encoding is `(n >>> 8i) & 0xff` |
| Bytes.DecodeEncodeInt32 | bindings/java/src/main/java/edu/stanford/ramcloud/RAMCloud.java:166-168 | getInt after putInt returns the Java int written, negatives included |
| Bytes.DecodeEncodeInt64 | bindings/java/src/main/java/edu/stanford/ramcloud/RAMCloud.java:166 | getLong after putLong returns the Java long written, negatives included |
| Bytes.EncodeDecodeInt32 | bindings/java/src/main/java/edu/stanford/ramcloud/RAMCloud.java:177 | putInt after getInt reproduces any four bytes, so a status read back is exactly the bytes the native side wrote |
| Bytes.EncodeDecodeInt64 | bindings/java/src/main/java/edu/stanford/ramcloud/RAMCloud.java:166 | putLong after getLong reproduces any eight bytes |
| Bytes.EncodeInt64Byte | bindings/java/src/main/java/edu/stanford/ramcloud/RAMCloud.java:63-65 | byte i of putLong(v) is `(byte) (v >>> (i * 8))` |
| Bytes.EncodeInt64ZeroIff | bindings/java/src/main/java/edu/stanford/ramcloud/RAMCloud.java:45 | zero is the only long that encodes as eight zero bytes |
| RejectRulesCodec.RejectRulesBytes | bindings/java/src/main/java/edu/stanford/ramcloud/RAMCloud.java:55-70 | every rule set, present or absent, takes exactly twelve bytes |
| RejectRulesCodec.RejectRulesLayout | bindings/java/src/main/java/edu/stanford/ramcloud/RAMCloud.java:61-69 | bytes 0-7 are the given version shifted right by 8i; bytes 8-11 are 1 exactly when the matching flag is set, 0 exactly when it is clear |
| RejectRulesCodec.RejectRulesVersionRoundTrip | bindings/java/src/main/java/edu/stanford/ramcloud/RAMCloud.java:62-65 | reading bytes 0-7 as a little-endian long recovers the given version |
| RejectRulesCodec.DecodeRejectRulesInverse | bindings/java/src/main/java/edu/stanford/ramcloud/RAMCloud.java:55-70 | decoding the twelve bytes of a present rule set returns that rule set |
| RejectRulesCodec.DecodeAbsentRejectRules | bindings/java/src/main/java/edu/stanford/ramcloud/RAMCloud.java:56-58 | absent rules decode as the rule set that rejects nothing |
| RejectRulesCodec.RejectRulesCanonical | bindings/java/src/main/java/edu/stanford/ramcloud/RAMCloud.java:55-70 | a present rule set has the bytes of an absent one if and only if it is version 0 with all flags false |
| RejectRulesCodec.RejectRulesInjective | bindings/java/src/main/java/edu/stanford/ramcloud/RAMCloud.java:61-69 | two rule sets with the same bytes are equal |
| JavaBinding.RAMCloud.GetRejectRulesBytes | bindings/java/src/main/java/edu/stanford/ramcloud/RAMCloud.java:55-70 | the returned array holds the twelve-byte encoding; for absent rules it is the shared zero array, otherwise a fresh one |
| WireFrames.ParseLengthPrefixedInverse | bindings/java/src/main/java/edu/stanford/ramcloud/RAMCloud.java:261-262 | a length-prefixed field parses back to its bytes and what follows |
| WireFrames.ParseCStringInverse | bindings/java/src/main/java/edu/stanford/ramcloud/RAMCloud.java:476-477 | a NUL-free name followed by its NUL parses back to the name and what follows |
| WireFrames.ParseKeyHeadInverse | bindings/java/src/main/java/edu/stanford/ramcloud/RAMCloud.java:259-262 | handle, table id and length-prefixed key parse back to their values |
| WireFrames.KeyRulesRequestFields | bindings/java/src/main/java/edu/stanford/ramcloud/RAMCloud.java:257-263 | a read or remove frame parses to its handle, table, key and encoded rules |
| WireFrames.WriteRequestFields | bindings/java/src/main/java/edu/stanford/ramcloud/RAMCloud.java:425-432 | a write frame parses to its handle, table, key, value and encoded rules |
| WireFrames.IncrementRequestFields | bindings/java/src/main/java/edu/stanford/ramcloud/RAMCloud.java:441-447 | an increment frame parses to its handle, table, key and increment, then the twelve rule bytes |
| WireFrames.CreateTableRequestFields | bindings/java/src/main/java/edu/stanford/ramcloud/RAMCloud.java:473-477 | a createTable frame parses to its handle, span and NUL-terminated name |
| WireFrames.TableNameRequestFields | bindings/java/src/main/java/edu/stanford/ramcloud/RAMCloud.java:510-513 | a dropTable or getTableId frame parses to its handle and NUL-terminated name |
| WireFrames.NanoLogRequestFields | bindings/java/src/main/java/edu/stanford/ramcloud/RAMCloud.java:351-359 | a nanoLogPrint frame carries the handle and a length of msgLen + 1, covering the message and its NUL |
| WireFrames.ConnectRequestFields | bindings/java/src/main/java/edu/stanford/ramcloud/RAMCloud.java:168-174 | a connect frame parses to the locator, its NUL, the cluster name, its NUL and the port |
| WireFrames.DecodeStatusResponse | bindings/java/src/main/java/edu/stanford/ramcloud/RAMCloud.java:515-516 | a pass means the first four bytes are a zero status; a failure carries the nonzero status whose encoding the first four bytes are |
| WireFrames.DecodeInt64Response | bindings/java/src/main/java/edu/stanford/ramcloud/RAMCloud.java:327-331 | a success means the first twelve bytes are the one-long reply built from a zero status and the value returned; a failure carries the nonzero status the buffer starts with |
| WireFrames.DecodeReadResponse | bindings/java/src/main/java/edu/stanford/ramcloud/RAMCloud.java:267-273 | a success means the buffer starts with the read reply built from the version and value returned. A status failure carries the nonzero status written. A negative-length failure means status 0 and that length in bytes 12-15. An underflow means status 0 and a nonnegative length that runs past the buffer |
| WireFrames.ResponseStatusInverse | bindings/java/src/main/java/edu/stanford/ramcloud/RAMCloud.java:327-328 | the status read is the status the native side wrote |
| WireFrames.FailedStatusStopsDecoding | bindings/java/src/main/java/edu/stanford/ramcloud/RAMCloud.java:268 | a nonzero status makes every decoder fail with that status, whatever follows it |
| WireFrames.DecodeInt64ResponseInverse | bindings/java/src/main/java/edu/stanford/ramcloud/RAMCloud.java:435-437 | a successful one-long reply decodes to the long written |
| WireFrames.DecodeReadResponseInverse | bindings/java/src/main/java/edu/stanford/ramcloud/RAMCloud.java:267-273 | a successful read reply decodes to exactly the version and value written |
| JavaBinding.RAMCloud.ForHandle | bindings/java/src/main/java/edu/stanford/ramcloud/RAMCloud.java:194-199 | a fresh zeroed 2 MiB buffer holding the given handle, with no native calls made |
| JavaBinding.RAMCloud.CallNative | bindings/java/src/main/java/edu/stanford/ramcloud/RAMCloud.java:266 | the native side is handed the bytes up to the cursor, and the response overwrites the front of the buffer |
| JavaBinding.RAMCloud.PutKeyRulesRequest | bindings/java/src/main/java/edu/stanford/ramcloud/RAMCloud.java:320-325 | after a rewind, the buffer up to the cursor is exactly the read/remove frame, and every byte past the cursor is what it was before |
| JavaBinding.RAMCloud.PutWriteRequest | bindings/java/src/main/java/edu/stanford/ramcloud/RAMCloud.java:425-432 | after a rewind, the buffer up to the cursor is exactly the write frame, and every byte past the cursor is what it was before |
| JavaBinding.RAMCloud.PutIncrementRequest | bindings/java/src/main/java/edu/stanford/ramcloud/RAMCloud.java:441-447 | after a rewind, the buffer up to the cursor is exactly the increment frame, and every byte past the cursor is what it was before |
| JavaBinding.RAMCloud.PutCreateTableRequest | bindings/java/src/main/java/edu/stanford/ramcloud/RAMCloud.java:473-477 | after a rewind, the buffer up to the cursor is exactly the createTable frame, and every byte past the cursor is what it was before |
| JavaBinding.RAMCloud.PutTableNameRequest | bindings/java/src/main/java/edu/stanford/ramcloud/RAMCloud.java:530-533 | after a rewind, the buffer up to the cursor is exactly the dropTable/getTableId frame, and every byte past the cursor is what it was before |
| JavaBinding.RAMCloud.PutNanoLogRequest | bindings/java/src/main/java/edu/stanford/ramcloud/RAMCloud.java:352-359 | after a rewind, the buffer up to the cursor is exactly the nanoLogPrint frame, and every byte past the cursor is what it was before |
| JavaBinding.RAMCloud.PutConnectRequest | bindings/java/src/main/java/edu/stanford/ramcloud/RAMCloud.java:168-174 | the connect frame is appended at the cursor, and the rest of the buffer is untouched |
| JavaBinding.RAMCloud.Read | bindings/java/src/main/java/edu/stanford/ramcloud/RAMCloud.java:256-274 | the native side receives exactly the read frame. The result is the decoded version and value paired with the caller's key, or the decoded status, negative-length or underflow error. The cursor ends past what was read; the whole buffer afterwards is the native reply written over the request frame, which was written over the old contents |
| JavaBinding.RAMCloud.Remove | bindings/java/src/main/java/edu/stanford/ramcloud/RAMCloud.java:319-332 | the native side receives exactly the remove frame; the result is the decoded version or the status error, with the cursor at 12 or 4; the whole buffer afterwards is the native reply written over the request frame, which was written over the old contents |
| JavaBinding.RAMCloud.Write | bindings/java/src/main/java/edu/stanford/ramcloud/RAMCloud.java:424-438 | the native side receives exactly the write frame; the result is the decoded version or the status error, with the cursor at 12 or 4; the whole buffer afterwards is the native reply written over the request frame, which was written over the old contents |
| JavaBinding.RAMCloud.IncrementInt64 | bindings/java/src/main/java/edu/stanford/ramcloud/RAMCloud.java:440-454 | the native side receives exactly the increment frame; the result is the decoded new value or the status error, with the cursor at 12 or 4; the whole buffer afterwards is the native reply written over the request frame, which was written over the old contents |
| JavaBinding.RAMCloud.CreateTable | bindings/java/src/main/java/edu/stanford/ramcloud/RAMCloud.java:472-483 | the native side receives exactly the createTable frame; the result is the decoded table id or the status error, with the cursor at 12 or 4; the whole buffer afterwards is the native reply written over the request frame, which was written over the old contents |
| JavaBinding.RAMCloud.CreateTableDefault | bindings/java/src/main/java/edu/stanford/ramcloud/RAMCloud.java:494-496 | createTable with a server span of 1: the same frame, result and cursor; the whole buffer afterwards is the native reply written over the request frame, which was written over the old contents |
| JavaBinding.RAMCloud.DropTable | bindings/java/src/main/java/edu/stanford/ramcloud/RAMCloud.java:509-517 | the native side receives exactly the dropTable frame; the call passes if and only if the status is 0, and the cursor ends at 4; the whole buffer afterwards is the native reply written over the request frame, which was written over the old contents |
| JavaBinding.RAMCloud.GetTableId | bindings/java/src/main/java/edu/stanford/ramcloud/RAMCloud.java:529-539 | the native side receives exactly the getTableId frame; the result is the decoded table id or the status error, with the cursor at 12 or 4; the whole buffer afterwards is the native reply written over the request frame, which was written over the old contents |
| JavaBinding.RAMCloud.NanoLogPrint | bindings/java/src/main/java/edu/stanford/ramcloud/RAMCloud.java:351-362 | the native side receives exactly the nanoLogPrint frame; the cursor ends rewound and no status is read; the whole buffer afterwards is the native reply written over the request frame, which was written over the old contents |
| JavaBinding.RAMCloud.Disconnect | bindings/java/src/main/java/edu/stanford/ramcloud/RAMCloud.java:205-210 | the handle ends 0; the native object is destroyed once, and only if the handle was nonzero |
| JavaBinding.RAMCloud.Connect | bindings/java/src/main/java/edu/stanford/ramcloud/RAMCloud.java:164-179 | the native side receives exactly the connect frame. A failed status yields that status error and no object. On success the object holds the decoded handle, with the cursor at 12 |
| JavaBinding.RAMCloud.ConnectDefault | bindings/java/src/main/java/edu/stanford/ramcloud/RAMCloud.java:187-189 | connect with cluster name "main" and DPDK port -1: the same frame, the same fresh buffer holding the reply, the decoded handle or error, and the cursor at 12 |
| PingService.Route | src/PingService.cc:95-109 | an opcode is routed if and only if a handler serves it, and then to exactly that handler |
| PingService.ElapsedCycles | src/PingService.cc:77-78 | the 64-bit cycle difference, wrapping when the counter wrapped |
| PingService.ProxyPingNanoseconds | src/PingService.cc:70-85 | an exception other than a timeout fails the request, and only it does. Otherwise the reply time is -1 if and only if the inner ping timed out or returned a nonce other than 99999, and it is the elapsed time in every other case |
| PingService.GetString | src/PingService.cc:67-69 | a string read successfully has the requested length and sits at the offset: the bytes before it, the string and the bytes after it reassemble the payload. A payload too short for it gives MessageTooShort |
| PingService.PingService.GetMetrics | src/PingService.cc:31-40 | the header gets the serialized length, and the reply payload grows by exactly the serialized bytes |
| PingService.PingService.Ping | src/PingService.cc:48-54 | the response nonce is the request nonce |
| PingService.PingService.ProxyPing | src/PingService.cc:62-87 | a payload too short for the locator fails and sends nothing. Otherwise one inner ping goes to the locator with nonce 99999 and the request's timeout. An uncaught inner-ping exception fails the request and leaves the response header alone; otherwise the reply time is set as `ProxyPingNanoseconds` says |
| PingService.PingService.Dispatch | src/PingService.cc:93-110 | an unserved opcode fails with UnimplementedRequest and changes nothing. A served opcode runs exactly its handler, with that handler's effect on the reply. Only a proxy ping sends an inner ping, exactly one, and only when the locator could be read |
| PingService.ProxyPingViaPingHandler | src/PingService.cc:48-85 | a proxy ping whose peer runs the ping handler always reports the elapsed time, never -1 |

## Left out

- The JNI side of every native call (`cppConnect`, `cppRead` and the rest) is not part of this model. Each call is an oracle that takes its response as a parameter.
- `cppGetByteBufferPointer` is left out: the direct buffer's address is not modelled.
- `checkStatus` is left out: the mapping from a status to a `ClientException` subclass is not part of this model. A nonzero status is returned as `StatusError(status)`.
- A read whose value length is negative or overruns the buffer fails with `NegativeArraySize` or `BufferUnderflow`. These stand for the exceptions Java throws there.
- The multi-read, multi-write and multi-remove handlers and their lazy creation are left out, because they are separate classes outside this core. So are `getTableIterator` and `TableIterator`.
- `timeTracePrintToLog` and `timeTraceReset` only forward to the native library and are left out.
- The convenience overloads of read, write and remove that convert a `String` key or pass null rules are left out. They delegate to the modelled full forms, passing `key.getBytes()` (and `value.getBytes()`) for a `String` argument, and `rules = None` only where no rule set is given.
- Keys, values, names, locators and messages are byte sequences. The Java code writes `String.length()` as the length but `getBytes()` as the content. These agree only for single-byte (ASCII) text, and that is the case the model covers.
- Requests larger than the 2 MiB buffer are excluded by a precondition. In Java, `put` would throw `BufferOverflowException`.
- `defaultRejectRules` is a static field in Java. Here each object has its own zero array.
- `getString` in the RPC layer also checks for the NUL terminator of the string. Only the length check is modelled.
- The numeric opcode values and the byte layout of the RPC headers belong to the RPC layer, which is not part of this model. Requests and responses are typed headers, and `sizeof(ProxyPingRpc::Request)` is a parameter of the service object.
- `callHandler`'s construction of the response header inside the reply buffer is not part of this model.
- The cycle counter, `Cycles::toNanoseconds`, the inner `PingClient::ping` over the network and `metrics->serialize` are inputs.
- The service's `TEST_LOG` output is left out.
- PingService.PingService.GetMetrics: requires the serialized metrics to be shorter than 2^32 bytes, where the source's `downCast` would abort.
- Which exception other than a timeout the inner ping throws is not kept: every such exception becomes `InnerPingFailed`, and the request fails with it.
