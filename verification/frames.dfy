/**
 * The wire frames that the Java binding exchanges with the native library
 * through its shared buffer: every request frame the binding writes, the
 * parsers that read the fields back out of a frame, and the decoders that
 * turn the response left in the buffer into a result or an error.
 *
 * All multi-byte integers are little-endian (the buffer's byte order).
 */
module WireFrames {
  import opened Wrappers
  import opened Bytes
  import opened RejectRulesCodec

  /** Size of the shared buffer, allocated once per RAMCloud object. */
  const BUFFER_CAPACITY: nat := 1024 * 1024 * 2

  // ---------------------------------------------------------------------
  // Request frames

  /** A byte string preceded by its length as a 4-byte int (no terminator). */
  function LengthPrefixed(s: seq<byte>): (f: seq<byte>)
    requires |s| <= INT32_MAX
    ensures |f| == 4 + |s|
  {
    EncodeInt32(|s|) + s
  }

  /** handle, tableId and the length-prefixed key: how every keyed request begins. */
  function KeyHead(handle: int64, tableId: int64, key: seq<byte>): (f: seq<byte>)
    requires |key| <= INT32_MAX
    ensures |f| == 20 + |key|
  {
    EncodeInt64(handle) + EncodeInt64(tableId) + LengthPrefixed(key)
  }

  /** The frame of read and of remove: the key head, then the 12 reject-rules bytes. */
  function KeyRulesRequest(handle: int64, tableId: int64, key: seq<byte>, rules: Option<RejectRules>): (f: seq<byte>)
    requires |key| <= INT32_MAX
    ensures |f| == 32 + |key|
  {
    KeyHead(handle, tableId, key) + RejectRulesBytes(rules)
  }

  /** The frame of write: the key head, the length-prefixed value, the rules. */
  function WriteRequest(handle: int64, tableId: int64, key: seq<byte>, value: seq<byte>, rules: Option<RejectRules>): (f: seq<byte>)
    requires |key| <= INT32_MAX && |value| <= INT32_MAX
    ensures |f| == 36 + |key| + |value|
  {
    KeyHead(handle, tableId, key) + LengthPrefixed(value) + RejectRulesBytes(rules)
  }

  /** The frame of incrementInt64: the key head, the 8-byte increment, the rules. */
  function IncrementRequest(handle: int64, tableId: int64, key: seq<byte>, incrementValue: int64, rules: Option<RejectRules>): (f: seq<byte>)
    requires |key| <= INT32_MAX
    ensures |f| == 40 + |key|
  {
    KeyHead(handle, tableId, key) + EncodeInt64(incrementValue) + RejectRulesBytes(rules)
  }

  /** The frame of createTable: handle, server span, the NUL-terminated name. */
  function CreateTableRequest(handle: int64, serverSpan: int32, name: seq<byte>): (f: seq<byte>)
    ensures |f| == 13 + |name|
  {
    EncodeInt64(handle) + EncodeInt32(serverSpan) + name + [0]
  }

  /** The frame of dropTable and of getTableId: handle, the NUL-terminated name. */
  function TableNameRequest(handle: int64, name: seq<byte>): (f: seq<byte>)
    ensures |f| == 9 + |name|
  {
    EncodeInt64(handle) + name + [0]
  }

  /** The frame of nanoLogPrint: handle, then the message and its NUL, length-prefixed together. */
  function NanoLogRequest(handle: int64, msg: seq<byte>): (f: seq<byte>)
    requires |msg| < INT32_MAX
    ensures |f| == 13 + |msg|
  {
    EncodeInt64(handle) + LengthPrefixed(msg + [0])
  }

  /**
   * The frame of the connecting constructor: the locator and the cluster name,
   * each length-prefixed (the length leaves out the NUL) and NUL-terminated,
   * then the DPDK port.
   */
  function ConnectRequest(locator: seq<byte>, clusterName: seq<byte>, dpdkPort: int32): (f: seq<byte>)
    requires |locator| <= INT32_MAX && |clusterName| <= INT32_MAX
    ensures |f| == 14 + |locator| + |clusterName|
  {
    LengthPrefixed(locator) + [0] + LengthPrefixed(clusterName) + [0] + EncodeInt32(dpdkPort)
  }

  // ---------------------------------------------------------------------
  // Reading request fields back, as the native side does

  /** A length-prefixed byte string at the start of `s`, and what follows it. */
  function ParseLengthPrefixed(s: seq<byte>): Option<(seq<byte>, seq<byte>)>
  {
    if |s| < 4 then None
    else
      var n := DecodeInt32(s[..4]);
      if n < 0 || |s| - 4 < n then None else Some((s[4..4 + n], s[4 + n..]))
  }

  /** A NUL-terminated byte string at the start of `s`, and what follows the NUL. */
  function ParseCString(s: seq<byte>): Option<(seq<byte>, seq<byte>)>
  {
    if s == [] then None
    else if s[0] == 0 then Some(([], s[1..]))
    else match ParseCString(s[1..])
      case None => None
      case Some((name, rest)) => Some(([s[0]] + name, rest))
  }

  datatype KeyFields = KeyFields(handle: int64, tableId: int64, key: seq<byte>, rest: seq<byte>)

  /** The handle, table id and key at the start of a keyed frame, and the bytes after the key. */
  function ParseKeyHead(f: seq<byte>): Option<KeyFields>
  {
    if |f| < 16 then None
    else match ParseLengthPrefixed(f[16..])
      case None => None
      case Some((key, rest)) => Some(KeyFields(DecodeInt64(f[..8]), DecodeInt64(f[8..16]), key, rest))
  }

  lemma ParseLengthPrefixedInverse(s: seq<byte>, rest: seq<byte>)
    requires |s| <= INT32_MAX
    ensures ParseLengthPrefixed(LengthPrefixed(s) + rest) == Some((s, rest))
  {
    var f := LengthPrefixed(s) + rest;
    assert f[..4] == EncodeInt32(|s|);
    DecodeEncodeInt32(|s|);
    assert f[4..4 + |s|] == s;
    assert f[4 + |s|..] == rest;
  }

  lemma {:induction false} ParseCStringInverse(name: seq<byte>, rest: seq<byte>)
    requires 0 !in name
    ensures ParseCString(name + [0] + rest) == Some((name, rest))
  {
    var s := name + [0] + rest;
    if name != [] {
      assert s[1..] == name[1..] + [0] + rest;
      ParseCStringInverse(name[1..], rest);
      assert [name[0]] + name[1..] == name;
    } else {
      assert s[1..] == rest;
    }
  }

  lemma ParseKeyHeadInverse(handle: int64, tableId: int64, key: seq<byte>, rest: seq<byte>)
    requires |key| <= INT32_MAX
    ensures ParseKeyHead(KeyHead(handle, tableId, key) + rest) == Some(KeyFields(handle, tableId, key, rest))
  {
    var f := KeyHead(handle, tableId, key) + rest;
    assert f[..8] == EncodeInt64(handle);
    assert f[8..16] == EncodeInt64(tableId);
    assert f[16..] == LengthPrefixed(key) + rest;
    DecodeEncodeInt64(handle);
    DecodeEncodeInt64(tableId);
    ParseLengthPrefixedInverse(key, rest);
  }

  /** A read or remove frame carries the handle, the table, the key and then the encoded rules. */
  lemma KeyRulesRequestFields(handle: int64, tableId: int64, key: seq<byte>, rules: Option<RejectRules>)
    requires |key| <= INT32_MAX
    ensures ParseKeyHead(KeyRulesRequest(handle, tableId, key, rules))
      == Some(KeyFields(handle, tableId, key, RejectRulesBytes(rules)))
  {
    ParseKeyHeadInverse(handle, tableId, key, RejectRulesBytes(rules));
  }

  /** A write frame carries the key head, then the value, then the encoded rules. */
  lemma WriteRequestFields(handle: int64, tableId: int64, key: seq<byte>, value: seq<byte>, rules: Option<RejectRules>)
    requires |key| <= INT32_MAX && |value| <= INT32_MAX
    ensures var fields := ParseKeyHead(WriteRequest(handle, tableId, key, value, rules));
      && fields.Some?
      && fields.value.handle == handle && fields.value.tableId == tableId && fields.value.key == key
      && ParseLengthPrefixed(fields.value.rest) == Some((value, RejectRulesBytes(rules)))
  {
    var rest := LengthPrefixed(value) + RejectRulesBytes(rules);
    assert WriteRequest(handle, tableId, key, value, rules) == KeyHead(handle, tableId, key) + rest;
    ParseKeyHeadInverse(handle, tableId, key, rest);
    ParseLengthPrefixedInverse(value, RejectRulesBytes(rules));
  }

  /** An increment frame carries the key head, then 8 bytes of increment, then the encoded rules. */
  lemma IncrementRequestFields(handle: int64, tableId: int64, key: seq<byte>, incrementValue: int64, rules: Option<RejectRules>)
    requires |key| <= INT32_MAX
    ensures var fields := ParseKeyHead(IncrementRequest(handle, tableId, key, incrementValue, rules));
      && fields.Some?
      && fields.value.handle == handle && fields.value.tableId == tableId && fields.value.key == key
      && |fields.value.rest| == 20
      && DecodeInt64(fields.value.rest[..8]) == incrementValue
      && fields.value.rest[8..] == RejectRulesBytes(rules)
  {
    var rest := EncodeInt64(incrementValue) + RejectRulesBytes(rules);
    assert IncrementRequest(handle, tableId, key, incrementValue, rules) == KeyHead(handle, tableId, key) + rest;
    ParseKeyHeadInverse(handle, tableId, key, rest);
    assert rest[..8] == EncodeInt64(incrementValue);
    DecodeEncodeInt64(incrementValue);
  }

  /** A createTable frame carries the handle, the span and the name up to its NUL. */
  lemma CreateTableRequestFields(handle: int64, serverSpan: int32, name: seq<byte>)
    requires 0 !in name
    ensures var f := CreateTableRequest(handle, serverSpan, name);
      && DecodeInt64(f[..8]) == handle
      && DecodeInt32(f[8..12]) == serverSpan
      && ParseCString(f[12..]) == Some((name, []))
  {
    var f := CreateTableRequest(handle, serverSpan, name);
    assert f[..8] == EncodeInt64(handle);
    assert f[8..12] == EncodeInt32(serverSpan);
    assert f[12..] == name + [0] + [];
    DecodeEncodeInt64(handle);
    DecodeEncodeInt32(serverSpan);
    ParseCStringInverse(name, []);
  }

  /** A dropTable or getTableId frame carries the handle and the name up to its NUL. */
  lemma TableNameRequestFields(handle: int64, name: seq<byte>)
    requires 0 !in name
    ensures var f := TableNameRequest(handle, name);
      && DecodeInt64(f[..8]) == handle
      && ParseCString(f[8..]) == Some((name, []))
  {
    var f := TableNameRequest(handle, name);
    assert f[..8] == EncodeInt64(handle);
    assert f[8..] == name + [0] + [];
    DecodeEncodeInt64(handle);
    ParseCStringInverse(name, []);
  }

  /** A nanoLogPrint frame carries the handle and msgLen + 1 bytes: the message and its NUL. */
  lemma NanoLogRequestFields(handle: int64, msg: seq<byte>)
    requires |msg| < INT32_MAX
    ensures var f := NanoLogRequest(handle, msg);
      && DecodeInt64(f[..8]) == handle
      && DecodeInt32(f[8..12]) == |msg| + 1
      && ParseLengthPrefixed(f[8..]) == Some((msg + [0], []))
  {
    var f := NanoLogRequest(handle, msg);
    assert f[..8] == EncodeInt64(handle);
    assert f[8..12] == EncodeInt32(|msg| + 1);
    assert f[8..] == LengthPrefixed(msg + [0]) + [];
    DecodeEncodeInt64(handle);
    DecodeEncodeInt32(|msg| + 1);
    ParseLengthPrefixedInverse(msg + [0], []);
  }

  /** A connect frame carries the locator, its NUL, the cluster name, its NUL, the port. */
  lemma ConnectRequestFields(locator: seq<byte>, clusterName: seq<byte>, dpdkPort: int32)
    requires |locator| <= INT32_MAX && |clusterName| <= INT32_MAX
    ensures var f := ConnectRequest(locator, clusterName, dpdkPort);
      var port := EncodeInt32(dpdkPort);
      var tail := [0] + LengthPrefixed(clusterName) + [0] + port;
      && ParseLengthPrefixed(f) == Some((locator, tail))
      && ParseLengthPrefixed(tail[1..]) == Some((clusterName, [0] + port))
      && f[|f| - 4..] == port && DecodeInt32(port) == dpdkPort
  {
    var port := EncodeInt32(dpdkPort);
    var rest := [0] + port;
    var tail := [0] + LengthPrefixed(clusterName) + [0] + port;
    ConnectTail(clusterName, port);
    assert ConnectRequest(locator, clusterName, dpdkPort) == LengthPrefixed(locator) + tail;
    ParseLengthPrefixedInverse(locator, tail);
    ParseLengthPrefixedInverse(clusterName, rest);
    DecodeEncodeInt32(dpdkPort);
  }

  /** What follows the locator in a connect frame: its NUL, the length-prefixed cluster name, a NUL, the port. */
  lemma ConnectTail(clusterName: seq<byte>, port: seq<byte>)
    requires |clusterName| <= INT32_MAX && |port| == 4
    ensures var tail := [0] + LengthPrefixed(clusterName) + [0] + port;
      && tail[1..] == LengthPrefixed(clusterName) + ([0] + port)
      && tail[|tail| - 4..] == port
  {
  }

  // ---------------------------------------------------------------------
  // Responses

  /**
   * Why a call fails on the Java side: a nonzero status (checkStatus throws),
   * a negative value length (the array allocation throws), or a value that
   * runs past the end of the buffer (ByteBuffer.get throws).
   */
  datatype ClientError =
    | StatusError(status: int32)
    | NegativeArraySize(length: int32)
    | BufferUnderflow

  /** The first four bytes of every response. */
  function ResponseStatus(buf: seq<byte>): int32
    requires |buf| >= 4
  {
    DecodeInt32(buf[..4])
  }

  /** A response that is only a status (dropTable). */
  function DecodeStatusResponse(buf: seq<byte>): (r: Outcome<ClientError>)
    requires |buf| >= 4
    ensures r.Pass? ==> buf[..4] == StatusReply(0)
    ensures r.Fail? ==> r.error.StatusError? && r.error.status != 0 && buf[..4] == StatusReply(r.error.status)
  {
    EncodeDecodeInt32(buf[..4]);
    var status := ResponseStatus(buf);
    if status != 0 then Fail(StatusError(status)) else Pass
  }

  /** A status then one long (connect, remove, write, incrementInt64, createTable, getTableId). */
  function DecodeInt64Response(buf: seq<byte>): (r: Result<int64, ClientError>)
    requires |buf| >= 12
    ensures r.Success? ==> buf[..12] == Int64Reply(r.value)
    ensures r.Failure? ==> r.error.StatusError? && r.error.status != 0 && buf[..4] == StatusReply(r.error.status)
  {
    EncodeDecodeInt32(buf[..4]);
    EncodeDecodeInt64(buf[4..12]);
    var status := ResponseStatus(buf);
    if status != 0 then Failure(StatusError(status))
    else
      assert buf[..12] == buf[..4] + buf[4..12];
      Success(DecodeInt64(buf[4..12]))
  }

  datatype ReadReply = ReadReply(version: int64, value: seq<byte>)

  /** A read response: status, version, value length, then exactly that many value bytes. */
  function DecodeReadResponse(buf: seq<byte>): (r: Result<ReadReply, ClientError>)
    requires |buf| >= 16
    ensures r.Success? ==>
      && 16 + |r.value.value| <= |buf| && |r.value.value| <= INT32_MAX
      && buf[..16 + |r.value.value|] == ReadReplyBytes(r.value.version, r.value.value)
    ensures r.Failure? && r.error.StatusError? ==> r.error.status != 0 && buf[..4] == StatusReply(r.error.status)
    ensures r.Failure? && r.error.NegativeArraySize? ==>
      && r.error.length < 0 && buf[..4] == StatusReply(0) && buf[12..16] == EncodeInt32(r.error.length)
    ensures r.Failure? && r.error.BufferUnderflow? ==>
      && buf[..4] == StatusReply(0) && 0 <= DecodeInt32(buf[12..16]) && |buf| < 16 + DecodeInt32(buf[12..16])
  {
    EncodeDecodeInt32(buf[..4]);
    EncodeDecodeInt32(buf[12..16]);
    EncodeDecodeInt64(buf[4..12]);
    var status := ResponseStatus(buf);
    if status != 0 then Failure(StatusError(status))
    else
      var version := DecodeInt64(buf[4..12]);
      var valueLength := DecodeInt32(buf[12..16]);
      if valueLength < 0 then Failure(NegativeArraySize(valueLength))
      else if |buf| - 16 < valueLength then Failure(BufferUnderflow)
      else
        assert buf[..16 + valueLength] == buf[..4] + buf[4..12] + buf[12..16] + buf[16..16 + valueLength];
        Success(ReadReply(version, buf[16..16 + valueLength]))
  }

  /** What the native side writes for a failed call. */
  function StatusReply(status: int32): (f: seq<byte>)
    ensures |f| == 4
  {
    EncodeInt32(status)
  }

  /** What the native side writes for a successful call returning one long. */
  function Int64Reply(x: int64): (f: seq<byte>)
    ensures |f| == 12
  {
    StatusReply(0) + EncodeInt64(x)
  }

  /** What the native side writes for a successful read. */
  function ReadReplyBytes(version: int64, value: seq<byte>): (f: seq<byte>)
    requires |value| <= INT32_MAX
    ensures |f| == 16 + |value|
  {
    StatusReply(0) + EncodeInt64(version) + LengthPrefixed(value)
  }

  /** The status decoded is the status written. */
  lemma ResponseStatusInverse(status: int32, rest: seq<byte>)
    ensures ResponseStatus(StatusReply(status) + rest) == status
  {
    assert (StatusReply(status) + rest)[..4] == EncodeInt32(status);
    DecodeEncodeInt32(status);
  }

  /**
   * A nonzero status decides every decoder's result whatever follows it:
   * no later field is looked at.
   */
  lemma FailedStatusStopsDecoding(status: int32, rest: seq<byte>)
    requires status != 0 && |rest| >= 12
    ensures DecodeStatusResponse(StatusReply(status) + rest) == Fail(StatusError(status))
    ensures DecodeInt64Response(StatusReply(status) + rest) == Failure(StatusError(status))
    ensures DecodeReadResponse(StatusReply(status) + rest) == Failure(StatusError(status))
  {
    ResponseStatusInverse(status, rest);
  }

  /** A successful one-long response decodes to the long written. */
  lemma DecodeInt64ResponseInverse(x: int64, rest: seq<byte>)
    ensures DecodeInt64Response(Int64Reply(x) + rest) == Success(x)
  {
    var buf := Int64Reply(x) + rest;
    ResponseStatusInverse(0, EncodeInt64(x) + rest);
    assert buf == StatusReply(0) + (EncodeInt64(x) + rest);
    assert buf[4..12] == EncodeInt64(x);
    DecodeEncodeInt64(x);
  }

  /** A successful read response decodes to the version and exactly the value written. */
  lemma DecodeReadResponseInverse(version: int64, value: seq<byte>, rest: seq<byte>)
    requires |value| <= INT32_MAX
    ensures DecodeReadResponse(ReadReplyBytes(version, value) + rest) == Success(ReadReply(version, value))
  {
    var buf := ReadReplyBytes(version, value) + rest;
    assert buf == StatusReply(0) + (EncodeInt64(version) + LengthPrefixed(value) + rest);
    ResponseStatusInverse(0, EncodeInt64(version) + LengthPrefixed(value) + rest);
    assert buf[4..12] == EncodeInt64(version);
    assert buf[12..16] == EncodeInt32(|value|);
    assert buf[16..16 + |value|] == value;
    DecodeEncodeInt64(version);
    DecodeEncodeInt32(|value|);
  }
}
