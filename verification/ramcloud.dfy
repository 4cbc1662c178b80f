/**
 * The Java binding's RAMCloud client object: one shared little-endian byte
 * buffer, reused by every call, through which requests are handed to the
 * native library and responses handed back.
 *
 * Every operation follows the same discipline: rewind the cursor, write the
 * request frame from position 0, call the native entry point, rewind again,
 * read the 4-byte status, stop on a nonzero status, and otherwise read the
 * operation's fields. The native library is an oracle: each call records the
 * request it was handed (the bytes written so far) in the ghost `nativeLog`
 * and overwrites the front of the buffer with the given `response`.
 */
module JavaBinding {
  import opened Wrappers
  import opened Bytes
  import opened RejectRulesCodec
  import opened WireFrames

  /** The native entry points that take the shared buffer. */
  datatype Entry =
    | CppConnect | CppRead | CppRemove | CppWrite | CppIncrementInt64
    | CppCreateTable | CppDropTable | CppGetTableId | CppNanoLogPrint

  /** One call into the native library, as the native side sees it. */
  datatype NativeCall =
    | BufferCall(entry: Entry, request: seq<byte>)
    | DestroyCall(handle: int64)

  /** What a read returns: the caller's key, the value and its version. */
  datatype RAMCloudObject = RAMCloudObject(key: seq<byte>, value: seq<byte>, version: int64)

  /** The cluster name the locator-only constructor passes on. */
  const MAIN_CLUSTER_NAME: seq<byte> := [109, 97, 105, 110] // "main"

  /** `contents` with `s` written over it from offset `at`: what a put at cursor `at` leaves. */
  ghost function Spliced(contents: seq<byte>, at: nat, s: seq<byte>): (r: seq<byte>)
    requires at + |s| <= |contents|
    ensures |r| == |contents|
    ensures r[..at + |s|] == contents[..at] + s && r[at + |s|..] == contents[at + |s|..]
  {
    contents[..at] + s + contents[at + |s|..]
  }

  /** `contents` with `front` written over its first bytes: a request written from offset 0, or a native reply. */
  ghost function Overwritten(front: seq<byte>, contents: seq<byte>): (r: seq<byte>)
    requires |front| <= |contents|
    ensures |r| == |contents| && r[..|front|] == front && r[|front|..] == contents[|front|..]
  {
    assert contents[..0] + front == front;
    Spliced(contents, 0, front)
  }

  /** Two puts in a row write their concatenation. */
  lemma SplicedTwice(contents: seq<byte>, at: nat, s: seq<byte>, t: seq<byte>)
    requires at + |s| + |t| <= |contents|
    ensures Spliced(Spliced(contents, at, s), at + |s|, t) == Spliced(contents, at, s + t)
  {
  }

  class RAMCloud {
    /** The handle of the native RAMCloud object; 0 once disconnected. */
    var ramcloudClusterHandle: int64
    /** The shared buffer. */
    const byteBuffer: array<byte>
    /** The buffer's cursor. */
    var position: nat
    /** The twelve zero bytes that stand for absent reject rules. */
    const defaultRejectRules: array<byte>
    /** Every native call made so far, in order. */
    ghost var nativeLog: seq<NativeCall>

    ghost predicate Valid()
      reads this, defaultRejectRules
    {
      && byteBuffer.Length == BUFFER_CAPACITY
      && position <= byteBuffer.Length
      && defaultRejectRules.Length == REJECT_RULES_SIZE
      && defaultRejectRules[..] == RejectRulesBytes(None)
      && byteBuffer != defaultRejectRules
    }

    /** The constructor for unit tests: a fresh zeroed buffer and a given handle. */
    constructor ForHandle(handle: int64)
      ensures Valid() && fresh(byteBuffer) && fresh(defaultRejectRules)
      ensures ramcloudClusterHandle == handle && position == 0 && nativeLog == []
      ensures byteBuffer[..] == Zeros(BUFFER_CAPACITY)
    {
      byteBuffer := new byte[BUFFER_CAPACITY](_ => 0);
      defaultRejectRules := new byte[REJECT_RULES_SIZE](_ => 0);
      ramcloudClusterHandle := handle;
      position := 0;
      nativeLog := [];
    }

    // -------------------------------------------------------------------
    // The ByteBuffer operations the binding uses

    method Rewind()
      modifies this`position
      ensures position == 0
    {
      position := 0;
    }

    /** ByteBuffer.put(byte[]): copies `s` at the cursor and advances past it. */
    method Put(s: seq<byte>)
      requires Valid() && position + |s| <= byteBuffer.Length
      modifies this`position, byteBuffer
      ensures Valid() && position == old(position) + |s|
      ensures byteBuffer[..] == Spliced(old(byteBuffer[..]), old(position), s)
    {
      var i := 0;
      while i < |s|
        invariant 0 <= i <= |s| && position == old(position)
        invariant forall j :: 0 <= j < byteBuffer.Length ==>
          byteBuffer[j] == if position <= j < position + i then s[j - position] else old(byteBuffer[j])
      {
        byteBuffer[position + i] := s[i];
        i := i + 1;
      }
      ghost var spliced := Spliced(old(byteBuffer[..]), position, s);
      assert forall j :: 0 <= j < byteBuffer.Length ==> byteBuffer[..][j] == spliced[j];
      position := position + |s|;
    }

    method PutInt(v: int32)
      requires Valid() && position + 4 <= byteBuffer.Length
      modifies this`position, byteBuffer
      ensures Valid() && position == old(position) + 4
      ensures byteBuffer[..] == Spliced(old(byteBuffer[..]), old(position), EncodeInt32(v))
    {
      Put(EncodeInt32(v));
    }

    method PutLong(v: int64)
      requires Valid() && position + 8 <= byteBuffer.Length
      modifies this`position, byteBuffer
      ensures Valid() && position == old(position) + 8
      ensures byteBuffer[..] == Spliced(old(byteBuffer[..]), old(position), EncodeInt64(v))
    {
      Put(EncodeInt64(v));
    }

    /** ByteBuffer.getInt: the little-endian int at the cursor. */
    method GetInt() returns (v: int32)
      requires Valid() && position + 4 <= byteBuffer.Length
      modifies this`position
      ensures position == old(position) + 4
      ensures v == DecodeInt32(byteBuffer[old(position)..position])
    {
      v := DecodeInt32(byteBuffer[position..position + 4]);
      position := position + 4;
    }

    /** ByteBuffer.getLong: the little-endian long at the cursor. */
    method GetLong() returns (v: int64)
      requires Valid() && position + 8 <= byteBuffer.Length
      modifies this`position
      ensures position == old(position) + 8
      ensures v == DecodeInt64(byteBuffer[old(position)..position])
    {
      v := DecodeInt64(byteBuffer[position..position + 8]);
      position := position + 8;
    }

    /** ByteBuffer.get(byte[n]): the next n bytes. */
    method Get(n: nat) returns (s: seq<byte>)
      requires Valid() && position + n <= byteBuffer.Length
      modifies this`position
      ensures position == old(position) + n
      ensures s == byteBuffer[old(position)..position]
    {
      s := byteBuffer[position..position + n];
      position := position + n;
    }

    /**
     * A native entry point: it is handed the request written so far and
     * writes `response` over the front of the buffer.
     */
    method CallNative(entry: Entry, response: seq<byte>)
      requires Valid() && |response| <= byteBuffer.Length
      modifies byteBuffer, this`nativeLog
      ensures Valid()
      ensures nativeLog == old(nativeLog) + [BufferCall(entry, old(byteBuffer[..position]))]
      ensures byteBuffer[..] == Overwritten(response, old(byteBuffer[..]))
    {
      nativeLog := nativeLog + [BufferCall(entry, byteBuffer[..position])];
      forall i | 0 <= i < |response| {
        byteBuffer[i] := response[i];
      }
    }

    // -------------------------------------------------------------------
    // Reject rules

    /**
     * getRejectRulesBytes: absent rules give the shared zero array; present
     * rules a fresh array holding the version byte by byte, then the flags.
     */
    method GetRejectRulesBytes(rules: Option<RejectRules>) returns (out: array<byte>)
      requires Valid()
      ensures out.Length == REJECT_RULES_SIZE && out[..] == RejectRulesBytes(rules)
      ensures rules.None? ==> out == defaultRejectRules
      ensures rules.Some? ==> fresh(out)
    {
      if rules.None? {
        return defaultRejectRules;
      }
      out := new byte[REJECT_RULES_SIZE](_ => 0);
      var version := rules.value.givenVersion;
      for i := 0 to 8
        invariant forall j :: 0 <= j < i ==> out[j] == (Unsigned64(version) / Pow256(j)) % 256
      {
        // (byte) (version >>> (i * 8))
        out[i] := (Unsigned64(version) / Pow256(i)) % 256;
      }
      out[8] := if rules.value.rejectIfDoesntExist then 1 else 0;
      out[9] := if rules.value.rejectIfExists then 1 else 0;
      out[10] := if rules.value.rejectIfVersionLeGiven then 1 else 0;
      out[11] := if rules.value.rejectIfVersionNeGiven then 1 else 0;
      RejectRulesLayout(rules.value);
      assert out[..] == RejectRulesBytes(rules);
    }

    // -------------------------------------------------------------------
    // Request writers

    /** Writes a 4-byte length and then the bytes, at the cursor. */
    method PutLengthPrefixed(s: seq<byte>)
      requires Valid() && position + 4 + |s| <= byteBuffer.Length
      modifies this`position, byteBuffer
      ensures Valid() && position == old(position) + 4 + |s|
      ensures byteBuffer[..] == Spliced(old(byteBuffer[..]), old(position), LengthPrefixed(s))
    {
      ghost var before, at := byteBuffer[..], position;
      PutInt(|s|);
      Put(s);
      SplicedTwice(before, at, EncodeInt32(|s|), s);
    }

    /** Writes the handle, the table id and the length-prefixed key at the cursor. */
    method PutKeyHead(tableId: int64, key: seq<byte>)
      requires Valid() && position + 20 + |key| <= byteBuffer.Length
      modifies this`position, byteBuffer
      ensures Valid() && position == old(position) + 20 + |key|
      ensures byteBuffer[..] == Spliced(old(byteBuffer[..]), old(position), KeyHead(ramcloudClusterHandle, tableId, key))
    {
      ghost var before, at := byteBuffer[..], position;
      PutLong(ramcloudClusterHandle);
      PutLong(tableId);
      SplicedTwice(before, at, EncodeInt64(ramcloudClusterHandle), EncodeInt64(tableId));
      PutLengthPrefixed(key);
      SplicedTwice(before, at, EncodeInt64(ramcloudClusterHandle) + EncodeInt64(tableId), LengthPrefixed(key));
    }

    /** Writes the encoded reject rules at the cursor. */
    method PutRejectRules(rules: Option<RejectRules>)
      requires Valid() && position + REJECT_RULES_SIZE <= byteBuffer.Length
      modifies this`position, byteBuffer
      ensures Valid() && position == old(position) + REJECT_RULES_SIZE
      ensures byteBuffer[..] == Spliced(old(byteBuffer[..]), old(position), RejectRulesBytes(rules))
    {
      var rulesBytes := GetRejectRulesBytes(rules);
      Put(rulesBytes[..]);
    }

    /** A length-prefixed, NUL-terminated string at the cursor (the length leaves out the NUL). */
    method PutCString(str: seq<byte>)
      requires Valid() && position + 5 + |str| <= byteBuffer.Length
      modifies this`position, byteBuffer
      ensures Valid() && position == old(position) + 5 + |str|
      ensures byteBuffer[..] == Spliced(old(byteBuffer[..]), old(position), LengthPrefixed(str) + [0])
    {
      ghost var before, at := byteBuffer[..], position;
      PutLengthPrefixed(str);
      Put([0]);
      SplicedTwice(before, at, LengthPrefixed(str), [0]);
    }

    /** The request half of the connecting constructor, written at the cursor. */
    method PutConnectRequest(locator: seq<byte>, clusterName: seq<byte>, dpdkPort: int32)
      requires Valid() && position + 14 + |locator| + |clusterName| <= byteBuffer.Length
      modifies this`position, byteBuffer
      ensures Valid() && position == old(position) + 14 + |locator| + |clusterName|
      ensures byteBuffer[..] == Spliced(old(byteBuffer[..]), old(position), ConnectRequest(locator, clusterName, dpdkPort))
    {
      ghost var before, at := byteBuffer[..], position;
      PutCString(locator);
      PutCString(clusterName);
      SplicedTwice(before, at, LengthPrefixed(locator) + [0], LengthPrefixed(clusterName) + [0]);
      PutInt(dpdkPort);
      SplicedTwice(before, at, LengthPrefixed(locator) + [0] + (LengthPrefixed(clusterName) + [0]), EncodeInt32(dpdkPort));
      assert LengthPrefixed(locator) + [0] + (LengthPrefixed(clusterName) + [0]) + EncodeInt32(dpdkPort)
        == ConnectRequest(locator, clusterName, dpdkPort);
    }

    /** The request half of read and remove: the frame from position 0; the rest of the buffer is untouched. */
    method PutKeyRulesRequest(tableId: int64, key: seq<byte>, rules: Option<RejectRules>)
      requires Valid() && 32 + |key| <= BUFFER_CAPACITY
      modifies this`position, byteBuffer
      ensures Valid() && position == 32 + |key|
      ensures byteBuffer[..position] == KeyRulesRequest(ramcloudClusterHandle, tableId, key, rules)
      ensures byteBuffer[..] == Overwritten(KeyRulesRequest(ramcloudClusterHandle, tableId, key, rules), old(byteBuffer[..]))
    {
      Rewind();
      ghost var before, at := byteBuffer[..], position;
      PutKeyHead(tableId, key);
      PutRejectRules(rules);
      SplicedTwice(before, at, KeyHead(ramcloudClusterHandle, tableId, key), RejectRulesBytes(rules));
    }

    /** The request half of write. */
    method PutWriteRequest(tableId: int64, key: seq<byte>, value: seq<byte>, rules: Option<RejectRules>)
      requires Valid() && 36 + |key| + |value| <= BUFFER_CAPACITY
      modifies this`position, byteBuffer
      ensures Valid() && position == 36 + |key| + |value|
      ensures byteBuffer[..position] == WriteRequest(ramcloudClusterHandle, tableId, key, value, rules)
      ensures byteBuffer[..] == Overwritten(WriteRequest(ramcloudClusterHandle, tableId, key, value, rules), old(byteBuffer[..]))
    {
      Rewind();
      ghost var before, at := byteBuffer[..], position;
      PutKeyHead(tableId, key);
      PutLengthPrefixed(value);
      SplicedTwice(before, at, KeyHead(ramcloudClusterHandle, tableId, key), LengthPrefixed(value));
      PutRejectRules(rules);
      SplicedTwice(before, at, KeyHead(ramcloudClusterHandle, tableId, key) + LengthPrefixed(value), RejectRulesBytes(rules));
    }

    /** The request half of incrementInt64. */
    method PutIncrementRequest(tableId: int64, key: seq<byte>, incrementValue: int64, rules: Option<RejectRules>)
      requires Valid() && 40 + |key| <= BUFFER_CAPACITY
      modifies this`position, byteBuffer
      ensures Valid() && position == 40 + |key|
      ensures byteBuffer[..position] == IncrementRequest(ramcloudClusterHandle, tableId, key, incrementValue, rules)
      ensures byteBuffer[..] == Overwritten(IncrementRequest(ramcloudClusterHandle, tableId, key, incrementValue, rules), old(byteBuffer[..]))
    {
      Rewind();
      ghost var before, at := byteBuffer[..], position;
      PutKeyHead(tableId, key);
      PutLong(incrementValue);
      SplicedTwice(before, at, KeyHead(ramcloudClusterHandle, tableId, key), EncodeInt64(incrementValue));
      PutRejectRules(rules);
      SplicedTwice(before, at, KeyHead(ramcloudClusterHandle, tableId, key) + EncodeInt64(incrementValue), RejectRulesBytes(rules));
    }

    /** The request half of createTable. */
    method PutCreateTableRequest(serverSpan: int32, name: seq<byte>)
      requires Valid() && 13 + |name| <= BUFFER_CAPACITY
      modifies this`position, byteBuffer
      ensures Valid() && position == 13 + |name|
      ensures byteBuffer[..position] == CreateTableRequest(ramcloudClusterHandle, serverSpan, name)
      ensures byteBuffer[..] == Overwritten(CreateTableRequest(ramcloudClusterHandle, serverSpan, name), old(byteBuffer[..]))
    {
      Rewind();
      ghost var before, at := byteBuffer[..], position;
      PutLong(ramcloudClusterHandle);
      PutInt(serverSpan);
      SplicedTwice(before, at, EncodeInt64(ramcloudClusterHandle), EncodeInt32(serverSpan));
      Put(name);
      SplicedTwice(before, at, EncodeInt64(ramcloudClusterHandle) + EncodeInt32(serverSpan), name);
      Put([0]);
      SplicedTwice(before, at, EncodeInt64(ramcloudClusterHandle) + EncodeInt32(serverSpan) + name, [0]);
    }

    /** The request half of dropTable and getTableId. */
    method PutTableNameRequest(name: seq<byte>)
      requires Valid() && 9 + |name| <= BUFFER_CAPACITY
      modifies this`position, byteBuffer
      ensures Valid() && position == 9 + |name|
      ensures byteBuffer[..position] == TableNameRequest(ramcloudClusterHandle, name)
      ensures byteBuffer[..] == Overwritten(TableNameRequest(ramcloudClusterHandle, name), old(byteBuffer[..]))
    {
      Rewind();
      ghost var before, at := byteBuffer[..], position;
      PutLong(ramcloudClusterHandle);
      Put(name);
      SplicedTwice(before, at, EncodeInt64(ramcloudClusterHandle), name);
      Put([0]);
      SplicedTwice(before, at, EncodeInt64(ramcloudClusterHandle) + name, [0]);
    }

    /** The request half of nanoLogPrint: the message is copied into msgLen + 1 bytes ending in NUL. */
    method PutNanoLogRequest(msg: seq<byte>)
      requires Valid() && 13 + |msg| <= BUFFER_CAPACITY
      modifies this`position, byteBuffer
      ensures Valid() && position == 13 + |msg|
      ensures byteBuffer[..position] == NanoLogRequest(ramcloudClusterHandle, msg)
      ensures byteBuffer[..] == Overwritten(NanoLogRequest(ramcloudClusterHandle, msg), old(byteBuffer[..]))
    {
      Rewind();
      ghost var before, at := byteBuffer[..], position;
      var msgBytes := msg + [0];
      PutLong(ramcloudClusterHandle);
      PutLengthPrefixed(msgBytes);
      SplicedTwice(before, at, EncodeInt64(ramcloudClusterHandle), LengthPrefixed(msgBytes));
    }

    // -------------------------------------------------------------------
    // Operations

    /**
     * read: sends handle, table, key and rules; on status 0 returns the
     * version and exactly value-length bytes of value.
     */
    method Read(tableId: int64, key: seq<byte>, rules: Option<RejectRules>, response: seq<byte>)
        returns (r: Result<RAMCloudObject, ClientError>)
      requires Valid() && 32 + |key| <= BUFFER_CAPACITY && |response| <= BUFFER_CAPACITY
      modifies this`position, this`nativeLog, byteBuffer
      ensures Valid()
      ensures nativeLog == old(nativeLog)
        + [BufferCall(CppRead, KeyRulesRequest(ramcloudClusterHandle, tableId, key, rules))]
      ensures byteBuffer[..] == Overwritten(response, Overwritten(KeyRulesRequest(ramcloudClusterHandle, tableId, key, rules), old(byteBuffer[..])))
      ensures r == match DecodeReadResponse(byteBuffer[..])
        case Success(reply) => Success(RAMCloudObject(key, reply.value, reply.version))
        case Failure(e) => Failure(e)
      ensures r.Failure? && r.error.StatusError? ==> position == 4
      ensures r.Failure? && !r.error.StatusError? ==> position == 16
      ensures r.Success? ==> position == 16 + |r.value.value|
    {
      PutKeyRulesRequest(tableId, key, rules);
      CallNative(CppRead, response);
      Rewind();
      var status := GetInt();
      if status != 0 {
        return Failure(StatusError(status));
      }
      var version := GetLong();
      var valueLength := GetInt();
      if valueLength < 0 {
        return Failure(NegativeArraySize(valueLength));
      }
      if byteBuffer.Length - position < valueLength {
        return Failure(BufferUnderflow);
      }
      var value := Get(valueLength);
      r := Success(RAMCloudObject(key, value, version));
    }

    /** remove: same frame as read; on status 0 returns the version just before deletion. */
    method Remove(tableId: int64, key: seq<byte>, rules: Option<RejectRules>, response: seq<byte>)
        returns (r: Result<int64, ClientError>)
      requires Valid() && 32 + |key| <= BUFFER_CAPACITY && |response| <= BUFFER_CAPACITY
      modifies this`position, this`nativeLog, byteBuffer
      ensures Valid()
      ensures nativeLog == old(nativeLog)
        + [BufferCall(CppRemove, KeyRulesRequest(ramcloudClusterHandle, tableId, key, rules))]
      ensures byteBuffer[..] == Overwritten(response, Overwritten(KeyRulesRequest(ramcloudClusterHandle, tableId, key, rules), old(byteBuffer[..])))
      ensures r == DecodeInt64Response(byteBuffer[..])
      ensures position == if r.Success? then 12 else 4
    {
      PutKeyRulesRequest(tableId, key, rules);
      CallNative(CppRemove, response);
      r := ReadInt64Response();
    }

    /** write: the value goes between the key and the rules; on status 0 returns the new version. */
    method Write(tableId: int64, key: seq<byte>, value: seq<byte>, rules: Option<RejectRules>, response: seq<byte>)
        returns (r: Result<int64, ClientError>)
      requires Valid() && 36 + |key| + |value| <= BUFFER_CAPACITY && |response| <= BUFFER_CAPACITY
      modifies this`position, this`nativeLog, byteBuffer
      ensures Valid()
      ensures nativeLog == old(nativeLog)
        + [BufferCall(CppWrite, WriteRequest(ramcloudClusterHandle, tableId, key, value, rules))]
      ensures byteBuffer[..] == Overwritten(response, Overwritten(WriteRequest(ramcloudClusterHandle, tableId, key, value, rules), old(byteBuffer[..])))
      ensures r == DecodeInt64Response(byteBuffer[..])
      ensures position == if r.Success? then 12 else 4
    {
      PutWriteRequest(tableId, key, value, rules);
      CallNative(CppWrite, response);
      r := ReadInt64Response();
    }

    /** incrementInt64: an 8-byte increment goes between the key and the rules; returns the new value. */
    method IncrementInt64(tableId: int64, key: seq<byte>, incrementValue: int64, rules: Option<RejectRules>, response: seq<byte>)
        returns (r: Result<int64, ClientError>)
      requires Valid() && 40 + |key| <= BUFFER_CAPACITY && |response| <= BUFFER_CAPACITY
      modifies this`position, this`nativeLog, byteBuffer
      ensures Valid()
      ensures nativeLog == old(nativeLog)
        + [BufferCall(CppIncrementInt64, IncrementRequest(ramcloudClusterHandle, tableId, key, incrementValue, rules))]
      ensures byteBuffer[..] == Overwritten(response, Overwritten(IncrementRequest(ramcloudClusterHandle, tableId, key, incrementValue, rules), old(byteBuffer[..])))
      ensures r == DecodeInt64Response(byteBuffer[..])
      ensures position == if r.Success? then 12 else 4
    {
      PutIncrementRequest(tableId, key, incrementValue, rules);
      CallNative(CppIncrementInt64, response);
      r := ReadInt64Response();
    }

    /** createTable: handle, server span, NUL-terminated name; returns the table id. */
    method CreateTable(name: seq<byte>, serverSpan: int32, response: seq<byte>)
        returns (r: Result<int64, ClientError>)
      requires Valid() && 13 + |name| <= BUFFER_CAPACITY && |response| <= BUFFER_CAPACITY
      modifies this`position, this`nativeLog, byteBuffer
      ensures Valid()
      ensures nativeLog == old(nativeLog)
        + [BufferCall(CppCreateTable, CreateTableRequest(ramcloudClusterHandle, serverSpan, name))]
      ensures byteBuffer[..] == Overwritten(response, Overwritten(CreateTableRequest(ramcloudClusterHandle, serverSpan, name), old(byteBuffer[..])))
      ensures r == DecodeInt64Response(byteBuffer[..])
      ensures position == if r.Success? then 12 else 4
    {
      PutCreateTableRequest(serverSpan, name);
      CallNative(CppCreateTable, response);
      r := ReadInt64Response();
    }

    /** createTable(name): a server span of 1. */
    method CreateTableDefault(name: seq<byte>, response: seq<byte>)
        returns (r: Result<int64, ClientError>)
      requires Valid() && 13 + |name| <= BUFFER_CAPACITY && |response| <= BUFFER_CAPACITY
      modifies this`position, this`nativeLog, byteBuffer
      ensures Valid()
      ensures nativeLog == old(nativeLog)
        + [BufferCall(CppCreateTable, CreateTableRequest(ramcloudClusterHandle, 1, name))]
      ensures byteBuffer[..] == Overwritten(response, Overwritten(CreateTableRequest(ramcloudClusterHandle, 1, name), old(byteBuffer[..])))
      ensures r == DecodeInt64Response(byteBuffer[..])
      ensures position == if r.Success? then 12 else 4
    {
      r := CreateTable(name, 1, response);
    }

    /** dropTable: handle and NUL-terminated name; only a status comes back. */
    method DropTable(name: seq<byte>, response: seq<byte>) returns (r: Outcome<ClientError>)
      requires Valid() && 9 + |name| <= BUFFER_CAPACITY && |response| <= BUFFER_CAPACITY
      modifies this`position, this`nativeLog, byteBuffer
      ensures Valid()
      ensures nativeLog == old(nativeLog)
        + [BufferCall(CppDropTable, TableNameRequest(ramcloudClusterHandle, name))]
      ensures byteBuffer[..] == Overwritten(response, Overwritten(TableNameRequest(ramcloudClusterHandle, name), old(byteBuffer[..])))
      ensures r == DecodeStatusResponse(byteBuffer[..])
      ensures position == 4
    {
      PutTableNameRequest(name);
      CallNative(CppDropTable, response);
      Rewind();
      var status := GetInt();
      r := if status != 0 then Fail(StatusError(status)) else Pass;
    }

    /** getTableId: handle and NUL-terminated name; returns the table id. */
    method GetTableId(name: seq<byte>, response: seq<byte>) returns (r: Result<int64, ClientError>)
      requires Valid() && 9 + |name| <= BUFFER_CAPACITY && |response| <= BUFFER_CAPACITY
      modifies this`position, this`nativeLog, byteBuffer
      ensures Valid()
      ensures nativeLog == old(nativeLog)
        + [BufferCall(CppGetTableId, TableNameRequest(ramcloudClusterHandle, name))]
      ensures byteBuffer[..] == Overwritten(response, Overwritten(TableNameRequest(ramcloudClusterHandle, name), old(byteBuffer[..])))
      ensures r == DecodeInt64Response(byteBuffer[..])
      ensures position == if r.Success? then 12 else 4
    {
      PutTableNameRequest(name);
      CallNative(CppGetTableId, response);
      r := ReadInt64Response();
    }

    /** nanoLogPrint: handle, then msgLen + 1 and the message with its NUL; nothing is read back. */
    method NanoLogPrint(msg: seq<byte>, response: seq<byte>)
      requires Valid() && 13 + |msg| <= BUFFER_CAPACITY && |response| <= BUFFER_CAPACITY
      modifies this`position, this`nativeLog, byteBuffer
      ensures Valid()
      ensures nativeLog == old(nativeLog)
        + [BufferCall(CppNanoLogPrint, NanoLogRequest(ramcloudClusterHandle, msg))]
      ensures byteBuffer[..] == Overwritten(response, Overwritten(NanoLogRequest(ramcloudClusterHandle, msg), old(byteBuffer[..])))
      ensures position == 0
    {
      PutNanoLogRequest(msg);
      CallNative(CppNanoLogPrint, response);
      Rewind();
    }

    /** The response half shared by the calls that return one long. */
    method ReadInt64Response() returns (r: Result<int64, ClientError>)
      requires Valid()
      modifies this`position
      ensures r == DecodeInt64Response(byteBuffer[..])
      ensures position == if r.Success? then 12 else 4
    {
      Rewind();
      var status := GetInt();
      if status != 0 {
        return Failure(StatusError(status));
      }
      var x := GetLong();
      r := Success(x);
    }

    /** disconnect: destroys the native object and zeroes the handle, once. */
    method Disconnect()
      modifies this`ramcloudClusterHandle, this`nativeLog
      ensures ramcloudClusterHandle == 0
      ensures nativeLog == if old(ramcloudClusterHandle) != 0
        then old(nativeLog) + [DestroyCall(old(ramcloudClusterHandle))]
        else old(nativeLog)
    {
      if ramcloudClusterHandle != 0 {
        nativeLog := nativeLog + [DestroyCall(ramcloudClusterHandle)];
        ramcloudClusterHandle := 0;
      }
    }

    /**
     * The connecting constructor: writes the connect frame into a fresh
     * buffer, calls the native connect, and on status 0 takes the handle
     * that follows the status. On a nonzero status no object is returned.
     * `replied` is the buffer as the native side left it.
     */
    static method Connect(locator: seq<byte>, clusterName: seq<byte>, dpdkPort: int32, response: seq<byte>)
        returns (r: Result<RAMCloud, ClientError>, ghost replied: seq<byte>)
      requires 14 + |locator| + |clusterName| <= BUFFER_CAPACITY && |response| <= BUFFER_CAPACITY
      ensures replied == Overwritten(response, Overwritten(ConnectRequest(locator, clusterName, dpdkPort), Zeros(BUFFER_CAPACITY)))
      ensures r.Failure? ==> DecodeInt64Response(replied) == Failure(r.error)
      ensures r.Success? ==>
        && fresh(r.value) && fresh(r.value.byteBuffer) && r.value.Valid()
        && DecodeInt64Response(replied) == Success(r.value.ramcloudClusterHandle)
        && r.value.byteBuffer[..] == replied
        && r.value.position == 12
        && r.value.nativeLog == [BufferCall(CppConnect, ConnectRequest(locator, clusterName, dpdkPort))]
    {
      var rc := new RAMCloud.ForHandle(0);
      rc.PutConnectRequest(locator, clusterName, dpdkPort);
      rc.CallNative(CppConnect, response);
      replied := rc.byteBuffer[..];
      var h := rc.ReadInt64Response();
      match h {
        case Failure(e) =>
          r := Failure(e);
        case Success(handle) =>
          rc.ramcloudClusterHandle := handle;
          r := Success(rc);
      }
    }

    /** The locator-only constructor: cluster name "main" and DPDK port -1. */
    static method ConnectDefault(locator: seq<byte>, response: seq<byte>)
        returns (r: Result<RAMCloud, ClientError>, ghost replied: seq<byte>)
      requires 18 + |locator| <= BUFFER_CAPACITY && |response| <= BUFFER_CAPACITY
      ensures replied == Overwritten(response, Overwritten(ConnectRequest(locator, MAIN_CLUSTER_NAME, -1), Zeros(BUFFER_CAPACITY)))
      ensures r.Failure? ==> DecodeInt64Response(replied) == Failure(r.error)
      ensures r.Success? ==>
        && fresh(r.value) && fresh(r.value.byteBuffer) && r.value.Valid()
        && DecodeInt64Response(replied) == Success(r.value.ramcloudClusterHandle)
        && r.value.byteBuffer[..] == replied
        && r.value.position == 12
        && r.value.nativeLog == [BufferCall(CppConnect, ConnectRequest(locator, MAIN_CLUSTER_NAME, -1))]
    {
      r, replied := Connect(locator, MAIN_CLUSTER_NAME, -1, response);
    }
  }
}
