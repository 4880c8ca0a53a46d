/** The byte stream under the parser and the printer: a connection that moves bytes in pieces of any
    positive size until it ends. */
module ByteStreams {
  import opened Bytes

  function Min(a: int, b: int): int {
    if a < b then a else b
  }

  /** What has been sent once `bytes` have been offered to a connection that takes `limit` in all. */
  function Sent(before: seq<byte>, bytes: seq<byte>, limit: nat): seq<byte> {
    (before + bytes)[..Min(|before + bytes|, limit)]
  }

  /** Offering two strings in turn, the second only if the first got through, is offering both. */
  lemma SentTwice(before: seq<byte>, a: seq<byte>, b: seq<byte>, limit: nat)
    requires |before| <= limit
    ensures |before + a| <= limit ==> Sent(Sent(before, a, limit), b, limit) == Sent(before, a + b, limit)
    ensures |before + a| > limit ==> Sent(before, a, limit) == Sent(before, a + b, limit)
  {
    assert before + a + b == before + (a + b);
  }

  class SocketStream {
    const incoming: seq<byte>   // every byte that arrives before the connection ends
    const limit: nat            // how many bytes the peer takes before the connection breaks
    var pos: nat                // how many have been read
    var written: seq<byte>      // what has been sent
    var errno: bool             // whether the calling thread's errno is set

    ghost predicate Valid()
      reads this
    {
      pos <= |incoming| && |written| <= limit
    }

    constructor (incoming: seq<byte>, limit: nat)
      ensures Valid() && this.incoming == incoming && this.limit == limit
      ensures pos == 0 && written == [] && !errno
    {
      this.incoming, this.limit := incoming, limit;
      pos, written, errno := 0, [], false;
    }

    /** One receive: some of the bytes asked for, or -1 once the connection has ended. */
    method ReadBuffer(buffer: array<byte>, offset: nat, size: nat) returns (bytesRead: int)
      requires Valid() && offset + size <= buffer.Length && size > 0
      modifies this`pos, buffer
      ensures Valid()
      ensures bytesRead == -1 <==> old(pos) == |incoming|
      ensures bytesRead != -1 ==> 0 < bytesRead <= size && pos == old(pos) + bytesRead
      ensures bytesRead == -1 ==> pos == old(pos)
      ensures buffer[..offset] == old(buffer[..offset])
      ensures bytesRead != -1 ==> buffer[offset..offset + bytesRead] == incoming[old(pos)..pos]
    {
      if pos == |incoming| {
        return -1;
      }
      assert 0 < 1 <= size && pos + 1 <= |incoming|;
      bytesRead :| 0 < bytesRead <= size && pos + bytesRead <= |incoming|;
      for i := 0 to bytesRead
        invariant pos == old(pos)
        invariant buffer[..offset] == old(buffer[..offset])
        invariant buffer[offset..offset + i] == incoming[pos..pos + i]
      {
        buffer[offset + i] := incoming[pos + i];
        assert buffer[offset..offset + (i + 1)] == buffer[offset..offset + i] + [incoming[pos + i]];
      }
      pos := pos + bytesRead;
    }

    /** Read exactly `size` bytes, however the connection cuts them up. */
    method ReadBufferNow(buffer: array<byte>, size: nat) returns (ok: bool)
      requires Valid() && size <= buffer.Length
      modifies this`pos, buffer
      ensures Valid()
      ensures ok <==> old(pos) + size <= |incoming|
      ensures ok ==> pos == old(pos) + size && buffer[..size] == incoming[old(pos)..pos]
      ensures !ok ==> pos == |incoming|
    {
      var bufferOffset, remainingBytes := 0, size;
      while remainingBytes > 0
        invariant 0 <= bufferOffset <= size && bufferOffset + remainingBytes == size && Valid()
        invariant pos == old(pos) + bufferOffset
        invariant buffer[..bufferOffset] == incoming[old(pos)..pos]
      {
        ghost var before := pos;
        var bytesRead := ReadBuffer(buffer, bufferOffset, remainingBytes);
        if bytesRead == -1 {
          return false;
        }
        assert incoming[old(pos)..pos] == incoming[old(pos)..before] + incoming[before..pos];
        assert buffer[..bufferOffset + bytesRead]
            == buffer[..bufferOffset] + buffer[bufferOffset..bufferOffset + bytesRead];
        remainingBytes := remainingBytes - bytesRead;
        bufferOffset := bufferOffset + bytesRead;
      }
      return true;
    }

    method ReadByte() returns (ok: bool, b: byte)
      requires Valid()
      modifies this`pos
      ensures Valid()
      ensures ok <==> old(pos) < |incoming|
      ensures ok ==> pos == old(pos) + 1 && b == incoming[old(pos)]
      ensures !ok ==> pos == |incoming|
    {
      var buffer := new byte[1];
      ok := ReadBufferNow(buffer, 1);
      b := buffer[0];
      assert ok ==> buffer[..1][0] == incoming[old(pos)..pos][0];
    }

    /** One send: some of the bytes offered, or -1 once the connection has broken. */
    method WriteBuffer(buffer: seq<byte>) returns (bytesWritten: int)
      requires Valid() && buffer != []
      modifies this`written
      ensures Valid()
      ensures bytesWritten == -1 <==> |old(written)| == limit
      ensures bytesWritten == -1 ==> written == old(written)
      ensures bytesWritten != -1 ==> 0 < bytesWritten <= |buffer| && written == old(written) + buffer[..bytesWritten]
    {
      if |written| == limit {
        return -1;
      }
      assert 0 < 1 <= |buffer| && |written| + 1 <= limit;
      bytesWritten :| 0 < bytesWritten <= |buffer| && |written| + bytesWritten <= limit;
      written := written + buffer[..bytesWritten];
    }

    /** Send all of `buffer`, however the connection cuts it up; on failure a prefix has been sent. */
    method WriteBufferNow(buffer: seq<byte>) returns (ok: bool)
      requires Valid()
      modifies this`written
      ensures Valid()
      ensures ok <==> |old(written) + buffer| <= limit
      ensures written == Sent(old(written), buffer, limit)
    {
      var bufferOffset, remainingBytes := 0, |buffer|;
      while remainingBytes > 0
        invariant 0 <= bufferOffset <= |buffer| && bufferOffset + remainingBytes == |buffer| && Valid()
        invariant written == old(written) + buffer[..bufferOffset]
      {
        var bytesWritten := WriteBuffer(buffer[bufferOffset..]);
        if bytesWritten == -1 {
          assert written == Sent(old(written), buffer, limit);
          return false;
        }
        assert buffer[..bufferOffset + bytesWritten] == buffer[..bufferOffset] + buffer[bufferOffset..][..bytesWritten];
        remainingBytes := remainingBytes - bytesWritten;
        bufferOffset := bufferOffset + bytesWritten;
      }
      assert buffer[..bufferOffset] == buffer;
      return true;
    }

    method WriteByte(b: byte) returns (ok: bool)
      requires Valid()
      modifies this`written
      ensures Valid()
      ensures ok <==> |old(written) + [b]| <= limit
      ensures written == Sent(old(written), [b], limit)
    {
      ok := WriteBufferNow([b]);
    }

    /** Send formatted text, which must fit the 1024-byte buffer together with its terminator. */
    method WriteFormat(text: seq<byte>) returns (ok: bool)
      requires Valid() && |text| < 1024
      modifies this`written
      ensures Valid()
      ensures ok <==> |old(written) + text| <= limit
      ensures written == Sent(old(written), text, limit)
    {
      ok := WriteBufferNow(text);
    }
  }
}
