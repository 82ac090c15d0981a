/**
 * A `java.io.InputStream` over fixed content, as the uploaders and the chunk
 * iterator see it. A read may return fewer bytes than asked for (any number from
 * one up), `available()` is an estimate that may be low unless the stream
 * reports it exactly, and a stream may be set to fail with an `IOException` once
 * it has delivered a given number of bytes.
 */
module Streams {
  import opened Util

  class InputStream {
    /** Everything the stream would deliver if read to the end. */
    const data: seq<byte>
    /** When present, every call fails once this many bytes have been delivered. */
    const failAt: Option<nat>
    /** Whether `available()` reports the exact number of remaining bytes. */
    const exactAvailable: bool
    /** How many bytes have been delivered. */
    var pos: nat

    constructor (data: seq<byte>, failAt: Option<nat>, exactAvailable: bool)
      ensures this.data == data && this.failAt == failAt && this.exactAvailable == exactAvailable
      ensures pos == 0 && Valid()
    {
      this.data := data;
      this.failAt := failAt;
      this.exactAvailable := exactAvailable;
      pos := 0;
    }

    ghost predicate Valid()
      reads this
    {
      pos <= |data|
    }

    /** The bytes not yet delivered. */
    function Remaining(): seq<byte>
      reads this
      requires Valid()
    {
      data[pos..]
    }

    /** Whether the stream has reached its failure point. */
    predicate Failing()
      reads this
    {
      failAt.Some? && pos >= failAt.value
    }

    /** Whether the stream delivers all of its content and end-of-stream without failing. */
    predicate NeverFails()
    {
      failAt.None? || failAt.value > |data|
    }

    /** How many more bytes can be delivered before the end or the failure point. */
    function Deliverable(): nat
      reads this
      requires Valid()
    {
      if Failing() then 0
      else if failAt.Some? && failAt.value - pos < |data| - pos then failAt.value - pos
      else |data| - pos
    }

    /**
     * `read(buffer, off, len)`: when `len` is zero, reads nothing and returns 0;
     * at the end of the stream returns -1; otherwise copies between one and `len`
     * bytes into `buffer[off..]` and returns how many. Fails at the failure point.
     */
    method Read(buffer: array<byte>, off: nat, len: nat) returns (r: Result<int>)
      requires Valid() && off + len <= buffer.Length
      modifies this, buffer
      ensures Valid()
      ensures len == 0 ==> r == Ok(0) && pos == old(pos) && buffer[..] == old(buffer[..])
      ensures len > 0 && old(Failing()) ==> r == Err(IOException) && pos == old(pos) && buffer[..] == old(buffer[..])
      ensures len > 0 && !old(Failing()) && old(pos) == |data| ==> r == Ok(-1) && pos == old(pos) && buffer[..] == old(buffer[..])
      ensures len > 0 && !old(Failing()) && old(pos) < |data| ==>
        r.Ok? && 1 <= r.value <= len && r.value <= old(Deliverable()) && pos == old(pos) + r.value
        && buffer[..off] == old(buffer[..off]) && buffer[off + r.value..] == old(buffer[off + r.value..])
        && buffer[off..off + r.value] == data[old(pos)..pos]
    {
      if len == 0 {
        return Ok(0);
      }
      if Failing() {
        return Err(IOException);
      }
      if pos == |data| {
        return Ok(-1);
      }
      var most := if len < Deliverable() then len else Deliverable();
      var n :| 1 <= n <= most;
      forall i | off <= i < off + n {
        buffer[i] := data[pos + i - off];
      }
      pos := pos + n;
      r := Ok(n);
    }

    /**
     * `available()`: how many bytes can be read without blocking; never more than
     * remain, and exactly that many when the stream reports exactly.
     */
    method Available() returns (r: Result<nat>)
      requires Valid()
      ensures Failing() ==> r == Err(IOException)
      ensures !Failing() ==> r.Ok? && r.value <= |data| - pos
      ensures !Failing() && exactAvailable ==> r == Ok(|data| - pos)
    {
      if Failing() {
        return Err(IOException);
      }
      if exactAvailable {
        r := Ok(|data| - pos);
      } else {
        var n :| 0 <= n <= |data| - pos;
        r := Ok(n);
      }
    }
  }
}
