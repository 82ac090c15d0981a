/**
 * `InputStreamIterator`: walks a stream in chunks of up to 4 MiB, one read per
 * chunk, for as long as the stream reports bytes available.
 */
module ChunkIterator {
  import opened Util
  import opened Streams

  const KB: int := 1024
  const MB: int := KB * 1024
  /** The size of the buffer each `next()` reads into. */
  const ChunkBufferSize: int := 4 * MB

  /** The chunk buffer is 4 MiB. */
  lemma ChunkBufferIs4MiB()
    ensures MB == 1048576 && ChunkBufferSize == 4194304
  {
  }

  class InputStreamIterator {
    const input: InputStream

    constructor (input: InputStream)
      ensures this.input == input
    {
      this.input := input;
    }

    /** `hasNext()`: whether `available()` is positive; a failing stream surfaces unchecked. */
    method HasNext() returns (r: Result<bool>)
      requires input.Valid()
      ensures input.Failing() ==> r == Err(RuntimeException)
      ensures !input.Failing() ==> r.Ok? && (r.value ==> input.pos < |input.data|)
      ensures !input.Failing() && input.exactAvailable ==> r == Ok(input.pos < |input.data|)
    {
      var available := input.Available();
      if available.Err? {
        return Err(RuntimeException);
      }
      r := Ok(available.value > 0);
    }

    /**
     * `next()`: one read into a fresh 4 MiB buffer, giving the bytes read paired
     * with their number. A failing stream surfaces unchecked; at the end of the
     * stream the read returns -1, which the buffer wrapping refuses with an
     * `IndexOutOfBoundsException`.
     */
    method Next() returns (r: Result<(seq<byte>, int)>)
      requires input.Valid()
      modifies input
      ensures input.Valid() && old(input.pos) <= input.pos
      ensures old(input.Failing()) ==> r == Err(RuntimeException) && input.pos == old(input.pos)
      ensures !old(input.Failing()) && old(input.pos) == |input.data| ==> r == Err(IndexOutOfBounds)
      ensures !old(input.Failing()) && old(input.pos) < |input.data| ==> r.Ok?
      ensures r.Ok? ==> var (chunk, count) := r.value;
        count == |chunk| && 0 < |chunk| <= ChunkBufferSize && chunk == input.data[old(input.pos)..input.pos]
    {
      var buffer := new byte[ChunkBufferSize];
      var read := input.Read(buffer, 0, buffer.Length);
      if read.Err? {
        return Err(RuntimeException);
      }
      if read.value < 0 {
        return Err(IndexOutOfBounds);
      }
      r := Ok((buffer[..read.value], read.value));
    }

    /** `spliterator()`: not implemented; always throws. */
    method Spliterator() returns (r: Result<()>)
      ensures r == Err(UnsupportedOperation)
    {
      r := Err(UnsupportedOperation);
    }
  }
}
