/** The byte buffer that `RrdByteArrayBackend` keeps, and the effect of its inherited `write`
    and `read`: bounds-checked copies into and out of one buffer, which never grows or shrinks. */
module ByteArray {
  import opened Wrappers

  newtype byte = x: int | 0 <= x < 256

  /** An out-of-range access, which the Java base class reports by throwing. */
  datatype BoundsError = OutOfBounds(offset: int, length: int, size: int)

  predicate InBounds(buffer: seq<byte>, offset: int, length: int)
  {
    0 <= offset && 0 <= length && offset + length <= |buffer|
  }

  /** `bytes` copied over `buffer` at `offset`. */
  function Splice(buffer: seq<byte>, offset: int, bytes: seq<byte>): (r: seq<byte>)
    requires InBounds(buffer, offset, |bytes|)
    ensures |r| == |buffer|
    ensures r[offset..offset + |bytes|] == bytes
    ensures forall i :: 0 <= i < |r| && !(offset <= i < offset + |bytes|) ==> r[i] == buffer[i]
  {
    buffer[..offset] + bytes + buffer[offset + |bytes|..]
  }

  /** The inherited `write(offset, bytes)`: the new buffer, or the bounds error. */
  function Write(buffer: seq<byte>, offset: int, bytes: seq<byte>): (r: Result<seq<byte>, BoundsError>)
    ensures r.Success? <==> InBounds(buffer, offset, |bytes|)
    ensures r.Success? ==> |r.value| == |buffer|
    ensures r.Failure? ==> r.error == OutOfBounds(offset, |bytes|, |buffer|)
  {
    if InBounds(buffer, offset, |bytes|) then Success(Splice(buffer, offset, bytes))
    else Failure(OutOfBounds(offset, |bytes|, |buffer|))
  }

  /** The inherited `read(offset, length)`: exactly `length` bytes, or the bounds error. */
  function Read(buffer: seq<byte>, offset: int, length: int): (r: Result<seq<byte>, BoundsError>)
    ensures r.Success? <==> InBounds(buffer, offset, length)
    ensures r.Success? ==> |r.value| == length
    ensures r.Success? ==> forall i :: 0 <= i < length ==> r.value[i] == buffer[offset + i]
  {
    if InBounds(buffer, offset, length) then Success(buffer[offset..offset + length])
    else Failure(OutOfBounds(offset, length, |buffer|))
  }

  /** Reading back a written range gives exactly the bytes written; every other range
      that does not overlap it reads as before (last write wins only where ranges overlap). */
  lemma WriteThenRead(buffer: seq<byte>, offset: int, bytes: seq<byte>, o: int, n: int)
    requires Write(buffer, offset, bytes).Success?
    ensures Read(Write(buffer, offset, bytes).value, offset, |bytes|) == Success(bytes)
    ensures o + n <= offset || offset + |bytes| <= o ==>
              Read(Write(buffer, offset, bytes).value, o, n) == Read(buffer, o, n)
  {
    var after := Write(buffer, offset, bytes).value;
    if (o + n <= offset || offset + |bytes| <= o) && InBounds(buffer, o, n) {
      assert after[o..o + n] == buffer[o..o + n];
    }
  }
}
