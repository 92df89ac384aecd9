/** `String.getBytes("UTF-8")`, which turns a backend path into its Berkeley DB record key,
    and the decoder that proves the encoding loses nothing: distinct paths give distinct keys. */
module Utf8 {
  import opened Wrappers
  import opened ByteArray

  /** A continuation byte 10xxxxxx carrying the six bits `bits`. */
  function Cont(bits: int): byte
    requires 0 <= bits < 64
  {
    (0x80 + bits) as byte
  }

  /** The one to four bytes of one Unicode scalar value: the lead byte carries the high bits,
      each continuation byte six more. */
  function EncodeChar(c: char): (r: seq<byte>)
    ensures 1 <= |r| <= 4
  {
    var n := c as int;
    var n1 := n / 64;
    var n2 := n1 / 64;
    var n3 := n2 / 64;
    if n < 0x80 then [n as byte]
    else if n < 0x800 then [(0xC0 + n1) as byte, Cont(n % 64)]
    else if n < 0x1_0000 then [(0xE0 + n2) as byte, Cont(n1 % 64), Cont(n % 64)]
    else [(0xF0 + n3) as byte, Cont(n2 % 64), Cont(n1 % 64), Cont(n % 64)]
  }

  function Encode(s: string): (r: seq<byte>)
    ensures |s| <= |r| <= 4 * |s|
  {
    if s == [] then [] else EncodeChar(s[0]) + Encode(s[1..])
  }

  /** The number of bytes a sequence starting with lead byte `b` claims, or 0 for a byte
      that cannot start one. */
  function SequenceLength(b: byte): nat
  {
    if b < 0x80 then 1
    else if 0xC0 <= b < 0xE0 then 2
    else if 0xE0 <= b < 0xF0 then 3
    else if 0xF0 <= b < 0xF8 then 4
    else 0
  }

  predicate IsCont(b: byte) { 0x80 <= b < 0xC0 }

  predicate IsScalar(n: int) { 0 <= n < 0xD800 || 0xE000 <= n < 0x11_0000 }

  /** The scalar value spelled by the first `SequenceLength(bs[0])` bytes of `bs`. */
  function DecodeChar(bs: seq<byte>): (r: Option<char>)
    requires |bs| > 0 && |bs| >= SequenceLength(bs[0])
  {
    var k := SequenceLength(bs[0]);
    var n :=
      if k == 1 then bs[0] as int
      else if k == 2 && IsCont(bs[1]) then
        (bs[0] as int - 0xC0) * 64 + (bs[1] as int - 0x80)
      else if k == 3 && IsCont(bs[1]) && IsCont(bs[2]) then
        ((bs[0] as int - 0xE0) * 64 + (bs[1] as int - 0x80)) * 64 + (bs[2] as int - 0x80)
      else if k == 4 && IsCont(bs[1]) && IsCont(bs[2]) && IsCont(bs[3]) then
        (((bs[0] as int - 0xF0) * 64 + (bs[1] as int - 0x80)) * 64 + (bs[2] as int - 0x80)) * 64
          + (bs[3] as int - 0x80)
      else -1;
    if IsScalar(n) then Some(n as char) else None
  }

  function Decode(bs: seq<byte>): (r: Option<string>)
    ensures r.Some? ==> |r.value| <= |bs|
  {
    if bs == [] then Some([])
    else
      var k := SequenceLength(bs[0]);
      if k == 0 || |bs| < k then None
      else match DecodeChar(bs[..k])
        case None => None
        case Some(c) =>
          match Decode(bs[k..])
          case None => None
          case Some(rest) => Some([c] + rest)
  }

  lemma DecodeEncodeChar(c: char, tail: seq<byte>)
    ensures var bs := EncodeChar(c) + tail;
            SequenceLength(bs[0]) == |EncodeChar(c)| && DecodeChar(bs[..|EncodeChar(c)|]) == Some(c)
  {
  }

  /** Decoding undoes encoding. */
  lemma {:induction false} DecodeEncode(s: string)
    ensures Decode(Encode(s)) == Some(s)
  {
    if s != [] {
      var e := EncodeChar(s[0]);
      var bs := Encode(s);
      assert bs == e + Encode(s[1..]);
      DecodeEncodeChar(s[0], Encode(s[1..]));
      assert bs[..|e|] == (e + Encode(s[1..]))[..|e|];
      assert bs[|e|..] == Encode(s[1..]);
      DecodeEncode(s[1..]);
      assert [s[0]] + s[1..] == s;
    }
  }

  /** Two paths share a record key only when they are the same path. */
  lemma EncodeInjective(s: string, t: string)
    requires Encode(s) == Encode(t)
    ensures s == t
  {
    DecodeEncode(s);
    DecodeEncode(t);
  }
}
