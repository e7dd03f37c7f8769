/** The length prefix shared by every peer: a frame is a 4-byte unsigned
    big-endian length followed by that many bytes of UTF-8 JSON. */
module Wire {

  type byte = b: int | 0 <= b < 256

  const TwoTo32: nat := 0x1_0000_0000
  const TwoTo31: nat := 0x8000_0000

  type u32 = n: int | 0 <= n < TwoTo32

  /** `struct.pack("!I", n)` / `htonl` / `writeU32BE`: most significant byte first. */
  function EncodeU32BE(n: u32): (r: seq<byte>)
    ensures |r| == 4
    ensures r[0] == n / 0x100_0000 && r[3] == n % 0x100
  {
    [n / 0x100_0000, (n / 0x1_0000) % 0x100, (n / 0x100) % 0x100, n % 0x100]
  }

  /** `struct.unpack("!I", b)` / `ntohl` / `readU32BE` over the first four bytes. */
  function DecodeU32BE(b: seq<byte>): (n: u32)
    requires |b| >= 4
  {
    var b0, b1, b2, b3 := b[0] as int, b[1] as int, b[2] as int, b[3] as int;
    ((b0 * 0x100 + b1) * 0x100 + b2) * 0x100 + b3
  }

  /** Reading back a written header yields the original length. */
  lemma DecodeEncode(n: u32)
    ensures DecodeU32BE(EncodeU32BE(n)) == n
  {
    var r := EncodeU32BE(n);
    var r0, r1, r2 := r[0] as int, r[1] as int, r[2] as int;
    assert r0 * 0x100 + r1 == n / 0x1_0000;
    assert (r0 * 0x100 + r1) * 0x100 + r2 == n / 0x100;
  }

  /** Every 4-byte header is the encoding of the length it decodes to. */
  lemma EncodeDecode(b: seq<byte>)
    requires |b| == 4
    ensures EncodeU32BE(DecodeU32BE(b)) == b
  {
    var n := DecodeU32BE(b);
    var b0, b1, b2 := b[0] as int, b[1] as int, b[2] as int;
    assert n / 0x100 == (b0 * 0x100 + b1) * 0x100 + b2;
    assert n / 0x1_0000 == b0 * 0x100 + b1;
    assert n / 0x100_0000 == b0;
  }

  /** Only the first four bytes matter. */
  lemma DecodePrefix(b: seq<byte>, rest: seq<byte>)
    requires |b| >= 4
    ensures DecodeU32BE(b + rest) == DecodeU32BE(b)
  {
  }

  /** `writeU32BE(out, n)`: appends the header to `out`. */
  function WriteU32BE(out: seq<byte>, n: u32): (r: seq<byte>)
    ensures |r| == |out| + 4
    ensures r[..|out|] == out
    ensures DecodeU32BE(r[|out|..]) == n
  {
    DecodeEncode(n);
    assert (out + EncodeU32BE(n))[|out|..] == EncodeU32BE(n);
    out + EncodeU32BE(n)
  }

  /** `static_cast<uint32_t>(size)`: a size reduced modulo 2^32. */
  function TruncU32(size: nat): (n: u32)
    ensures size < TwoTo32 ==> n == size
  {
    size % TwoTo32
  }

  /** The bytes of a stream that arrives in `chunks`, in order. */
  function Flatten(chunks: seq<seq<byte>>): (s: seq<byte>)
    ensures chunks == [] ==> s == []
  {
    if chunks == [] then [] else chunks[0] + Flatten(chunks[1..])
  }
}
