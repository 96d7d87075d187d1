/**
 * Rendering of digest bytes as lower-case hexadecimal: each byte becomes
 * `b.toString(16).padStart(2, "0")`, and `hash12` keeps the first twelve
 * characters of the rendering (src/worker.ts:35-41).
 */
module Hex {
  import opened Text

  newtype byte = x: int | 0 <= x < 256

  /** SHA-256 as the platform offers it; its internals are not part of this model. */
  type Sha256 = seq<byte> -> seq<byte>

  /** The length of a SHA-256 digest in bytes. */
  const DigestBytes := 32

  /** SHA-256 as far as this model relies on it: every digest is 32 bytes long. */
  ghost predicate Sha256Like(sha: Sha256) {
    forall m :: |sha(m)| == DigestBytes
  }

  /** `new TextEncoder().encode`, likewise taken as given. */
  type Utf8 = string -> seq<byte>

  /** One byte as two lower-case hexadecimal characters, high nibble first. */
  function ByteHex(b: byte): (h: string)
    ensures |h| == 2 && IsDigitChar(h[0]) && IsDigitChar(h[1])
    ensures DigitValue(h[0]) * 16 + DigitValue(h[1]) == b as nat
  {
    [DigitChar(b as nat / 16), DigitChar(b as nat % 16)]
  }

  /**
   * `b.toString(16).padStart(2, "0")` (src/worker.ts:38 and 79) is `ByteHex(b)`:
   * a byte never needs more than two digits, and one digit gets a leading `0`.
   */
  lemma ByteHexIsPaddedToString(b: byte)
    ensures PadStart(NumberToString(b as nat, 16), 2, '0') == ByteHex(b)
  {
    var n := b as nat;
    var digits := NumberToString(n, 16);
    if n < 16 {
      assert digits == [DigitChar(n)];
      assert Repeat('0', 1) == ['0'];
      assert DigitChar(0) == '0';
    } else {
      assert digits == NumberToString(n / 16, 16) + [DigitChar(n % 16)];
      assert NumberToString(n / 16, 16) == [DigitChar(n / 16)];
    }
  }

  /** `[...digest].map(ByteHex).join("")`: the bytes rendered one after another. */
  function HexOf(d: seq<byte>): (s: string)
    ensures |s| == 2 * |d|
    ensures IsLowerHex(s)
  {
    if d == [] then ""
    else
      var h, rest := ByteHex(d[0]), HexOf(d[1..]);
      assert forall i :: 0 <= i < |h + rest| ==> (h + rest)[i] == if i < 2 then h[i] else rest[i - 2];
      h + rest
  }

  /**
   * `digest.reduce((s, b) => s + ByteHex(b), acc)`, the left fold of
   * src/worker.ts:79: it appends to `acc` exactly the map-and-join rendering of
   * lines 37-39.
   */
  function HexFold(acc: string, d: seq<byte>): (r: string)
    ensures r == acc + HexOf(d)
    decreases |d|
  {
    if d == [] then acc
    else
      assert acc + ByteHex(d[0]) + HexOf(d[1..]) == acc + (ByteHex(d[0]) + HexOf(d[1..]));
      HexFold(acc + ByteHex(d[0]), d[1..])
  }

  lemma {:induction false} HexOfAppend(d: seq<byte>, e: seq<byte>)
    ensures HexOf(d + e) == HexOf(d) + HexOf(e)
  {
    if d == [] {
      assert d + e == e;
    } else {
      assert (d + e)[1..] == d[1..] + e;
      HexOfAppend(d[1..], e);
    }
  }

  /** Reads a hexadecimal string back two characters at a time. */
  function HexDecode(s: string): (d: seq<byte>)
    ensures |d| == |s| / 2
  {
    if |s| < 2 then [] else [(DigitValue(s[0]) * 16 + DigitValue(s[1])) as byte] + HexDecode(s[2..])
  }

  /** The rendering loses nothing: different digests render differently. */
  lemma {:induction false} HexRoundTrip(d: seq<byte>)
    ensures HexDecode(HexOf(d)) == d
  {
    if d != [] {
      var h := ByteHex(d[0]);
      var s := HexOf(d);
      assert s[..2] == h && s[2..] == HexOf(d[1..]);
      HexRoundTrip(d[1..]);
    }
  }

  /**
   * `.slice(0, 12)` of the rendering (src/worker.ts:37-40): a prefix of it, twelve
   * characters long for a digest of six bytes or more and the whole rendering
   * otherwise. With six or more bytes it is the rendering of the first six bytes
   * and reads back to them.
   */
  function Render12(digest: seq<byte>): (r: string)
    ensures r <= HexOf(digest)
    ensures |r| == if |digest| >= 6 then 12 else 2 * |digest|
    ensures IsLowerHex(r)
    ensures |digest| >= 6 ==> r == HexOf(digest[..6]) && HexDecode(r) == digest[..6]
  {
    var h := HexOf(digest);
    if |h| <= 12 then
      assert |digest| == 6 ==> digest[..6] == digest;
      HexRoundTrip(digest);
      h
    else
      assert digest == digest[..6] + digest[6..];
      HexOfAppend(digest[..6], digest[6..]);
      HexRoundTrip(digest[..6]);
      h[..12]
  }

  /**
   * `hash12(buf)` (src/worker.ts:35-41): a prefix of the rendering of SHA-256 of
   * `buf`; for a 32-byte digest, twelve lower-case hexadecimal characters that
   * read back to the digest's first six bytes.
   */
  function Hash12(sha: Sha256, buf: seq<byte>): (r: string)
    ensures r <= HexOf(sha(buf))
    ensures |sha(buf)| == DigestBytes ==> |r| == 12 && IsLowerHex(r) && HexDecode(r) == sha(buf)[..6]
  {
    Render12(sha(buf))
  }
}
