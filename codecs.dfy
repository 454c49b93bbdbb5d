/**
 * The byte/text conversions the signature check goes through:
 * strict UTF-8 (`bytes.decode("utf-8")`, `str.encode("utf-8")`),
 * latin-1 (`bytes(s, "latin-1")`) and the lower-case hex of
 * `HMAC.hexdigest()`.
 */
module Codecs {
  import opened PyJson

  type byte = x: int | 0 <= x < 256
  type Bytes = seq<byte>

  predicate IsAscii(s: string) {
    forall i :: 0 <= i < |s| ==> s[i] as int < 128
  }

  // ---------------------------------------------------------------------------
  // UTF-8 (the well-formed byte sequences of the Unicode standard, table 3-7,
  // which is what Python's strict codec accepts)
  // ---------------------------------------------------------------------------

  predicate IsContinuation(b: byte) { 0x80 <= b < 0xC0 }

  /** Bytes a scalar value occupies in UTF-8. */
  function ScalarWidth(c: char): (n: nat)
    ensures 1 <= n <= 4
  {
    var cp := c as int;
    if cp < 0x80 then 1 else if cp < 0x800 then 2 else if cp < 0x10000 then 3 else 4
  }

  /** The UTF-8 encoding of one scalar value. */
  function EncodeScalar(c: char): (r: Bytes)
    ensures |r| == ScalarWidth(c)
  {
    var cp := c as int;
    if cp < 0x80 then [cp]
    else if cp < 0x800 then [0xC0 + cp / 64, 0x80 + cp % 64]
    else if cp < 0x10000 then [0xE0 + cp / 4096, 0x80 + (cp / 64) % 64, 0x80 + cp % 64]
    else [0xF0 + cp / 262144, 0x80 + (cp / 4096) % 64, 0x80 + (cp / 64) % 64, 0x80 + cp % 64]
  }

  /** The first scalar value of `b` and the number of bytes it takes, if `b` starts well-formed. */
  function DecodeScalar(b: Bytes): (r: Option<(char, nat)>)
    ensures r.Some? ==> 1 <= r.value.1 <= |b|
  {
    if |b| == 0 then None
    else
      var b0: int := b[0];
      if b0 < 0x80 then Some((b0 as char, 1))
      else if 0xC2 <= b0 <= 0xDF then
        if |b| >= 2 && IsContinuation(b[1]) then
          Some((Scalar2(b0, b[1]) as char, 2))
        else None
      else if 0xE0 <= b0 <= 0xEF then
        var lo := if b0 == 0xE0 then 0xA0 else 0x80;
        var hi := if b0 == 0xED then 0x9F else 0xBF;
        if |b| >= 3 && lo <= b[1] <= hi && IsContinuation(b[2]) then
          Some((Scalar3(b0, b[1], b[2]) as char, 3))
        else None
      else if 0xF0 <= b0 <= 0xF4 then
        var lo := if b0 == 0xF0 then 0x90 else 0x80;
        var hi := if b0 == 0xF4 then 0x8F else 0xBF;
        if |b| >= 4 && lo <= b[1] <= hi && IsContinuation(b[2]) && IsContinuation(b[3]) then
          Some((Scalar4(b0, b[1], b[2], b[3]) as char, 4))
        else None
      else None
  }

  /** The code point carried by a lead byte and its continuation bytes. */
  function Scalar2(b0: int, b1: int): int { (b0 - 0xC0) * 64 + (b1 - 0x80) }
  function Scalar3(b0: int, b1: int, b2: int): int { (b0 - 0xE0) * 4096 + (b1 - 0x80) * 64 + (b2 - 0x80) }
  function Scalar4(b0: int, b1: int, b2: int, b3: int): int {
    (b0 - 0xF0) * 262144 + (b1 - 0x80) * 4096 + (b2 - 0x80) * 64 + (b3 - 0x80)
  }

  /** `s.encode("utf-8")`; it cannot fail, since a `char` is never a surrogate. */
  function Utf8Encode(s: string): (r: Bytes)
    ensures |r| >= |s|
  {
    if s == [] then [] else EncodeScalar(s[0]) + Utf8Encode(s[1..])
  }

  /** `b.decode("utf-8")`; None where Python raises UnicodeDecodeError. */
  function Utf8Decode(b: Bytes): Option<string>
    decreases |b|
  {
    if b == [] then Some([])
    else
      match DecodeScalar(b)
      case None => None
      case Some((c, n)) =>
        match Utf8Decode(b[n..])
        case None => None
        case Some(rest) => Some([c] + rest)
  }

  // The arithmetic of each width, in both directions, on plain integers.

  lemma Split2(cp: int)
    requires 0x80 <= cp < 0x800
    ensures 0xC2 <= 0xC0 + cp / 64 <= 0xDF && 0 <= cp % 64 < 64
    ensures Scalar2(0xC0 + cp / 64, 0x80 + cp % 64) == cp
  {
  }

  lemma Split3(cp: int)
    requires 0x800 <= cp < 0x10000
    ensures 0xE0 <= 0xE0 + cp / 4096 <= 0xEF
    ensures cp / 4096 == 0 ==> 0x20 <= (cp / 64) % 64
    ensures 0xD800 <= cp < 0xE000 || cp / 4096 != 13 || (cp / 64) % 64 < 0x20
    ensures Scalar3(0xE0 + cp / 4096, 0x80 + (cp / 64) % 64, 0x80 + cp % 64) == cp
  {
  }

  lemma Split4(cp: int)
    requires 0x10000 <= cp < 0x110000
    ensures 0xF0 <= 0xF0 + cp / 262144 <= 0xF4
    ensures cp / 262144 == 0 ==> 0x10 <= (cp / 4096) % 64
    ensures cp / 262144 == 4 ==> (cp / 4096) % 64 < 0x10
    ensures Scalar4(0xF0 + cp / 262144, 0x80 + (cp / 4096) % 64, 0x80 + (cp / 64) % 64, 0x80 + cp % 64) == cp
  {
  }

  lemma Join2(x: int, y: int)
    requires 0 <= y < 64
    ensures (x * 64 + y) / 64 == x && (x * 64 + y) % 64 == y
  {
  }

  lemma Join3(x: int, y: int, z: int)
    requires 0 <= y < 64 && 0 <= z < 64
    ensures (x * 4096 + y * 64 + z) / 4096 == x
    ensures ((x * 4096 + y * 64 + z) / 64) % 64 == y
    ensures (x * 4096 + y * 64 + z) % 64 == z
  {
    Join2(x * 64 + y, z);
    Join2(x, y);
  }

  lemma Join4(w: int, x: int, y: int, z: int)
    requires 0 <= x < 64 && 0 <= y < 64 && 0 <= z < 64
    ensures (w * 262144 + x * 4096 + y * 64 + z) / 262144 == w
    ensures ((w * 262144 + x * 4096 + y * 64 + z) / 4096) % 64 == x
    ensures ((w * 262144 + x * 4096 + y * 64 + z) / 64) % 64 == y
    ensures (w * 262144 + x * 4096 + y * 64 + z) % 64 == z
  {
    Join3(w * 64 + x, y, z);
    Join2(w, x);
  }

  lemma DecodeEncodeScalar(c: char, rest: Bytes)
    ensures DecodeScalar(EncodeScalar(c) + rest) == Some((c, ScalarWidth(c)))
  {
    var cp := c as int;
    if 0x80 <= cp < 0x800 {
      Split2(cp);
    } else if 0x800 <= cp < 0x10000 {
      Split3(cp);
    } else if 0x10000 <= cp {
      Split4(cp);
    }
  }

  lemma EncodeDecodeScalar(b: Bytes)
    requires DecodeScalar(b).Some?
    ensures EncodeScalar(DecodeScalar(b).value.0) == b[..DecodeScalar(b).value.1]
  {
    var (c, n) := DecodeScalar(b).value;
    if n == 2 {
      EncodeDecode2(b[0], b[1], c);
      assert b[..2] == [b[0], b[1]];
    } else if n == 3 {
      EncodeDecode3(b[0], b[1], b[2], c);
      assert b[..3] == [b[0], b[1], b[2]];
    } else if n == 4 {
      EncodeDecode4(b[0], b[1], b[2], b[3], c);
      assert b[..4] == [b[0], b[1], b[2], b[3]];
    }
  }

  lemma EncodeDecode2(b0: byte, b1: byte, c: char)
    requires 0xC2 <= b0 <= 0xDF && IsContinuation(b1) && c as int == Scalar2(b0, b1)
    ensures EncodeScalar(c) == [b0, b1]
  {
    Join2(b0 - 0xC0, b1 - 0x80);
  }

  lemma EncodeDecode3(b0: byte, b1: byte, b2: byte, c: char)
    requires 0xE0 <= b0 <= 0xEF && IsContinuation(b1) && IsContinuation(b2)
    requires c as int == Scalar3(b0, b1, b2) && 0x800 <= c as int
    ensures EncodeScalar(c) == [b0, b1, b2]
  {
    Join3(b0 - 0xE0, b1 - 0x80, b2 - 0x80);
  }

  lemma EncodeDecode4(b0: byte, b1: byte, b2: byte, b3: byte, c: char)
    requires 0xF0 <= b0 <= 0xF4 && IsContinuation(b1) && IsContinuation(b2) && IsContinuation(b3)
    requires c as int == Scalar4(b0, b1, b2, b3) && 0x10000 <= c as int
    ensures EncodeScalar(c) == [b0, b1, b2, b3]
  {
    Join4(b0 - 0xF0, b1 - 0x80, b2 - 0x80, b3 - 0x80);
  }

  /** Decoding what was encoded gives the text back. */
  lemma {:induction false} Utf8DecodeEncode(s: string)
    ensures Utf8Decode(Utf8Encode(s)) == Some(s)
  {
    if s != [] {
      var head := EncodeScalar(s[0]);
      var tail := Utf8Encode(s[1..]);
      assert Utf8Encode(s) == head + tail;
      DecodeEncodeScalar(s[0], tail);
      assert (head + tail)[|head|..] == tail;
      Utf8DecodeEncode(s[1..]);
      assert [s[0]] + s[1..] == s;
    }
  }

  /**
   * A non-empty input that decodes starts with one scalar, whose encoding
   * is exactly the bytes it took, and the rest decodes too.
   */
  lemma Utf8DecodeStep(b: Bytes) returns (c: char, n: nat, rest: string)
    requires b != [] && Utf8Decode(b).Some?
    ensures 1 <= n <= |b| && EncodeScalar(c) == b[..n]
    ensures Utf8Decode(b[n..]) == Some(rest) && Utf8Decode(b).value == [c] + rest
  {
    c, n := DecodeScalar(b).value.0, DecodeScalar(b).value.1;
    rest := Utf8Decode(b[n..]).value;
    EncodeDecodeScalar(b);
  }

  /** Re-encoding one scalar and the re-encoded rest gives back the whole input. */
  lemma Utf8EncodeJoin(b: Bytes, c: char, n: nat, rest: string)
    requires n <= |b| && EncodeScalar(c) == b[..n] && Utf8Encode(rest) == b[n..]
    ensures Utf8Encode([c] + rest) == b
  {
    assert ([c] + rest)[0] == c && ([c] + rest)[1..] == rest;
    assert b[..n] + b[n..] == b;
  }

  /** Whatever decodes, re-encodes to the very same bytes. */
  lemma {:induction false} Utf8EncodeDecode(b: Bytes)
    requires Utf8Decode(b).Some?
    ensures Utf8Encode(Utf8Decode(b).value) == b
    decreases |b|
  {
    if b != [] {
      var c, n, rest := Utf8DecodeStep(b);
      Utf8EncodeDecode(b[n..]);
      Utf8EncodeJoin(b, c, n, rest);
    }
  }

  // ---------------------------------------------------------------------------
  // latin-1
  // ---------------------------------------------------------------------------

  /** Each character as one byte, None if some character is above U+00FF. */
  function Latin1(s: string): (r: Option<Bytes>)
    ensures r.Some? <==> forall i :: 0 <= i < |s| ==> s[i] as int < 256
    ensures r.Some? ==> |r.value| == |s| && forall i :: 0 <= i < |s| ==> r.value[i] == s[i] as int
  {
    if s == [] then Some([])
    else if s[0] as int >= 256 then None
    else match Latin1(s[1..])
      case None => None
      case Some(rest) => Some([s[0] as int] + rest)
  }

  /** `bytes(secret, "latin-1")` where the secret may be unset (None). */
  function Latin1Bytes(s: Option<string>): (r: PyResult<Bytes>)
    ensures s.None? ==> r == Raise(TypeError)
    ensures s.Some? ==> (r.Ok? <==> Latin1(s.value).Some?)
    ensures s.Some? && r.Ok? ==> r.value == Latin1(s.value).value
    ensures s.Some? && r.Raise? ==> r.error == UnicodeError
  {
    match s
    case None => Raise(TypeError)
    case Some(t) =>
      match Latin1(t)
      case None => Raise(UnicodeError)
      case Some(b) => Ok(b)
  }

  // ---------------------------------------------------------------------------
  // lower-case hex, as `hexdigest()` writes a digest
  // ---------------------------------------------------------------------------

  function HexDigit(n: int): (c: char)
    requires 0 <= n < 16
    ensures c as int < 128 && HexValue(c) == Some(n)
  {
    if n < 10 then ('0' as int + n) as char else ('a' as int + n - 10) as char
  }

  function HexValue(c: char): Option<int> {
    if '0' <= c <= '9' then Some(c as int - '0' as int)
    else if 'a' <= c <= 'f' then Some(c as int - 'a' as int + 10)
    else None
  }

  /** Two lower-case hex digits per byte, most significant first. */
  function HexDigest(b: Bytes): (s: string)
    ensures |s| == 2 * |b|
    ensures IsAscii(s)
    ensures forall i :: 0 <= i < |s| ==> HexValue(s[i]).Some?
  {
    if b == [] then [] else [HexDigit(b[0] / 16), HexDigit(b[0] % 16)] + HexDigest(b[1..])
  }

  /** The inverse of HexDigest. */
  function HexParse(s: string): Option<Bytes>
  {
    if |s| == 0 then Some([])
    else if |s| == 1 then None
    else match (HexValue(s[0]), HexValue(s[1]), HexParse(s[2..]))
      case (Some(hi), Some(lo), Some(rest)) => Some([hi * 16 + lo] + rest)
      case _ => None
  }

  lemma {:induction false} HexRoundTrip(b: Bytes)
    ensures HexParse(HexDigest(b)) == Some(b)
  {
    if b != [] {
      var s := HexDigest(b);
      assert s[2..] == HexDigest(b[1..]);
      assert HexValue(s[0]) == Some(b[0] / 16);
      assert HexValue(s[1]) == Some(b[0] % 16);
      HexRoundTrip(b[1..]);
      assert [b[0] / 16 * 16 + b[0] % 16] + b[1..] == b;
    }
  }

  /** Distinct digests have distinct hex forms. */
  lemma HexDigestInjective(a: Bytes, b: Bytes)
    requires HexDigest(a) == HexDigest(b)
    ensures a == b
  {
    HexRoundTrip(a);
    HexRoundTrip(b);
  }
}
