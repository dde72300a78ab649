/** The cryptographic collaborators, kept abstract: bcrypt as a pair of
    functions with one law, the JWT service as a signer and an unverified
    decoder, and the hex encoding of the random bytes that make a reset
    token. */
module Crypto {
  import opened Common

  newtype byte = x: int | 0 <= x < 256

  /** bcrypt: `hash(plaintext)` gives the digest that is stored, and
      `compare(plaintext, digest)` checks a plaintext against it. */
  datatype Hasher = Hasher(hash: string -> string, compare: (string, string) -> bool) {
    /** The one law assumed of bcrypt: a password matches its own digest. */
    ghost predicate Sound() {
      forall p :: compare(p, hash(p))
    }
  }

  /** The JWT service: `sign` turns a payload into a token string and
      `decode` reads a token's payload back without checking its signature
      (none when the token is malformed). */
  datatype JwtService = JwtService(sign: Object -> string, decode: string -> Option<Object>) {
    /** What a JWT token is: a non-empty string without whitespace (three
        base64url segments joined by dots) whose payload keeps every claim
        it was signed with. */
    ghost predicate Sound() {
      forall p :: TokenShaped(sign(p)) && Keeps(decode(sign(p)), p)
    }
  }

  ghost predicate TokenShaped(t: string) {
    t != "" && forall i :: 0 <= i < |t| ==> !IsJsSpace(t[i])
  }

  ghost predicate Keeps(decoded: Option<Object>, claims: Object) {
    decoded.Some? && forall k :: k in claims ==> k in decoded.value && decoded.value[k] == claims[k]
  }

  const HexDigits := "0123456789abcdef"

  /** A lower-case hex digit. */
  predicate IsHexDigit(c: char) {
    '0' <= c <= '9' || 'a' <= c <= 'f'
  }

  function HexPair(b: byte): (s: string)
    ensures |s| == 2 && IsHexDigit(s[0]) && IsHexDigit(s[1])
  {
    [HexDigits[b / 16], HexDigits[b % 16]]
  }

  /** Buffer.toString('hex'): two lower-case hex digits per byte, high
      nibble first. */
  function Hex(bytes: seq<byte>): (s: string)
    ensures |s| == 2 * |bytes|
    ensures forall i :: 0 <= i < |s| ==> IsHexDigit(s[i])
  {
    if bytes == [] then [] else HexPair(bytes[0]) + Hex(bytes[1..])
  }

  /** The value of one lower-case hex digit. */
  function Nibble(c: char): (v: int)
    ensures 0 <= v < 16
    ensures IsHexDigit(c) ==> HexDigits[v] == c
  {
    if '0' <= c <= '9' then c as int - '0' as int
    else if 'a' <= c <= 'f' then c as int - 'a' as int + 10
    else 0
  }

  /** Reads a hex string back into bytes, two digits at a time. */
  function Unhex(s: string): (bytes: seq<byte>)
    requires |s| % 2 == 0
    ensures |bytes| == |s| / 2
  {
    if s == [] then [] else [(16 * Nibble(s[0]) + Nibble(s[1])) as byte] + Unhex(s[2..])
  }

  lemma NibbleOfDigit(d: int)
    requires 0 <= d < 16
    ensures Nibble(HexDigits[d]) == d
  {
  }

  /** Decoding undoes the encoding, so distinct random bytes give distinct
      reset tokens. */
  lemma {:induction false} UnhexHex(bytes: seq<byte>)
    ensures Unhex(Hex(bytes)) == bytes
  {
    if bytes != [] {
      var s := Hex(bytes);
      HexStep(bytes);
      assert s[0] == HexPair(bytes[0])[0] && s[1] == HexPair(bytes[0])[1];
      UnhexStep(s);
      PairDecodes(bytes[0]);
      UnhexHex(bytes[1..]);
    }
  }

  /** The first two digits encode the first byte; the rest encode the rest. */
  lemma HexStep(bytes: seq<byte>)
    requires bytes != []
    ensures Hex(bytes)[..2] == HexPair(bytes[0])
    ensures Hex(bytes)[2..] == Hex(bytes[1..])
  {
    assert Hex(bytes) == HexPair(bytes[0]) + Hex(bytes[1..]);
  }

  lemma UnhexStep(s: string)
    requires |s| >= 2 && |s| % 2 == 0
    ensures Unhex(s) == [(16 * Nibble(s[0]) + Nibble(s[1])) as byte] + Unhex(s[2..])
  {
  }

  /** Reading back the two digits of a byte gives the byte. */
  lemma PairDecodes(b: byte)
    ensures 16 * Nibble(HexPair(b)[0]) + Nibble(HexPair(b)[1]) == b as int
  {
    NibbleOfDigit(b as int / 16);
    NibbleOfDigit(b as int % 16);
  }

  lemma HexInjective(a: seq<byte>, b: seq<byte>)
    requires Hex(a) == Hex(b)
    ensures a == b
  {
    UnhexHex(a);
    UnhexHex(b);
  }
}
