/**
 * PKCE value generation of the panel script (`generatePKCE`): a code verifier
 * made of the base-36 renderings of 32 random bytes, and the S256 code
 * challenge of section 4.2 of RFC 7636, the base64url form (section 5 of
 * RFC 4648) of the SHA-256 digest of the verifier. The random bytes and the
 * digest function are parameters.
 */
module Pkce {

  /** A value of a `Uint8Array`. */
  type Byte = b: int | 0 <= b < 256

  /** What `crypto.subtle.digest('SHA-256', …)` returns: 32 bytes. */
  type Digest = d: seq<Byte> | |d| == 32 witness seq(32, i => 0 as Byte)

  /** Shortest verifier section 4.1 of RFC 7636 allows. */
  const MinVerifierLength := 43
  /** Longest verifier section 4.1 of RFC 7636 allows, and the `slice` bound. */
  const MaxVerifierLength := 128

  // ---------------------------------------------------------------- base 36

  /** The digits `Number.prototype.toString(36)` uses: `0-9a-z`. */
  predicate IsBase36Char(c: char) {
    '0' <= c <= '9' || 'a' <= c <= 'z'
  }

  function Base36Digit(d: nat): (c: char)
    requires d < 36
    ensures IsBase36Char(c)
  {
    if d < 10 then ('0' as int + d) as char else ('a' as int + d - 10) as char
  }

  function Base36DigitValue(c: char): (d: nat)
    requires IsBase36Char(c)
    ensures d < 36 && Base36Digit(d) == c
  {
    if c <= '9' then c as int - '0' as int else c as int - 'a' as int + 10
  }

  /** `n.toString(36)` for a non-negative integer: most significant digit first. */
  function ToBase36(n: nat): (r: string)
    ensures |r| >= 1
    ensures forall i :: 0 <= i < |r| ==> IsBase36Char(r[i])
    ensures r[0] == '0' ==> n == 0
    decreases n
  {
    if n < 36 then [Base36Digit(n)] else ToBase36(n / 36) + [Base36Digit(n % 36)]
  }

  /** The number a string of base-36 digits denotes. */
  function FromBase36(s: string): nat
    requires forall i :: 0 <= i < |s| ==> IsBase36Char(s[i])
    decreases |s|
  {
    if s == [] then 0 else FromBase36(s[..|s| - 1]) * 36 + Base36DigitValue(s[|s| - 1])
  }

  /** Rendering in base 36 loses nothing. */
  lemma {:induction false} Base36RoundTrip(n: nat)
    ensures FromBase36(ToBase36(n)) == n
    decreases n
  {
    if n >= 36 {
      Base36RoundTrip(n / 36);
      var r := ToBase36(n);
      assert r[..|r| - 1] == ToBase36(n / 36);
      assert Base36DigitValue(r[|r| - 1]) == n % 36;
    }
  }

  /** A byte takes one digit below 36 and two from 36 on. */
  lemma ByteBase36Length(b: Byte)
    ensures |ToBase36(b)| == if b < 36 then 1 else 2
  {
    if b >= 36 {
      assert b / 36 < 36;
    }
  }

  // ---------------------------------------------------------------- verifier

  /** `[...bytes].map(b => b.toString(36))`. */
  function Base36Parts(bytes: seq<Byte>): (parts: seq<string>) {
    seq(|bytes|, i requires 0 <= i < |bytes| => ToBase36(bytes[i]))
  }

  /** `parts.join('')`. */
  function Join(parts: seq<string>): string
    decreases |parts|
  {
    if parts == [] then "" else parts[0] + Join(parts[1..])
  }

  /** `s.slice(start, end)` for non-negative bounds, clamped to the string. */
  function Slice(s: string, start: nat, end: nat): (r: string)
    ensures |r| <= |s|
  {
    var e := if end < |s| then end else |s|;
    var b := if start < e then start else e;
    s[b..e]
  }

  /** The code verifier built from the random bytes. */
  function Verifier(bytes: seq<Byte>): string {
    Slice(Join(Base36Parts(bytes)), 0, MaxVerifierLength)
  }

  /** How many bytes render with two digits. */
  function CountTwoDigit(bytes: seq<Byte>): (n: nat)
    ensures n <= |bytes|
    decreases |bytes|
  {
    if bytes == [] then 0 else (if bytes[0] >= 36 then 1 else 0) + CountTwoDigit(bytes[1..])
  }

  lemma PartsTail(bytes: seq<Byte>)
    requires bytes != []
    ensures Base36Parts(bytes)[0] == ToBase36(bytes[0])
    ensures Base36Parts(bytes)[1..] == Base36Parts(bytes[1..])
  {
  }

  /** The joined digits are one or two per byte. */
  lemma {:induction false} JoinedLength(bytes: seq<Byte>)
    ensures |Join(Base36Parts(bytes))| == |bytes| + CountTwoDigit(bytes)
    decreases |bytes|
  {
    if bytes != [] {
      PartsTail(bytes);
      ByteBase36Length(bytes[0]);
      JoinedLength(bytes[1..]);
    }
  }

  /** The joined digits are all from `0-9a-z`. */
  lemma {:induction false} JoinedAlphabet(bytes: seq<Byte>)
    ensures forall i :: 0 <= i < |Join(Base36Parts(bytes))| ==> IsBase36Char(Join(Base36Parts(bytes))[i])
    decreases |bytes|
  {
    if bytes != [] {
      PartsTail(bytes);
      JoinedAlphabet(bytes[1..]);
      var head, rest := ToBase36(bytes[0]), Join(Base36Parts(bytes[1..]));
      assert Join(Base36Parts(bytes)) == head + rest;
      forall i | 0 <= i < |head + rest| ensures IsBase36Char((head + rest)[i]) {
        if i >= |head| {
          assert (head + rest)[i] == rest[i - |head|];
        }
      }
    }
  }

  /** Every verifier character is a base-36 digit, hence an unreserved
      character of section 4.1 of RFC 7636. */
  lemma VerifierAlphabet(bytes: seq<Byte>)
    ensures forall i :: 0 <= i < |Verifier(bytes)| ==> IsBase36Char(Verifier(bytes)[i])
  {
    JoinedAlphabet(bytes);
  }

  /** For 32 bytes the verifier is 32 + (number of bytes >= 36) characters, so
      between 32 and 64, and `slice(0, 128)` never truncates. */
  lemma VerifierLength(bytes: seq<Byte>)
    requires |bytes| == 32
    ensures Verifier(bytes) == Join(Base36Parts(bytes))
    ensures |Verifier(bytes)| == 32 + CountTwoDigit(bytes)
    ensures 32 <= |Verifier(bytes)| <= 64
  {
    JoinedLength(bytes);
    var j := Join(Base36Parts(bytes));
    assert j[0..|j|] == j;
  }

  /** The verifier reaches the 43-character minimum of RFC 7636 exactly when at
      least 11 of the 32 bytes are 36 or more. */
  lemma VerifierMeetsMinimumIff(bytes: seq<Byte>)
    requires |bytes| == 32
    ensures |Verifier(bytes)| >= MinVerifierLength <==> CountTwoDigit(bytes) >= 11
  {
    VerifierLength(bytes);
  }

  lemma {:induction false} NoTwoDigit(bytes: seq<Byte>)
    requires forall i :: 0 <= i < |bytes| ==> bytes[i] < 36
    ensures CountTwoDigit(bytes) == 0
    decreases |bytes|
  {
    if bytes != [] {
      NoTwoDigit(bytes[1..]);
    }
  }

  /** Thirty-two zero bytes give a 32-character verifier, below the minimum. */
  lemma ZeroBytesGiveShortVerifier()
    ensures |Verifier(seq(32, i => 0 as Byte))| == 32 < MinVerifierLength
  {
    var zeros := seq(32, i => 0 as Byte);
    NoTwoDigit(zeros);
    VerifierLength(zeros);
  }

  // ---------------------------------------------------------------- base 64

  /** The alphabet of section 4 of RFC 4648: `A-Z a-z 0-9 + /`. */
  predicate IsBase64Char(c: char) {
    'A' <= c <= 'Z' || 'a' <= c <= 'z' || '0' <= c <= '9' || c == '+' || c == '/'
  }

  function Base64Digit(k: nat): (c: char)
    requires k < 64
    ensures IsBase64Char(c)
  {
    if k < 26 then ('A' as int + k) as char
    else if k < 52 then ('a' as int + k - 26) as char
    else if k < 62 then ('0' as int + k - 52) as char
    else if k == 62 then '+'
    else '/'
  }

  /** The index of a character in the base64 alphabet; 0 for any other character. */
  function Base64Value(c: char): (k: nat)
    ensures k < 64
  {
    if 'A' <= c <= 'Z' then c as int - 'A' as int
    else if 'a' <= c <= 'z' then c as int - 'a' as int + 26
    else if '0' <= c <= '9' then c as int - '0' as int + 52
    else if c == '+' then 62
    else if c == '/' then 63
    else 0
  }

  lemma DigitValue(k: nat)
    requires k < 64
    ensures Base64Value(Base64Digit(k)) == k
  {
  }

  /** Three bytes as four base64 digits. */
  function EncodeTriple(x: Byte, y: Byte, z: Byte): (r: string)
    ensures |r| == 4 && forall i :: 0 <= i < 4 ==> IsBase64Char(r[i])
  {
    [Base64Digit(x / 4), Base64Digit((x % 4) * 16 + y / 16),
     Base64Digit((y % 16) * 4 + z / 64), Base64Digit(z % 64)]
  }

  /** Two final bytes as three base64 digits and one `=`. */
  function EncodePair(x: Byte, y: Byte): (r: string)
    ensures |r| == 4 && r[3] == '=' && forall i :: 0 <= i < 3 ==> IsBase64Char(r[i])
  {
    [Base64Digit(x / 4), Base64Digit((x % 4) * 16 + y / 16), Base64Digit((y % 16) * 4), '=']
  }

  /** One final byte as two base64 digits and `==`. */
  function EncodeSingle(x: Byte): (r: string)
    ensures |r| == 4 && r[2] == '=' && r[3] == '=' && forall i :: 0 <= i < 2 ==> IsBase64Char(r[i])
  {
    [Base64Digit(x / 4), Base64Digit((x % 4) * 16), '=', '=']
  }

  /** `btoa(String.fromCharCode(...bytes))`: standard base64 with `=` padding. */
  function Base64Encode(b: seq<Byte>): (r: string)
    ensures |r| == 4 * ((|b| + 2) / 3)
    decreases |b|
  {
    if |b| == 0 then ""
    else if |b| == 1 then EncodeSingle(b[0])
    else if |b| == 2 then EncodePair(b[0], b[1])
    else EncodeTriple(b[0], b[1], b[2]) + Base64Encode(b[3..])
  }

  /** Four base64 characters read back as one, two or three bytes. */
  function DecodeQuad(c0: char, c1: char, c2: char, c3: char): seq<Byte> {
    var v0, v1, v2, v3 := Base64Value(c0), Base64Value(c1), Base64Value(c2), Base64Value(c3);
    var b0: Byte := v0 * 4 + v1 / 16;
    var b1: Byte := (v1 % 16) * 16 + v2 / 4;
    var b2: Byte := (v2 % 4) * 64 + v3;
    if c2 == '=' then [b0] else if c3 == '=' then [b0, b1] else [b0, b1, b2]
  }

  /** Reads base64 back into bytes, four characters at a time (no validation;
      an incomplete final group is ignored). */
  function Base64Decode(s: string): seq<Byte>
    decreases |s|
  {
    if |s| < 4 then [] else DecodeQuad(s[0], s[1], s[2], s[3]) + Base64Decode(s[4..])
  }

  lemma GroupArithmetic(x: Byte, y: Byte, z: Byte)
    ensures ((x % 4) * 16 + y / 16) / 16 == x % 4
    ensures ((x % 4) * 16 + y / 16) % 16 == y / 16
    ensures ((y % 16) * 4 + z / 64) / 4 == y % 16
    ensures ((y % 16) * 4 + z / 64) % 4 == z / 64
    ensures (x / 4) * 4 + x % 4 == x
    ensures (y / 16) * 16 + y % 16 == y
    ensures (z / 64) * 64 + z % 64 == z
  {
  }

  lemma DecodeTriple(x: Byte, y: Byte, z: Byte)
    ensures var r := EncodeTriple(x, y, z); DecodeQuad(r[0], r[1], r[2], r[3]) == [x, y, z]
  {
    GroupArithmetic(x, y, z);
    DigitValue(x / 4);
    DigitValue((x % 4) * 16 + y / 16);
    DigitValue((y % 16) * 4 + z / 64);
    DigitValue(z % 64);
  }

  lemma DecodePair(x: Byte, y: Byte)
    ensures Base64Decode(EncodePair(x, y)) == [x, y]
  {
    var r := EncodePair(x, y);
    DecodeCons(r, []);
    assert r + [] == r;
    GroupArithmetic(x, y, 0);
    DigitValue(x / 4);
    DigitValue((x % 4) * 16 + y / 16);
    DigitValue((y % 16) * 4);
  }

  lemma DecodeSingle(x: Byte)
    ensures Base64Decode(EncodeSingle(x)) == [x]
  {
    var r := EncodeSingle(x);
    DecodeCons(r, []);
    assert r + [] == r;
    GroupArithmetic(x, 0, 0);
    DigitValue(x / 4);
    DigitValue((x % 4) * 16);
  }

  /** Decoding proceeds one group of four characters at a time. */
  lemma DecodeCons(group: string, rest: string)
    requires |group| == 4
    ensures Base64Decode(group + rest) ==
      DecodeQuad(group[0], group[1], group[2], group[3]) + Base64Decode(rest)
  {
    assert (group + rest)[4..] == rest;
  }

  lemma {:induction false} ShortRoundTrip(b: seq<Byte>)
    requires |b| < 3
    ensures Base64Decode(Base64Encode(b)) == b
  {
    if |b| == 1 {
      DecodeSingle(b[0]);
    } else if |b| == 2 {
      DecodePair(b[0], b[1]);
      assert b == [b[0], b[1]];
    }
  }

  lemma SplitHead(b: seq<Byte>)
    requires |b| >= 3
    ensures [b[0], b[1], b[2]] + b[3..] == b
  {
  }

  lemma RoundTripAt(b: seq<Byte>)
    requires |b| >= 3 && Base64Decode(Base64Encode(b[3..])) == b[3..]
    ensures Base64Decode(Base64Encode(b)) == b
  {
    var h, rest := EncodeTriple(b[0], b[1], b[2]), Base64Encode(b[3..]);
    assert Base64Encode(b) == h + rest;
    DecodeTriple(b[0], b[1], b[2]);
    DecodeCons(h, rest);
    SplitHead(b);
  }

  /** Base64 encoding is undone by decoding. */
  lemma {:induction false} Base64RoundTrip(b: seq<Byte>)
    ensures Base64Decode(Base64Encode(b)) == b
    decreases |b|
  {
    if |b| < 3 {
      ShortRoundTrip(b);
    } else {
      Base64RoundTrip(b[3..]);
      RoundTripAt(b);
    }
  }

  /** Characters of the encoding before padding starts. */
  function UnpaddedLength(n: nat): nat {
    (4 * n + 2) / 3
  }

  /** `e` holds `=` exactly from position `n` on, and as many as it takes to
      reach a multiple of four characters. */
  ghost predicate PaddedFrom(e: string, n: nat) {
    && n <= |e|
    && |e| - n == (4 - n % 4) % 4
    && forall i :: 0 <= i < |e| ==> (e[i] == '=' <==> i >= n)
  }

  lemma PaddedCons(h: string, rest: string, n: nat)
    requires |h| == 4 && forall i :: 0 <= i < 4 ==> h[i] != '='
    requires PaddedFrom(rest, n)
    ensures PaddedFrom(h + rest, n + 4)
  {
    forall i | 0 <= i < |h + rest| ensures (h + rest)[i] == '=' <==> i >= n + 4 {
      if i >= 4 {
        assert (h + rest)[i] == rest[i - 4];
      }
    }
  }

  lemma {:induction false} ShortPadShape(b: seq<Byte>)
    requires |b| < 3
    ensures PaddedFrom(Base64Encode(b), UnpaddedLength(|b|))
  {
    var e := Base64Encode(b);
    if |b| == 1 {
      assert e == EncodeSingle(b[0]);
      assert UnpaddedLength(1) == 2;
      assert e[0] != '=' && e[1] != '=';
    } else if |b| == 2 {
      assert e == EncodePair(b[0], b[1]);
      assert UnpaddedLength(2) == 3;
      assert e[0] != '=' && e[1] != '=' && e[2] != '=';
    }
  }

  /** Base64 output is its digits followed by the padding. */
  lemma {:induction false} Base64PadShape(b: seq<Byte>)
    ensures PaddedFrom(Base64Encode(b), UnpaddedLength(|b|))
    decreases |b|
  {
    if |b| < 3 {
      ShortPadShape(b);
    } else {
      Base64PadShape(b[3..]);
      var h, rest := EncodeTriple(b[0], b[1], b[2]), Base64Encode(b[3..]);
      assert Base64Encode(b) == h + rest;
      PaddedCons(h, rest, UnpaddedLength(|b| - 3));
      assert UnpaddedLength(|b|) == UnpaddedLength(|b| - 3) + 4;
    }
  }

  /** Every character of base64 output is from the alphabet or is `=`. */
  lemma {:induction false} Base64Alphabet(b: seq<Byte>)
    ensures forall i :: 0 <= i < |Base64Encode(b)| ==>
      IsBase64Char(Base64Encode(b)[i]) || Base64Encode(b)[i] == '='
    decreases |b|
  {
    if |b| >= 3 {
      Base64Alphabet(b[3..]);
      var h, rest := EncodeTriple(b[0], b[1], b[2]), Base64Encode(b[3..]);
      assert Base64Encode(b) == h + rest;
      forall i | 0 <= i < |h + rest| ensures IsBase64Char((h + rest)[i]) || (h + rest)[i] == '=' {
        if i >= 4 {
          assert (h + rest)[i] == rest[i - 4];
        }
      }
    }
  }

  // ---------------------------------------------------------------- base64url

  /** The base64url alphabet of section 5 of RFC 4648: `A-Z a-z 0-9 - _`. */
  predicate IsBase64UrlChar(c: char) {
    'A' <= c <= 'Z' || 'a' <= c <= 'z' || '0' <= c <= '9' || c == '-' || c == '_'
  }

  /** `s.replace(/x/g, y)` for single characters `x` and `y`. */
  function ReplaceAll(s: string, from: char, to: char): (r: string)
    ensures |r| == |s|
    ensures forall i :: 0 <= i < |s| ==> r[i] == if s[i] == from then to else s[i]
    decreases |s|
  {
    if s == [] then [] else [if s[0] == from then to else s[0]] + ReplaceAll(s[1..], from, to)
  }

  /** `s.replace(/c+$/, '')`: drops the run of `c` that ends the string. */
  function StripTrailing(s: string, c: char): (r: string)
    ensures |r| <= |s| && r == s[..|r|]
    ensures forall i :: |r| <= i < |s| ==> s[i] == c
    ensures |r| > 0 ==> r[|r| - 1] != c
    decreases |s|
  {
    if |s| > 0 && s[|s| - 1] == c then StripTrailing(s[..|s| - 1], c) else s
  }

  /** The three replacements that turn base64 into unpadded base64url. */
  function ToBase64Url(b64: string): string {
    StripTrailing(ReplaceAll(ReplaceAll(b64, '+', '-'), '/', '_'), '=')
  }

  /** The code challenge for a digest. */
  function CodeChallenge(digest: seq<Byte>): string {
    ToBase64Url(Base64Encode(digest))
  }

  /** The reverse translation: `-` back to `+`, `_` back to `/`, then `=` up to a
      multiple of four characters. */
  function FromBase64Url(s: string): (r: string)
    ensures |r| % 4 == 0
  {
    var t := ReplaceAll(ReplaceAll(s, '-', '+'), '_', '/');
    t + seq((4 - |t| % 4) % 4, i => '=')
  }

  /** Stripping removes exactly the padding of a base64 string. */
  lemma StripAtPadding(s: string, n: nat)
    requires n <= |s|
    requires forall i :: 0 <= i < |s| ==> (s[i] == '=' <==> i >= n)
    ensures StripTrailing(s, '=') == s[..n]
  {
    var r := StripTrailing(s, '=');
    if n > 0 {
      assert s[n - 1] != '=';
    }
    if |r| > 0 {
      assert s[|r| - 1] == r[|r| - 1];
    }
  }

  /** What the two global replacements do to one character. */
  function UrlSafeChar(c: char): char {
    if c == '+' then '-' else if c == '/' then '_' else c
  }

  /** On padded base64, the url-safe step keeps the digits, translated, and
      drops exactly the padding. */
  lemma ToBase64UrlShape(e: string, n: nat)
    requires PaddedFrom(e, n)
    ensures |ToBase64Url(e)| == n
    ensures forall i :: 0 <= i < n ==> ToBase64Url(e)[i] == UrlSafeChar(e[i])
  {
    var t := ReplaceAll(ReplaceAll(e, '+', '-'), '/', '_');
    assert forall i :: 0 <= i < |t| ==> t[i] == UrlSafeChar(e[i]);
    StripAtPadding(t, n);
  }

  /** Reversing the translation on the first `n` characters of base64 text
      gives them back, padded as `FromBase64Url` pads. */
  lemma UndoUrlSafe(c: string, e: string, n: nat)
    requires |c| == n <= |e|
    requires forall i :: 0 <= i < n ==> IsBase64Char(e[i]) && c[i] == UrlSafeChar(e[i])
    ensures FromBase64Url(c) == e[..n] + seq((4 - n % 4) % 4, i => '=')
  {
    assert ReplaceAll(ReplaceAll(c, '-', '+'), '_', '/') == e[..n];
  }

  /** Padded base64 is its digits followed by the `=` run `FromBase64Url` appends. */
  lemma PaddingPart(e: string, n: nat)
    requires PaddedFrom(e, n)
    ensures e == e[..n] + seq((4 - n % 4) % 4, i => '=')
  {
    assert e[n..] == seq((4 - n % 4) % 4, i => '=');
    assert e[..n] + e[n..] == e;
  }

  /** On padded base64, `FromBase64Url` undoes the url-safe step. */
  lemma FromToBase64Url(e: string, n: nat)
    requires PaddedFrom(e, n)
    requires forall i :: 0 <= i < n ==> IsBase64Char(e[i])
    ensures FromBase64Url(ToBase64Url(e)) == e
  {
    ToBase64UrlShape(e, n);
    UndoUrlSafe(ToBase64Url(e), e, n);
    PaddingPart(e, n);
  }

  /** The challenge is the base64 digits of the digest with `+` and `/`
      translated, up to where the padding began. */
  lemma ChallengeShape(digest: seq<Byte>)
    ensures |CodeChallenge(digest)| == UnpaddedLength(|digest|)
    ensures forall i :: 0 <= i < |CodeChallenge(digest)| ==>
      CodeChallenge(digest)[i] == UrlSafeChar(Base64Encode(digest)[i])
  {
    Base64PadShape(digest);
    ToBase64UrlShape(Base64Encode(digest), UnpaddedLength(|digest|));
  }

  /** The challenge has exactly ceil(4n/3) characters for an n-byte digest. */
  lemma {:induction false} ChallengeLengthFormula(digest: seq<Byte>)
    ensures |CodeChallenge(digest)| == (4 * |digest| + 2) / 3
  {
    ChallengeShape(digest);
  }

  /** The challenge uses only base64url characters: no `+`, no `/`, no `=`. */
  lemma ChallengeAlphabet(digest: seq<Byte>)
    ensures forall i :: 0 <= i < |CodeChallenge(digest)| ==> IsBase64UrlChar(CodeChallenge(digest)[i])
  {
    var e := Base64Encode(digest);
    ChallengeShape(digest);
    Base64PadShape(digest);
    Base64Alphabet(digest);
    forall i | 0 <= i < |CodeChallenge(digest)| ensures IsBase64UrlChar(CodeChallenge(digest)[i]) {
      assert e[i] != '=';
    }
  }

  /** A 32-byte SHA-256 digest gives a 43-character challenge. */
  lemma ChallengeLength(digest: Digest)
    ensures |CodeChallenge(digest)| == 43
  {
    ChallengeShape(digest);
  }

  /** Undoing the url-safe translation and re-padding recovers the standard
      base64 of the digest, and decoding that recovers the digest itself. */
  lemma ChallengeRoundTrip(digest: seq<Byte>)
    ensures FromBase64Url(CodeChallenge(digest)) == Base64Encode(digest)
    ensures Base64Decode(FromBase64Url(CodeChallenge(digest))) == digest
  {
    var e, n := Base64Encode(digest), UnpaddedLength(|digest|);
    Base64PadShape(digest);
    Base64Alphabet(digest);
    assert forall i :: 0 <= i < n ==> IsBase64Char(e[i]);
    FromToBase64Url(e, n);
    Base64RoundTrip(digest);
  }

  // ---------------------------------------------------------------- generatePKCE

  /** `TextEncoder.encode`: the UTF-8 bytes of a string of scalar values. */
  function Utf8Encode(s: string): seq<Byte>
    decreases |s|
  {
    if s == [] then []
    else
      var cp := s[0] as int;
      var head: seq<Byte> :=
        if cp < 0x80 then [cp]
        else if cp < 0x800 then [0xC0 + cp / 0x40, 0x80 + cp % 0x40]
        else if cp < 0x1_0000 then [0xE0 + cp / 0x1000, 0x80 + (cp / 0x40) % 0x40, 0x80 + cp % 0x40]
        else [0xF0 + cp / 0x4_0000, 0x80 + (cp / 0x1000) % 0x40, 0x80 + (cp / 0x40) % 0x40, 0x80 + cp % 0x40];
      head + Utf8Encode(s[1..])
  }

  /** On base-36 text, `TextEncoder` yields one byte per character, its code. */
  lemma {:induction false} Utf8OfBase36(s: string)
    requires forall i :: 0 <= i < |s| ==> IsBase36Char(s[i])
    ensures |Utf8Encode(s)| == |s|
    ensures forall i :: 0 <= i < |s| ==> Utf8Encode(s)[i] == s[i] as int
    decreases |s|
  {
    if s != [] {
      Utf8OfBase36(s[1..]);
      var rest := Utf8Encode(s[1..]);
      assert Utf8Encode(s) == [s[0] as int] + rest;
      forall i | 0 < i < |s| ensures Utf8Encode(s)[i] == s[i] as int {
        assert Utf8Encode(s)[i] == rest[i - 1];
        assert s[1..][i - 1] == s[i];
      }
    }
  }

  datatype PkcePair = PkcePair(codeVerifier: string, codeChallenge: string)

  /** `generatePKCE` with its 32 random bytes and its SHA-256 given. */
  function GeneratePkce(randomBytes: seq<Byte>, sha256: seq<Byte> -> Digest): (p: PkcePair)
    requires |randomBytes| == 32
    ensures p.codeVerifier == Join(Base36Parts(randomBytes))
    ensures 32 <= |p.codeVerifier| <= 64
    ensures forall i :: 0 <= i < |p.codeVerifier| ==> IsBase36Char(p.codeVerifier[i])
    ensures |p.codeChallenge| == 43
    ensures forall i :: 0 <= i < |p.codeChallenge| ==> IsBase64UrlChar(p.codeChallenge[i])
    ensures FromBase64Url(p.codeChallenge) == Base64Encode(sha256(Utf8Encode(p.codeVerifier)))
    ensures Base64Decode(FromBase64Url(p.codeChallenge)) == sha256(Utf8Encode(p.codeVerifier))
  {
    var verifier := Verifier(randomBytes);
    var digest := sha256(Utf8Encode(verifier));
    VerifierLength(randomBytes);
    VerifierAlphabet(randomBytes);
    ChallengeLength(digest);
    ChallengeAlphabet(digest);
    ChallengeRoundTrip(digest);
    PkcePair(verifier, CodeChallenge(digest))
  }
}
