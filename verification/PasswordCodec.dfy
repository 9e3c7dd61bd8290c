/**
 The printed form of a password hash: unpadded URL-safe base64 (RFC 4648, sections 3.2 and 5), the
 decimal iteration count and the four `$`-separated fields. The key derivation is any function.
 */
module PasswordCodec {
  import opened Common
  import opened Decimal
  import opened Text

  type Byte = x: int | 0 <= x < 256

  type Sextet = x: int | 0 <= x < 64

  const SCHEME := "pbkdf2_sha256"

  // ---------------------------------------------------------------- base64

  function SextetChar(x: Sextet): char {
    if x < 26 then 'A' + x as char
    else if x < 52 then 'a' + (x - 26) as char
    else if x < 62 then '0' + (x - 52) as char
    else if x == 62 then '-' else '_'
  }

  /** The decoder reads both alphabets and skips every other character. */
  function CharSextet(c: char): Option<Sextet> {
    if 'A' <= c <= 'Z' then Some(c as int - 'A' as int)
    else if 'a' <= c <= 'z' then Some(c as int - 'a' as int + 26)
    else if '0' <= c <= '9' then Some(c as int - '0' as int + 52)
    else if c == '-' || c == '+' then Some(62)
    else if c == '_' || c == '/' then Some(63)
    else None
  }

  lemma SextetReadable(x: Sextet)
    ensures CharSextet(SextetChar(x)) == Some(x)
    ensures SextetChar(x) != '=' && SextetChar(x) != '$' && SextetChar(x) < '\U{80}'
  {
  }

  /** The URL-safe alphabet of RFC 4648, section 5, table 2. */
  const ALPHABET := UPPER + LOWER + DIGITS + "-_"

  const UPPER := "ABCDEFGHIJKLMNOPQRSTUVWXYZ"
  const LOWER := "abcdefghijklmnopqrstuvwxyz"
  const DIGITS := "0123456789"

  lemma UpperAt(k: nat)
    ensures |UPPER| == 26 && (k < 26 ==> UPPER[k] == 'A' + k as char)
  {
  }

  lemma LowerAt(k: nat)
    ensures |LOWER| == 26 && (k < 26 ==> LOWER[k] == 'a' + k as char)
  {
  }

  lemma AlphabetExactly(x: Sextet)
    ensures |ALPHABET| == 64 && SextetChar(x) == ALPHABET[x]
  {
    UpperAt(if x < 26 then x else 0);
    LowerAt(if 26 <= x < 52 then x - 26 else 0);
    hide UPPER, LOWER;
    assert |DIGITS| == 10 && forall k :: 0 <= k < 10 ==> DIGITS[k] == '0' + k as char;
  }

  function Quad(a: Byte, b: Byte, c: Byte): string {
    [SextetChar(a / 4), SextetChar(a % 4 * 16 + b / 16), SextetChar(b % 16 * 4 + c / 64), SextetChar(c % 64)]
  }

  /** `base64.urlsafe_b64encode`. */
  function UrlsafeEncode(raw: seq<Byte>): string {
    if raw == [] then ""
    else if |raw| == 1 then Quad(raw[0], 0, 0)[..2] + "=="
    else if |raw| == 2 then Quad(raw[0], raw[1], 0)[..3] + "="
    else Quad(raw[0], raw[1], raw[2]) + UrlsafeEncode(raw[3..])
  }

  function StripPadding(s: string): (r: string)
    ensures r <= s
    ensures r == "" || r[|r| - 1] != '='
    ensures forall i :: |r| <= i < |s| ==> s[i] == '='
  {
    if s != "" && s[|s| - 1] == '=' then StripPadding(s[..|s| - 1]) else s
  }

  /** `_b64encode`. */
  function B64Encode(raw: seq<Byte>): string {
    StripPadding(UrlsafeEncode(raw))
  }

  /** The decoder's loop: `quad` characters of the current group read, `left` the bits carried over. */
  function Decode(s: string, quad: nat, left: Sextet, pads: nat): Option<seq<Byte>>
    requires quad < 4 && (quad == 2 ==> left < 16) && (quad == 3 ==> left < 4)
  {
    if s == "" then (if quad == 0 then Some([]) else None)
    else if s[0] == '=' then
      if quad >= 2 && quad + pads + 1 >= 4 then Some([])
      else Decode(s[1..], quad, left, if quad >= 2 then pads + 1 else pads)
    else
      match CharSextet(s[0])
      case None => Decode(s[1..], quad, left, pads)
      case Some(x) =>
        if quad == 0 then Decode(s[1..], 1, x, 0)
        else if quad == 1 then Prepend(left * 4 + x / 16, Decode(s[1..], 2, x % 16, 0))
        else if quad == 2 then Prepend(left * 16 + x / 4, Decode(s[1..], 3, x % 4, 0))
        else Prepend(left * 64 + x, Decode(s[1..], 0, 0, 0))
  }

  function Prepend(b: Byte, rest: Option<seq<Byte>>): Option<seq<Byte>> {
    if rest.Some? then Some([b] + rest.value) else None
  }

  predicate Ascii(s: string) {
    forall i :: 0 <= i < |s| ==> s[i] < '\U{80}'
  }

  function Repeat(c: char, n: nat): string {
    seq(n, _ => c)
  }

  /** `_b64decode`; `None` stands for an exception. */
  function B64Decode(value: string): Option<seq<Byte>> {
    var padded := value + Repeat('=', -|value| % 4);
    if Ascii(padded) then Decode(padded, 0, 0, 0) else None
  }

  /** Every three bytes are written as four letters of the alphabet with the same value, most significant first. */
  lemma {:induction false} GroupValue(raw: seq<Byte>, i: nat) returns (w: Sextet, x: Sextet, y: Sextet, z: Sextet)
    requires 3 * i + 3 <= |raw|
    ensures var text := UrlsafeEncode(raw);
            && |ALPHABET| == 64 && 4 * i + 4 <= |text|
            && text[4 * i] == ALPHABET[w] && text[4 * i + 1] == ALPHABET[x] && text[4 * i + 2] == ALPHABET[y] && text[4 * i + 3] == ALPHABET[z]
    ensures var a: int, b: int, c: int := raw[3 * i], raw[3 * i + 1], raw[3 * i + 2];
            var p: int, q: int, r: int, s: int := w, x, y, z;
            p * 262144 + q * 4096 + r * 64 + s == a * 65536 + b * 256 + c
  {
    hide SextetChar, ALPHABET;
    if i == 0 {
      var a, b, c := raw[0], raw[1], raw[2];
      w, x, y, z := a / 4, a % 4 * 16 + b / 16, b % 16 * 4 + c / 64, c % 64;
      AlphabetExactly(w);
      AlphabetExactly(x);
      AlphabetExactly(y);
      AlphabetExactly(z);
    } else {
      w, x, y, z := GroupValue(raw[3..], i - 1);
      assert UrlsafeEncode(raw)[4..] == UrlsafeEncode(raw[3..]);
    }
  }

  /** The vectors of RFC 4648, section 10. */
  lemma TestVectors()
    ensures UrlsafeEncode([]) == "" && UrlsafeEncode([0x66]) == "Zg==" && UrlsafeEncode([0x66, 0x6f]) == "Zm8="
    ensures UrlsafeEncode([0x66, 0x6f, 0x6f]) == "Zm9v" && UrlsafeEncode([0x66, 0x6f, 0x6f, 0x62]) == "Zm9vYg=="
  {
    assert [0x66, 0x6f, 0x6f][3..] == [] && [0x66, 0x6f, 0x6f, 0x62][3..] == [0x62];
  }

  lemma ReadsChar(x: Sextet, rest: string, quad: nat, left: Sextet, pads: nat)
    requires quad < 4 && (quad == 2 ==> left < 16) && (quad == 3 ==> left < 4)
    ensures Decode([SextetChar(x)] + rest, quad, left, pads)
            == if quad == 0 then Decode(rest, 1, x, 0)
               else if quad == 1 then Prepend(left * 4 + x / 16, Decode(rest, 2, x % 16, 0))
               else if quad == 2 then Prepend(left * 16 + x / 4, Decode(rest, 3, x % 4, 0))
               else Prepend(left * 64 + x, Decode(rest, 0, 0, 0))
  {
    SextetReadable(x);
    hide SextetChar, CharSextet, Prepend;
    assert ([SextetChar(x)] + rest)[1..] == rest;
  }

  /** Regrouping three bytes into four sextets loses nothing. */
  lemma Bits(a: Byte, b: Byte, c: Byte)
    ensures var x, y, z := a % 4 * 16 + b / 16, b % 16 * 4 + c / 64, c % 64;
            a / 4 * 4 + x / 16 == a && x % 16 * 16 + y / 4 == b && y % 4 * 64 + z == c
  {
  }

  lemma QuadDecodes(a: Byte, b: Byte, c: Byte, rest: string)
    ensures Decode(Quad(a, b, c) + rest, 0, 0, 0) == Prepend(a, Prepend(b, Prepend(c, Decode(rest, 0, 0, 0))))
  {
    hide SextetChar, Decode, Prepend;
    var w, x, y, z := a / 4, a % 4 * 16 + b / 16, b % 16 * 4 + c / 64, c % 64;
    var s3 := [SextetChar(z)] + rest;
    var s2 := [SextetChar(y)] + s3;
    var s1 := [SextetChar(x)] + s2;
    assert Quad(a, b, c) + rest == [SextetChar(w)] + s1;
    ReadsChar(w, s1, 0, 0, 0);
    ReadsChar(x, s2, 1, w, 0);
    ReadsChar(y, s3, 2, x % 16, 0);
    ReadsChar(z, rest, 3, y % 4, 0);
    Bits(a, b, c);
  }

  lemma DecodesNothing()
    ensures Decode("", 0, 0, 0) == Some([])
  {
  }

  lemma {:induction false} PaddedDecodes(raw: seq<Byte>)
    ensures Decode(UrlsafeEncode(raw), 0, 0, 0) == Some(raw)
  {
    hide Quad, Decode;
    if |raw| == 0 {
      DecodesNothing();
    } else if |raw| == 1 {
      TailDecodes(raw[0], 0);
      assert [raw[0]] == raw;
    } else if |raw| == 2 {
      TailDecodes(raw[0], raw[1]);
      assert [raw[0], raw[1]] == raw;
    } else if |raw| > 2 {
      PaddedDecodes(raw[3..]);
      QuadDecodes(raw[0], raw[1], raw[2], UrlsafeEncode(raw[3..]));
      assert [raw[0]] + ([raw[1]] + ([raw[2]] + raw[3..])) == raw;
    }
  }

  lemma PadDecodes(left: Sextet)
    ensures left < 16 ==> Decode("==", 2, left, 0) == Some([])
    ensures left < 4 ==> Decode("=", 3, left, 0) == Some([])
  {
    assert "=="[1..] == "=";
  }

  lemma TailDecodes(a: Byte, b: Byte)
    ensures Decode(Quad(a, 0, 0)[..2] + "==", 0, 0, 0) == Some([a])
    ensures Decode(Quad(a, b, 0)[..3] + "=", 0, 0, 0) == Some([a, b])
  {
    hide SextetChar, Decode;
    var w, v, x, y := a / 4, a % 4 * 16, a % 4 * 16 + b / 16, b % 16 * 4;
    assert Quad(a, 0, 0)[..2] + "==" == [SextetChar(w)] + ([SextetChar(v)] + "==");
    ReadsChar(w, [SextetChar(v)] + "==", 0, 0, 0);
    ReadsChar(v, "==", 1, w, 0);
    assert Quad(a, b, 0)[..3] + "=" == [SextetChar(w)] + ([SextetChar(x)] + ([SextetChar(y)] + "="));
    ReadsChar(w, [SextetChar(x)] + ([SextetChar(y)] + "="), 0, 0, 0);
    ReadsChar(x, [SextetChar(y)] + "=", 1, w, 0);
    ReadsChar(y, "=", 2, x % 16, 0);
    PadDecodes(0);
    Bits(a, 0, 0);
    Bits(a, b, 0);
    assert v % 16 == 0 && y % 4 == 0;
    assert [a] + [] == [a] && [a] + ([b] + []) == [a, b];
  }

  ghost predicate Alphabetic(s: string) {
    forall i :: 0 <= i < |s| ==> s[i] != '=' && s[i] != '$' && s[i] < '\U{80}'
  }

  /** The encoding is full groups of four, padded by at most two characters. */
  lemma {:induction false} EncodingShape(raw: seq<Byte>) returns (n: nat)
    ensures n <= |UrlsafeEncode(raw)| && |UrlsafeEncode(raw)| % 4 == 0 && |UrlsafeEncode(raw)| - n < 4
    ensures Alphabetic(UrlsafeEncode(raw)[..n])
    ensures forall i :: n <= i < |UrlsafeEncode(raw)| ==> UrlsafeEncode(raw)[i] == '='
  {
    hide SextetChar;
    if |raw| < 3 {
      n := if |raw| == 0 then 0 else |raw| + 1;
      if raw != [] {
        QuadAlphabetic(raw[0], if |raw| == 2 then raw[1] else 0, 0);
      }
    } else {
      var m := EncodingShape(raw[3..]);
      QuadAlphabetic(raw[0], raw[1], raw[2]);
      n := m + 4;
    }
  }

  lemma QuadAlphabetic(a: Byte, b: Byte, c: Byte)
    ensures Alphabetic(Quad(a, b, c))
  {
    SextetReadable(a / 4);
    SextetReadable(a % 4 * 16 + b / 16);
    SextetReadable(b % 16 * 4 + c / 64);
    SextetReadable(c % 64);
  }

  lemma StripsTo(s: string, n: nat)
    requires n <= |s| && (n > 0 ==> s[n - 1] != '=') && forall i :: n <= i < |s| ==> s[i] == '='
    ensures StripPadding(s) == s[..n]
  {
  }

  /** The padding the decoder puts back is the padding the encoder took off. */
  lemma PaddingRestored(raw: seq<Byte>)
    ensures Alphabetic(B64Encode(raw))
    ensures B64Encode(raw) + Repeat('=', -|B64Encode(raw)| % 4) == UrlsafeEncode(raw)
    ensures Ascii(UrlsafeEncode(raw))
  {
    var s := UrlsafeEncode(raw);
    var n := EncodingShape(raw);
    hide UrlsafeEncode, StripPadding;
    var r := s[..n];
    assert n > 0 ==> r[n - 1] != '=';
    StripsTo(s, n);
    assert -|r| % 4 == |s| - |r|;
    forall i | 0 <= i < |s| ensures s[i] < '\U{80}' {
      if i < n { assert r[i] < '\U{80}'; }
    }
  }

  /** Decoding undoes encoding for every byte sequence. */
  lemma B64RoundTrip(raw: seq<Byte>)
    ensures B64Decode(B64Encode(raw)) == Some(raw)
  {
    hide UrlsafeEncode, StripPadding, Decode, Ascii, Alphabetic;
    PaddingRestored(raw);
    PaddedDecodes(raw);
  }

  /** The converse fails: spare bits are dropped, so different texts decode alike. */
  lemma DecodingForgives()
    ensures B64Decode("AA") == B64Decode("AB") == Some([0])
  {
    ForgivenText(0);
    ForgivenText(1);
  }

  lemma ForgivenText(x: Sextet)
    requires x < 16
    ensures B64Decode(['A', SextetChar(x)]) == Some([0])
  {
    var text := ['A', SextetChar(x)];
    var padded := text + Repeat('=', 2);
    assert padded == [SextetChar(0)] + ([SextetChar(x)] + "==");
    SextetReadable(x);
    assert Ascii(padded);
    assert -|text| % 4 == 2;
    hide SextetChar, Decode, Ascii;
    ReadsChar(0, [SextetChar(x)] + "==", 0, 0, 0);
    ReadsChar(x, "==", 1, 0, 0);
    PadDecodes(x % 16);
    assert [0 as Byte] + [] == [0];
  }

  predicate IsLetter(c: char) {
    CharSextet(c).Some? && c != '+' && c != '/'
  }

  /** The text is what an encoder prints: URL-safe letters only, no lone one left over, spare bits zero. */
  predicate Canonical(s: string) {
    if |s| == 0 then true
    else if |s| == 1 then false
    else if |s| == 2 then IsLetter(s[0]) && IsLetter(s[1]) && CharSextet(s[1]).value % 16 == 0
    else if |s| == 3 then IsLetter(s[0]) && IsLetter(s[1]) && IsLetter(s[2]) && CharSextet(s[2]).value % 4 == 0
    else IsLetter(s[0]) && IsLetter(s[1]) && IsLetter(s[2]) && IsLetter(s[3]) && Canonical(s[4..])
  }

  /** The encoding without its padding, group by group. */
  function Groups(raw: seq<Byte>): string {
    if raw == [] then ""
    else if |raw| == 1 then Quad(raw[0], 0, 0)[..2]
    else if |raw| == 2 then Quad(raw[0], raw[1], 0)[..3]
    else Quad(raw[0], raw[1], raw[2]) + Groups(raw[3..])
  }

  lemma {:induction false} GroupsPadded(raw: seq<Byte>)
    ensures exists n :: 0 <= n && UrlsafeEncode(raw) == Groups(raw) + Repeat('=', n)
    ensures Alphabetic(Groups(raw))
  {
    hide SextetChar;
    if |raw| < 3 {
      var n := if |raw| == 0 then 0 else 3 - |raw|;
      if raw != [] { QuadAlphabetic(raw[0], if |raw| == 2 then raw[1] else 0, 0); }
      assert UrlsafeEncode(raw) == Groups(raw) + Repeat('=', n);
    } else {
      GroupsPadded(raw[3..]);
      QuadAlphabetic(raw[0], raw[1], raw[2]);
      var n :| 0 <= n && UrlsafeEncode(raw[3..]) == Groups(raw[3..]) + Repeat('=', n);
      assert UrlsafeEncode(raw) == Groups(raw) + Repeat('=', n);
    }
  }

  lemma EncodeGroups(raw: seq<Byte>)
    ensures B64Encode(raw) == Groups(raw)
  {
    hide UrlsafeEncode, Groups;
    GroupsPadded(raw);
    var g, s := Groups(raw), UrlsafeEncode(raw);
    StripsTo(s, |g|);
    assert s[..|g|] == g;
  }

  lemma LetterSextet(x: Sextet)
    ensures IsLetter(SextetChar(x)) && CharSextet(SextetChar(x)) == Some(x)
  {
  }

  lemma SextetLetter(c: char)
    requires IsLetter(c)
    ensures SextetChar(CharSextet(c).value) == c
  {
  }

  lemma {:induction false} GroupsCanonical(raw: seq<Byte>)
    ensures Canonical(Groups(raw))
  {
    hide SextetChar, CharSextet, IsLetter;
    if raw != [] {
      var a, b, c := raw[0], if |raw| > 1 then raw[1] else 0, if |raw| > 2 then raw[2] else 0;
      LetterSextet(a / 4);
      LetterSextet(a % 4 * 16 + b / 16);
      LetterSextet(b % 16 * 4 + c / 64);
      LetterSextet(c % 64);
      if |raw| >= 3 {
        GroupsCanonical(raw[3..]);
        assert Groups(raw)[4..] == Groups(raw[3..]);
      }
    }
  }

  /** The bytes of a group of four letters. */
  function Bytes(w: Sextet, x: Sextet, y: Sextet, z: Sextet): (Byte, Byte, Byte) {
    (w * 4 + x / 16, x % 16 * 16 + y / 4, y % 4 * 64 + z)
  }

  lemma QuadOfBytes(w: Sextet, x: Sextet, y: Sextet, z: Sextet)
    ensures var (a, b, c) := Bytes(w, x, y, z); a / 4 == w && a % 4 * 16 + b / 16 == x && b % 16 * 4 + c / 64 == y && c % 64 == z
  {
  }

  lemma ShortCanonicalEncodes(s: string) returns (raw: seq<Byte>)
    requires Canonical(s) && |s| < 4
    ensures Groups(raw) == s
  {
    if s == "" {
      raw := [];
    } else {
      var w, x := Letter(s, 0), Letter(s, 1);
      var y := if |s| > 2 then Letter(s, 2) else 0;
      QuadOfBytes(w, x, y, 0);
      var (a, b, c) := Bytes(w, x, y, 0);
      hide SextetChar, CharSextet, IsLetter, Bytes;
      raw := if |s| == 2 then [a] else [a, b];
    }
  }

  lemma QuadOfText(s: string) returns (a: Byte, b: Byte, c: Byte)
    requires Canonical(s) && |s| >= 4
    ensures Quad(a, b, c) == s[..4]
  {
    var w, x, y, z := Letter(s, 0), Letter(s, 1), Letter(s, 2), Letter(s, 3);
    hide SextetChar, CharSextet, IsLetter, Canonical;
    QuadOfBytes(w, x, y, z);
    a, b, c := Bytes(w, x, y, z).0, Bytes(w, x, y, z).1, Bytes(w, x, y, z).2;
    hide Bytes;
  }

  /** Every canonical text is the encoding of some bytes. */
  lemma {:induction false} CanonicalEncodes(s: string) returns (raw: seq<Byte>)
    requires Canonical(s)
    ensures Groups(raw) == s
  {
    hide SextetChar, CharSextet, IsLetter, Quad;
    if |s| < 4 {
      raw := ShortCanonicalEncodes(s);
    } else {
      var a, b, c := QuadOfText(s);
      var rest := CanonicalEncodes(s[4..]);
      raw := [a, b, c] + rest;
      assert raw[3..] == rest;
      assert s == s[..4] + s[4..];
    }
  }

  function Letter(s: string, i: nat): (x: Sextet)
    requires i < |s| && Canonical(s) && i < 4
    ensures SextetChar(x) == s[i] && CharSextet(s[i]) == Some(x)
  {
    SextetLetter(s[i]);
    CharSextet(s[i]).value
  }

  /** A text is the encoding of the bytes it decodes to exactly when it is canonical. */
  lemma CanonicalExactly(s: string)
    ensures Canonical(s) <==> B64Decode(s).Some? && B64Encode(B64Decode(s).value) == s
  {
    hide B64Encode, B64Decode, Canonical, Groups;
    if Canonical(s) {
      var raw := CanonicalEncodes(s);
      EncodeGroups(raw);
      B64RoundTrip(raw);
    }
    if B64Decode(s).Some? && B64Encode(B64Decode(s).value) == s {
      EncodeGroups(B64Decode(s).value);
      GroupsCanonical(B64Decode(s).value);
    }
  }

  // ---------------------------------------------------------------- the printed hash

  type Kdf = (string, seq<Byte>, int) -> Option<seq<Byte>>

  /** What `split("$", 3)` takes off. */
  function Cut(s: string): Option<(string, string)> {
    if s == "" then None
    else if s[0] == '$' then Some(("", s[1..]))
    else
      var rest := Cut(s[1..]);
      if rest.None? then None else Some(([s[0]] + rest.value.0, rest.value.1))
  }

  datatype Fields = Fields(scheme: string, iterations: string, salt: string, digest: string)

  function SplitFields(s: string): Option<Fields> {
    match Cut(s)
    case None => None
    case Some((scheme, s1)) =>
      match Cut(s1)
      case None => None
      case Some((iterations, s2)) =>
        match Cut(s2)
        case None => None
        case Some((salt, digest)) => Some(Fields(scheme, iterations, salt, digest))
  }

  datatype Secret = Secret(iterations: int, salt: seq<Byte>, digest: seq<Byte>)

  function PrintSecret(x: Secret): string {
    SCHEME + "$" + IntText(x.iterations) + "$" + B64Encode(x.salt) + "$" + B64Encode(x.digest)
  }

  /** The guarded part of `verify_password`. */
  function ReadSecret(text: string): Option<Secret> {
    match SplitFields(text)
    case None => None
    case Some(f) =>
      if f.scheme != SCHEME then None
      else
        match ReadInt(f.iterations)
        case None => None
        case Some(iterations) =>
          match B64Decode(f.salt)
          case None => None
          case Some(salt) =>
            match B64Decode(f.digest)
            case None => None
            case Some(digest) => Some(Secret(iterations, salt, digest))
  }

  /** `hash_password`; `None` when the derivation raises, as it does for an iteration count below one. */
  function HashPassword(kdf: Kdf, password: string, salt: seq<Byte>, iterations: int): Option<string> {
    var digest := kdf(password, salt, iterations);
    if digest.None? then None else Some(PrintSecret(Secret(iterations, salt, digest.value)))
  }

  /** `verify_password`; the derivation is outside the guard, so it may raise here too. */
  function VerifyPassword(kdf: Kdf, password: string, passwordHash: string): Option<bool> {
    match ReadSecret(passwordHash)
    case None => Some(false)
    case Some(x) =>
      var actual := kdf(password, x.salt, x.iterations);
      if actual.None? then None else Some(actual.value == x.digest)
  }

  ghost predicate NoDollar(s: string) {
    forall i :: 0 <= i < |s| ==> s[i] != '$'
  }

  lemma {:induction false} CutAtDollar(s: string, rest: string)
    requires NoDollar(s)
    ensures Cut(s + "$" + rest) == Some((s, rest))
  {
    var t := s + "$" + rest;
    if s == "" {
      assert t[1..] == rest;
    } else {
      CutAtDollar(s[1..], rest);
      assert t[1..] == s[1..] + "$" + rest;
      assert [s[0]] + s[1..] == s;
    }
  }

  /** Splitting recovers the four fields, whatever the bytes and the count are. */
  lemma SplitRecovers(iterations: string, salt: string, digest: string)
    requires NoDollar(iterations) && NoDollar(salt)
    ensures SplitFields(SCHEME + "$" + iterations + "$" + salt + "$" + digest) == Some(Fields(SCHEME, iterations, salt, digest))
  {
    var s2 := salt + "$" + digest;
    var s1 := iterations + "$" + s2;
    assert SCHEME + "$" + iterations + "$" + salt + "$" + digest == SCHEME + "$" + s1;
    assert NoDollar(SCHEME);
    hide Cut, NoDollar;
    CutAtDollar(SCHEME, s1);
    CutAtDollar(iterations, s2);
    CutAtDollar(salt, digest);
  }

  /** The printed hash reads back as what was printed. */
  lemma SecretReadable(x: Secret)
    ensures ReadSecret(PrintSecret(x)) == Some(x)
  {
    IntRoundTrip(x.iterations);
    PaddingRestored(x.salt);
    assert NoDollar(B64Encode(x.salt));
    B64RoundTrip(x.salt);
    B64RoundTrip(x.digest);
    hide SplitFields, ReadInt, B64Encode, B64Decode, IntText, NoDollar;
    assert NoDollar(IntText(x.iterations)) by { DollarFree(x.iterations); }
    SplitRecovers(IntText(x.iterations), B64Encode(x.salt), B64Encode(x.digest));
  }

  lemma DollarFree(n: int)
    ensures NoDollar(IntText(n))
  {
    IntRoundTrip(n);
  }

  /**
   For every derivation, password, salt and count: the printed hash is accepted for exactly the
   passwords that derive the same digest, its own among them.
   */
  lemma VerifyExact(kdf: Kdf, password: string, salt: seq<Byte>, iterations: int, attempt: string)
    requires kdf(password, salt, iterations).Some?
    ensures HashPassword(kdf, password, salt, iterations).Some?
    ensures var printed := HashPassword(kdf, password, salt, iterations).value;
            && VerifyPassword(kdf, password, printed) == Some(true)
            && (VerifyPassword(kdf, attempt, printed) == Some(true) <==> kdf(attempt, salt, iterations) == kdf(password, salt, iterations))
  {
    hide PrintSecret, ReadSecret;
    SecretReadable(Secret(iterations, salt, kdf(password, salt, iterations).value));
  }

  lemma {:induction false} CutSound(s: string)
    ensures Cut(s).Some? ==> s == Cut(s).value.0 + "$" + Cut(s).value.1 && NoDollar(Cut(s).value.0)
  {
    if s != "" && s[0] != '$' {
      CutSound(s[1..]);
      assert s == [s[0]] + s[1..];
    }
  }

  /** The text has the four fields, and each can be read. */
  ghost predicate Readable(text: string, iterations: string, salt: string, digest: string, x: Secret) {
    && text == "pbkdf2_sha256$" + iterations + "$" + salt + "$" + digest && NoDollar(iterations) && NoDollar(salt)
    && ReadInt(iterations) == Some(x.iterations) && B64Decode(salt) == Some(x.salt) && B64Decode(digest) == Some(x.digest)
  }

  lemma ReadExactly(text: string, x: Secret)
    ensures ReadSecret(text) == Some(x) <==> exists iterations, salt, digest :: Readable(text, iterations, salt, digest, x)
  {
    hide ReadInt, B64Decode, Cut;
    if ReadSecret(text) == Some(x) {
      var f := SplitFields(text).value;
      FieldsSound(text);
      assert Readable(text, f.iterations, f.salt, f.digest, x);
    }
    if iterations, salt, digest :| Readable(text, iterations, salt, digest, x) {
      assert text == SCHEME + "$" + (iterations + "$" + (salt + "$" + digest));
      CutAtDollar(SCHEME, iterations + "$" + (salt + "$" + digest));
      CutAtDollar(iterations, salt + "$" + digest);
      CutAtDollar(salt, digest);
      assert iterations + "$" + (salt + "$" + digest) == iterations + "$" + salt + "$" + digest;
    }
  }

  lemma FieldsSound(text: string)
    ensures SplitFields(text).Some? ==>
              var f := SplitFields(text).value;
              && text == f.scheme + "$" + f.iterations + "$" + f.salt + "$" + f.digest
              && NoDollar(f.scheme) && NoDollar(f.iterations) && NoDollar(f.salt)
  {
    hide Cut;
    CutSound(text);
    if Cut(text).Some? {
      CutSound(Cut(text).value.1);
      if Cut(Cut(text).value.1).Some? {
        CutSound(Cut(Cut(text).value.1).value.1);
      }
    }
  }

  /** Any text is verified as a hash exactly if it is a readable one and the password derives the digest in it. */
  lemma VerifiedExactly(kdf: Kdf, password: string, text: string)
    ensures VerifyPassword(kdf, password, text) == Some(true) <==>
              exists iterations, salt, digest, x :: Readable(text, iterations, salt, digest, x) && kdf(password, x.salt, x.iterations) == Some(x.digest)
    ensures VerifyPassword(kdf, password, text).None? <==>
              exists iterations, salt, digest, x :: Readable(text, iterations, salt, digest, x) && kdf(password, x.salt, x.iterations).None?
  {
    hide ReadSecret, Readable;
    if VerifyPassword(kdf, password, text).None? {
      ReadExactly(text, ReadSecret(text).value);
    }
    if iterations, salt, digest, x :| Readable(text, iterations, salt, digest, x) && kdf(password, x.salt, x.iterations).None? {
      ReadExactly(text, x);
    }
    if VerifyPassword(kdf, password, text) == Some(true) {
      ReadExactly(text, ReadSecret(text).value);
    }
    if iterations, salt, digest, x :| Readable(text, iterations, salt, digest, x) && kdf(password, x.salt, x.iterations) == Some(x.digest) {
      ReadExactly(text, x);
    }
  }
}
