/**
 File provider identifiers: a fixed prefix followed by the URL-safe, unpadded base64 of the
 path's UTF-8 bytes (RFC 4648, sections 3.2, 4 and 5).
*/
module Identifiers {
  import opened Paths
  import opened Wrappers

  // ---------------------------------------------------------------------------------------------
  // UTF-8
  // ---------------------------------------------------------------------------------------------

  function EncodeScalar(c: char): seq<Byte> {
    var n := c as int;
    if n < 0x80 then [n]
    else if n < 0x800 then [0xC0 + n / 64, 0x80 + n % 64]
    else if n < 0x1_0000 then [0xE0 + n / 4096, 0x80 + n / 64 % 64, 0x80 + n % 64]
    else [0xF0 + n / 262144, 0x80 + n / 4096 % 64, 0x80 + n / 64 % 64, 0x80 + n % 64]
  }

  function Utf8(s: string): seq<Byte> {
    if s == "" then [] else EncodeScalar(s[0]) + Utf8(s[1..])
  }

  predicate Continues(bytes: seq<Byte>, count: nat) {
    |bytes| > count && forall i :: 1 <= i <= count ==> 0x80 <= bytes[i] < 0xC0
  }

  /** A scalar value; surrogates and overlong forms are not accepted. */
  function ScalarOf(n: int, least: nat): Option<char> {
    if n < least || 0xD800 <= n < 0xE000 || n >= 0x11_0000 then None else Some(n as char)
  }

  function Tail(b: Byte): int {
    b as int - 0x80
  }

  function Taking(c: Option<char>, count: nat): Option<(char, nat)> {
    match c
    case Some(scalar) => Some((scalar, count))
    case None => None
  }

  /** The first scalar of a byte string and how many bytes it takes. */
  function DecodeScalar(bytes: seq<Byte>): Option<(char, nat)>
    requires bytes != []
  {
    var b := bytes[0] as int;
    if b < 0x80 then Some((b as char, 1))
    else if 0xC0 <= b < 0xE0 && Continues(bytes, 1) then
      Taking(ScalarOf((b - 0xC0) * 64 + Tail(bytes[1]), 0x80), 2)
    else if 0xE0 <= b < 0xF0 && Continues(bytes, 2) then
      Taking(ScalarOf((b - 0xE0) * 4096 + Tail(bytes[1]) * 64 + Tail(bytes[2]), 0x800), 3)
    else if 0xF0 <= b && Continues(bytes, 3) then
      Taking(ScalarOf((b - 0xF0) * 262144 + Tail(bytes[1]) * 4096 + Tail(bytes[2]) * 64 + Tail(bytes[3]), 0x1_0000), 4)
    else None
  }

  function FromUtf8(bytes: seq<Byte>): Option<string>
    decreases |bytes|
  {
    if bytes == [] then Some("")
    else
      match DecodeScalar(bytes)
      case None => None
      case Some((c, count)) =>
        if count > |bytes| then None
        else match FromUtf8(bytes[count..])
             case Some(rest) => Some([c] + rest)
             case None => None
  }

  lemma SixBitGroups(n: nat)
    ensures n == n / 64 * 64 + n % 64
    ensures n == n / 4096 * 4096 + n / 64 % 64 * 64 + n % 64
    ensures n == n / 262144 * 262144 + n / 4096 % 64 * 4096 + n / 64 % 64 * 64 + n % 64
  {
    assert n / 4096 == n / 64 / 64;
    assert n / 262144 == n / 4096 / 64;
  }

  lemma ScalarRoundTrip(c: char, rest: seq<Byte>)
    ensures DecodeScalar(EncodeScalar(c) + rest) == Some((c, |EncodeScalar(c)|))
  {
    var n := c as int;
    if n >= 0x80 {
      if n < 0x800 {
        TwoBytes(c, rest);
      } else if n < 0x1_0000 {
        ThreeBytes(c, rest);
      } else {
        FourBytes(c, rest);
      }
    }
  }

  lemma TwoBytes(c: char, rest: seq<Byte>)
    requires 0x80 <= c as int < 0x800
    ensures DecodeScalar(EncodeScalar(c) + rest) == Some((c, 2))
  {
    var bytes := EncodeScalar(c) + rest;
    assert Continues(bytes, 1);
    SixBitGroups(c as int);
    assert ScalarOf((bytes[0] as int - 0xC0) * 64 + Tail(bytes[1]), 0x80) == Some(c);
  }

  lemma ThreeBytes(c: char, rest: seq<Byte>)
    requires 0x800 <= c as int < 0x1_0000
    ensures DecodeScalar(EncodeScalar(c) + rest) == Some((c, 3))
  {
    var bytes := EncodeScalar(c) + rest;
    assert Continues(bytes, 2);
    SixBitGroups(c as int);
    assert ScalarOf((bytes[0] as int - 0xE0) * 4096 + Tail(bytes[1]) * 64 + Tail(bytes[2]), 0x800) == Some(c);
  }

  lemma FourBytes(c: char, rest: seq<Byte>)
    requires 0x1_0000 <= c as int
    ensures DecodeScalar(EncodeScalar(c) + rest) == Some((c, 4))
  {
    var bytes := EncodeScalar(c) + rest;
    assert Continues(bytes, 3);
    SixBitGroups(c as int);
    assert ScalarOf((bytes[0] as int - 0xF0) * 262144 + Tail(bytes[1]) * 4096 + Tail(bytes[2]) * 64 + Tail(bytes[3]),
                    0x1_0000) == Some(c);
  }

  lemma {:induction false} Utf8RoundTrip(s: string)
    ensures FromUtf8(Utf8(s)) == Some(s)
  {
    if s != "" {
      Utf8RoundTrip(s[1..]);
      ScalarRoundTrip(s[0], Utf8(s[1..]));
      assert Utf8(s)[|EncodeScalar(s[0])|..] == Utf8(s[1..]);
      assert s == [s[0]] + s[1..];
    }
  }

  // ---------------------------------------------------------------------------------------------
  // Base64
  // ---------------------------------------------------------------------------------------------

  function Digit(n: nat): char
    requires n < 64
  {
    if n < 26 then ('A' as int + n) as char
    else if n < 52 then ('a' as int + n - 26) as char
    else if n < 62 then ('0' as int + n - 52) as char
    else if n == 62 then '+' else '/'
  }

  function Value(c: char): (r: Option<nat>)
    ensures r.Some? ==> r.value < 64
  {
    if 'A' <= c <= 'Z' then Some(c as int - 'A' as int)
    else if 'a' <= c <= 'z' then Some(c as int - 'a' as int + 26)
    else if '0' <= c <= '9' then Some(c as int - '0' as int + 52)
    else if c == '+' then Some(62)
    else if c == '/' then Some(63)
    else None
  }

  function OneByteDigits(a: Byte): string {
    [Digit(a / 4), Digit(a % 4 * 16)]
  }

  function TwoBytesDigits(a: Byte, b: Byte): string {
    [Digit(a / 4), Digit(a % 4 * 16 + b / 16), Digit(b % 16 * 4)]
  }

  function Group(a: Byte, b: Byte, c: Byte): (r: string)
    ensures |r| == 4
  {
    [Digit(a / 4), Digit(a % 4 * 16 + b / 16), Digit(b % 16 * 4 + c / 64), Digit(c % 64)]
  }

  /** The padded form produced by the platform encoder. */
  function Base64(b: seq<Byte>): string {
    if b == [] then ""
    else if |b| == 1 then OneByteDigits(b[0]) + "=="
    else if |b| == 2 then TwoBytesDigits(b[0], b[1]) + "="
    else Group(b[0], b[1], b[2]) + Base64(b[3..])
  }

  /** The bytes of a full group of four digits. */
  function FromGroup(s: string): (r: Option<seq<Byte>>)
    requires |s| == 4
  {
    if exists i :: 0 <= i < 4 && Value(s[i]).None? then None
    else
      var v0, v1, v2, v3 := SixBits(s[0]), SixBits(s[1]), SixBits(s[2]), SixBits(s[3]);
      Some([v0 * 4 + v1 / 16, v1 % 16 * 16 + v2 / 4, v2 % 4 * 64 + v3])
  }

  function SixBits(c: char): (v: nat)
    ensures v < 64
  {
    match Value(c)
    case Some(n) => n
    case None => 0
  }

  /** The last group may stand for one or two bytes only. */
  function FromPaddedGroup(s: string): Option<seq<Byte>>
    requires |s| == 4
  {
    if Value(s[0]).None? || Value(s[1]).None? || s[3] != '=' then None
    else if s[2] == '=' then Some([SixBits(s[0]) * 4 + SixBits(s[1]) / 16])
    else if Value(s[2]).None? then None
    else Some([SixBits(s[0]) * 4 + SixBits(s[1]) / 16, SixBits(s[1]) % 16 * 16 + SixBits(s[2]) / 4])
  }

  /** The strict platform decoder: full groups of four, padding only at the end. */
  function FromBase64(s: string): Option<seq<Byte>> {
    if s == "" then Some([])
    else if |s| < 4 then None
    else if |s| == 4 && s[3] == '=' then FromPaddedGroup(s)
    else
      match (FromGroup(s[..4]), FromBase64(s[4..]))
      case (Some(bytes), Some(rest)) => Some(bytes + rest)
      case (Some(_), None) => None
      case (None, _) => None
  }

  lemma ValueOfDigit(n: nat)
    requires n < 64
    ensures Value(Digit(n)) == Some(n) && Digit(n) != '=' && Digit(n) != '-' && Digit(n) != '_'
  {
  }

  predicate IsDigits(s: string) {
    forall i :: 0 <= i < |s| ==> Value(s[i]).Some?
  }

  lemma DigitsOfOne(a: Byte)
    ensures IsDigits(OneByteDigits(a)) && FromBase64(OneByteDigits(a) + "==") == Some([a])
  {
    ValueOfDigit(a / 4);
    ValueOfDigit(a % 4 * 16);
  }

  lemma DigitsOfTwo(a: Byte, b: Byte)
    ensures IsDigits(TwoBytesDigits(a, b)) && FromBase64(TwoBytesDigits(a, b) + "=") == Some([a, b])
  {
    ValueOfDigit(a / 4);
    ValueOfDigit(a % 4 * 16 + b / 16);
    ValueOfDigit(b % 16 * 4);
  }

  /** Four groups of six bits hold three bytes. */
  lemma SixBitSplit(a: Byte, b: Byte, c: Byte)
    ensures a / 4 * 4 + (a % 4 * 16 + b / 16) / 16 == a
    ensures (a % 4 * 16 + b / 16) % 16 * 16 + (b % 16 * 4 + c / 64) / 4 == b
    ensures (b % 16 * 4 + c / 64) % 4 * 64 + c % 64 == c
  {
  }

  lemma FromGroupOf(s: string, v0: nat, v1: nat, v2: nat, v3: nat)
    requires |s| == 4
    requires Value(s[0]) == Some(v0) && Value(s[1]) == Some(v1) && Value(s[2]) == Some(v2) && Value(s[3]) == Some(v3)
    ensures IsDigits(s) && FromGroup(s) == Some([v0 * 4 + v1 / 16, v1 % 16 * 16 + v2 / 4, v2 % 4 * 64 + v3])
  {
  }

  lemma DigitsOfGroup(a: Byte, b: Byte, c: Byte)
    ensures IsDigits(Group(a, b, c)) && FromGroup(Group(a, b, c)) == Some([a, b, c])
    ensures Group(a, b, c)[3] != '='
  {
    ValueOfDigit(a / 4);
    ValueOfDigit(a % 4 * 16 + b / 16);
    ValueOfDigit(b % 16 * 4 + c / 64);
    ValueOfDigit(c % 64);
    FromGroupOf(Group(a, b, c), a / 4, a % 4 * 16 + b / 16, b % 16 * 4 + c / 64, c % 64);
    SixBitSplit(a, b, c);
  }

  lemma DecodeStep(group: string, tail: string)
    requires |group| == 4 && group[3] != '='
    ensures FromBase64(group + tail)
            == (match (FromGroup(group), FromBase64(tail))
                case (Some(bytes), Some(rest)) => Some(bytes + rest)
                case (Some(_), None) => None
                case (None, _) => None)
  {
    assert (group + tail)[..4] == group && (group + tail)[4..] == tail;
  }

  lemma GroupRoundTrip(a: Byte, b: Byte, c: Byte, tail: string, rest: seq<Byte>)
    requires FromBase64(tail) == Some(rest)
    ensures FromBase64(Group(a, b, c) + tail) == Some([a, b, c] + rest)
  {
    DigitsOfGroup(a, b, c);
    DecodeStep(Group(a, b, c), tail);
  }

  lemma ShortRoundTrip(b: seq<Byte>)
    requires |b| < 3
    ensures FromBase64(Base64(b)) == Some(b)
  {
    if |b| == 1 {
      DigitsOfOne(b[0]);
      assert b == [b[0]];
    } else if |b| == 2 {
      DigitsOfTwo(b[0], b[1]);
      assert b == [b[0], b[1]];
    }
  }

  lemma Base64Group(b: seq<Byte>, tail: string)
    requires |b| > 2 && tail == Base64(b[3..])
    ensures Base64(b) == Group(b[0], b[1], b[2]) + tail
  {
  }

  lemma {:induction false} Base64RoundTrip(b: seq<Byte>)
    ensures FromBase64(Base64(b)) == Some(b)
  {
    if |b| < 3 {
      ShortRoundTrip(b);
    } else {
      var tail := Base64(b[3..]);
      Base64RoundTrip(b[3..]);
      Base64Group(b, tail);
      GroupRoundTrip(b[0], b[1], b[2], tail, b[3..]);
      assert b == [b[0], b[1], b[2]] + b[3..];
    }
  }

  // ---------------------------------------------------------------------------------------------
  // The URL-safe unpadded form
  // ---------------------------------------------------------------------------------------------

  function Replace(s: string, a: char, b: char): (r: string)
    ensures |r| == |s|
    ensures forall i :: 0 <= i < |s| ==> r[i] == if s[i] == a then b else s[i]
  {
    if s == "" then "" else [if s[0] == a then b else s[0]] + Replace(s[1..], a, b)
  }

  function Remove(s: string, a: char): string {
    if s == "" then "" else (if s[0] == a then "" else [s[0]]) + Remove(s[1..], a)
  }

  function Base64EncodeString(b: seq<Byte>): string {
    Remove(Replace(Replace(Base64(b), '+', '-'), '/', '_'), '=')
  }

  function Repeated(c: char, count: nat): string {
    if count == 0 then "" else [c] + Repeated(c, count - 1)
  }

  function Base64DecodeString(value: string): string {
    var normalized := Replace(Replace(value, '-', '+'), '_', '/');
    normalized + Repeated('=', (4 - |normalized| % 4) % 4)
  }

  method BuildBase64DecodeString(value: string) returns (normalized: string)
    ensures normalized == Base64DecodeString(value)
  {
    normalized := Replace(value, '-', '+');
    normalized := Replace(normalized, '_', '/');
    var padding := (4 - |normalized| % 4) % 4;
    if padding > 0 {
      normalized := normalized + Repeated('=', padding);
    }
  }

  lemma RemoveFirst(s: string, t: string, c: char, head: string)
    requires s != "" && head == if s[0] == c then "" else [s[0]]
    ensures Remove(s + t, c) == head + Remove(s[1..] + t, c)
  {
    assert (s + t)[0] == s[0] && (s + t)[1..] == s[1..] + t;
  }

  lemma {:induction false} RemoveConcat(a: string, b: string, c: char)
    ensures Remove(a + b, c) == Remove(a, c) + Remove(b, c)
  {
    if a == "" {
      assert a + b == b;
    } else {
      var head := if a[0] == c then "" else [a[0]];
      var first, second := Remove(a[1..], c), Remove(b, c);
      RemoveFirst(a, b, c, head);
      RemoveConcat(a[1..], b, c);
      assert head + (first + second) == (head + first) + second;
    }
  }

  lemma ReplaceConcat(s: string, t: string, a: char, b: char)
    ensures Replace(s + t, a, b) == Replace(s, a, b) + Replace(t, a, b)
  {
    assert forall i :: 0 <= i < |s + t| ==> Replace(s + t, a, b)[i] == (Replace(s, a, b) + Replace(t, a, b))[i];
  }

  /** Digits survive the trip through the URL-safe alphabet, and none of them is removed. */
  lemma DigitsSurvive(digits: string)
    requires IsDigits(digits)
    ensures var safe := Replace(Replace(digits, '+', '-'), '/', '_');
            && Remove(safe, '=') == safe
            && Replace(Replace(safe, '-', '+'), '_', '/') == digits
  {
    var safe := Replace(Replace(digits, '+', '-'), '/', '_');
    forall i | 0 <= i < |digits|
      ensures safe[i] != '=' && Replace(Replace(safe, '-', '+'), '_', '/')[i] == digits[i]
    {
      assert Value(digits[i]).Some?;
    }
    NothingToRemove(safe, '=');
  }

  lemma {:induction false} NothingToRemove(s: string, c: char)
    requires forall i :: 0 <= i < |s| ==> s[i] != c
    ensures Remove(s, c) == s
  {
    if s != "" {
      NothingToRemove(s[1..], c);
    }
  }

  lemma {:induction false} AllRemoved(s: string, c: char)
    requires forall i :: 0 <= i < |s| ==> s[i] == c
    ensures Remove(s, c) == ""
  {
    if s != "" {
      AllRemoved(s[1..], c);
    }
  }

  function PaddingFor(digits: string): string {
    Repeated('=', (4 - |digits| % 4) % 4)
  }

  lemma ShapeOfGroup(group: string, rest: string)
    requires |group| == 4 && IsDigits(group) && IsDigits(rest)
    ensures IsDigits(group + rest) && group + (rest + PaddingFor(rest)) == group + rest + PaddingFor(group + rest)
  {
    GroupFirst(group, rest, PaddingFor(rest));
  }

  lemma ShapeOfEnd(b: seq<Byte>) returns (digits: string)
    requires |b| < 3
    ensures IsDigits(digits) && Base64(b) == digits + PaddingFor(digits)
  {
    assert Repeated('=', 1) == "=" && Repeated('=', 2) == "==";
    if b == [] {
      digits := "";
    } else if |b| == 1 {
      digits := OneByteDigits(b[0]);
      DigitsOfOne(b[0]);
    } else {
      digits := TwoBytesDigits(b[0], b[1]);
      DigitsOfTwo(b[0], b[1]);
    }
  }

  /** Padded base64 is a run of digits followed by the padding its length calls for. */
  lemma {:induction false} Base64Shape(b: seq<Byte>) returns (digits: string)
    ensures IsDigits(digits) && Base64(b) == digits + PaddingFor(digits)
  {
    if |b| < 3 {
      digits := ShapeOfEnd(b);
    } else {
      var rest := Base64Shape(b[3..]);
      DigitsOfGroup(b[0], b[1], b[2]);
      ShapeOfGroup(Group(b[0], b[1], b[2]), rest);
      digits := Group(b[0], b[1], b[2]) + rest;
    }
  }

  lemma GroupFirst(group: string, rest: string, padding: string)
    requires |group| == 4
    ensures (4 - |group + rest| % 4) % 4 == (4 - |rest| % 4) % 4
    ensures group + rest + padding == group + (rest + padding)
  {
    assert |group + rest| % 4 == |rest| % 4;
  }

  lemma {:induction false} SafeForm(digits: string, padding: string)
    requires IsDigits(digits) && forall i :: 0 <= i < |padding| ==> padding[i] == '='
    ensures Remove(Replace(Replace(digits + padding, '+', '-'), '/', '_'), '=')
            == Replace(Replace(digits, '+', '-'), '/', '_')
  {
    ReplaceConcat(digits, padding, '+', '-');
    ReplaceConcat(Replace(digits, '+', '-'), Replace(padding, '+', '-'), '/', '_');
    var safe := Replace(Replace(digits, '+', '-'), '/', '_');
    var safePadding := Replace(Replace(padding, '+', '-'), '/', '_');
    RemoveConcat(safe, safePadding, '=');
    AllRemoved(safePadding, '=');
    DigitsSurvive(digits);
    assert safe + "" == safe;
  }

  lemma EncodedDigits(b: seq<Byte>, digits: string)
    requires IsDigits(digits) && Base64(b) == digits + PaddingFor(digits)
    ensures Base64EncodeString(b) == Replace(Replace(digits, '+', '-'), '/', '_')
  {
    PaddingOnly((4 - |digits| % 4) % 4);
    SafeForm(digits, PaddingFor(digits));
  }

  lemma DecodedDigits(digits: string)
    requires IsDigits(digits)
    ensures Base64DecodeString(Replace(Replace(digits, '+', '-'), '/', '_')) == digits + PaddingFor(digits)
  {
    DigitsSurvive(digits);
  }

  /** Decoding restores the alphabet and the padding for every byte string. */
  lemma PaddingIsRestored(b: seq<Byte>)
    ensures Base64DecodeString(Base64EncodeString(b)) == Base64(b)
  {
    var digits := Base64Shape(b);
    EncodedDigits(b, digits);
    DecodedDigits(digits);
  }

  lemma {:induction false} PaddingOnly(count: nat)
    ensures |Repeated('=', count)| == count
    ensures forall i :: 0 <= i < count ==> Repeated('=', count)[i] == '='
  {
    if count > 0 {
      PaddingOnly(count - 1);
    }
  }

  // ---------------------------------------------------------------------------------------------
  // Identifiers
  // ---------------------------------------------------------------------------------------------

  const PATH_PREFIX: string := "path:"
  const ROOT_CONTAINER: string := "NSFileProviderRootContainerItemIdentifier"
  const WORKING_SET: string := "NSFileProviderWorkingSetContainerItemIdentifier"

  predicate SafeSegment(segment: string) {
    segment != "" && segment != "." && segment != ".."
    && forall i :: 0 <= i < |segment| ==> segment[i] != '\\' && segment[i] != ':'
  }

  /** What the native normalizer accepts; it returns accepted paths unchanged. */
  predicate Canonical(path: string) {
    forall i :: 0 <= i < |Split(path)| ==> SafeSegment(Split(path)[i])
  }

  /** Paths reach the native normalizer as C strings. */
  function CString(s: string): (r: string)
    ensures r <= s
    ensures forall i :: 0 <= i < |r| ==> r[i] != '\0'
    ensures |r| < |s| ==> s[|r|] == '\0'
  {
    if s == "" || s[0] == '\0' then "" else [s[0]] + CString(s[1..])
  }

  function NormalizePath(path: string): Option<string> {
    if Canonical(CString(path)) then Some(CString(path)) else None
  }

  function IdentifierFor(path: string): string {
    if path == "" then ROOT_CONTAINER else PATH_PREFIX + Base64EncodeString(Utf8(path))
  }

  /** The app has an encoder of its own, with its own prefix, for the same identifiers. */
  const APP_PATH_PREFIX: string := "path:"

  function AppEncodedPath(path: string): string {
    Remove(Replace(Replace(Base64(Utf8(path)), '+', '-'), '/', '_'), '=')
  }

  function AppIdentifierFor(path: string): string {
    if path == "" then ROOT_CONTAINER else APP_PATH_PREFIX + AppEncodedPath(path)
  }

  function PathFor(identifier: string): Option<string> {
    if identifier == ROOT_CONTAINER || identifier == WORKING_SET then Some("")
    else if !(PATH_PREFIX <= identifier) then None
    else
      match FromBase64(Base64DecodeString(identifier[|PATH_PREFIX|..]))
      case None => None
      case Some(bytes) =>
        match FromUtf8(bytes)
        case None => None
        case Some(relative) =>
          match NormalizePath(relative)
          case None => None
          case Some(normalized) => if normalized == "" then None else Some(normalized)
  }

  lemma PrefixedIdentifier(encoded: string)
    ensures var id := PATH_PREFIX + encoded;
            && PATH_PREFIX <= id && id[|PATH_PREFIX|..] == encoded && id != ROOT_CONTAINER && id != WORKING_SET
  {
    var id := PATH_PREFIX + encoded;
    assert id[0] == 'p' && ROOT_CONTAINER[0] == 'N' && WORKING_SET[0] == 'N';
  }

  lemma EncodingRoundTrip(bytes: seq<Byte>)
    ensures FromBase64(Base64DecodeString(Base64EncodeString(bytes))) == Some(bytes)
  {
    PaddingIsRestored(bytes);
    Base64RoundTrip(bytes);
  }

  lemma DecodedIdentifier(path: string)
    requires path != ""
    ensures var id := IdentifierFor(path);
            && PATH_PREFIX <= id && id != ROOT_CONTAINER && id != WORKING_SET
            && FromBase64(Base64DecodeString(id[|PATH_PREFIX|..])) == Some(Utf8(path))
            && FromUtf8(Utf8(path)) == Some(path)
  {
    var bytes := Utf8(path);
    PrefixedIdentifier(Base64EncodeString(bytes));
    EncodingRoundTrip(bytes);
    Utf8RoundTrip(path);
  }

  lemma CStringIsWhole(s: string)
    ensures CString(s) == s <==> forall i :: 0 <= i < |s| ==> s[i] != '\0'
  {
  }

  lemma EmptyIsNotCanonical()
    ensures !Canonical("")
  {
    assert Split("") == [""];
    assert !SafeSegment(Split("")[0]);
  }

  /**
   An identifier leads back to its path exactly when the path is a canonical provider path without
   a zero character; the zero character ends the C string handed to the native normalizer.
  */
  lemma IdentifierRoundTripIff(path: string)
    requires path != ""
    ensures PathFor(IdentifierFor(path)) == Some(path) <==>
            Canonical(path) && forall i :: 0 <= i < |path| ==> path[i] != '\0'
  {
    DecodedIdentifier(path);
    CStringIsWhole(path);
    EmptyIsNotCanonical();
  }

  /** What an identifier leads back to is its path as the native normalizer sees it. */
  lemma IdentifierLeadsTo(path: string)
    requires path != ""
    ensures PathFor(IdentifierFor(path)) == NormalizePath(path)
  {
    DecodedIdentifier(path);
    EmptyIsNotCanonical();
  }

  /** The identifier of "a", a zero character and "b" leads to "a". */
  lemma ZeroCharacterIsCut()
    ensures PathFor(IdentifierFor("a\0b")) == Some("a")
  {
    NormalizedUpToZero();
    IdentifierLeadsTo("a\0b");
  }

  lemma NormalizedUpToZero()
    ensures NormalizePath("a\0b") == Some("a")
  {
    var s := "a\0b";
    assert s[1..][0] == '\0' && CString(s[1..]) == "";
    assert CString(s) == "a";
    assert Split("a"[1..]) == [""];
    assert Split("a") == ["a"];
  }

  /** What the app signals, the extension resolves: the path comes back under the same condition. */
  lemma AppIdentifierRoundTripIff(path: string)
    ensures AppIdentifierFor(path) == IdentifierFor(path)
    ensures PathFor(AppIdentifierFor(path)) == Some(path) <==>
            path == "" || (Canonical(path) && forall i :: 0 <= i < |path| ==> path[i] != '\0')
  {
    if path != "" {
      IdentifierRoundTripIff(path);
    }
  }

  /** Different paths have different identifiers, whether canonical or not. */
  lemma IdentifiersAreInjective(a: string, b: string)
    requires IdentifierFor(a) == IdentifierFor(b)
    ensures a == b
  {
    if a != "" {
      DecodedIdentifier(a);
    }
    if b != "" {
      DecodedIdentifier(b);
    }
  }

  // ---------------------------------------------------------------------------------------------
  // Collision suffixes
  // ---------------------------------------------------------------------------------------------

  predicate AllDigits(s: string) {
    s != "" && forall i :: 0 <= i < |s| ==> '0' <= s[i] <= '9'
  }

  predicate OccursAt(s: string, t: string, k: int) {
    0 <= k && k + |t| <= |s| && s[k..k + |t|] == t
  }

  /** Where the last occurrence of a text starts, or -1. */
  function LastIndexOf(s: string, t: string, from: nat): (k: int)
    ensures -1 <= k <= from
    ensures k >= 0 ==> OccursAt(s, t, k)
    ensures forall j :: k < j <= from ==> !OccursAt(s, t, j)
  {
    if OccursAt(s, t, from) then from
    else if from == 0 then -1
    else LastIndexOf(s, t, from - 1)
  }

  function StripNumericSuffix(stem: string): (r: Option<string>)
    ensures r.Some? ==> |r.value| < |stem|
  {
    if !EndsWith(stem, ")") then None
    else
      var open := stem[..|stem| - 1];
      var k := LastIndexOf(open, " (", |open|);
      if k < 0 || !AllDigits(open[k + 2..]) then None else Some(open[..k])
  }

  function StripCopySuffix(stem: string): (r: Option<string>)
    ensures r.Some? ==> |r.value| < |stem|
  {
    if EndsWith(stem, " copy") then Some(stem[..|stem| - 5])
    else
      var k := LastIndexOf(stem, " copy ", |stem|);
      if k < 0 || !AllDigits(stem[k + 6..]) then None else Some(stem[..k])
  }

  function FamilyStem(stem: string): string
    decreases |stem|
  {
    match StripNumericSuffix(stem)
    case Some(stripped) => FamilyStem(stripped)
    case None =>
      match StripCopySuffix(stem)
      case Some(stripped) => FamilyStem(stripped)
      case None => stem
  }

  method StripCollisionSuffixes(name: string) returns (stem: string)
    ensures stem == FamilyStem(name)
  {
    stem := name;
    while true
      invariant FamilyStem(stem) == FamilyStem(name)
      decreases |stem|
    {
      var numeric := StripNumericSuffix(stem);
      if numeric.Some? {
        stem := numeric.value;
        continue;
      }
      var copy := StripCopySuffix(stem);
      if copy.Some? {
        stem := copy.value;
        continue;
      }
      break;
    }
  }

  /** Stripping goes all the way: nothing is left to strip, so stripping again changes nothing. */
  lemma {:induction false} FamilyStemIsStripped(stem: string)
    ensures StripNumericSuffix(FamilyStem(stem)).None? && StripCopySuffix(FamilyStem(stem)).None?
    ensures FamilyStem(FamilyStem(stem)) == FamilyStem(stem)
    decreases |stem|
  {
    match StripNumericSuffix(stem)
    case Some(stripped) => FamilyStemIsStripped(stripped);
    case None =>
      match StripCopySuffix(stem)
      case Some(stripped) => FamilyStemIsStripped(stripped);
      case None =>
  }

  /** A numbered name is in the family of the name it was made from. */
  lemma NumberedNameIsInTheFamily(stem: string, number: string)
    requires AllDigits(number)
    ensures FamilyStem(stem + " (" + number + ")") == FamilyStem(stem)
  {
    var name := stem + " (" + number + ")";
    var open := name[..|name| - 1];
    assert open == stem + " (" + number;
    assert name[|name| - 1..] == ")";
    var k := LastIndexOf(open, " (", |open|);
    LastSeparator(stem, " (", number);
    assert open[..k] == stem && open[k + 2..] == number;
  }

  lemma LettersOf(s: string, t: string, k: int)
    requires OccursAt(s, t, k)
    ensures forall i :: 0 <= i < |t| ==> s[k + i] == t[i]
  {
    forall i | 0 <= i < |t| ensures s[k + i] == t[i] {
      assert s[k..k + |t|][i] == s[k + i];
    }
  }

  /** A second occurrence would have to start at a later blank, followed by the same letter. */
  lemma LaterBlank(stem: string, t: string, number: string, k: int)
    requires AllDigits(number) && (t == " (" || t == " copy ")
    requires |stem| < k && k + 1 < |stem + t + number|
    ensures (stem + t + number)[k] != ' ' || (stem + t + number)[k + 1] != t[1]
  {
    var s := stem + t + number;
    if k < |stem| + |t| {
      assert s[k] == t[k - |stem|];
      assert k == |stem| + 5 && t == " copy " ==> s[k + 1] == number[0];
    } else {
      assert s[k] == number[k - |stem| - |t|];
    }
  }

  /** Neither separator can start again inside itself or inside a number. */
  lemma LastSeparator(stem: string, t: string, number: string)
    requires AllDigits(number) && (t == " (" || t == " copy ")
    ensures LastIndexOf(stem + t + number, t, |stem + t + number|) == |stem|
  {
    var s := stem + t + number;
    var k := LastIndexOf(s, t, |s|);
    assert OccursAt(s, t, |stem|);
    LettersOf(s, t, k);
    assert s[k + 0] == t[0] && s[k + 1] == t[1];
    if k > |stem| {
      LaterBlank(stem, t, number, k);
    }
  }

  /** A copied name, numbered or not, is in the family of the name it was made from. */
  lemma CopiedNameIsInTheFamily(stem: string, number: string)
    ensures FamilyStem(stem + " copy") == FamilyStem(stem)
    ensures AllDigits(number) ==> FamilyStem(stem + " copy " + number) == FamilyStem(stem)
  {
    var copy := stem + " copy";
    assert copy[|stem|..] == " copy";
    assert copy[|copy| - 1] == 'y' && copy[|copy| - 1..] != ")" by {
      assert copy[|copy| - 1..][0] == 'y';
    }
    assert copy[..|copy| - 5] == stem;
    if AllDigits(number) {
      var name := stem + " copy " + number;
      var last := name[|name| - 1];
      assert last == number[|number| - 1];
      assert name[|name| - 1..] != ")" by { assert name[|name| - 1..][0] == last; }
      assert name[|name| - 5..] != " copy" by { assert name[|name| - 5..][4] == last; }
      var k := LastIndexOf(name, " copy ", |name|);
      LastSeparator(stem, " copy ", number);
      assert name[..k] == stem && name[k + 6..] == number;
    }
  }

  /** The name made from another one by numbering or copying it. */
  predicate AddsSuffix(stem: string, name: string, number: string) {
    || name == stem + " copy"
    || (AllDigits(number) && (name == stem + " (" + number + ")" || name == stem + " copy " + number))
  }

  lemma NumericSuffixIff(name: string, stem: string)
    ensures StripNumericSuffix(name) == Some(stem) <==>
            exists number :: AllDigits(number) && name == stem + " (" + number + ")"
  {
    if StripNumericSuffix(name) == Some(stem) {
      var open := name[..|name| - 1];
      var k := LastIndexOf(open, " (", |open|);
      var number := open[k + 2..];
      assert open == open[..k] + open[k..k + 2] + number;
      assert name == open + name[|name| - 1..];
    }
    if number :| AllDigits(number) && name == stem + " (" + number + ")" {
      LastSeparator(stem, " (", number);
      var open := name[..|name| - 1];
      assert open == stem + " (" + number;
      assert name[|name| - 1..] == ")";
      assert open[..|stem|] == stem && open[|stem| + 2..] == number;
    }
  }

  lemma NumberedCopyEnds(stem: string, number: string)
    requires AllDigits(number)
    ensures !EndsWith(stem + " copy " + number, " copy")
  {
    var name := stem + " copy " + number;
    assert name[|name| - 5..][4] == number[|number| - 1];
  }

  lemma CopySuffixIff(name: string, stem: string)
    ensures StripCopySuffix(name) == Some(stem) <==>
            name == stem + " copy" || exists number :: AllDigits(number) && name == stem + " copy " + number
  {
    if StripCopySuffix(name) == Some(stem) {
      if EndsWith(name, " copy") {
        assert name == name[..|name| - 5] + name[|name| - 5..];
      } else {
        var k := LastIndexOf(name, " copy ", |name|);
        var number := name[k + 6..];
        assert name == name[..k] + name[k..k + 6] + number;
      }
    }
    if name == stem + " copy" {
      assert name[|stem|..] == " copy" && name[..|stem|] == stem;
    } else if number :| AllDigits(number) && name == stem + " copy " + number {
      NumberedCopyEnds(stem, number);
      LastSeparator(stem, " copy ", number);
      assert name[..|stem|] == stem && name[|stem| + 6..] == number;
    }
  }

  /** No name gives this one when it is numbered or copied. */
  ghost predicate Bare(name: string) {
    forall stem, number :: !AddsSuffix(stem, name, number)
  }

  lemma StrippedIffMade(name: string, stem: string)
    ensures StripNumericSuffix(name) == Some(stem) || StripCopySuffix(name) == Some(stem) <==>
            exists number :: AddsSuffix(stem, name, number)
  {
    NumericSuffixIff(name, stem);
    CopySuffixIff(name, stem);
    if StripNumericSuffix(name) == Some(stem) {
      var number :| AllDigits(number) && name == stem + " (" + number + ")";
      assert AddsSuffix(stem, name, number);
    } else if name == stem + " copy" {
      assert AddsSuffix(stem, name, "");
    } else if StripCopySuffix(name) == Some(stem) {
      var number :| AllDigits(number) && name == stem + " copy " + number;
      assert AddsSuffix(stem, name, number);
    }
  }

  lemma StripsIffMade(name: string)
    ensures StripNumericSuffix(name).None? && StripCopySuffix(name).None? <==> Bare(name)
  {
    if StripNumericSuffix(name).Some? {
      StrippedIffMade(name, StripNumericSuffix(name).value);
    } else if StripCopySuffix(name).Some? {
      StrippedIffMade(name, StripCopySuffix(name).value);
    } else if !Bare(name) {
      var stem, number :| AddsSuffix(stem, name, number);
      StrippedIffMade(name, stem);
    }
  }

  /** The name is made from the stem by numbering and copying, any number of times. */
  ghost predicate MadeFrom(name: string, stem: string)
    decreases |name|
  {
    name == stem || exists mid, number :: |mid| < |name| && AddsSuffix(mid, name, number) && MadeFrom(mid, stem)
  }

  lemma {:induction false} StemMakesName(name: string)
    ensures MadeFrom(name, FamilyStem(name)) && Bare(FamilyStem(name))
    decreases |name|
  {
    FamilyStemIsStripped(name);
    StripsIffMade(FamilyStem(name));
    var numeric, copy := StripNumericSuffix(name), StripCopySuffix(name);
    if numeric.Some? || copy.Some? {
      var mid := if numeric.Some? then numeric.value else copy.value;
      StrippedIffMade(name, mid);
      var number :| AddsSuffix(mid, name, number);
      StemMakesName(mid);
    }
  }

  lemma {:induction false} MadeNamesShareTheStem(name: string, stem: string)
    requires MadeFrom(name, stem)
    ensures FamilyStem(name) == FamilyStem(stem)
    decreases |name|
  {
    if name != stem {
      var mid, number :| |mid| < |name| && AddsSuffix(mid, name, number) && MadeFrom(mid, stem);
      MadeNamesShareTheStem(mid, stem);
      CopiedNameIsInTheFamily(mid, number);
      if AllDigits(number) {
        NumberedNameIsInTheFamily(mid, number);
      }
    }
  }

  /**
   The family stem is the one bare name the given name is made from by numbering and copying; in
   particular a name that is made from no other keeps its own.
  */
  lemma FamilyStemIff(name: string, stem: string)
    ensures FamilyStem(name) == stem <==> Bare(stem) && MadeFrom(name, stem)
    ensures Bare(name) ==> FamilyStem(name) == name
  {
    StemMakesName(name);
    if Bare(stem) && MadeFrom(name, stem) {
      MadeNamesShareTheStem(name, stem);
      StripsIffMade(stem);
    }
    StripsIffMade(name);
  }
}
