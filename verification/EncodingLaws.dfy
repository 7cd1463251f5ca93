/** What the encodings of an identifier are, digit by digit, and which texts and names are accepted. */
module EncodingLaws {
  import opened Paths
  import opened Wrappers
  import opened Identifiers

  // ---------------------------------------------------------------------------------------------
  // UTF-8 is read strictly
  // ---------------------------------------------------------------------------------------------

  lemma DecodedIsEncoded(bytes: seq<Byte>)
    requires bytes != [] && DecodeScalar(bytes).Some?
    ensures var (c, count) := DecodeScalar(bytes).value; count <= |bytes| && EncodeScalar(c) == bytes[..count]
  {
    var (c, count) := DecodeScalar(bytes).value;
    var n := c as int;
    if count == 2 {
      GroupsBack(0, 0, bytes[0] as int - 0xC0, bytes[1] as int - 0x80, n);
    } else if count == 3 {
      GroupsBack(0, bytes[0] as int - 0xE0, bytes[1] as int - 0x80, bytes[2] as int - 0x80, n);
    } else if count == 4 {
      GroupsBack(bytes[0] as int - 0xF0, bytes[1] as int - 0x80, bytes[2] as int - 0x80, bytes[3] as int - 0x80, n);
    }
  }

  lemma GroupsBack(a: nat, b: nat, c: nat, d: nat, n: nat)
    requires b < 64 && c < 64 && d < 64 && n == ((a * 64 + b) * 64 + c) * 64 + d
    ensures n % 64 == d && n / 64 == (a * 64 + b) * 64 + c
    ensures n / 64 % 64 == c && n / 4096 == a * 64 + b
    ensures n / 4096 % 64 == b && n / 262144 == a
  {
    assert n / 4096 == n / 64 / 64;
    assert n / 262144 == n / 4096 / 64;
  }

  /** Bytes are read as a text exactly when they are the encoding of that text. */
  lemma {:induction false} Utf8Strict(bytes: seq<Byte>, s: string)
    ensures FromUtf8(bytes) == Some(s) <==> Utf8(s) == bytes
    decreases |bytes|
  {
    Utf8RoundTrip(s);
    if FromUtf8(bytes) == Some(s) && bytes != [] {
      var (c, count) := DecodeScalar(bytes).value;
      DecodedIsEncoded(bytes);
      Utf8Strict(bytes[count..], s[1..]);
      assert bytes == bytes[..count] + bytes[count..];
    }
  }

  // ---------------------------------------------------------------------------------------------
  // Base64
  // ---------------------------------------------------------------------------------------------

  const UPPER: string := "ABCDEFGHIJKLMNOPQRSTUVWXYZ"
  const LOWER: string := "abcdefghijklmnopqrstuvwxyz"
  const DIGITS: string := "0123456789"

  /** The alphabet of RFC 4648, section 4. */
  function Alphabet(): (r: string)
    ensures |r| == 64
  {
    UPPER + LOWER + DIGITS + "+/"
  }

  lemma UpperPlace(n: nat)
    requires n < 26
    ensures UPPER[n] as int == 'A' as int + n
  {
  }

  lemma LowerPlace(n: nat)
    requires n < 26
    ensures LOWER[n] as int == 'a' as int + n
  {
  }

  lemma DigitPlace(n: nat)
    requires n < 10
    ensures DIGITS[n] as int == '0' as int + n
  {
  }

  lemma AlphabetAt(n: nat)
    requires n < 64
    ensures Alphabet()[n] == Digit(n)
  {
    if n < 26 {
      UpperPlace(n);
      assert Alphabet()[n] == UPPER[n];
    } else if n < 52 {
      LowerPlace(n - 26);
      assert Alphabet()[n] == LOWER[n - 26];
    } else if n < 62 {
      DigitPlace(n - 52);
      assert Alphabet()[n] == DIGITS[n - 52];
    } else {
      assert Alphabet()[n] == "+/"[n - 62];
    }
  }

  /** A character counts as its place in the alphabet. */
  lemma ValueIsPlace(c: char, n: nat)
    ensures Value(c) == Some(n) <==> n < 64 && Alphabet()[n] == c
  {
    if n < 64 {
      AlphabetAt(n);
      ValueOfDigit(n);
    }
  }

  /** The number a text of digits stands for. */
  function Number(digits: string): nat {
    if digits == "" then 0
    else
      var n := |digits| - 1;
      64 * Number(digits[..n]) + SixBits(digits[n])
  }

  lemma NumberOfTwo(d: string)
    requires |d| == 2
    ensures Number(d) == 64 * SixBits(d[0]) + SixBits(d[1])
  {
    assert d[..1][..0] == "" && d[..1][0] == d[0];
    assert Number(d[..1]) == SixBits(d[0]);
  }

  lemma NumberOfThree(d: string)
    requires |d| == 3
    ensures Number(d) == 64 * (64 * SixBits(d[0]) + SixBits(d[1])) + SixBits(d[2])
  {
    NumberOfTwo(d[..2]);
  }

  lemma NumberOfFour(d: string)
    requires |d| == 4
    ensures Number(d) == 64 * (64 * (64 * SixBits(d[0]) + SixBits(d[1])) + SixBits(d[2])) + SixBits(d[3])
  {
    NumberOfThree(d[..3]);
  }

  /** Three bytes are written as the four digits of their number; one or two are first followed by zero bits. */
  lemma Base64Digits(b: seq<Byte>) returns (d: string)
    requires b != []
    ensures IsDigits(d)
    ensures |b| == 1 ==> |d| == 2 && Base64(b) == d + "==" && Number(d) == 16 * (b[0] as int)
    ensures |b| == 2 ==> |d| == 3 && Base64(b) == d + "=" && Number(d) == 4 * (256 * (b[0] as int) + b[1] as int)
    ensures |b| >= 3 ==>
              |d| == 4 && Base64(b) == d + Base64(b[3..])
              && Number(d) == 256 * (256 * (b[0] as int) + b[1] as int) + b[2] as int
  {
    if |b| == 1 {
      OneByteNumber(b[0]);
      d := OneByteDigits(b[0]);
    } else if |b| == 2 {
      TwoBytesNumber(b[0], b[1]);
      d := TwoBytesDigits(b[0], b[1]);
    } else {
      GroupNumber(b[0], b[1], b[2]);
      d := Group(b[0], b[1], b[2]);
    }
  }

  lemma OneByteNumber(a: Byte)
    ensures IsDigits(OneByteDigits(a)) && Number(OneByteDigits(a)) == 16 * (a as int)
  {
    ValueOfDigit(a / 4);
    ValueOfDigit(a % 4 * 16);
    NumberOfTwo(OneByteDigits(a));
  }

  lemma TwoBytesNumber(a: Byte, b: Byte)
    ensures IsDigits(TwoBytesDigits(a, b)) && Number(TwoBytesDigits(a, b)) == 4 * (256 * (a as int) + b as int)
  {
    ValueOfDigit(a / 4);
    ValueOfDigit(a % 4 * 16 + b / 16);
    ValueOfDigit(b % 16 * 4);
    NumberOfThree(TwoBytesDigits(a, b));
  }

  lemma GroupNumber(a: Byte, b: Byte, c: Byte)
    ensures IsDigits(Group(a, b, c)) && Number(Group(a, b, c)) == 256 * (256 * (a as int) + b as int) + c as int
  {
    ValueOfDigit(a / 4);
    ValueOfDigit(a % 4 * 16 + b / 16);
    ValueOfDigit(b % 16 * 4 + c / 64);
    ValueOfDigit(c % 64);
    NumberOfFour(Group(a, b, c));
  }

  /** What may stand at one place of a padded text. */
  predicate PlaceFits(s: string, i: nat)
    requires i < |s|
  {
    Value(s[i]).Some? || (i == |s| - 1 && s[i] == '=') || (i == |s| - 2 && s[i] == '=' && s[i + 1] == '=')
  }

  /** Whole groups of four digits, of which the last may end with one or two padding characters. */
  predicate Padded(s: string) {
    && |s| % 4 == 0
    && forall i :: 0 <= i < |s| ==> PlaceFits(s, i)
  }

  /** The decoder accepts exactly such texts. */
  lemma {:induction false} AcceptsPadded(s: string)
    ensures FromBase64(s).Some? <==> Padded(s)
  {
    if |s| > 4 || (|s| == 4 && s[3] != '=') {
      AcceptsPadded(s[4..]);
      PaddedTail(s);
    } else if |s| == 4 {
      PaddedFour(s);
    }
  }

  lemma GroupIff(s: string)
    requires |s| >= 4
    ensures FromGroup(s[..4]).Some? <==> Value(s[0]).Some? && Value(s[1]).Some? && Value(s[2]).Some? && Value(s[3]).Some?
  {
    var group := s[..4];
    assert group[0] == s[0] && group[1] == s[1] && group[2] == s[2] && group[3] == s[3];
  }

  lemma TailFits(s: string, i: nat)
    requires 4 <= i < |s|
    ensures PlaceFits(s, i) <==> PlaceFits(s[4..], i - 4)
  {
    assert s[4..][i - 4] == s[i];
    assert i + 1 < |s| ==> s[4..][i - 3] == s[i + 1];
  }

  lemma PaddedTail(s: string)
    requires |s| > 4 || (|s| == 4 && s[3] != '=')
    ensures Padded(s) <==> FromGroup(s[..4]).Some? && Padded(s[4..])
  {
    var tail := s[4..];
    GroupIff(s);
    forall i | 4 <= i < |s| ensures PlaceFits(s, i) <==> PlaceFits(tail, i - 4) {
      TailFits(s, i);
    }
    if Padded(s) {
      assert |s| == 4 || |s| >= 8;
      assert PlaceFits(s, 0) && PlaceFits(s, 1) && PlaceFits(s, 2) && PlaceFits(s, 3);
      forall i | 0 <= i < |tail| ensures PlaceFits(tail, i) {
        assert PlaceFits(s, i + 4) <==> PlaceFits(tail, i + 4 - 4);
      }
    }
    if FromGroup(s[..4]).Some? && Padded(tail) {
      forall i | 0 <= i < |s| ensures PlaceFits(s, i) {
        if i >= 4 {
          assert PlaceFits(tail, i - 4);
        }
      }
    }
  }

  lemma PaddedFour(s: string)
    requires |s| == 4 && s[3] == '='
    ensures Padded(s) <==> FromPaddedGroup(s).Some?
  {
    if Padded(s) {
      assert PlaceFits(s, 0) && PlaceFits(s, 1) && PlaceFits(s, 2);
    }
  }

  // ---------------------------------------------------------------------------------------------
  // Identifiers and names
  // ---------------------------------------------------------------------------------------------

  /** Both containers stand for the root. */
  lemma ContainersAreTheRoot()
    ensures PathFor("NSFileProviderRootContainerItemIdentifier") == Some("")
    ensures PathFor("NSFileProviderWorkingSetContainerItemIdentifier") == Some("")
    ensures IdentifierFor("") == "NSFileProviderRootContainerItemIdentifier"
  {
  }

  /** Behind the prefix "path:" the identifier carries the bytes of the text. */
  predicate Carries(identifier: string, encoded: string, text: string) {
    identifier == "path:" + encoded && FromBase64(Base64DecodeString(encoded)) == Some(Utf8(text))
  }

  /** A path comes from the bytes behind the prefix "path:", read as a text that normalizes to it. */
  lemma PathForIff(identifier: string, path: string)
    requires path != ""
    ensures PathFor(identifier) == Some(path) <==>
            exists encoded, text :: Carries(identifier, encoded, text) && NormalizePath(text) == Some(path)
  {
    if PathFor(identifier) == Some(path) {
      var encoded := identifier[|PATH_PREFIX|..];
      assert identifier == PATH_PREFIX + encoded;
      var bytes := FromBase64(Base64DecodeString(encoded)).value;
      var text := FromUtf8(bytes).value;
      Utf8Strict(bytes, text);
      assert Carries(identifier, encoded, text);
    }
    if encoded, text :| Carries(identifier, encoded, text) && NormalizePath(text) == Some(path) {
      PrefixedIdentifier(encoded);
      Utf8RoundTrip(text);
    }
  }

  /** What the native normalizer accepts: components that are not empty, "." or "..", without backslash and colon. */
  lemma CanonicalIff(path: string)
    ensures Canonical(path) <==>
            forall c :: c in Split(path) ==> c != "" && c != "." && c != ".." && '\\' !in c && ':' !in c
  {
    if Canonical(path) {
      forall c | c in Split(path) ensures c != "" && c != "." && c != ".." && '\\' !in c && ':' !in c {
        var i :| 0 <= i < |Split(path)| && Split(path)[i] == c;
        SafeIff(c);
      }
    } else {
      var i :| 0 <= i < |Split(path)| && !SafeSegment(Split(path)[i]);
      var c := Split(path)[i];
      SafeIff(c);
      assert c in Split(path);
    }
  }

  lemma SafeIff(c: string)
    ensures SafeSegment(c) <==> c != "" && c != "." && c != ".." && '\\' !in c && ':' !in c
  {
  }

  lemma AllDigitsIff(s: string)
    ensures AllDigits(s) <==> s != "" && forall c :: c in s ==> c in DIGITS
  {
    forall c: char ensures '0' <= c <= '9' <==> c in DIGITS {
      DigitIff(c);
    }
    if AllDigits(s) {
      forall c | c in s ensures c in DIGITS {
        var i :| 0 <= i < |s| && s[i] == c;
      }
    } else if s != "" {
      var i :| 0 <= i < |s| && !('0' <= s[i] <= '9');
      assert s[i] in s;
    }
  }

  lemma DigitIff(c: char)
    ensures '0' <= c <= '9' <==> c in DIGITS
  {
    if '0' <= c <= '9' {
      DigitPlace(c as int - '0' as int);
      assert DIGITS[c as int - '0' as int] == c;
    }
    if c in DIGITS {
      var i :| 0 <= i < |DIGITS| && DIGITS[i] == c;
      DigitPlace(i);
    }
  }

  // ---------------------------------------------------------------------------------------------
  // Ignored names
  // ---------------------------------------------------------------------------------------------

  /** The same letters, apart from ASCII capitals where x has small ones. */
  predicate FoldsTo(name: string, x: string) {
    && |name| == |x|
    && forall i :: 0 <= i < |x| ==>
         if 'A' <= name[i] <= 'Z' then x[i] as int == name[i] as int + 32 else x[i] == name[i]
  }

  lemma {:induction false} FoldsIff(name: string, x: string)
    ensures LowerAscii(name) == x <==> FoldsTo(name, x)
  {
    if name != "" && x != "" {
      FoldsIff(name[1..], x[1..]);
      assert LowerAscii(name) == x <==> LowerAscii(name)[0] == x[0] && LowerAscii(name)[1..] == x[1..];
      assert forall i :: 1 <= i < |x| && |name| == |x| ==> name[i] == name[1..][i - 1] && x[i] == x[1..][i - 1];
    }
  }

  const IGNORED_NAMES: set<string> := {".ds_store", ".hashtree", ".trash", "$recycle.bin", "thumbs.db", "desktop.ini"}

  lemma {:induction false} LowerParts(a: string, b: string)
    ensures LowerAscii(a + b) == LowerAscii(a) + LowerAscii(b)
  {
    if a == "" {
      assert a + b == b;
    } else {
      assert (a + b)[1..] == a[1..] + b;
      LowerParts(a[1..], b);
    }
  }

  /** The ignored names: a fixed list and two patterns whatever the case, and three patterns as written. */
  lemma IgnoredNameIff(name: string)
    ensures IsIgnoredName(name) <==>
            || (exists x :: x in IGNORED_NAMES && FoldsTo(name, x))
            || (exists head, tail :: name == head + tail && FoldsTo(head, ".trash-"))
            || (exists head, tail :: name == head + tail && FoldsTo(tail, ".sbak"))
            || (exists tail: string :: name == "._" + tail)
            || (exists head: string :: name == head + "~")
            || name == "#" || (exists middle: string :: name == "#" + middle + "#")
  {
    ListedNameIff(name);
    StartsIff(name, ".trash-");
    EndsIff(name, ".sbak");
    DotUnderscoreIff(name);
    TildeIff(name);
    HashesIff(name);
  }

  lemma ListedNameIff(name: string)
    ensures LowerAscii(name) in IGNORED_NAMES <==> exists x :: x in IGNORED_NAMES && FoldsTo(name, x)
  {
    forall x ensures LowerAscii(name) == x <==> FoldsTo(name, x) {
      FoldsIff(name, x);
    }
  }

  lemma DotUnderscoreIff(name: string)
    ensures StartsWith(name, "._") <==> exists tail: string :: name == "._" + tail
  {
    if StartsWith(name, "._") {
      assert name == "._" + name[2..];
    }
  }

  lemma TildeIff(name: string)
    ensures EndsWith(name, "~") <==> exists head: string :: name == head + "~"
  {
    if EndsWith(name, "~") {
      assert name == name[..|name| - 1] + "~";
    }
    if head: string :| name == head + "~" {
      assert name[|name| - 1..] == "~";
    }
  }

  lemma StartsIff(name: string, x: string)
    ensures StartsWith(LowerAscii(name), x) <==> exists head, tail :: name == head + tail && FoldsTo(head, x)
  {
    if StartsWith(LowerAscii(name), x) {
      var head, tail := name[..|x|], name[|x|..];
      assert name == head + tail;
      LowerParts(head, tail);
      assert LowerAscii(head) == LowerAscii(name)[..|x|] == x;
      FoldsIff(head, x);
    }
    if head, tail :| name == head + tail && FoldsTo(head, x) {
      FoldsIff(head, x);
      LowerParts(head, tail);
    }
  }

  lemma EndsIff(name: string, x: string)
    ensures EndsWith(LowerAscii(name), x) <==> exists head, tail :: name == head + tail && FoldsTo(tail, x)
  {
    if EndsWith(LowerAscii(name), x) {
      var k := |name| - |x|;
      var head, tail := name[..k], name[k..];
      assert name == head + tail;
      LowerParts(head, tail);
      assert LowerAscii(tail) == LowerAscii(name)[k..] == x;
      FoldsIff(tail, x);
    }
    if head, tail :| name == head + tail && FoldsTo(tail, x) {
      FoldsIff(tail, x);
      LowerParts(head, tail);
      assert LowerAscii(name)[|name| - |x|..] == LowerAscii(tail);
    }
  }

  lemma HashesIff(name: string)
    ensures StartsWith(name, "#") && EndsWith(name, "#") <==>
            name == "#" || exists middle: string :: name == "#" + middle + "#"
  {
    if StartsWith(name, "#") && EndsWith(name, "#") {
      if |name| > 1 {
        assert name == "#" + name[1..|name| - 1] + "#";
      }
    }
    if middle: string :| name == "#" + middle + "#" {
      assert name[|name| - 1..] == "#";
    }
  }

  /** A path is ignored exactly when one of its components is. */
  lemma IgnoredIff(p: Path)
    ensures Ignored(p) <==> exists c :: c in p && IsIgnoredName(c)
  {
    if c :| c in p && IsIgnoredName(c) {
      var i :| 0 <= i < |p| && p[i] == c;
    }
  }
}
