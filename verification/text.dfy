/** String and byte helpers shared by the browser side and the device side:
    digit classes, whitespace stripping, substring search, Python-style
    `split`, trailing-NUL removal and UTF-8 encoding. */
module Text {
  import opened Wrappers

  /** One element of a `Uint8Array`. */
  type Byte = b: int | 0 <= b < 256

  // ---------------------------------------------------------------------------
  // Digits and decimal numerals
  // ---------------------------------------------------------------------------

  /** The class `\d` of a JavaScript regular expression without the `u` flag. */
  predicate IsDigit(c: char) {
    '0' <= c <= '9'
  }

  predicate AllDigits(s: string) {
    forall i :: 0 <= i < |s| ==> IsDigit(s[i])
  }

  /** One or more ASCII digits. */
  predicate IsNumeral(s: string) {
    |s| > 0 && AllDigits(s)
  }

  function DigitValue(c: char): nat
    requires IsDigit(c)
  {
    (c as int) - ('0' as int)
  }

  /** The number a string of ASCII digits denotes in base ten. */
  function DecimalValue(s: string): nat
    requires AllDigits(s)
    decreases |s|
  {
    if |s| == 0 then 0 else 10 * DecimalValue(s[..|s| - 1]) + DigitValue(s[|s| - 1])
  }

  // ---------------------------------------------------------------------------
  // Linear search
  // ---------------------------------------------------------------------------

  /** The position of the first element of `xs` satisfying `p`. */
  function FirstWhere<T>(xs: seq<T>, p: T -> bool): (r: Option<nat>)
    ensures r.Some? ==> r.value < |xs| && p(xs[r.value])
    ensures r.Some? ==> forall j :: 0 <= j < r.value ==> !p(xs[j])
    ensures r.None? <==> forall j :: 0 <= j < |xs| ==> !p(xs[j])
    decreases |xs|
  {
    if |xs| == 0 then None
    else if p(xs[0]) then Some(0)
    else match FirstWhere(xs[1..], p)
      case None => None
      case Some(i) => Some(i + 1)
  }

  // ---------------------------------------------------------------------------
  // Whitespace stripping
  // ---------------------------------------------------------------------------

  /** Drops the leading run of characters satisfying `isSpace`. */
  function StripLeft(s: string, isSpace: char -> bool): (r: string)
    ensures |r| <= |s| && r == s[|s| - |r|..]
    ensures forall i :: 0 <= i < |s| - |r| ==> isSpace(s[i])
    ensures r == [] || !isSpace(r[0])
    decreases |s|
  {
    if |s| > 0 && isSpace(s[0]) then StripLeft(s[1..], isSpace) else s
  }

  /** Drops the trailing run of characters satisfying `isSpace`. */
  function StripRight(s: string, isSpace: char -> bool): (r: string)
    ensures |r| <= |s| && r == s[..|r|]
    ensures forall i :: |r| <= i < |s| ==> isSpace(s[i])
    ensures r == [] || !isSpace(r[|r| - 1])
    decreases |s|
  {
    if |s| > 0 && isSpace(s[|s| - 1]) then StripRight(s[..|s| - 1], isSpace) else s
  }

  /** `r` is the slice of `s` that starts at `i`, and everything of `s`
      before or after that slice satisfies `isSpace`. */
  predicate InnerAt(s: string, r: string, i: int, isSpace: char -> bool) {
    0 <= i <= i + |r| <= |s| && r == s[i..i + |r|]
    && (forall k :: 0 <= k < i ==> isSpace(s[k]))
    && (forall k :: i + |r| <= k < |s| ==> isSpace(s[k]))
  }

  /** `r` is what lies between a leading and a trailing run of `isSpace`
      characters of `s`. */
  ghost predicate InnerPart(s: string, r: string, isSpace: char -> bool) {
    exists i :: InnerAt(s, r, i, isSpace)
  }

  /** Drops both the leading and the trailing run of `isSpace` characters. */
  function Strip(s: string, isSpace: char -> bool): (r: string)
    ensures |r| <= |s|
    ensures r == [] || (!isSpace(r[0]) && !isSpace(r[|r| - 1]))
    ensures (forall i :: 0 <= i < |s| ==> isSpace(s[i])) ==> r == []
    ensures s == [] || (!isSpace(s[0]) && !isSpace(s[|s| - 1])) ==> r == s
    ensures InnerPart(s, r, isSpace)
  {
    var l := StripLeft(s, isSpace);
    var r := StripRight(l, isSpace);
    assert r != [] ==> r[0] == l[0];
    StripsLeaveInnerPart(s, isSpace);
    r
  }

  /** Stripping the left and then the right run keeps a slice of `s` with
      only `isSpace` characters cut from either end. */
  lemma StripsLeaveInnerPart(s: string, isSpace: char -> bool)
    ensures InnerPart(s, StripRight(StripLeft(s, isSpace), isSpace), isSpace)
  {
    var l := StripLeft(s, isSpace);
    var r := StripRight(l, isSpace);
    var i := |s| - |l|;
    assert r == s[i..i + |r|];
    forall k | i + |r| <= k < |s|
      ensures isSpace(s[k])
    {
      assert s[k] == l[k - i];
    }
    assert InnerAt(s, r, i, isSpace);
  }

  /** Stripping what is already stripped changes nothing. */
  lemma StripIdempotent(s: string, isSpace: char -> bool)
    ensures Strip(Strip(s, isSpace), isSpace) == Strip(s, isSpace)
  {
  }

  /** The characters `String.prototype.trim` removes: ECMAScript WhiteSpace
      and LineTerminator (section 12.2 and 12.3 of ECMA-262). */
  predicate IsJsSpace(c: char) {
    || c == ' ' || c == '\t' || c == '\n' || c == '\r'
    || c == '\U{B}' || c == '\U{C}' || c == '\U{A0}' || c == '\U{1680}'
    || ('\U{2000}' <= c <= '\U{200A}')
    || c == '\U{2028}' || c == '\U{2029}' || c == '\U{202F}' || c == '\U{205F}'
    || c == '\U{3000}' || c == '\U{FEFF}'
  }

  /** `text.trim()` in JavaScript: the text between its leading and its
      trailing run of JavaScript whitespace. */
  function JsTrim(s: string): (r: string)
    ensures r == [] || (!IsJsSpace(r[0]) && !IsJsSpace(r[|r| - 1]))
    ensures InnerPart(s, r, IsJsSpace)
  {
    Strip(s, IsJsSpace)
  }

  /** The characters MicroPython's argument-less `str.strip()` removes: the
      six ASCII whitespace characters. */
  predicate IsPySpace(c: char) {
    c == ' ' || c == '\t' || c == '\n' || c == '\r' || c == '\U{B}' || c == '\U{C}'
  }

  /** `line.strip()` in MicroPython: the line between its leading and its
      trailing run of ASCII whitespace, so a trailing `\r` goes too. */
  function PyStrip(s: string): (r: string)
    ensures r == [] || (!IsPySpace(r[0]) && !IsPySpace(r[|r| - 1]))
    ensures InnerPart(s, r, IsPySpace)
  {
    Strip(s, IsPySpace)
  }

  // ---------------------------------------------------------------------------
  // Substring search
  // ---------------------------------------------------------------------------

  predicate OccursAt(s: string, t: string, i: int) {
    0 <= i <= |s| - |t| && s[i..i + |t|] == t
  }

  /** `s.includes(t)` in JavaScript. */
  function Contains(s: string, t: string): (b: bool)
    ensures b <==> exists i :: OccursAt(s, t, i)
    decreases |s|
  {
    if |t| > |s| then
      false
    else if s[..|t|] == t then
      assert OccursAt(s, t, 0);
      true
    else
      var b := Contains(s[1..], t);
      if b then
        var i :| OccursAt(s[1..], t, i);
        assert s[1..][i..i + |t|] == s[i + 1..i + 1 + |t|];
        assert OccursAt(s, t, i + 1);
        true
      else
        forall i | OccursAt(s, t, i)
          ensures false
        {
          assert i != 0;
          assert s[1..][i - 1..i - 1 + |t|] == s[i..i + |t|];
          assert OccursAt(s[1..], t, i - 1);
        }
        false
  }

  // ---------------------------------------------------------------------------
  // Python's str.split(sep) and its inverse
  // ---------------------------------------------------------------------------

  /** `s.split(sep)` in Python: every separator splits, empty fields are kept,
      and the result always has at least one field. */
  function Split(s: string, sep: char): (parts: seq<string>)
    ensures |parts| >= 1
    ensures forall i :: 0 <= i < |parts| ==> sep !in parts[i]
    decreases |s|
  {
    if |s| == 0 then
      [""]
    else
      var rest := Split(s[1..], sep);
      if s[0] == sep then [""] + rest else [[s[0]] + rest[0]] + rest[1..]
  }

  /** `sep.join(parts)`. */
  function Join(parts: seq<string>, sep: char): string
    requires |parts| >= 1
    decreases |parts|
  {
    if |parts| == 1 then parts[0] else parts[0] + [sep] + Join(parts[1..], sep)
  }

  /** Joining the fields of a split gives back the original string. */
  lemma {:induction false} JoinSplit(s: string, sep: char)
    ensures Join(Split(s, sep), sep) == s
    decreases |s|
  {
    if |s| > 0 {
      var rest := Split(s[1..], sep);
      JoinSplit(s[1..], sep);
      if s[0] == sep {
        assert Split(s, sep)[1..] == rest;
      } else if |rest| == 1 {
        assert Split(s, sep) == [[s[0]] + rest[0]];
      } else {
        var parts := Split(s, sep);
        assert parts[1..] == rest[1..];
        calc {
          Join(parts, sep);
          ([s[0]] + rest[0]) + [sep] + Join(rest[1..], sep);
          [s[0]] + (rest[0] + [sep] + Join(rest[1..], sep));
          [s[0]] + Join(rest, sep);
          [s[0]] + s[1..];
        }
      }
    }
  }

  /** A separator-free field followed by the separator splits off as one field. */
  lemma {:induction false} SplitCons(a: string, sep: char, b: string)
    requires sep !in a
    ensures Split(a + [sep] + b, sep) == [a] + Split(b, sep)
    decreases |a|
  {
    var s := a + [sep] + b;
    if |a| == 0 {
      assert s[1..] == b;
    } else {
      assert s[1..] == a[1..] + [sep] + b;
      SplitCons(a[1..], sep, b);
      assert [a[0]] + a[1..] == a;
    }
  }

  /** A string without the separator is a single field. */
  lemma {:induction false} SplitNone(a: string, sep: char)
    requires sep !in a
    ensures Split(a, sep) == [a]
    decreases |a|
  {
    if |a| > 0 {
      SplitNone(a[1..], sep);
      assert [a[0]] + a[1..] == a;
    }
  }

  /** Splitting a join of separator-free fields gives back the fields. */
  lemma {:induction false} SplitJoin(parts: seq<string>, sep: char)
    requires |parts| >= 1
    requires forall i :: 0 <= i < |parts| ==> sep !in parts[i]
    ensures Split(Join(parts, sep), sep) == parts
    decreases |parts|
  {
    if |parts| == 1 {
      SplitNone(parts[0], sep);
    } else {
      SplitJoin(parts[1..], sep);
      SplitCons(parts[0], sep, Join(parts[1..], sep));
    }
  }

  /** A join of three parts, spelled out. */
  lemma JoinThree(p: seq<string>, sep: char)
    requires |p| == 3
    ensures Join(p, sep) == p[0] + [sep] + (p[1] + [sep] + p[2])
  {
    assert p[1..][1..] == p[2..];
    assert Join(p[1..], sep) == p[1] + [sep] + p[2];
  }

  // ---------------------------------------------------------------------------
  // Trailing NUL padding
  // ---------------------------------------------------------------------------

  /** `s.replace(/\0+$/, '')`: removes the trailing run of NUL characters and
      nothing else. */
  function StripTrailingNul(s: string): (r: string)
    ensures |r| <= |s| && r == s[..|r|]
    ensures forall i :: |r| <= i < |s| ==> s[i] == '\0'
    ensures r == [] || r[|r| - 1] != '\0'
  {
    StripRight(s, c => c == '\0')
  }

  /** The three properties above pin the result down: any prefix followed only
      by NULs and not itself ending in NUL is the stripped string. */
  lemma TrailingNulUnique(s: string, p: string)
    requires |p| <= |s| && p == s[..|p|]
    requires forall i :: |p| <= i < |s| ==> s[i] == '\0'
    requires p == [] || p[|p| - 1] != '\0'
    ensures p == StripTrailingNul(s)
  {
    var r := StripTrailingNul(s);
    if |r| < |p| {
      assert false;
    } else if |p| < |r| {
      assert false;
    }
  }

  // ---------------------------------------------------------------------------
  // UTF-8 (what TextEncoder.encode produces)
  // ---------------------------------------------------------------------------

  predicate IsAscii(s: string) {
    forall i :: 0 <= i < |s| ==> (s[i] as int) < 0x80
  }

  /** The UTF-8 encoding of one Unicode scalar value (section 3 of RFC 3629). */
  function EncodeChar(c: char): (bs: seq<Byte>)
    ensures 1 <= |bs| <= 4
    ensures |bs| == 1 <==> (c as int) < 0x80
  {
    var n := c as int;
    if n < 0x80 then
      [n]
    else if n < 0x800 then
      [0xC0 + n / 0x40, 0x80 + n % 0x40]
    else if n < 0x1_0000 then
      [0xE0 + n / 0x1000, 0x80 + (n / 0x40) % 0x40, 0x80 + n % 0x40]
    else
      [0xF0 + n / 0x4_0000, 0x80 + (n / 0x1000) % 0x40, 0x80 + (n / 0x40) % 0x40, 0x80 + n % 0x40]
  }

  /** Reads the scalar value back from a 1- to 4-byte UTF-8 sequence. */
  function DecodeChar(bs: seq<Byte>): int
    requires 1 <= |bs| <= 4
  {
    var b: seq<int> := bs;
    if |b| == 1 then b[0]
    else if |b| == 2 then (b[0] - 0xC0) * 0x40 + (b[1] - 0x80)
    else if |b| == 3 then ((b[0] - 0xE0) * 0x40 + (b[1] - 0x80)) * 0x40 + (b[2] - 0x80)
    else (((b[0] - 0xF0) * 0x40 + (b[1] - 0x80)) * 0x40 + (b[2] - 0x80)) * 0x40 + (b[3] - 0x80)
  }

  /** Every character's encoding decodes back to the character. */
  lemma EncodeCharRoundTrip(c: char)
    ensures DecodeChar(EncodeChar(c)) == c as int
  {
    var n := c as int;
    if 0x800 <= n < 0x1_0000 {
      assert (n / 0x40) / 0x40 == n / 0x1000;
    } else if 0x1_0000 <= n {
      assert (n / 0x40) / 0x40 == n / 0x1000;
      assert (n / 0x1000) / 0x40 == n / 0x4_0000;
    }
  }

  /** `new TextEncoder().encode(s)`. */
  function Utf8Encode(s: string): (bs: seq<Byte>)
    ensures |s| <= |bs| <= 4 * |s|
    decreases |s|
  {
    if |s| == 0 then [] else EncodeChar(s[0]) + Utf8Encode(s[1..])
  }

  /** Encoding is character by character: the encoding of two strings laid
      end to end is their encodings laid end to end. */
  lemma {:induction false} Utf8EncodeAppend(a: string, b: string)
    ensures Utf8Encode(a + b) == Utf8Encode(a) + Utf8Encode(b)
    decreases |a|
  {
    if |a| == 0 {
      assert a + b == b;
    } else {
      assert (a + b)[1..] == a[1..] + b;
      Utf8EncodeAppend(a[1..], b);
    }
  }

  /** The bytes whose values are the code points of an ASCII string. */
  function AsciiBytes(s: string): (bs: seq<Byte>)
    requires IsAscii(s)
    ensures |bs| == |s|
  {
    seq(|s|, i requires 0 <= i < |s| => s[i] as int)
  }

  /** Reads each byte as the character with that code point; this is what a
      UTF-8 decoder does to bytes below 0x80. */
  function AsciiChars(bs: seq<Byte>): (s: string)
    ensures |s| == |bs|
  {
    seq(|bs|, i requires 0 <= i < |bs| => bs[i] as char)
  }

  /** An ASCII string encodes to one byte per character, and reading those
      bytes back as characters gives the string. */
  lemma {:induction false} AsciiEncoding(s: string)
    requires IsAscii(s)
    ensures Utf8Encode(s) == AsciiBytes(s)
    ensures AsciiChars(Utf8Encode(s)) == s
    decreases |s|
  {
    if |s| > 0 {
      AsciiEncoding(s[1..]);
      assert Utf8Encode(s) == [s[0] as int] + AsciiBytes(s[1..]);
    }
  }
}
