/** The colour codec of the popup's timer callback: the `"R,G,B"` triplet
    pulled out of a CSS colour string, and the newline-framed message written
    to the serial port. */
module Codec {
  import opened Text

  /** The triplet sent when the colour is empty or has fewer than three numbers. */
  const Fallback: string := "0,0,0"

  /** Length of the run of digits at the start of `s`. */
  function LeadingDigits(s: string): (n: nat)
    ensures n <= |s| && AllDigits(s[..n])
    ensures n == |s| || !IsDigit(s[n])
    decreases |s|
  {
    if |s| > 0 && IsDigit(s[0]) then
      var n := 1 + LeadingDigits(s[1..]);
      assert s[..n] == [s[0]] + s[1..][..n - 1];
      n
    else
      0
  }

  /** `s.match(/\d+/g)`, with `[]` standing for the `null` of no match: the
      maximal runs of ASCII digits, left to right. */
  function DigitRuns(s: string): (runs: seq<string>)
    ensures forall i :: 0 <= i < |runs| ==> IsNumeral(runs[i])
    decreases |s|
  {
    if |s| == 0 then []
    else if !IsDigit(s[0]) then DigitRuns(s[1..])
    else
      var n := LeadingDigits(s);
      [s[..n]] + DigitRuns(s[n..])
  }

  /** The colour-parsing block of the callback: `"0,0,0"` for a falsy colour
      or one with fewer than three digit runs, otherwise the first three runs
      joined by commas. */
  function ColorToTriplet(colorValue: string): (t: string)
    ensures IsTriplet(t)
    ensures colorValue == "" || |DigitRuns(colorValue)| < 3 ==> t == Fallback
    ensures colorValue != "" && |DigitRuns(colorValue)| >= 3 ==>
      Split(t, ',') == DigitRuns(colorValue)[..3]
  {
    var runs := DigitRuns(colorValue);
    if colorValue != "" && |runs| >= 3 then
      var t := Join(runs[..3], ',');
      NumeralsSplit(runs[..3]);
      t
    else
      assert Fallback == Join(["0", "0", "0"], ',');
      NumeralsSplit(["0", "0", "0"]);
      Fallback
  }

  /** `${color}\n` */
  function Frame(triplet: string): string {
    triplet + "\n"
  }

  /** The message the callback writes for a colour value. */
  function ColorMessage(colorValue: string): (msg: string)
    ensures |msg| >= 6 && msg[|msg| - 1] == '\n'
    ensures '\n' !in msg[..|msg| - 1]
    ensures IsTriplet(msg[..|msg| - 1])
  {
    var t := ColorToTriplet(colorValue);
    TripletHasNoNewline(t);
    assert (t + "\n")[..|t|] == t;
    Frame(t)
  }

  // ---------------------------------------------------------------------------
  // The shape of a triplet
  // ---------------------------------------------------------------------------

  /** Three comma-separated fields, each one or more ASCII digits. */
  predicate IsTriplet(t: string) {
    var parts := Split(t, ',');
    |parts| == 3 && forall i :: 0 <= i < 3 ==> IsNumeral(parts[i])
  }

  /** Splitting a comma-join of numerals gives the numerals back. */
  lemma NumeralsSplit(parts: seq<string>)
    requires |parts| == 3 && forall i :: 0 <= i < 3 ==> IsNumeral(parts[i])
    ensures Split(Join(parts, ','), ',') == parts
    ensures IsTriplet(Join(parts, ','))
  {
    forall i | 0 <= i < |parts|
      ensures ',' !in parts[i]
    {
      assert forall j :: 0 <= j < |parts[i]| ==> parts[i][j] != ',';
    }
    SplitJoin(parts, ',');
  }

  /** A triplet is made of digits and commas only. */
  lemma TripletChars(t: string)
    requires IsTriplet(t)
    ensures forall i :: 0 <= i < |t| ==> IsDigit(t[i]) || t[i] == ','
  {
    var p := Split(t, ',');
    JoinSplit(t, ',');
    JoinThree(p, ',');
    forall i | 0 <= i < |t|
      ensures IsDigit(t[i]) || t[i] == ','
    {
      if i < |p[0]| {
        assert t[i] == p[0][i];
      } else if i == |p[0]| {
      } else if i < |p[0]| + 1 + |p[1]| {
        assert t[i] == p[1][i - |p[0]| - 1];
      } else if i == |p[0]| + 1 + |p[1]| {
      } else {
        assert t[i] == p[2][i - |p[0]| - |p[1]| - 2];
      }
    }
  }

  lemma TripletHasNoNewline(t: string)
    requires IsTriplet(t)
    ensures '\n' !in t && |t| >= 5
    ensures IsAscii(t)
  {
    TripletChars(t);
    var p := Split(t, ',');
    JoinSplit(t, ',');
    JoinThree(p, ',');
  }

  // ---------------------------------------------------------------------------
  // Digit runs
  // ---------------------------------------------------------------------------

  /** A numeral followed by a non-digit is read as exactly that run. */
  lemma {:induction false} DigitRunsCons(a: string, c: char, rest: string)
    requires IsNumeral(a) && !IsDigit(c)
    ensures DigitRuns(a + [c] + rest) == [a] + DigitRuns(rest)
  {
    var tail := [c] + rest;
    var s := a + tail;
    assert s == a + [c] + rest;
    LeadingRun(a, tail);
    assert s[0] == a[0] && IsDigit(s[0]);
    assert s[..|a|] == a;
    assert s[|a|..] == tail;
    assert DigitRuns(s) == [a] + DigitRuns(tail);
    assert tail[1..] == rest;
    assert DigitRuns(tail) == DigitRuns(rest);
  }

  /** A numeral alone is one run. */
  lemma DigitRunsSingle(a: string)
    requires IsNumeral(a)
    ensures DigitRuns(a) == [a]
  {
    LeadingRun(a, []);
    assert a + [] == a;
    assert a[..|a|] == a && a[|a|..] == [];
  }

  lemma {:induction false} LeadingRun(a: string, rest: string)
    requires AllDigits(a)
    requires rest == [] || !IsDigit(rest[0])
    ensures LeadingDigits(a + rest) == |a|
    decreases |a|
  {
    if |a| > 0 {
      assert (a + rest)[1..] == a[1..] + rest;
      LeadingRun(a[1..], rest);
    }
  }

  /** The runs of a comma-joined triplet are its three fields, so extraction
      applied to its own output changes nothing. */
  lemma TripletRuns(t: string)
    requires IsTriplet(t)
    ensures DigitRuns(t) == Split(t, ',')
  {
    var p := Split(t, ',');
    JoinSplit(t, ',');
    JoinThree(p, ',');
    DigitRunsSingle(p[2]);
    DigitRunsCons(p[1], ',', p[2]);
    DigitRunsCons(p[0], ',', p[1] + [','] + p[2]);
  }

  /** Idempotence: re-extracting from a triplet returns the same triplet. */
  lemma ColorToTripletIdempotent(colorValue: string)
    ensures ColorToTriplet(ColorToTriplet(colorValue)) == ColorToTriplet(colorValue)
  {
    var t := ColorToTriplet(colorValue);
    TripletRuns(t);
    TripletHasNoNewline(t);
    var t' := ColorToTriplet(t);
    JoinSplit(t, ',');
    JoinSplit(t', ',');
    assert Split(t, ',')[..3] == Split(t, ',');
  }

  /** The digits of `s`, in order, with everything else dropped. */
  function DigitsOf(s: string): string
    decreases |s|
  {
    if |s| == 0 then [] else (if IsDigit(s[0]) then [s[0]] else []) + DigitsOf(s[1..])
  }

  function Concat(ss: seq<string>): string
    decreases |ss|
  {
    if |ss| == 0 then [] else ss[0] + Concat(ss[1..])
  }

  lemma {:induction false} DigitsOfAppend(a: string, b: string)
    ensures DigitsOf(a + b) == DigitsOf(a) + DigitsOf(b)
    decreases |a|
  {
    if |a| > 0 {
      assert (a + b)[1..] == a[1..] + b;
      DigitsOfAppend(a[1..], b);
    } else {
      assert a + b == b;
    }
  }

  lemma {:induction false} DigitsOfDigits(a: string)
    requires AllDigits(a)
    ensures DigitsOf(a) == a
    decreases |a|
  {
    if |a| > 0 {
      DigitsOfDigits(a[1..]);
    }
  }

  /** Nothing is lost or reordered: the runs, put back together, are exactly
      the digits of the input. */
  lemma {:induction false} DigitRunsKeepDigits(s: string)
    ensures Concat(DigitRuns(s)) == DigitsOf(s)
    decreases |s|
  {
    if |s| > 0 {
      if !IsDigit(s[0]) {
        DigitRunsKeepDigits(s[1..]);
      } else {
        var n := LeadingDigits(s);
        DigitRunsKeepDigits(s[n..]);
        assert s == s[..n] + s[n..];
        DigitsOfAppend(s[..n], s[n..]);
        DigitsOfDigits(s[..n]);
        assert Concat(DigitRuns(s)) == s[..n] + Concat(DigitRuns(s[n..]));
      }
    }
  }

  /** Characters that are not digits contribute no run. */
  lemma {:induction false} DigitRunsSkip(p: string, rest: string)
    requires forall i :: 0 <= i < |p| ==> !IsDigit(p[i])
    ensures DigitRuns(p + rest) == DigitRuns(rest)
    decreases |p|
  {
    if |p| > 0 {
      assert (p + rest)[1..] == p[1..] + rest;
      DigitRunsSkip(p[1..], rest);
    } else {
      assert p + rest == rest;
    }
  }

  /** A numeral followed by `", "` is read as exactly that run. */
  lemma RunThenCommaSpace(a: string, rest: string)
    requires IsNumeral(a)
    ensures DigitRuns(a + ", " + rest) == [a] + DigitRuns(rest)
  {
    DigitRunsCons(a, ',', " " + rest);
    DigitRunsSkip(" ", rest);
    assert a + ", " + rest == a + [','] + (" " + rest);
  }

  /** A numeral followed by a tail that does not start with a digit. */
  lemma RunThenTail(b: string, tail: string)
    requires IsNumeral(b)
    requires tail == [] || !IsDigit(tail[0])
    ensures DigitRuns(b + tail) == [b] + DigitRuns(tail)
  {
    if tail == [] {
      DigitRunsSingle(b);
      assert b + tail == b;
    } else {
      var c, rest := tail[0], tail[1..];
      assert b + tail == b + [c] + rest;
      DigitRunsCons(b, c, rest);
      assert DigitRuns(tail) == DigitRuns(rest);
    }
  }

  /** A colour written the way `getComputedStyle` writes one: `prefix` is
      `"rgb("` or `"rgba("`, `tail` is `")"` or `", <alpha>)"`. */
  function CssColor(prefix: string, r: string, g: string, b: string, tail: string): string {
    prefix + (r + ", " + (g + ", " + (b + tail)))
  }

  /** The runs of a CSS colour such as `rgb(0, 128, 0)` or `rgba(1, 2, 3, 0.5)`:
      its three channels first, then whatever the tail holds. */
  lemma CssColorRuns(prefix: string, r: string, g: string, b: string, tail: string)
    requires forall i :: 0 <= i < |prefix| ==> !IsDigit(prefix[i])
    requires IsNumeral(r) && IsNumeral(g) && IsNumeral(b)
    requires tail == [] || !IsDigit(tail[0])
    ensures DigitRuns(CssColor(prefix, r, g, b, tail)) == [r, g, b] + DigitRuns(tail)
  {
    var bt := b + tail;
    RunThenTail(b, tail);
    var gt := g + ", " + bt;
    RunThenCommaSpace(g, bt);
    var rt := r + ", " + gt;
    RunThenCommaSpace(r, gt);
    DigitRunsSkip(prefix, rt);
  }

  /** The triplet of such a colour splits into its three numbers. */
  lemma CssColorTriplet(prefix: string, r: string, g: string, b: string, tail: string)
    requires forall i :: 0 <= i < |prefix| ==> !IsDigit(prefix[i])
    requires IsNumeral(r) && IsNumeral(g) && IsNumeral(b)
    requires tail == [] || !IsDigit(tail[0])
    ensures Split(ColorToTriplet(CssColor(prefix, r, g, b, tail)), ',') == [r, g, b]
  {
    var color := CssColor(prefix, r, g, b, tail);
    CssColorRuns(prefix, r, g, b, tail);
    assert DigitRuns(color)[..3] == [r, g, b];
    assert color != "" by {
      assert |color| >= |r|;
    }
  }

  /** For a CSS `rgb(...)`/`rgba(...)` colour the message is the three channels
      and a newline, so an alpha channel is ignored. */
  lemma CssColorMessage(prefix: string, r: string, g: string, b: string, tail: string)
    requires forall i :: 0 <= i < |prefix| ==> !IsDigit(prefix[i])
    requires IsNumeral(r) && IsNumeral(g) && IsNumeral(b)
    requires tail == [] || !IsDigit(tail[0])
    ensures ColorMessage(CssColor(prefix, r, g, b, tail)) == r + "," + g + "," + b + "\n"
  {
    var color := CssColor(prefix, r, g, b, tail);
    CssColorRuns(prefix, r, g, b, tail);
    assert DigitRuns(color)[..3] == [r, g, b];
    assert color != "" by {
      assert |color| >= |r|;
    }
    var t := ColorToTriplet(color);
    assert t == Join([r, g, b], ',');
    JoinThree([r, g, b], ',');
    assert t == r + "," + g + "," + b;
    assert ColorMessage(color) == t + "\n";
  }

  /** A colour without numbers, and the empty colour, fall back to black. */
  lemma FallbackExample()
    ensures ColorMessage("transparent") == "0,0,0\n"
    ensures ColorMessage("") == "0,0,0\n"
  {
    DigitRunsSkip("transparent", "");
    assert "transparent" + "" == "transparent";
  }

  /** The colour of a green timer card reaches the wire as `0,128,0`. */
  lemma GreenExample()
    ensures ColorMessage("rgb(0, 128, 0)") == "0,128,0\n"
  {
    var prefix, r, g, b, tail := "rgb(", "0", "128", "0", ")";
    assert !IsDigit(prefix[0]) && !IsDigit(prefix[1]) && !IsDigit(prefix[2]) && !IsDigit(prefix[3]);
    assert IsDigit(g[0]) && IsDigit(g[1]) && IsDigit(g[2]);
    assert IsNumeral(r) && IsNumeral(g) && IsNumeral(b);
    CssColorMessage(prefix, r, g, b, tail);
    assert CssColor(prefix, r, g, b, tail) == "rgb(0, 128, 0)";
    assert r + "," + g + "," + b + "\n" == "0,128,0\n";
  }
}
