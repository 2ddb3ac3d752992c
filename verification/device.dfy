/** The Pico firmware's receive loop: characters from standard input build up
    a line; a newline ends it, and a line `R,G,B` of three integers sets every
    LED of the strip to that colour, dimmed, and toggles the status LED.
    Anything else is ignored, and the buffer always starts afresh. */
module Device {
  import opened Wrappers
  import opened Text

  const NumLeds := 64

  datatype Rgb = Rgb(r: int, g: int, b: int)

  /** The loop's state: the pending line, the strip and the status LED. */
  datatype Device = Device(buffer: string, pixels: seq<Rgb>, led: bool)

  predicate Valid(d: Device) {
    |d.pixels| == NumLeds
  }

  /** At start-up: nothing buffered, the strip dark. */
  function Boot(led: bool): (d: Device)
    ensures Valid(d) && d.buffer == [] && d.led == led
    ensures forall i :: 0 <= i < NumLeds ==> d.pixels[i] == Rgb(0, 0, 0)
  {
    Device([], seq(NumLeds, _ => Rgb(0, 0, 0)), led)
  }

  /** `int(v * BRIGHTNESS_FACTOR)` with the factor 0.1: a tenth, truncated
      toward zero. */
  function Dim(v: int): (w: int)
    ensures 0 <= v ==> 0 <= w && 10 * w <= v < 10 * w + 10
    ensures v < 0 ==> w <= 0 && v <= 10 * w && 10 * w - 10 < v
  {
    if v >= 0 then v / 10 else -((-v) / 10)
  }

  /** `set_color`: every LED of the strip gets the dimmed colour. */
  function SetColor(c: Rgb): (pixels: seq<Rgb>)
    ensures |pixels| == NumLeds
    ensures forall i :: 0 <= i < NumLeds ==> pixels[i] == Rgb(Dim(c.r), Dim(c.g), Dim(c.b))
  {
    seq(NumLeds, _ => Rgb(Dim(c.r), Dim(c.g), Dim(c.b)))
  }

  /** Python's `int(s)`: a plain run of ASCII digits is read in decimal; any
      other text is decided by `intOf` (`None` where `int` raises). */
  function ParseInt(s: string, intOf: string -> Option<int>): (n: Option<int>)
    ensures IsNumeral(s) ==> n == Some(DecimalValue(s))
    ensures !IsNumeral(s) ==> n == intOf(s)
  {
    if IsNumeral(s) then Some(DecimalValue(s)) else intOf(s)
  }

  /** The colour a complete line asks for: the line without surrounding
      whitespace, non-empty, split at commas into exactly three parts that
      each parse as an integer. */
  function ParseLine(line: string, intOf: string -> Option<int>): (c: Option<Rgb>)
    ensures c.Some? ==> PyStrip(line) != [] && |Split(PyStrip(line), ',')| == 3
    ensures c.Some? ==> var parts := Split(PyStrip(line), ',');
      && ParseInt(parts[0], intOf) == Some(c.value.r)
      && ParseInt(parts[1], intOf) == Some(c.value.g)
      && ParseInt(parts[2], intOf) == Some(c.value.b)
    ensures c.None? && PyStrip(line) != [] && |Split(PyStrip(line), ',')| == 3 ==>
      exists i :: 0 <= i < 3 && ParseInt(Split(PyStrip(line), ',')[i], intOf).None?
  {
    var stripped := PyStrip(line);
    if stripped == [] then None
    else
      var parts := Split(stripped, ',');
      if |parts| != 3 then None
      else match (ParseInt(parts[0], intOf), ParseInt(parts[1], intOf), ParseInt(parts[2], intOf))
        case (Some(r), Some(g), Some(b)) => Some(Rgb(r, g, b))
        case _ => None
  }

  /** One character read from standard input. */
  function Receive(d: Device, ch: char, intOf: string -> Option<int>): (e: Device)
    ensures Valid(d) ==> Valid(e)
    ensures ch != '\n' ==> e == d.(buffer := d.buffer + [ch])
    ensures ch == '\n' ==> e.buffer == []
    ensures ch == '\n' && ParseLine(d.buffer, intOf).None? ==> e == d.(buffer := [])
    ensures ch == '\n' && ParseLine(d.buffer, intOf).Some? ==>
      e.pixels == SetColor(ParseLine(d.buffer, intOf).value) && e.led == !d.led
  {
    if ch != '\n' then d.(buffer := d.buffer + [ch])
    else match ParseLine(d.buffer, intOf)
      case Some(c) => Device([], SetColor(c), !d.led)
      case None => d.(buffer := [])
  }

  /** The loop over a run of input characters. */
  function Feed(d: Device, input: string, intOf: string -> Option<int>): (e: Device)
    ensures Valid(d) ==> Valid(e)
    decreases |input|
  {
    if |input| == 0 then d else Feed(Receive(d, input[0], intOf), input[1..], intOf)
  }

  /** Characters that do not end a line only accumulate. */
  lemma {:induction false} FeedPartial(d: Device, s: string, intOf: string -> Option<int>)
    requires '\n' !in s
    ensures Feed(d, s, intOf) == d.(buffer := d.buffer + s)
    decreases |s|
  {
    if |s| > 0 {
      FeedPartial(d.(buffer := d.buffer + [s[0]]), s[1..], intOf);
      assert d.buffer + [s[0]] + s[1..] == d.buffer + s;
    }
  }

  /** A whole line: the characters gather in the buffer and the newline acts on
      all of them at once. */
  lemma FeedLine(d: Device, s: string, intOf: string -> Option<int>)
    requires '\n' !in s
    ensures Feed(d, s + "\n", intOf) == Receive(d.(buffer := d.buffer + s), '\n', intOf)
  {
    FeedSplit(d, s, "\n", intOf);
    FeedPartial(d, s, intOf);
  }

  /** Feeding two pieces is feeding one after the other. */
  lemma {:induction false} FeedSplit(d: Device, s: string, t: string, intOf: string -> Option<int>)
    ensures Feed(d, s + t, intOf) == Feed(Feed(d, s, intOf), t, intOf)
    decreases |s|
  {
    if |s| > 0 {
      assert (s + t)[1..] == s[1..] + t;
      FeedSplit(Receive(d, s[0], intOf), s[1..], t, intOf);
    } else {
      assert s + t == t;
    }
  }

  /** The line of three plain numerals splits back into them. */
  lemma NumeralLineSplits(a: string, b: string, c: string)
    requires IsNumeral(a) && IsNumeral(b) && IsNumeral(c)
    ensures Split(a + "," + b + "," + c, ',') == [a, b, c]
  {
    var parts := [a, b, c];
    forall i | 0 <= i < 3
      ensures ',' !in parts[i]
    {
      assert forall j :: 0 <= j < |parts[i]| ==> IsDigit(parts[i][j]);
    }
    SplitJoin(parts, ',');
    JoinThree(parts, ',');
    assert a + "," + b + "," + c == a + [','] + (b + [','] + c);
  }

  /** A line that starts and ends with a digit has nothing to strip. */
  lemma NumeralsUnstripped(a: string, b: string, c: string)
    requires IsNumeral(a) && IsNumeral(c)
    ensures PyStrip(a + "," + b + "," + c) == a + "," + b + "," + c
  {
    var line := a + "," + b + "," + c;
    assert line[0] == a[0];
    assert line[|line| - 1] == c[|c| - 1];
    assert !IsPySpace(line[0]) && !IsPySpace(line[|line| - 1]);
  }

  /** A line of three plain numerals joined by commas asks for exactly their
      decimal values, whatever `int` does with other text. */
  lemma NumeralLine(a: string, b: string, c: string, intOf: string -> Option<int>)
    requires IsNumeral(a) && IsNumeral(b) && IsNumeral(c)
    ensures ParseLine(a + "," + b + "," + c, intOf) == Some(Rgb(DecimalValue(a), DecimalValue(b), DecimalValue(c)))
  {
    NumeralsUnstripped(a, b, c);
    NumeralLineSplits(a, b, c);
  }

  /** A line that splits at its commas into three plain numerals asks for
      their decimal values. */
  lemma ThreeNumerals(line: string, intOf: string -> Option<int>)
    requires |Split(line, ',')| == 3
    requires IsNumeral(Split(line, ',')[0]) && IsNumeral(Split(line, ',')[1]) && IsNumeral(Split(line, ',')[2])
    ensures var parts := Split(line, ',');
      ParseLine(line, intOf) == Some(Rgb(DecimalValue(parts[0]), DecimalValue(parts[1]), DecimalValue(parts[2])))
  {
    var parts := Split(line, ',');
    JoinSplit(line, ',');
    JoinThree(parts, ',');
    assert line == parts[0] + "," + parts[1] + "," + parts[2];
    NumeralLine(parts[0], parts[1], parts[2], intOf);
  }

  /** Such a line, sent whole to a device with nothing buffered, sets the
      strip to the three values, dimmed, toggles the status LED and leaves
      the buffer empty. */
  lemma NumeralLineReceived(d: Device, line: string, intOf: string -> Option<int>)
    requires d.buffer == [] && '\n' !in line
    requires |Split(line, ',')| == 3
    requires IsNumeral(Split(line, ',')[0]) && IsNumeral(Split(line, ',')[1]) && IsNumeral(Split(line, ',')[2])
    ensures var parts := Split(line, ',');
      Feed(d, line + "\n", intOf) == Device([], SetColor(Rgb(DecimalValue(parts[0]), DecimalValue(parts[1]), DecimalValue(parts[2]))), !d.led)
  {
    ThreeNumerals(line, intOf);
    FeedLine(d, line, intOf);
    assert d.(buffer := d.buffer + line).buffer == line;
  }
}
