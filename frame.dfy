/**
 * Frame extraction shared by both reader threads: a raw serial line such as
 * `Humidity: 45.0 %<TAB>Temperature: 23.5 *C` is reduced to the humidity and
 * temperature payload strings by `strip`, two `in` tests, `split('\t')`,
 * `split(": ")[1]` and `replace` of the unit suffixes, and the payloads are
 * then handed to `float()`.
 */
module Frame {
  import opened Wrappers
  import opened PyStr

  const HumidityMarker := "Humidity:"
  const TemperatureMarker := "Temperature:"
  const FieldSeparator := "\t"
  const LabelSeparator := ": "
  const HumidityUnit := " %"
  const TemperatureUnit := " *C"

  /** What the string operations make of one line, before `float()`. */
  datatype Extraction =
    | Blank        // nothing left after `strip()`: the `if line:` test fails
    | Unmarked     // one of the two markers is missing: the line is passed over
    | IndexError   // `parts[1]` or `split(": ")[1]` does not exist; raised outside the `try`
    | Payload(humidity: string, temperature: string)

  /** Both markers occur in the stripped line. */
  predicate Marked(line: string) {
    Contains(line, HumidityMarker) && Contains(line, TemperatureMarker)
  }

  /**
   * The extraction of DHT22_Python2.py lines 64-69 and DHT22_Python.py lines 41-46.
   * A line that is blank after stripping or lacks a marker is passed over; a
   * marked line raises `IndexError` exactly when it has no tab, or one of its
   * first two tab-separated fields has no `": "`.
   */
  function Extract(raw: string): (e: Extraction)
    ensures e == Blank <==> AllSpace(raw)
    ensures e == Unmarked <==> !AllSpace(raw) && !Marked(Strip(raw))
    ensures e == IndexError <==>
      !AllSpace(raw) && Marked(Strip(raw)) &&
      (!Contains(Strip(raw), FieldSeparator) ||
       !Contains(Split(Strip(raw), FieldSeparator)[0], LabelSeparator) ||
       !Contains(Split(Strip(raw), FieldSeparator)[1], LabelSeparator))
  {
    var line := Strip(raw);
    if line == [] then Blank
    else if !Marked(line) then Unmarked
    else
      var parts := Split(line, FieldSeparator);
      var hs := Split(parts[0], LabelSeparator);
      if |hs| < 2 then IndexError
      else if |parts| < 2 then IndexError
      else
        var ts := Split(parts[1], LabelSeparator);
        if |ts| < 2 then IndexError
        else Payload(Replace(hs[1], HumidityUnit, ""), Replace(ts[1], TemperatureUnit, ""))
  }

  /** The outcome of one pass of the reader loop over a line (lines 64-90 / 41-68). */
  datatype Outcome<N> =
    | Skipped      // blank or unmarked: nothing happens
    | Crashed      // IndexError: escapes the loop and ends the reader thread
    | NotNumeric   // `float()` raised ValueError on a payload: caught and ignored
    | Parsed(temperature: N, humidity: N)

  /**
   * One line through extraction and `float()`. The conversion is the
   * parameter `toFloat`, `None` standing for ValueError; humidity is
   * converted first, but either failure ends the same way.
   */
  function Decode<N>(raw: string, toFloat: string -> Option<N>): (o: Outcome<N>)
    ensures o == Skipped <==> AllSpace(raw) || !Marked(Strip(raw))
    ensures o == Crashed <==> Extract(raw) == IndexError
    ensures o.Parsed? ==>
      (Extract(raw).Payload? && toFloat(Extract(raw).humidity) == Some(o.humidity)
       && toFloat(Extract(raw).temperature) == Some(o.temperature))
    ensures o == NotNumeric <==>
      (Extract(raw).Payload? && (toFloat(Extract(raw).humidity).None? || toFloat(Extract(raw).temperature).None?))
  {
    match Extract(raw)
    case Blank => Skipped
    case Unmarked => Skipped
    case IndexError => Crashed
    case Payload(h, t) =>
      match toFloat(h)
      case None => NotNumeric
      case Some(humidity) =>
        match toFloat(t)
        case None => NotNumeric
        case Some(temperature) => Parsed(temperature, humidity)
  }

  /** The humidity field of the frame the sensor sends for payload `h`. */
  function HumidityField(h: string): string {
    "Humidity" + LabelSeparator + (h + HumidityUnit)
  }

  /** The temperature field of the frame the sensor sends for payload `t`. */
  function TemperatureField(t: string): string {
    "Temperature" + LabelSeparator + (t + TemperatureUnit)
  }

  /** The frame the sensor sends for payloads `h` and `t`. */
  function FrameLine(h: string, t: string): string {
    HumidityField(h) + FieldSeparator + TemperatureField(t)
  }

  /** `s` has no character `c`. */
  predicate Lacks(s: string, c: char) {
    forall k :: 0 <= k < |s| ==> s[k] != c
  }

  /**
   * A payload the wire format can carry unchanged: no tab, no `": "`, no unit
   * suffix, and no final `':'` (which would form `": "` with the space of the unit).
   */
  predicate CleanPayload(x: string) {
    Lacks(x, '\t') && !Contains(x, LabelSeparator) && !Contains(x, HumidityUnit)
    && !Contains(x, TemperatureUnit) && (x == [] || x[|x| - 1] != ':')
  }

  lemma {:induction false} ContainsChar(s: string, c: char)
    ensures Contains(s, [c]) <==> !Lacks(s, c)
  {
    if Contains(s, [c]) {
      var i :| 0 <= i <= |s| && OccursAt(s, [c], i);
      assert s[i .. i + 1][0] == s[i];
    }
    if !Lacks(s, c) {
      var k :| 0 <= k < |s| && s[k] == c;
      assert OccursAt(s, [c], k);
    }
  }

  /** A pattern cannot occur where its first character never does. */
  lemma {:induction false} LacksFirst(s: string, pat: string)
    requires pat != [] && Lacks(s, pat[0])
    ensures !Contains(s, pat)
  {
    forall i: nat | i + |pat| <= |s| ensures !OccursAt(s, pat, i) {
      assert s[i .. i + |pat|][0] == s[i];
    }
  }

  /** A payload of digits and dots, say, is clean. */
  lemma {:induction false} PlainPayload(x: string)
    requires Lacks(x, '\t') && Lacks(x, ' ') && Lacks(x, ':')
    ensures CleanPayload(x)
  {
    LacksFirst(x, LabelSeparator);
    LacksFirst(x, HumidityUnit);
    LacksFirst(x, TemperatureUnit);
  }

  lemma {:induction false} OccursBetween(x: string, pat: string, y: string)
    ensures OccursAt(x + pat + y, pat, |x|)
  {
    assert (x + pat + y)[|x| .. |x| + |pat|] == pat;
  }

  /** Splitting at the first occurrence of the separator. */
  lemma {:induction false} SplitFirst(s: string, sep: string, i: nat)
    requires sep != [] && OccursAt(s, sep, i)
    requires forall j: nat :: j < i ==> !OccursAt(s, sep, j)
    ensures Split(s, sep) == [s[..i]] + Split(s[i + |sep|..], sep)
  {
    assert IndexOf(s, sep) == Some(i);
  }

  /** Splitting `x + sep + y` where `x` never holds the first character of `sep` and `y` holds no `sep`. */
  lemma {:induction false} SplitOnce(x: string, sep: string, y: string)
    requires sep != [] && Lacks(x, sep[0]) && !Contains(y, sep)
    ensures Split(x + sep + y, sep) == [x, y]
  {
    var s := x + sep + y;
    OccursBetween(x, sep, y);
    forall j: nat | j < |x| ensures !OccursAt(s, sep, j) {
      if j + |sep| <= |s| {
        assert s[j .. j + |sep|][0] == x[j];
      }
    }
    SplitFirst(s, sep, |x|);
    assert s[..|x|] == x;
    assert s[|x| + |sep|..] == y;
  }

  /** `x + unit` has no `": "` when `x` has none, does not end in `':'`, and `unit` has no `':'`. */
  lemma {:induction false} NoLabelSeparator(x: string, unit: string)
    requires !Contains(x, LabelSeparator) && (x == [] || x[|x| - 1] != ':') && Lacks(unit, ':')
    ensures !Contains(x + unit, LabelSeparator)
  {
    var s := x + unit;
    forall j: nat | j <= |s| ensures !OccursAt(s, LabelSeparator, j) {
      if j + 2 <= |x| {
        assert s[j .. j + 2] == x[j .. j + 2];
        assert OccursAt(s, LabelSeparator, j) ==> OccursAt(x, LabelSeparator, j);
      } else if j + 2 <= |s| {
        assert s[j .. j + 2][0] == s[j];
        assert s[j] != ':' by {
          if j < |x| { assert s[j] == x[|x| - 1]; } else { assert s[j] == unit[j - |x|]; }
        }
      }
    }
  }

  /** A field `name: x unit` splits at its first `": "` into the name and the rest. */
  lemma {:induction false} SplitLabel(name: string, x: string, unit: string)
    requires Lacks(name, ':') && Lacks(unit, ':')
    requires !Contains(x, LabelSeparator) && (x == [] || x[|x| - 1] != ':')
    ensures Split(name + LabelSeparator + (x + unit), LabelSeparator) == [name, x + unit]
  {
    NoLabelSeparator(x, unit);
    SplitOnce(name, LabelSeparator, x + unit);
  }

  /** Removing a unit suffix that begins with its only space gives back the value. */
  lemma {:induction false} ReplaceUnit(x: string, unit: string)
    requires |unit| >= 2 && unit[0] == ' ' && Lacks(unit[1..], ' ')
    requires !Contains(x, unit)
    ensures Replace(x + unit, unit, "") == x
  {
    var s := x + unit;
    OccursBetween(x, unit, []);
    assert s + [] == s;
    forall j: nat | j < |x| ensures !OccursAt(s, unit, j) {
      if j + |unit| <= |x| {
        assert s[j .. j + |unit|] == x[j .. j + |unit|];
        assert OccursAt(s, unit, j) ==> OccursAt(x, unit, j);
      } else {
        var k := |x| - j;
        assert s[j .. j + |unit|][k] == s[|x|] == unit[0];
        assert unit[1..][k - 1] == unit[k];
      }
    }
    assert IndexOf(s, unit) == Some(|x|);
    assert s[|x| + |unit|..] == [];
    assert s[..|x|] == x;
  }

  lemma {:induction false} FieldsLackTab(h: string, t: string)
    requires Lacks(h, '\t') && Lacks(t, '\t')
    ensures Lacks(HumidityField(h), '\t') && Lacks(TemperatureField(t), '\t')
  {
    var a, b := HumidityField(h), TemperatureField(t);
    forall k | 0 <= k < |a| ensures a[k] != '\t' {
      if 10 <= k < 10 + |h| { assert a[k] == h[k - 10]; }
    }
    forall k | 0 <= k < |b| ensures b[k] != '\t' {
      if 13 <= k < 13 + |t| { assert b[k] == t[k - 13]; }
    }
  }

  /** The two fields joined by any `mid` carry both markers. */
  lemma {:induction false} FieldsMarked(h: string, mid: string, t: string)
    ensures Marked(HumidityField(h) + mid + TemperatureField(t))
  {
    var a, b := HumidityField(h), TemperatureField(t);
    var line := a + mid + b;
    assert line[..9] == a[..9] == HumidityMarker;
    assert OccursAt(line, HumidityMarker, 0);
    assert line[|a| + |mid| .. |a| + |mid| + 12] == b[..12] == TemperatureMarker;
    assert OccursAt(line, TemperatureMarker, |a| + |mid|);
  }

  /** The two fields joined by any `mid` have nothing for `strip()` to remove. */
  lemma {:induction false} FieldsStripped(h: string, mid: string, t: string)
    ensures Strip(HumidityField(h) + mid + TemperatureField(t)) == HumidityField(h) + mid + TemperatureField(t)
  {
    var a, b := HumidityField(h), TemperatureField(t);
    var line := a + mid + b;
    assert line[0] == a[0] == 'H';
    assert line[|line| - 1] == b[|b| - 1] == 'C';
  }

  /** A clean payload followed by either unit loses exactly the unit to `replace(unit, "")`. */
  lemma {:induction false} CleanUnits(x: string)
    requires CleanPayload(x)
    ensures Replace(x + HumidityUnit, HumidityUnit, "") == x
    ensures Replace(x + TemperatureUnit, TemperatureUnit, "") == x
  {
    ReplaceUnit(x, HumidityUnit);
    ReplaceUnit(x, TemperatureUnit);
  }

  /** Extraction of a marked line whose first two fields each split at `": "` into a label and a value. */
  lemma {:induction false} ExtractFields(raw: string, a: string, b: string, hl: string, hv: string, tl: string, tv: string)
    requires Strip(raw) != [] && Marked(Strip(raw))
    requires Split(Strip(raw), FieldSeparator) == [a, b]
    requires Split(a, LabelSeparator) == [hl, hv] && Split(b, LabelSeparator) == [tl, tv]
    ensures Extract(raw) == Payload(Replace(hv, HumidityUnit, ""), Replace(tv, TemperatureUnit, ""))
  {
  }

  /** The labels and units of the frame hold no colon. */
  lemma NoColons()
    ensures Lacks("Humidity", ':') && Lacks("Temperature", ':')
    ensures Lacks(HumidityUnit, ':') && Lacks(TemperatureUnit, ':')
  {
  }

  /** The humidity field splits at its `": "` into its label and the payload with its unit. */
  lemma {:induction false} HumiditySplit(h: string)
    requires CleanPayload(h)
    ensures Split(HumidityField(h), LabelSeparator) == ["Humidity", h + HumidityUnit]
  {
    NoColons();
    SplitLabel("Humidity", h, HumidityUnit);
  }

  /** The temperature field splits at its `": "` into its label and the payload with its unit. */
  lemma {:induction false} TemperatureSplit(t: string)
    requires CleanPayload(t)
    ensures Split(TemperatureField(t), LabelSeparator) == ["Temperature", t + TemperatureUnit]
  {
    NoColons();
    SplitLabel("Temperature", t, TemperatureUnit);
  }

  /** The frame splits at its tab into its two fields. */
  lemma {:induction false} TabSplit(h: string, t: string)
    requires Lacks(h, '\t') && Lacks(t, '\t')
    ensures Split(FrameLine(h, t), FieldSeparator) == [HumidityField(h), TemperatureField(t)]
  {
    FieldsLackTab(h, t);
    ContainsChar(TemperatureField(t), '\t');
    SplitOnce(HumidityField(h), FieldSeparator, TemperatureField(t));
  }

  /** Extraction round trip: the sensor's frame gives back exactly its two payloads. */
  lemma {:induction false} ExtractFrame(h: string, t: string)
    requires CleanPayload(h) && CleanPayload(t)
    ensures Extract(FrameLine(h, t)) == Payload(h, t)
  {
    FieldsStripped(h, FieldSeparator, t);
    FieldsMarked(h, FieldSeparator, t);
    TabSplit(h, t);
    HumiditySplit(h);
    TemperatureSplit(t);
    ExtractFields(FrameLine(h, t), HumidityField(h), TemperatureField(t),
                  "Humidity", h + HumidityUnit, "Temperature", t + TemperatureUnit);
    CleanUnits(h);
    CleanUnits(t);
  }

  /**
   * A well-formed frame is stored exactly when both payloads convert, and
   * then with the converted values in their places; otherwise it is a
   * numeric failure, never a crash.
   */
  lemma {:induction false} DecodeFrame<N>(h: string, t: string, toFloat: string -> Option<N>)
    requires CleanPayload(h) && CleanPayload(t)
    ensures Decode(FrameLine(h, t), toFloat) ==
      if toFloat(h).Some? && toFloat(t).Some? then Parsed(toFloat(t).value, toFloat(h).value)
      else NotNumeric
  {
    ExtractFrame(h, t);
  }

  /** The sample frame's fields, spelled out. */
  lemma SampleFields()
    ensures HumidityField("45.0") == "Humidity: 45.0 %"
    ensures TemperatureField("23.5") == "Temperature: 23.5 *C"
  {
  }

  /** The sample frame is the frame for payloads `45.0` and `23.5`. */
  lemma SampleLine()
    ensures FrameLine("45.0", "23.5") == "Humidity: 45.0 %\tTemperature: 23.5 *C"
  {
    SampleFields();
  }

  /** The sample frame with a space in place of its tab. */
  lemma SpacedSampleLine()
    ensures HumidityField("45.0") + " " + TemperatureField("23.5") == "Humidity: 45.0 % Temperature: 23.5 *C"
  {
    SampleFields();
  }

  /** A sample frame from the sensor yields its two readings as text. */
  lemma SampleFrame()
    ensures Extract("Humidity: 45.0 %\tTemperature: 23.5 *C") == Payload("45.0", "23.5")
  {
    PlainPayload("45.0");
    PlainPayload("23.5");
    ExtractFrame("45.0", "23.5");
    SampleLine();
  }

  /** A line without the markers is passed over. */
  lemma SampleGarbage()
    ensures Extract("garbage") == Unmarked
  {
    LacksFirst("garbage", HumidityMarker);
  }

  /** A non-blank line with both markers but no tab raises IndexError rather than being passed over. */
  lemma {:induction false} MarkedWithoutTab(raw: string)
    requires !AllSpace(raw) && Marked(Strip(raw)) && Lacks(Strip(raw), '\t')
    ensures Extract(raw) == IndexError
  {
    ContainsChar(Strip(raw), '\t');
  }

  /** A frame whose tab became a space crashes the reader instead of being skipped, whatever its payloads. */
  lemma {:induction false} SpacedFrame(h: string, t: string)
    requires Lacks(h, '\t') && Lacks(t, '\t')
    ensures Extract(HumidityField(h) + " " + TemperatureField(t)) == IndexError
  {
    var a, b := HumidityField(h), TemperatureField(t);
    var line := a + " " + b;
    FieldsStripped(h, " ", t);
    FieldsMarked(h, " ", t);
    FieldsLackTab(h, t);
    forall k | 0 <= k < |line| ensures line[k] != '\t' {
      if k < |a| {
        assert line[k] == a[k];
      } else if k > |a| {
        assert line[k] == b[k - |a| - 1];
      }
    }
    MarkedWithoutTab(line);
  }

  /** The sample frame with a space in place of its tab raises IndexError. */
  lemma SampleNoTab()
    ensures Extract("Humidity: 45.0 % Temperature: 23.5 *C") == IndexError
  {
    SpacedFrame("45.0", "23.5");
    SpacedSampleLine();
  }
}
