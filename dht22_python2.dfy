/**
 * DHT22_Python2.py: the reader thread stamps samples with `datetime.now()`
 * (its loop is SensorHistory.Run with DateTime stamps), and a second thread
 * writes the history to `Environment.csv` at a chosen interval.
 */
module Dht22Python2 {
  import opened Wrappers
  import opened History

  /** The fields of a Python `datetime`. */
  datatype Instant = Instant(year: int, month: int, day: int, hour: int, minute: int, second: int, microsecond: int)

  predicate IsLeapYear(year: int) {
    year % 4 == 0 && (year % 100 != 0 || year % 400 == 0)
  }

  function DaysInMonth(year: int, month: int): int
    requires 1 <= month <= 12
  {
    if month == 2 then (if IsLeapYear(year) then 29 else 28)
    else if month == 4 || month == 6 || month == 9 || month == 11 then 30
    else 31
  }

  /** The ranges `datetime` enforces on its fields. */
  predicate ValidInstant(d: Instant) {
    1 <= d.year <= 9999 && 1 <= d.month <= 12 && 1 <= d.day <= DaysInMonth(d.year, d.month)
    && 0 <= d.hour < 24 && 0 <= d.minute < 60 && 0 <= d.second < 60 && 0 <= d.microsecond < 1000000
  }

  type DateTime = d: Instant | ValidInstant(d) witness Instant(1970, 1, 1, 0, 0, 0, 0)

  function DigitChar(d: int): char
    requires 0 <= d < 10
  {
    (48 + d) as char
  }

  predicate IsDigit(c: char) {
    48 <= c as int <= 57
  }

  function DigitValue(c: char): nat
    requires IsDigit(c)
  {
    c as int - 48
  }

  /** The number written by a string of decimal digits. */
  function DecimalValue(s: string): nat
    requires forall k :: 0 <= k < |s| ==> IsDigit(s[k])
  {
    if s == [] then 0 else DecimalValue(s[..|s| - 1]) * 10 + DigitValue(s[|s| - 1])
  }

  /** A two-digit zero-padded field, as `%m`, `%d`, `%H`, `%M` and `%S` write it. */
  function Pad2(n: int): (s: string)
    requires 0 <= n < 100
    ensures |s| == 2 && IsDigit(s[0]) && IsDigit(s[1])
    ensures DecimalValue(s) == n
  {
    var s := [DigitChar(n / 10), DigitChar(n % 10)];
    assert DecimalValue(s[..1]) == n / 10 by {
      assert s[..1][..0] == [];
    }
    s
  }

  /** A four-digit zero-padded year, as `%Y` writes it. */
  function Pad4(n: int): (s: string)
    requires 0 <= n < 10000
    ensures |s| == 4 && forall k :: 0 <= k < 4 ==> IsDigit(s[k])
    ensures DecimalValue(s) == n
  {
    var s := [DigitChar(n / 1000), DigitChar(n / 100 % 10), DigitChar(n / 10 % 10), DigitChar(n % 10)];
    assert DecimalValue(s[..1]) == n / 1000 by {
      assert s[..1][..0] == [];
    }
    assert DecimalValue(s[..2]) == n / 100 by {
      assert s[..2][..1] == s[..1];
    }
    assert DecimalValue(s[..3]) == n / 10 by {
      assert s[..3][..2] == s[..2];
    }
    assert s[..4] == s;
    s
  }

  /** `d.strftime('%Y-%m-%d %H:%M:%S')`: second precision, 19 characters. */
  function FormatStamp(d: DateTime): (s: string)
    ensures |s| == 19
  {
    Pad4(d.year) + "-" + Pad2(d.month) + "-" + Pad2(d.day) + " " + Pad2(d.hour) + ":" + Pad2(d.minute) + ":" + Pad2(d.second)
  }

  predicate AllDigits(s: string) {
    forall k :: 0 <= k < |s| ==> IsDigit(s[k])
  }

  /** Reads back a `%Y-%m-%d %H:%M:%S` stamp; the inverse of FormatStamp up to the dropped microseconds. */
  function ParseStamp(s: string): Option<DateTime> {
    if |s| == 19 && s[4] == '-' && s[7] == '-' && s[10] == ' ' && s[13] == ':' && s[16] == ':'
       && AllDigits(s[0..4]) && AllDigits(s[5..7]) && AllDigits(s[8..10])
       && AllDigits(s[11..13]) && AllDigits(s[14..16]) && AllDigits(s[17..19])
    then
      var d := Instant(DecimalValue(s[0..4]), DecimalValue(s[5..7]), DecimalValue(s[8..10]),
                       DecimalValue(s[11..13]), DecimalValue(s[14..16]), DecimalValue(s[17..19]), 0);
      if ValidInstant(d) then var stamp: DateTime := d; Some(stamp) else None
    else None
  }

  /** The exported stamp keeps every field of the `datetime` except the microseconds. */
  lemma {:induction false} ParseFormat(d: DateTime)
    ensures ParseStamp(FormatStamp(d)) == Some(d.(microsecond := 0))
  {
    var s := FormatStamp(d);
    assert s[0..4] == Pad4(d.year);
    assert s[5..7] == Pad2(d.month);
    assert s[8..10] == Pad2(d.day);
    assert s[11..13] == Pad2(d.hour);
    assert s[14..16] == Pad2(d.minute);
    assert s[17..19] == Pad2(d.second);
  }

  /** The choices of the save-interval combobox; the first is its initial value. */
  const SaveIntervals: seq<string> := ["10 minutes", "1 hour", "1 day"]

  /**
   * `save_data`'s sleep, in seconds, for the selected interval: ten
   * minutes, an hour or a day, and ten minutes for anything else.
   */
  function SaveDelay(interval: string): (seconds: nat)
    ensures interval == SaveIntervals[0] ==> seconds == 600
    ensures interval == SaveIntervals[1] ==> seconds == 3600
    ensures interval == SaveIntervals[2] ==> seconds == 86400
    ensures interval !in SaveIntervals ==> seconds == 600
  {
    if interval == "10 minutes" then 10 * 60
    else if interval == "1 hour" then 60 * 60
    else if interval == "1 day" then 24 * 60 * 60
    else 10 * 60
  }

  /** One cell of a row handed to `csv.writer.writerow`. */
  datatype Cell<N> = Text(text: string) | Value(value: N)

  /** The header row of Environment.csv. */
  function Header<N>(): seq<Cell<N>> {
    [Text("Timestamp"), Text("Temperature (\U{B0}C)"), Text("Humidity (%)")]
  }

  /** The row written for the sample at index `i`. */
  function Row<N>(stamp: DateTime, temperature: N, humidity: N): seq<Cell<N>> {
    [Text(FormatStamp(stamp)), Value(temperature), Value(humidity)]
  }

  /**
   * The rows one pass of `save_data` writes: the header, then one row per
   * retained sample in index order. The history is only read.
   */
  method ExportRows<N>(history: SensorHistory<DateTime, N>) returns (rows: seq<seq<Cell<N>>>)
    requires history.Valid()
    ensures |rows| == |history.timestamps| + 1
    ensures rows[0] == Header()
    ensures forall i :: 0 <= i < |history.timestamps| ==>
      rows[i + 1] == Row(history.timestamps[i], history.temperatures[i], history.humidities[i])
  {
    rows := [Header()];
    var i := 0;
    while i < |history.timestamps|
      invariant 0 <= i <= |history.timestamps|
      invariant |rows| == i + 1 && rows[0] == Header()
      invariant forall k :: 0 <= k < i ==>
        rows[k + 1] == Row(history.timestamps[k], history.temperatures[k], history.humidities[k])
    {
      rows := rows + [Row(history.timestamps[i], history.temperatures[i], history.humidities[i])];
      i := i + 1;
    }
  }
}
