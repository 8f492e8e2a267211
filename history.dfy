/**
 * The bounded history both scripts keep in three parallel module-level lists
 * (time stamps, temperatures, humidities), and the reader loop that fills it.
 * The stamp type is a parameter: DHT22_Python2.py stores `datetime`s,
 * DHT22_Python.py elapsed seconds. The numeric type is a parameter too,
 * since `float()` is modelled by the function `toFloat`.
 */
module History {
  import opened Wrappers
  import opened Frame

  /** The lists are trimmed once their length exceeds this. */
  const MaxSamples: nat := 100

  /** One stored sample: the entries at one index of the three lists. */
  datatype Reading<S, N> = Reading(stamp: S, temperature: N, humidity: N)

  /**
   * One list after `append(x)` and, if it is now longer than MaxSamples, one
   * `pop(0)`: the new element is last; a full list loses only its oldest
   * element; a list below capacity loses nothing; capacity is never exceeded.
   */
  function Bounded<X>(s: seq<X>, x: X): (r: seq<X>)
    ensures |r| > 0 && r[|r| - 1] == x
    ensures |s| <= MaxSamples ==> |r| <= MaxSamples
    ensures |s| < MaxSamples ==> r == s + [x]
    ensures |s| == MaxSamples ==> r == s[1..] + [x]
  {
    var grown := s + [x];
    if |grown| > MaxSamples then grown[1..] else grown
  }

  /** The most recent MaxSamples elements of `u`, in their original order. */
  function Newest<X>(u: seq<X>): (r: seq<X>)
    ensures |r| == if |u| <= MaxSamples then |u| else MaxSamples
    ensures r == u[|u| - |r|..]
  {
    if |u| <= MaxSamples then u else u[|u| - MaxSamples..]
  }

  /** Trimming after each append keeps exactly the most recent MaxSamples elements. */
  lemma {:induction false} BoundedNewest<X>(u: seq<X>, x: X)
    ensures Bounded(Newest(u), x) == Newest(u + [x])
  {
    if |u| >= MaxSamples {
      assert (u + [x])[|u| + 1 - MaxSamples..] == u[|u| - MaxSamples..][1..] + [x];
    }
  }

  /** Appending to the accepted readings and then trimming is trimming then appending. */
  lemma {:induction false} NewestAppend<X>(prior: seq<X>, done: seq<X>, x: X)
    ensures Bounded(Newest(prior + done), x) == Newest(prior + (done + [x]))
  {
    BoundedNewest(prior + done, x);
    assert (prior + done) + [x] == prior + (done + [x]);
  }

  /** The readings held by three equally long lists, index by index. */
  function Zip<S, N>(stamps: seq<S>, temperatures: seq<N>, humidities: seq<N>): (r: seq<Reading<S, N>>)
    requires |temperatures| == |stamps| && |humidities| == |stamps|
    ensures |r| == |stamps|
    ensures forall i :: 0 <= i < |r| ==> r[i] == Reading(stamps[i], temperatures[i], humidities[i])
  {
    seq(|stamps|, i requires 0 <= i < |stamps| => Reading(stamps[i], temperatures[i], humidities[i]))
  }

  /** Trimming the three lists in step trims the readings they hold. */
  lemma {:induction false} ZipBounded<S, N>(stamps: seq<S>, temperatures: seq<N>, humidities: seq<N>, r: Reading<S, N>)
    requires |temperatures| == |stamps| && |humidities| == |stamps|
    ensures var z := Zip(Bounded(stamps, r.stamp), Bounded(temperatures, r.temperature), Bounded(humidities, r.humidity));
      z == Bounded(Zip(stamps, temperatures, humidities), r)
  {
    var z := Zip(Bounded(stamps, r.stamp), Bounded(temperatures, r.temperature), Bounded(humidities, r.humidity));
    var w := Bounded(Zip(stamps, temperatures, humidities), r);
    assert |z| == |w|;
    forall i | 0 <= i < |z| ensures z[i] == w[i] {
      if |stamps| + 1 > MaxSamples {
        assert w[i] == (Zip(stamps, temperatures, humidities) + [r])[i + 1];
      } else {
        assert w[i] == (Zip(stamps, temperatures, humidities) + [r])[i];
      }
    }
  }

  /**
   * The readings stored, in order, when the reader loop handles `lines`,
   * the k-th line stamped `clock[k]`: one per line that extracts and converts.
   */
  function Accepted<S, N>(lines: seq<string>, clock: seq<S>, toFloat: string -> Option<N>): seq<Reading<S, N>>
    requires |clock| == |lines|
  {
    if lines == [] then []
    else
      var last := |lines| - 1;
      var earlier := Accepted(lines[..last], clock[..last], toFloat);
      match Decode(lines[last], toFloat)
      case Parsed(temperature, humidity) => earlier + [Reading(clock[last], temperature, humidity)]
      case _ => earlier
  }

  /** Handling one more line adds at most its own reading at the end. */
  lemma {:induction false} AcceptedStep<S, N>(lines: seq<string>, clock: seq<S>, toFloat: string -> Option<N>, i: nat)
    requires |clock| == |lines| && i < |lines|
    ensures Accepted(lines[..i + 1], clock[..i + 1], toFloat) ==
      match Decode(lines[i], toFloat)
      case Parsed(temperature, humidity) => Accepted(lines[..i], clock[..i], toFloat) + [Reading(clock[i], temperature, humidity)]
      case _ => Accepted(lines[..i], clock[..i], toFloat)
  {
    assert lines[..i + 1][..i] == lines[..i];
    assert clock[..i + 1][..i] == clock[..i];
  }

  /**
   * Every accepted reading comes whole from one line: its stamp is that
   * line's clock reading and both of its values are that line's payloads.
   */
  lemma {:induction false} AcceptedOrigin<S, N>(lines: seq<string>, clock: seq<S>, toFloat: string -> Option<N>, j: nat)
    returns (k: nat)
    requires |clock| == |lines| && j < |Accepted(lines, clock, toFloat)|
    ensures k < |lines| && clock[k] == Accepted(lines, clock, toFloat)[j].stamp
    ensures Decode(lines[k], toFloat) ==
      Parsed(Accepted(lines, clock, toFloat)[j].temperature, Accepted(lines, clock, toFloat)[j].humidity)
  {
    var last := |lines| - 1;
    var earlier := Accepted(lines[..last], clock[..last], toFloat);
    if j < |earlier| {
      k := AcceptedOrigin(lines[..last], clock[..last], toFloat, j);
      assert lines[..last][k] == lines[k];
    } else {
      k := last;
    }
  }

  /** None of the first `n` lines raises IndexError. */
  predicate NoCrashBefore(lines: seq<string>, n: nat)
    requires n <= |lines|
  {
    forall k :: 0 <= k < n ==> !Extract(lines[k]).IndexError?
  }

  lemma {:induction false} NoCrashExtend(lines: seq<string>, i: nat)
    requires i < |lines| && NoCrashBefore(lines, i) && !Extract(lines[i]).IndexError?
    ensures NoCrashBefore(lines, i + 1)
  {
  }

  /** The three module-level lists of one script. */
  class SensorHistory<S, N> {
    var timestamps: seq<S>
    var temperatures: seq<N>
    var humidities: seq<N>

    /** The lists grow and shrink together and never exceed MaxSamples. */
    ghost predicate Valid()
      reads this
    {
      |temperatures| == |timestamps| && |humidities| == |timestamps| && |timestamps| <= MaxSamples
    }

    /** The stored readings, oldest first. */
    ghost function Readings(): seq<Reading<S, N>>
      reads this
      requires Valid()
    {
      Zip(timestamps, temperatures, humidities)
    }

    /** The three lists start empty. */
    constructor ()
      ensures Valid()
      ensures timestamps == [] && temperatures == [] && humidities == []
    {
      timestamps, temperatures, humidities := [], [], [];
    }

    /**
     * Append one sample to each list, then, if the lists are longer than
     * MaxSamples, `pop(0)` each once.
     */
    method Push(stamp: S, temperature: N, humidity: N)
      requires Valid()
      modifies this
      ensures Valid()
      ensures timestamps == Bounded(old(timestamps), stamp)
      ensures temperatures == Bounded(old(temperatures), temperature)
      ensures humidities == Bounded(old(humidities), humidity)
      ensures Readings() == Bounded(old(Readings()), Reading(stamp, temperature, humidity))
    {
      ZipBounded(timestamps, temperatures, humidities, Reading(stamp, temperature, humidity));
      timestamps := timestamps + [stamp];
      temperatures := temperatures + [temperature];
      humidities := humidities + [humidity];
      if |timestamps| > MaxSamples {
        timestamps := timestamps[1..];
        temperatures := temperatures[1..];
        humidities := humidities[1..];
      }
    }

    /**
     * One pass of the reader loop over a line already read and decoded.
     * Only a line that extracts and converts changes the lists.
     */
    method Ingest(line: string, stamp: S, toFloat: string -> Option<N>) returns (o: Outcome<N>)
      requires Valid()
      modifies this
      ensures Valid()
      ensures o == Decode(line, toFloat)
      ensures o.Parsed? ==> timestamps == Bounded(old(timestamps), stamp)
      ensures o.Parsed? ==> temperatures == Bounded(old(temperatures), o.temperature)
      ensures o.Parsed? ==> humidities == Bounded(old(humidities), o.humidity)
      ensures o.Parsed? ==> Readings() == Bounded(old(Readings()), Reading(stamp, o.temperature, o.humidity))
      ensures !o.Parsed? ==> timestamps == old(timestamps) && temperatures == old(temperatures) && humidities == old(humidities)
    {
      o := Decode(line, toFloat);
      if o.Parsed? {
        Push(stamp, o.temperature, o.humidity);
      }
    }

    /**
     * One pass of the reader loop over `lines[i]`, stamped `clock[i]`, with
     * `prior` the readings held before the loop began: unless the line
     * raises IndexError, the readings afterwards are those of `prior` and of
     * the lines up to and including `lines[i]`, trimmed to the newest.
     */
    method Step(lines: seq<string>, clock: seq<S>, toFloat: string -> Option<N>, i: nat, ghost prior: seq<Reading<S, N>>)
      returns (crashed: bool)
      requires Valid() && |clock| == |lines| && i < |lines|
      requires Readings() == Newest(prior + Accepted(lines[..i], clock[..i], toFloat))
      modifies this
      ensures Valid()
      ensures crashed == Extract(lines[i]).IndexError?
      ensures crashed ==> Readings() == old(Readings())
      ensures !crashed ==> Readings() == Newest(prior + Accepted(lines[..i + 1], clock[..i + 1], toFloat))
    {
      ghost var done := Accepted(lines[..i], clock[..i], toFloat);
      var o := Ingest(lines[i], clock[i], toFloat);
      crashed := o.Crashed?;
      AcceptedStep(lines, clock, toFloat, i);
      if o.Parsed? {
        var r := Reading(clock[i], o.temperature, o.humidity);
        assert Accepted(lines[..i + 1], clock[..i + 1], toFloat) == done + [r];
        NewestAppend(prior, done, r);
      }
    }

    /**
     * The reader loop over the lines that arrive, `clock[k]` being the time
     * read when the k-th line is stored. It stops at the first line that
     * raises IndexError and reports its index. Afterwards the lists hold
     * the most recent MaxSamples readings of what they held before followed
     * by everything accepted.
     */
    method Run(lines: seq<string>, clock: seq<S>, toFloat: string -> Option<N>) returns (crash: Option<nat>)
      requires Valid() && |clock| == |lines|
      modifies this
      ensures Valid()
      ensures crash.Some? ==> crash.value < |lines| && Extract(lines[crash.value]).IndexError? && NoCrashBefore(lines, crash.value)
      ensures crash.None? ==> NoCrashBefore(lines, |lines|)
      ensures var n := if crash.Some? then crash.value else |lines|;
        Readings() == Newest(old(Readings()) + Accepted(lines[..n], clock[..n], toFloat))
    {
      ghost var prior := Readings();
      assert prior + Accepted(lines[..0], clock[..0], toFloat) == prior;
      var i := 0;
      while i < |lines|
        invariant 0 <= i <= |lines|
        invariant Valid()
        invariant NoCrashBefore(lines, i)
        invariant Readings() == Newest(prior + Accepted(lines[..i], clock[..i], toFloat))
      {
        var crashed := Step(lines, clock, toFloat, i, prior);
        if crashed {
          return Some(i);
        }
        NoCrashExtend(lines, i);
        i := i + 1;
      }
      assert lines[..i] == lines;
      assert clock[..i] == clock;
      crash := None;
    }
  }
}
