/**
 * DHT22_Python.py: the reader thread stamps each stored sample with the
 * seconds elapsed since the thread started (`time.time() - start_time`)
 * and keeps them in the list `times`.
 */
module Dht22Python {
  import opened Wrappers
  import opened Frame
  import opened History

  /** The elapsed time for each clock reading, measured from `startTime`. */
  function Elapsed(clock: seq<real>, startTime: real): (e: seq<real>)
    ensures |e| == |clock|
  {
    seq(|clock|, k requires 0 <= k < |clock| => clock[k] - startTime)
  }

  /**
   * `read_serial_data`: `startTime` is read once when the thread starts,
   * `clock[k]` when the k-th line is stored. Each accepted line appends
   * its elapsed time; the loop ends at the first line raising IndexError.
   */
  method ReadSerialData<N>(history: SensorHistory<real, N>, lines: seq<string>, startTime: real, clock: seq<real>,
                           toFloat: string -> Option<N>)
    returns (crash: Option<nat>)
    requires history.Valid() && |clock| == |lines|
    modifies history
    ensures history.Valid()
    ensures crash.Some? ==> crash.value < |lines| && Extract(lines[crash.value]).IndexError? && NoCrashBefore(lines, crash.value)
    ensures crash.None? ==> NoCrashBefore(lines, |lines|)
    ensures var n := if crash.Some? then crash.value else |lines|;
      history.Readings() == Newest(old(history.Readings()) + Accepted(lines[..n], Elapsed(clock, startTime)[..n], toFloat))
  {
    crash := history.Run(lines, Elapsed(clock, startTime), toFloat);
  }

  /**
   * Each stamp the reader stores is the clock reading of the very line whose
   * values it is stored with, less the start time.
   */
  lemma {:induction false} ElapsedStamps<N>(lines: seq<string>, startTime: real, clock: seq<real>, toFloat: string -> Option<N>, j: nat)
    returns (k: nat)
    requires |clock| == |lines| && j < |Accepted(lines, Elapsed(clock, startTime), toFloat)|
    ensures k < |lines|
    ensures Accepted(lines, Elapsed(clock, startTime), toFloat)[j].stamp == clock[k] - startTime
    ensures Decode(lines[k], toFloat) ==
      Parsed(Accepted(lines, Elapsed(clock, startTime), toFloat)[j].temperature,
             Accepted(lines, Elapsed(clock, startTime), toFloat)[j].humidity)
  {
    k := AcceptedOrigin(lines, Elapsed(clock, startTime), toFloat, j);
  }
}
