/** Input of utils.h: a digital pin sampled with a 100 ms debounce rule.
    The clock (millis) and the pin level (digitalRead) are parameters. */
module Debounce {

  /** Values of the target's 32-bit `unsigned long`. */
  const TwoTo32: int := 0x1_0000_0000
  type Millis = x: int | 0 <= x < TwoTo32

  /** Input::debounce_delay. */
  const DebounceDelay: Millis := 100

  /** `now - since` in unsigned 32-bit arithmetic, which wraps. */
  function Elapsed(now: Millis, since: Millis): (e: Millis)
    ensures now >= since ==> e == now - since
    ensures now < since ==> e == now - since + TwoTo32
  {
    (now - since) % TwoTo32
  }

  /** The stored state of an input: its polarity, when a raw difference from
      the stable value was last seen, and the stable value. */
  datatype Input = Input(activeHigh: bool, lastChange: Millis, value: bool)

  /** The field initialisers of Input: active high, never changed, low. */
  function Fresh(): (r: Input)
    ensures r.activeHigh && r.lastChange == 0 && !r.value
  {
    Input(true, 0, false)
  }

  /** Input::raw_value: the logical level of a pin reading under the polarity. */
  function RawValue(input: Input, pinHigh: bool): (r: bool)
    ensures input.activeHigh ==> (r <==> pinHigh)
    ensures !input.activeHigh ==> (r <==> !pinHigh)
  {
    input.activeHigh == pinHigh
  }

  /** Input::init: take one sample as the stable value, stamped with `now`. */
  function Init(input: Input, now: Millis, pinHigh: bool): (r: Input)
    ensures r.activeHigh == input.activeHigh
    ensures r.value == RawValue(input, pinHigh)
    ensures r.lastChange == now
  {
    input.(value := RawValue(input, pinHigh), lastChange := now)
  }

  /** The new state of an input after a poll, and whether an edge was committed. */
  datatype Poll = Poll(input: Input, changed: bool)

  /** Input::changed. A raw sample that differs from the stable value always
      restamps `lastChange`; it is committed only when more than the debounce
      delay has elapsed since the previous stamp. */
  function Changed(input: Input, now: Millis, pinHigh: bool): (r: Poll)
    ensures r.input.activeHigh == input.activeHigh
    ensures r.changed <==>
              RawValue(input, pinHigh) != input.value && Elapsed(now, input.lastChange) > DebounceDelay
    ensures r.input.value == (if r.changed then !input.value else input.value)
    ensures r.input.lastChange == (if RawValue(input, pinHigh) != input.value then now else input.lastChange)
    ensures RawValue(input, pinHigh) == input.value ==> r == Poll(input, false)
  {
    var valueNow := RawValue(input, pinHigh);
    if valueNow != input.value then
      if Elapsed(now, input.lastChange) > DebounceDelay then
        Poll(input.(value := valueNow, lastChange := now), true)
      else
        Poll(input.(lastChange := now), false)
    else
      Poll(input, false)
  }

  /** Right after init, a sample at the same level reports nothing. */
  lemma InitIsQuiet(input: Input, t: Millis, t': Millis, pinHigh: bool)
    ensures Changed(Init(input, t, pinHigh), t', pinHigh) == Poll(Init(input, t, pinHigh), false)
  {
  }

  /** One reading of the clock and the pin. */
  datatype Sample = Sample(now: Millis, pinHigh: bool)

  /** The states and edge reports of a sequence of polls. */
  datatype Trace = Trace(input: Input, edges: seq<bool>)

  /** Polls the input once per sample, in order. */
  function Run(input: Input, samples: seq<Sample>): (r: Trace)
    ensures |r.edges| == |samples|
    ensures r.input.activeHigh == input.activeHigh
    decreases |samples|
  {
    if |samples| == 0 then Trace(input, [])
    else
      var p := Changed(input, samples[0].now, samples[0].pinHigh);
      var rest := Run(p.input, samples[1..]);
      Trace(rest.input, [p.changed] + rest.edges)
  }

  /** The number of committed edges in a trace. */
  function Count(edges: seq<bool>): nat
  {
    if |edges| == 0 then 0 else (if edges[0] then 1 else 0) + Count(edges[1..])
  }

  /** The stable value only ever changes by committed edges, and each one
      flips it: after any run the value is the start value flipped once per
      committed edge. */
  lemma {:induction false} RunParity(input: Input, samples: seq<Sample>)
    ensures var r := Run(input, samples);
            r.input.value == (if Count(r.edges) % 2 == 0 then input.value else !input.value)
    decreases |samples|
  {
    if |samples| > 0 {
      var p := Changed(input, samples[0].now, samples[0].pinHigh);
      RunParity(p.input, samples[1..]);
      var rest := Run(p.input, samples[1..]);
      assert ([p.changed] + rest.edges)[1..] == rest.edges;
    }
  }

  /** Every sample differs from the stable value and comes at most the
      debounce delay after the previous raw difference. */
  predicate KeepsBouncing(input: Input, samples: seq<Sample>)
  {
    && (forall i :: 0 <= i < |samples| ==> RawValue(input, samples[i].pinHigh) != input.value)
    && (|samples| > 0 ==> Elapsed(samples[0].now, input.lastChange) <= DebounceDelay)
    && (forall i :: 0 < i < |samples| ==> Elapsed(samples[i].now, samples[i - 1].now) <= DebounceDelay)
  }

  /** A difference that is re-sampled at least every 100 ms is never
      committed: each sample pushes the stamp forward, so the input keeps its
      old value for as long as polling keeps up. */
  lemma {:induction false} BouncingNeverCommits(input: Input, samples: seq<Sample>)
    requires KeepsBouncing(input, samples)
    ensures true !in Run(input, samples).edges
    ensures Run(input, samples).input.value == input.value
    ensures |samples| > 0 ==> Run(input, samples).input.lastChange == samples[|samples| - 1].now
    decreases |samples|
  {
    if |samples| > 0 {
      var p := Changed(input, samples[0].now, samples[0].pinHigh);
      assert p == Poll(input.(lastChange := samples[0].now), false);
      var rest := samples[1..];
      assert KeepsBouncing(p.input, rest) by {
        forall i | 0 < i < |rest|
          ensures Elapsed(rest[i].now, rest[i - 1].now) <= DebounceDelay
        {
          assert rest[i] == samples[i + 1] && rest[i - 1] == samples[i];
        }
        if |rest| > 0 {
          assert rest[0] == samples[1];
        }
      }
      BouncingNeverCommits(p.input, rest);
    }
  }
}
