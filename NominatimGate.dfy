/** The rate gate in front of the Nominatim reverse-geocoding service: a
    request waits, in one-second sleeps, until at least one whole second
    has passed since the previous request, and then records its own time.
    Times are nanoseconds since the Unix epoch; the clock is an object the
    caller supplies, and the service's answer is an input. */
module NominatimGate {
  import opened Prelude

  const NanosPerSecond: nat := 1_000_000_000

  datatype NominatimData = NominatimData(displayName: string)

  /** A body that did not deserialise, kept whole as text. */
  datatype NominatimDataError = JSONDeserializeError(inputValue: string)

  /** What the service answers: a failed transfer (the source's `expect`
      then panics), or a body together with the display name found in it
      when it deserialises. */
  datatype Response = TransportFailure | Body(text: string, displayName: Option<string>)

  /** The system clock. Sleeping one second moves it one second on. */
  class Clock {
    var now: nat

    constructor (start: nat)
      ensures now == start
    {
      now := start;
    }

    method SleepOneSecond()
      modifies this
      ensures now == old(now) + NanosPerSecond
    {
      now := now + NanosPerSecond;
    }
  }

  /** The gate is shut while fewer than one whole second separate `now`
      from `last`, or while the clock is behind `last`
      (`duration_since` fails). */
  predicate Shut(now: nat, last: nat)
  {
    now < last || (now - last) / NanosPerSecond < 1
  }

  /** The time at which the gate opens for a request made at `now`. */
  function OpensAt(now: nat, last: nat): nat
    decreases last + NanosPerSecond - now
  {
    if Shut(now, last) then OpensAt(now + NanosPerSecond, last) else now
  }

  /** How a request ends, given the service's answer: a failed transfer
      panics, a body without a display name is reported whole, and a
      display name is returned. */
  function Answer(response: Response): (r: Exit<Result<NominatimData, NominatimDataError>>)
    ensures r.Panicked? <==> response.TransportFailure?
    ensures r.Returned? && r.value.Err? ==> r.value.error.inputValue == response.text
    ensures r.Returned? && r.value.Ok? <==> response.Body? && response.displayName.Some?
    ensures r.Returned? && r.value.Ok? ==> r.value.value.displayName == response.displayName.value
  {
    match response
    case TransportFailure => Panicked
    case Body(text, None) => Returned(Err(JSONDeserializeError(text)))
    case Body(_, Some(name)) => Returned(Ok(NominatimData(name)))
  }

  /** The state behind `NominatimData::load_data`: the time of the last
      request, which starts at the Unix epoch. */
  class Geocoder {
    var lastRequest: nat

    constructor ()
      ensures lastRequest == 0
    {
      lastRequest := 0;
    }

    /** `NominatimData::load_data`: wait for the gate, stamp the time,
        then perform the request. */
    method LoadData(clock: Clock, response: Response)
      returns (r: Exit<Result<NominatimData, NominatimDataError>>)
      modifies this, clock
      ensures clock.now == OpensAt(old(clock.now), old(lastRequest))
      ensures lastRequest == clock.now
      ensures r == Answer(response)
    {
      while Shut(clock.now, lastRequest)
        invariant OpensAt(clock.now, lastRequest) == OpensAt(old(clock.now), old(lastRequest))
        invariant lastRequest == old(lastRequest)
        decreases lastRequest + NanosPerSecond - clock.now
      {
        clock.SleepOneSecond();
      }
      lastRequest := clock.now;
      r := Answer(response);
    }
  }

  // ---------------------------------------------------------------------
  // Properties
  // ---------------------------------------------------------------------

  /** The gate is shut exactly while less than one second has passed. */
  lemma ShutWithinOneSecond(now: nat, last: nat)
    ensures Shut(now, last) <==> now < last + NanosPerSecond
  {
  }

  /** The gate opens at the first whole number of one-second sleeps after
      `now` that lies at least one second past `last`: never earlier, and
      not one sleep later than needed. */
  lemma {:induction false} OpensAtIsFirstOpening(now: nat, last: nat)
    ensures last + NanosPerSecond <= OpensAt(now, last)
    ensures now <= OpensAt(now, last)
    ensures (OpensAt(now, last) - now) % NanosPerSecond == 0
    ensures OpensAt(now, last) == now || OpensAt(now, last) < last + 2 * NanosPerSecond
    decreases last + NanosPerSecond - now
  {
    ShutWithinOneSecond(now, last);
    if Shut(now, last) {
      OpensAtIsFirstOpening(now + NanosPerSecond, last);
      var k := OpensAt(now + NanosPerSecond, last) - (now + NanosPerSecond);
      assert OpensAt(now, last) - now == k + NanosPerSecond;
    }
  }

  /** A request made one second or more after the previous one does not
      sleep; in particular the first request after the epoch. */
  lemma NoWaitWhenOpen(now: nat, last: nat)
    requires last + NanosPerSecond <= now
    ensures OpensAt(now, last) == now
  {
  }

  /** Two requests are stamped at least one second apart, whenever the
      second one is made. */
  lemma {:induction false} StampsOneSecondApart(first: nat, t1: nat, t2: nat)
    ensures OpensAt(t2, OpensAt(t1, first)) >= OpensAt(t1, first) + NanosPerSecond
  {
    OpensAtIsFirstOpening(t2, OpensAt(t1, first));
  }
}
