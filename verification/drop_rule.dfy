/** The price-drop decision shared by both entry points: an alert fires, and
    the baseline is replaced, only for a truthy current price strictly below
    the baseline. */
module DropRule {
  import opened Wrappers

  /** Subject line of the price-drop e-mail. */
  const PriceDropSubject := "Price Drop Alert!"

  /** One e-mail handed to the mail relay: its subject, the product URL and the
      two prices the body reports. Delivery failures are swallowed by the sender,
      so an alert is recorded whether or not it arrived. */
  datatype Alert = Alert(subject: string, url: string, currentPrice: Option<real>, startingPrice: Option<real>)

  /** JavaScript truthiness of a parsed price: `null`, `NaN` and `0` are falsy. */
  predicate Truthy(p: Option<real>) {
    p.Some? && p.value != 0.0
  }

  /** `currentPrice && currentPrice < startingPrice`; a `NaN` baseline compares false with everything. */
  predicate IsDrop(current: Option<real>, baseline: Option<real>) {
    Truthy(current) && baseline.Some? && current.value < baseline.value
  }

  /** The baseline after one observation. */
  function NextBaseline(baseline: Option<real>, current: Option<real>): (b: Option<real>)
    ensures baseline.Some? ==> b.Some? && b.value <= baseline.value
    ensures baseline.None? ==> b.None?
    ensures current.None? || current == Some(0.0) ==> b == baseline
    ensures b != baseline <==> IsDrop(current, baseline)
    ensures IsDrop(current, baseline) ==> b == current
  {
    if IsDrop(current, baseline) then current else baseline
  }

  /** The baseline after a series of runs, each observing one price. */
  function Track(baseline: Option<real>, readings: seq<Option<real>>): Option<real>
    decreases |readings|
  {
    if |readings| == 0 then baseline
    else Track(NextBaseline(baseline, readings[0]), readings[1..])
  }

  /** `m` is the lowest of the initial baseline and every truthy price observed. */
  ghost predicate IsLowestSeen(m: real, initial: real, readings: seq<Option<real>>) {
    && m <= initial
    && (forall i | 0 <= i < |readings| && Truthy(readings[i]) :: m <= readings[i].value)
    && (m == initial || exists i | 0 <= i < |readings| :: Truthy(readings[i]) && readings[i].value == m)
  }

  /** Across runs the baseline is the lowest price seen so far. */
  lemma {:induction false} TrackIsLowestSeen(initial: real, readings: seq<Option<real>>)
    ensures Track(Some(initial), readings).Some?
    ensures IsLowestSeen(Track(Some(initial), readings).value, initial, readings)
    decreases |readings|
  {
    if |readings| > 0 {
      var b := NextBaseline(Some(initial), readings[0]);
      var rest := readings[1..];
      TrackIsLowestSeen(b.value, rest);
      var m := Track(b, rest).value;
      assert Track(Some(initial), readings) == Track(b, rest);
      forall i | 0 <= i < |readings| && Truthy(readings[i])
        ensures m <= readings[i].value
      {
        if i > 0 {
          assert readings[i] == rest[i - 1];
        }
      }
      if m != initial {
        if m == b.value {
          assert Truthy(readings[0]) && readings[0].value == m;
        } else {
          var j :| 0 <= j < |rest| && Truthy(rest[j]) && rest[j].value == m;
          assert readings[j + 1] == rest[j];
        }
      }
    }
  }

  /** A baseline that reads as `NaN` never compares below anything, so it is never replaced. */
  lemma {:induction false} NanBaselineSticks(readings: seq<Option<real>>)
    ensures Track(None, readings) == None
  {
    if |readings| > 0 {
      NanBaselineSticks(readings[1..]);
    }
  }
}
