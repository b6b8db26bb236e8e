/**
 * The Distance Matrix request client: a client that holds the API key read
 * from the configuration, checks a batch request, builds its query string
 * and issues it with exponential backoff, telling transient failures from
 * permanent ones.
 *
 * The network is a `Transport`: the outcome of the k-th request of a call.
 * Sleeping is recorded as the list of delays slept, in milliseconds.
 */
module DistanceMatrixClient {
  import opened Wrappers
  import opened Text

  const BaseUrl := "https://maps.googleapis.com/maps/api/distancematrix/json"
  /** The configuration key (in the DEFAULT section) that holds the API key. */
  const ApiKeyName := "DISTANCE_MATRIX_API_KEY"
  /** The name under which configparser stores and looks up that key. */
  const ApiKeyOption := Lower(ApiKeyName)
  const Modes: seq<string> := ["driving", "walking", "bicycling", "transit"]
  /** The API's cap on origins times destinations in one request. */
  const MaxElements := 100
  /** 0.1 s and 5 s, in milliseconds. */
  const InitialDelayMs := 100
  const MaxDelayMs := 5000
  const TooManyRetries := "Too many retry attempts."

  /**
   * A coordinate as the client formats it: each component is the text that
   * Python's `str()` gives the floating-point number.
   */
  datatype LatLng = LatLng(lat: string, lng: string)

  /** One origin-destination pair of a reply. */
  datatype Element = Element(status: string, distance: Option<int>, duration: Option<int>)
  datatype Row = Row(elements: seq<Element>)
  /** The body of a successful reply, handed back to the caller. */
  datatype Payload = Payload(originAddresses: seq<string>, destinationAddresses: seq<string>, rows: seq<Row>)

  /** What one request yields: a `URLError`, or a parsed JSON reply. */
  datatype Outcome =
    | TransportError
    | Reply(status: string, errorMessage: Option<string>, payload: Payload)

  type Transport = nat -> Outcome

  /** The assertion of `get_distance` that fails first. */
  datatype ValidationError = NoOrigins | NoDestinations | TooManyElements | UnsupportedMode | NoTime

  datatype ClientError =
    | MissingApiKey                          // the assertion in the constructor
    | InvalidRequest(reason: ValidationError) // an assertion in get_distance
    | Raised(message: string)                // `raise Exception(message)`
    | MissingErrorMessage                    // KeyError: a failed reply without `error_message`

  type Param = (string, string)

  /** The request URL before percent-encoding: the base and the query parameters in order. */
  datatype Url = Url(base: string, query: seq<Param>)

  // ---------------------------------------------------------------------------
  // Validation and request construction
  // ---------------------------------------------------------------------------

  /** The assertions that open `get_distance`, in source order; None when all hold. */
  function Validate(origins: seq<LatLng>, destinations: seq<LatLng>, mode: string,
                    arrivalTime: Option<real>, departureTime: Option<real>): (r: Option<ValidationError>)
    ensures r.None? <==>
      && 0 < |origins| && 0 < |destinations|
      && |origins| * |destinations| <= MaxElements
      && mode in Modes
      && (arrivalTime.Some? || departureTime.Some?)
    ensures r == Some(NoOrigins) <==> |origins| == 0
  {
    if |origins| == 0 then Some(NoOrigins)
    else if |destinations| == 0 then Some(NoDestinations)
    else if |origins| * |destinations| > MaxElements then Some(TooManyElements)
    else if mode !in Modes then Some(UnsupportedMode)
    else if arrivalTime.None? && departureTime.None? then Some(NoTime)
    else None
  }

  /** Python's `int(x)` on a float: truncation toward zero. */
  function Truncate(x: real): (n: int)
    ensures 0.0 <= x ==> n as real <= x < n as real + 1.0
    ensures x < 0.0 ==> n as real - 1.0 < x <= n as real
  {
    if 0.0 <= x then x.Floor else -((-x).Floor)
  }

  /** `'{},{}'.format(lat, lng)`. */
  function FormatLatLng(p: LatLng): string
  {
    p.lat + "," + p.lng
  }

  /** `'|'.join(...)` of the formatted coordinates, in input order. */
  function FormatLocations(ps: seq<LatLng>): string
  {
    Join(seq(|ps|, k requires 0 <= k < |ps| => FormatLatLng(ps[k])), '|')
  }

  /** The text of a formatted float never holds either separator. */
  predicate PlainComponents(ps: seq<LatLng>)
  {
    forall k :: 0 <= k < |ps| ==>
      '|' !in ps[k].lat && ',' !in ps[k].lat && '|' !in ps[k].lng && ',' !in ps[k].lng
  }

  function ParseLatLng(s: string): Option<LatLng>
  {
    var parts := Split(s, ',');
    if |parts| == 2 then Some(LatLng(parts[0], parts[1])) else None
  }

  function ParseLatLngs(parts: seq<string>): Option<seq<LatLng>>
  {
    if |parts| == 0 then Some([])
    else
      match ParseLatLng(parts[0])
      case None => None
      case Some(p) =>
        match ParseLatLngs(parts[1..])
        case None => None
        case Some(ps) => Some([p] + ps)
  }

  /** Reads an `origins` or `destinations` value: split on `|`, then each part on `,`. */
  function ParseLocations(s: string): Option<seq<LatLng>>
  {
    ParseLatLngs(Split(s, '|'))
  }

  lemma {:induction false} ParseFormattedLatLngs(ps: seq<LatLng>)
    requires PlainComponents(ps)
    ensures ParseLatLngs(seq(|ps|, k requires 0 <= k < |ps| => FormatLatLng(ps[k]))) == Some(ps)
  {
    var parts := seq(|ps|, k requires 0 <= k < |ps| => FormatLatLng(ps[k]));
    if |ps| > 0 {
      var p := ps[0];
      SplitWithoutSeparator(p.lng, ',');
      SplitAtFirstSeparator(p.lat, p.lng, ',');
      assert p.lat + "," + p.lng == p.lat + [','] + p.lng;
      assert ParseLatLng(parts[0]) == Some(p);
      ParseFormattedLatLngs(ps[1..]);
      assert parts[1..] == seq(|ps[1..]|, k requires 0 <= k < |ps[1..]| => FormatLatLng(ps[1..][k]));
      assert [p] + ps[1..] == ps;
    }
  }

  /**
   * Splitting on `|` and then on `,` recovers the coordinates from the
   * `origins` (or `destinations`) value, in order.
   */
  lemma LocationsRoundTrip(ps: seq<LatLng>)
    requires |ps| > 0
    requires PlainComponents(ps)
    ensures ParseLocations(FormatLocations(ps)) == Some(ps)
  {
    var parts := seq(|ps|, k requires 0 <= k < |ps| => FormatLatLng(ps[k]));
    forall k | 0 <= k < |parts| ensures '|' !in parts[k] {
      assert parts[k] == ps[k].lat + [','] + ps[k].lng;
    }
    SplitJoin(parts, '|');
    ParseFormattedLatLngs(ps);
  }

  /**
   * The time parameter: `arrival_time` whenever an arrival time is given,
   * otherwise `departure_time`; its value is `str(int(t))`.
   */
  function TimeParam(arrivalTime: Option<real>, departureTime: Option<real>): (p: Param)
    requires arrivalTime.Some? || departureTime.Some?
  {
    if arrivalTime.Some? then ("arrival_time", IntToDecimal(Truncate(arrivalTime.value)))
    else ("departure_time", IntToDecimal(Truncate(departureTime.value)))
  }

  /** The URL of the request: the four fixed parameters, then the time parameter. */
  function BuildUrl(apiKey: string, origins: seq<LatLng>, destinations: seq<LatLng>, mode: string,
                    arrivalTime: Option<real>, departureTime: Option<real>): Url
    requires arrivalTime.Some? || departureTime.Some?
  {
    Url(BaseUrl,
        [ ("origins", FormatLocations(origins)),
          ("destinations", FormatLocations(destinations)),
          ("key", apiKey),
          ("mode", mode),
          TimeParam(arrivalTime, departureTime) ])
  }

  /** The value of the first parameter called `name`. */
  function Lookup(query: seq<Param>, name: string): (r: Option<string>)
    ensures r.Some? ==> exists k :: 0 <= k < |query| && query[k] == (name, r.value)
  {
    if |query| == 0 then None
    else if query[0].0 == name then Some(query[0].1)
    else Lookup(query[1..], name)
  }

  /** How many parameters are called `name`. */
  function Count(query: seq<Param>, name: string): nat
  {
    if |query| == 0 then 0
    else (if query[0].0 == name then 1 else 0) + Count(query[1..], name)
  }

  /** Where each parameter of a query laid out as `BuildUrl` lays it out can be looked up. */
  lemma QueryLookups(origins: string, destinations: string, key: string, mode: string, time: Param)
    requires time.0 == "arrival_time" || time.0 == "departure_time"
    ensures var q := [("origins", origins), ("destinations", destinations), ("key", key), ("mode", mode), time];
      && Lookup(q, "origins") == Some(origins)
      && Lookup(q, "destinations") == Some(destinations)
      && Lookup(q, "key") == Some(key)
      && Lookup(q, "mode") == Some(mode)
      && Lookup(q, time.0) == Some(time.1)
  {
    var q := [("origins", origins), ("destinations", destinations), ("key", key), ("mode", mode), time];
    assert "arrival_time"[0] != "destinations"[0] && |"departure_time"| != |"destinations"|;
    assert q[1..][1..][1..][1..] == [time];
    assert Lookup(q[1..][1..][1..], time.0) == Some(time.1);
    assert Lookup(q[1..][1..], time.0) == Some(time.1);
    assert Lookup(q[1..][1..], "key") == Some(key);
    assert Lookup(q[1..][1..][1..], "mode") == Some(mode);
    assert Lookup(q[1..][1..], "mode") == Some(mode);
  }

  /** A query laid out as `BuildUrl` lays it out holds exactly one time parameter. */
  lemma QueryTimeCounts(origins: string, destinations: string, key: string, mode: string, time: Param, name: string)
    requires time.0 == "arrival_time" || time.0 == "departure_time"
    requires name == "arrival_time" || name == "departure_time"
    ensures Count([("origins", origins), ("destinations", destinations), ("key", key), ("mode", mode), time], name)
         == (if time.0 == name then 1 else 0)
  {
    var q := [("origins", origins), ("destinations", destinations), ("key", key), ("mode", mode), time];
    var t := if time.0 == name then 1 else 0;
    assert "arrival_time"[0] != "destinations"[0] && |"departure_time"| != |"destinations"|;
    assert "arrival_time"[0] != "departure_time"[0];
    assert "origins" != name && "destinations" != name && "key" != name && "mode" != name;
    assert q[1..][1..][1..][1..] == [time];
    assert Count([time], name) == t;
    assert Count(q[1..][1..][1..], name) == t;
    assert Count(q[1..][1..], name) == t;
    assert Count(q[1..], name) == t;
  }

  /**
   * What the query string carries: the origins and destinations read back
   * in order, the stored key, the mode, and exactly one time parameter,
   * `arrival_time` if an arrival time was given, holding the truncated time.
   */
  lemma UrlCarriesRequest(apiKey: string, origins: seq<LatLng>, destinations: seq<LatLng>, mode: string,
                          arrivalTime: Option<real>, departureTime: Option<real>)
    requires Validate(origins, destinations, mode, arrivalTime, departureTime).None?
    requires PlainComponents(origins) && PlainComponents(destinations)
    ensures var q := BuildUrl(apiKey, origins, destinations, mode, arrivalTime, departureTime).query;
      && Lookup(q, "origins").Some? && ParseLocations(Lookup(q, "origins").value) == Some(origins)
      && Lookup(q, "destinations").Some? && ParseLocations(Lookup(q, "destinations").value) == Some(destinations)
      && Lookup(q, "key") == Some(apiKey)
      && Lookup(q, "mode") == Some(mode)
      && Count(q, "arrival_time") + Count(q, "departure_time") == 1
      && (Count(q, "arrival_time") == 1 <==> arrivalTime.Some?)
      && var name := if arrivalTime.Some? then "arrival_time" else "departure_time";
         var t := if arrivalTime.Some? then arrivalTime.value else departureTime.value;
         Lookup(q, name).Some? && ParseInt(Lookup(q, name).value) == Some(Truncate(t))
  {
    var time := TimeParam(arrivalTime, departureTime);
    QueryLookups(FormatLocations(origins), FormatLocations(destinations), apiKey, mode, time);
    QueryTimeCounts(FormatLocations(origins), FormatLocations(destinations), apiKey, mode, time, "arrival_time");
    QueryTimeCounts(FormatLocations(origins), FormatLocations(destinations), apiKey, mode, time, "departure_time");
    LocationsRoundTrip(origins);
    LocationsRoundTrip(destinations);
    var t := if arrivalTime.Some? then arrivalTime.value else departureTime.value;
    ParseIntDecimal(Truncate(t));
  }

  // ---------------------------------------------------------------------------
  // The retry loop
  // ---------------------------------------------------------------------------

  /** How a reply is handled: returned, retried, or raised. */
  datatype Verdict = Done(payload: Payload) | Retry | Fail(error: ClientError)

  function Classify(o: Outcome): Verdict
  {
    match o
    case TransportError => Retry
    case Reply(status, message, payload) =>
      if status == "OK" then Done(payload)
      else if status == "UNKNOWN_ERROR" then Retry
      else if message.Some? then Fail(Raised(message.value))
      else Fail(MissingErrorMessage)
  }

  /** A transport failure and an UNKNOWN_ERROR reply both go to the retry step. */
  lemma TransientOutcomes(message: Option<string>, payload: Payload)
    ensures Classify(TransportError) == Classify(Reply("UNKNOWN_ERROR", message, payload)) == Retry
  {
  }

  /** Decreases with every doubling of a positive delay until it passes the cap. */
  function Budget(delay: nat): nat
  {
    if delay <= MaxDelayMs then MaxDelayMs + 1 - delay else 0
  }

  /** The delays slept when every attempt from `delay` on is transient. */
  function Schedule(delay: nat): seq<nat>
    requires delay > 0
    decreases Budget(delay)
  {
    if delay > MaxDelayMs then [] else [delay] + Schedule(2 * delay)
  }

  /** What a call returns, how many requests it issued and what it slept. */
  datatype Run = Run(result: Result<Payload, ClientError>, attempts: nat, sleeps: seq<nat>)

  /** The retry loop from the k-th request on, with `delay` the current delay. */
  function RetryFrom(transport: Transport, k: nat, delay: nat): (run: Run)
    requires delay > 0
    ensures run.attempts == |run.sleeps| + 1
    decreases Budget(delay)
  {
    match Classify(transport(k))
    case Done(payload) => Run(Success(payload), 1, [])
    case Fail(error) => Run(Failure(error), 1, [])
    case Retry =>
      if delay > MaxDelayMs then Run(Failure(Raised(TooManyRetries)), 1, [])
      else
        var rest := RetryFrom(transport, k + 1, 2 * delay);
        Run(rest.result, rest.attempts + 1, [delay] + rest.sleeps)
  }

  lemma ScheduleFromInitialDelay()
    ensures Schedule(InitialDelayMs) == [100, 200, 400, 800, 1600, 3200]
  {
  }

  /** The delays slept are always a prefix of the backoff schedule. */
  lemma {:induction false} SleepsFollowSchedule(transport: Transport, k: nat, delay: nat)
    requires delay > 0
    ensures RetryFrom(transport, k, delay).sleeps <= Schedule(delay)
    decreases Budget(delay)
  {
    if Classify(transport(k)).Retry? && delay <= MaxDelayMs {
      SleepsFollowSchedule(transport, k + 1, 2 * delay);
    }
  }

  /**
   * The loop stops at the first outcome that is not transient, or at the
   * transient one met once the delay has passed the cap: every request but
   * the last was transient, and the last decides the result.
   */
  lemma {:induction false} RunStopsAtFirstDecision(transport: Transport, k: nat, delay: nat)
    requires delay > 0
    ensures var run := RetryFrom(transport, k, delay);
      && (forall i :: k <= i < k + run.attempts - 1 ==> Classify(transport(i)).Retry?)
      && match Classify(transport(k + run.attempts - 1))
         case Done(payload) => run.result == Success(payload)
         case Fail(error) => run.result == Failure(error)
         case Retry => run.result == Failure(Raised(TooManyRetries)) && run.sleeps == Schedule(delay)
    decreases Budget(delay)
  {
    if Classify(transport(k)).Retry? && delay <= MaxDelayMs {
      RunStopsAtFirstDecision(transport, k + 1, 2 * delay);
    }
  }

  /** With only transient outcomes, the loop sleeps the whole schedule and gives up. */
  lemma {:induction false} TransientOnlyExhausts(transport: Transport, k: nat, delay: nat)
    requires delay > 0
    requires forall i :: k <= i ==> Classify(transport(i)).Retry?
    ensures RetryFrom(transport, k, delay) ==
      Run(Failure(Raised(TooManyRetries)), |Schedule(delay)| + 1, Schedule(delay))
    decreases Budget(delay)
  {
    if delay <= MaxDelayMs {
      TransientOnlyExhausts(transport, k + 1, 2 * delay);
    }
  }

  /** Only the verdict of each outcome matters: outcomes handled alike give the same run. */
  lemma {:induction false} SameVerdictsSameRun(t1: Transport, t2: Transport, k: nat, delay: nat)
    requires delay > 0
    requires forall i :: k <= i ==> Classify(t1(i)) == Classify(t2(i))
    ensures RetryFrom(t1, k, delay) == RetryFrom(t2, k, delay)
    decreases Budget(delay)
  {
    if Classify(t1(k)).Retry? && delay <= MaxDelayMs {
      SameVerdictsSameRun(t1, t2, k + 1, 2 * delay);
    }
  }

  // ---------------------------------------------------------------------------
  // One call of get_distance
  // ---------------------------------------------------------------------------

  /** A whole call: its result, the URL it requested (if any), the requests and the sleeps. */
  datatype Trace = Trace(result: Result<Payload, ClientError>, url: Option<Url>, attempts: nat, sleeps: seq<nat>)

  /** What `get_distance` does: validate, build the URL once, then run the retry loop. */
  function GetDistanceTrace(apiKey: string, origins: seq<LatLng>, destinations: seq<LatLng>, mode: string,
                            arrivalTime: Option<real>, departureTime: Option<real>,
                            transport: Transport): Trace
  {
    match Validate(origins, destinations, mode, arrivalTime, departureTime)
    case Some(reason) => Trace(Failure(InvalidRequest(reason)), None, 0, [])
    case None =>
      var run := RetryFrom(transport, 0, InitialDelayMs);
      Trace(run.result, Some(BuildUrl(apiKey, origins, destinations, mode, arrivalTime, departureTime)),
            run.attempts, run.sleeps)
  }

  /**
   * A request that fails a check fails before any request; every other call
   * issues between one and seven requests of the URL holding the stored key,
   * and sleeps a prefix of 100, 200, 400, 800, 1600, 3200 ms.
   */
  lemma CallIsBounded(apiKey: string, origins: seq<LatLng>, destinations: seq<LatLng>, mode: string,
                      arrivalTime: Option<real>, departureTime: Option<real>, transport: Transport)
    ensures var trace := GetDistanceTrace(apiKey, origins, destinations, mode, arrivalTime, departureTime, transport);
      && (trace.url.None? <==> Validate(origins, destinations, mode, arrivalTime, departureTime).Some?)
      && (trace.url.None? ==> trace.attempts == 0 && trace.sleeps == []
                              && trace.result.Failure? && trace.result.error.InvalidRequest?)
      && (trace.url.Some? ==> 1 <= trace.attempts <= 7 && Lookup(trace.url.value.query, "key") == Some(apiKey))
      && trace.sleeps <= [100, 200, 400, 800, 1600, 3200]
  {
    SleepsFollowSchedule(transport, 0, InitialDelayMs);
    ScheduleFromInitialDelay();
    if Validate(origins, destinations, mode, arrivalTime, departureTime).None? {
      QueryLookups(FormatLocations(origins), FormatLocations(destinations), apiKey, mode,
                   TimeParam(arrivalTime, departureTime));
    }
  }

  /** An OK first reply is returned after one request and no sleep. */
  lemma FirstOkReturnsAtOnce(apiKey: string, origins: seq<LatLng>, destinations: seq<LatLng>, mode: string,
                             arrivalTime: Option<real>, departureTime: Option<real>, transport: Transport)
    requires Validate(origins, destinations, mode, arrivalTime, departureTime).None?
    requires transport(0).Reply? && transport(0).status == "OK"
    ensures var trace := GetDistanceTrace(apiKey, origins, destinations, mode, arrivalTime, departureTime, transport);
      trace.result == Success(transport(0).payload) && trace.attempts == 1 && trace.sleeps == []
  {
  }

  /**
   * A reply that is neither OK nor UNKNOWN_ERROR raises its `error_message`
   * at once: no later request and no later sleep.
   */
  lemma PermanentErrorStops(transport: Transport, k: nat, delay: nat)
    requires delay > 0
    requires transport(k).Reply? && transport(k).status !in {"OK", "UNKNOWN_ERROR"}
    requires transport(k).errorMessage.Some?
    ensures RetryFrom(transport, k, delay) == Run(Failure(Raised(transport(k).errorMessage.value)), 1, [])
  {
  }

  /** With only transient outcomes a call raises "Too many retry attempts." after 7 requests and 6 sleeps. */
  lemma TransientOnlyCall(apiKey: string, origins: seq<LatLng>, destinations: seq<LatLng>, mode: string,
                          arrivalTime: Option<real>, departureTime: Option<real>, transport: Transport)
    requires Validate(origins, destinations, mode, arrivalTime, departureTime).None?
    requires forall i :: Classify(transport(i)).Retry?
    ensures GetDistanceTrace(apiKey, origins, destinations, mode, arrivalTime, departureTime, transport)
         == Trace(Failure(Raised(TooManyRetries)),
                  Some(BuildUrl(apiKey, origins, destinations, mode, arrivalTime, departureTime)),
                  7, [100, 200, 400, 800, 1600, 3200])
  {
    TransientOnlyExhausts(transport, 0, InitialDelayMs);
    ScheduleFromInitialDelay();
  }

  /** Three UNKNOWN_ERROR replies and then OK: success after sleeping 100, 200 and 400 ms. */
  lemma ThreeUnknownErrorsThenOk(transport: Transport, payload: Payload)
    requires forall i :: transport(i) == if i < 3 then Reply("UNKNOWN_ERROR", None, payload) else Reply("OK", None, payload)
    ensures RetryFrom(transport, 0, InitialDelayMs) == Run(Success(payload), 4, [100, 200, 400])
  {
    assert Classify(transport(3)) == Done(payload);
    assert RetryFrom(transport, 3, 800) == Run(Success(payload), 1, []);
    assert Classify(transport(2)) == Retry;
    assert RetryFrom(transport, 2, 400) == Run(Success(payload), 2, [400]);
    assert Classify(transport(1)) == Retry;
    assert RetryFrom(transport, 1, 200) == Run(Success(payload), 3, [200, 400]);
    assert Classify(transport(0)) == Retry;
  }

  // ---------------------------------------------------------------------------
  // The client object
  // ---------------------------------------------------------------------------

  class Client {
    var apiKey: string

    constructor (apiKey: string)
      ensures this.apiKey == apiKey
    {
      this.apiKey := apiKey;
    }

    /**
     * `get_distance`: validates the request, builds the URL once and
     * requests it until a reply decides the call or the delay passes the cap.
     */
    method GetDistance(origins: seq<LatLng>, destinations: seq<LatLng>, mode: string,
                       arrivalTime: Option<real>, departureTime: Option<real>, transport: Transport)
      returns (result: Result<Payload, ClientError>, url: Option<Url>, attempts: nat, sleeps: seq<nat>)
      ensures Trace(result, url, attempts, sleeps)
           == GetDistanceTrace(apiKey, origins, destinations, mode, arrivalTime, departureTime, transport)
    {
      var invalid := Validate(origins, destinations, mode, arrivalTime, departureTime);
      if invalid.Some? {
        return Failure(InvalidRequest(invalid.value)), None, 0, [];
      }
      url := Some(BuildUrl(apiKey, origins, destinations, mode, arrivalTime, departureTime));
      result, attempts, sleeps := RequestWithRetries(transport);
    }
  }

  /**
   * The retry loop of `get_distance`: request, then return on OK, raise on
   * any other status but UNKNOWN_ERROR, and otherwise give up once the delay
   * has passed the cap, or sleep and double the delay.
   */
  method RequestWithRetries(transport: Transport) returns (result: Result<Payload, ClientError>, attempts: nat, sleeps: seq<nat>)
    ensures Run(result, attempts, sleeps) == RetryFrom(transport, 0, InitialDelayMs)
  {
    var currentDelay := InitialDelayMs;
    attempts, sleeps := 0, [];
    ghost var whole := RetryFrom(transport, 0, currentDelay);
    while true
      invariant currentDelay > 0
      invariant attempts == |sleeps|
      invariant var rest := RetryFrom(transport, attempts, currentDelay);
        whole == Run(rest.result, attempts + rest.attempts, sleeps + rest.sleeps)
      decreases Budget(currentDelay)
    {
      var outcome := transport(attempts);
      ghost var here := RetryFrom(transport, attempts, currentDelay);
      attempts := attempts + 1;
      if outcome.Reply? {
        if outcome.status == "OK" {
          assert here == Run(Success(outcome.payload), 1, []);
          return Success(outcome.payload), attempts, sleeps;
        } else if outcome.status != "UNKNOWN_ERROR" {
          if outcome.errorMessage.Some? {
            result := Failure(Raised(outcome.errorMessage.value));
          } else {
            result := Failure(MissingErrorMessage);
          }
          assert here == Run(result, 1, []);
          return;
        }
      }
      assert Classify(outcome) == Retry;
      if currentDelay > MaxDelayMs {
        assert here == Run(Failure(Raised(TooManyRetries)), 1, []);
        return Failure(Raised(TooManyRetries)), attempts, sleeps;
      }
      ghost var rest := RetryFrom(transport, attempts, 2 * currentDelay);
      assert here == Run(rest.result, rest.attempts + 1, [currentDelay] + rest.sleeps);
      assert sleeps + ([currentDelay] + rest.sleeps) == (sleeps + [currentDelay]) + rest.sleeps;
      sleeps := sleeps + [currentDelay];
      currentDelay := currentDelay * 2;
    }
  }

  // ---------------------------------------------------------------------------
  // The configuration
  // ---------------------------------------------------------------------------

  /**
   * An option of config.ini stored in its section: configparser's
   * `optionxform` lower-cases the option name, and every look-up of a name in
   * the section is lower-cased the same way.
   */
  function StoreOption(section: map<string, string>, name: string, value: string): map<string, string>
  {
    section[Lower(name) := value]
  }

  /** The key is found whatever the case in which config.ini spells its name. */
  lemma KeyFoundInAnyCase(section: map<string, string>, name: string, value: string)
    requires |name| == |ApiKeyName|
    requires forall k :: 0 <= k < |name| ==> LowerChar(name[k]) == LowerChar(ApiKeyName[k])
    ensures var config := StoreOption(section, name, value);
      ApiKeyOption in config && config[ApiKeyOption] == value
  {
    assert Lower(name) == ApiKeyOption;
  }

  /**
   * The constructor, given the DEFAULT section as configparser stores it:
   * fails unless the section holds the API key, and stores that key.
   */
  method NewClient(config: map<string, string>) returns (r: Result<Client, ClientError>)
    ensures r.Failure? <==> ApiKeyOption !in config
    ensures r.Failure? ==> r.error == MissingApiKey
    ensures r.Success? ==> fresh(r.value) && r.value.apiKey == config[ApiKeyOption]
  {
    if ApiKeyOption !in config {
      return Failure(MissingApiKey);
    }
    var client := new Client(config[ApiKeyOption]);
    return Success(client);
  }
}
