/**
 The circuit breaker of plugins/llmrouter/circuitbreaker.go. Clock readings are inputs, in nanoseconds;
 `Allow` reads the clock once to check the timeout and once more to stamp the transition.
 Error rates are exact quotients.
 */
module CircuitBreaker {

  datatype State = Closed | Open | HalfOpen

  datatype Config = Config(errorRateThreshold: real, minRequests: int, halfOpenMaxRequests: int, openTimeoutMs: int) {
    function Timeout(): int { openTimeoutMs * 1_000_000 }

    /** The probes an episode counts; a negative setting admits none. */
    function CountedProbes(): nat { if halfOpenMaxRequests > 0 then halfOpenMaxRequests else 0 }
  }

  /** The fields of a breaker as a value. */
  datatype Breaker = Breaker(state: State, totalReqs: int, failedReqs: int, lastStateChange: int, halfOpenReqs: int)

  function NewBreaker(now: int): Breaker {
    Breaker(Closed, 0, 0, now, 0)
  }

  function ToOpen(b: Breaker, now: int): Breaker {
    if b.state != Open then b.(state := Open, lastStateChange := now, halfOpenReqs := 0) else b
  }

  function Update(config: Config, b: Breaker, now: int): Breaker
    requires b.totalReqs > 0
  {
    match b.state
    case Closed =>
      if b.totalReqs >= config.minRequests && b.failedReqs as real / b.totalReqs as real >= config.errorRateThreshold
      then ToOpen(b, now) else b
    case Open => b
    case HalfOpen =>
      if b.failedReqs > 0 then ToOpen(b, now)
      else if b.halfOpenReqs >= config.halfOpenMaxRequests then NewBreaker(now)
      else b
  }

  /** The counters of every reachable breaker. */
  predicate Counts(b: Breaker) {
    0 <= b.failedReqs <= b.totalReqs && b.halfOpenReqs >= 0
  }

  datatype Event =
    | Ask(checked: int, stamped: int)
    | Success(now: int)
    | Failure(now: int)
    | ResetAt(now: int)
  {
    function Begin(): int { if Ask? then checked else now }
    function End(): int { if Ask? then stamped else now }
  }

  predicate Admits(config: Config, b: Breaker, e: Event) {
    e.Ask? &&
    match b.state
    case Closed => true
    case Open => e.checked - b.lastStateChange >= config.Timeout()
    case HalfOpen => b.halfOpenReqs < config.halfOpenMaxRequests
  }

  function Step(config: Config, b: Breaker, e: Event): (r: Breaker)
    requires Counts(b)
    ensures Counts(r)
  {
    match e
    case Ask(checked, stamped) =>
      if !Admits(config, b, e) || b.state == Closed then b
      else if b.state == Open then Breaker(HalfOpen, 0, 0, stamped, 0)
      else b.(halfOpenReqs := b.halfOpenReqs + 1)
    case Success(now) => Update(config, b.(totalReqs := b.totalReqs + 1), now)
    case Failure(now) => Update(config, b.(totalReqs := b.totalReqs + 1, failedReqs := b.failedReqs + 1), now)
    case ResetAt(now) => NewBreaker(now)
  }

  // ----- the breaker object -----

  class Circuit {
    const config: Config
    var state: State
    var totalReqs: int
    var failedReqs: int
    var lastStateChange: int
    var halfOpenReqs: int

    ghost function View(): Breaker
      reads this
    {
      Breaker(state, totalReqs, failedReqs, lastStateChange, halfOpenReqs)
    }

    constructor (config: Config, now: int)
      ensures this.config == config && View() == NewBreaker(now) && Counts(View())
    {
      this.config := config;
      state, totalReqs, failedReqs, lastStateChange, halfOpenReqs := Closed, 0, 0, now, 0;
    }

    method Allow(checked: int, stamped: int) returns (ok: bool)
      requires Counts(View())
      modifies this
      ensures ok == Admits(config, old(View()), Ask(checked, stamped))
      ensures View() == Step(config, old(View()), Ask(checked, stamped))
    {
      match state {
        case Closed => return true;
        case Open =>
          var timeout := config.openTimeoutMs * 1_000_000;
          if checked - lastStateChange >= timeout {
            ToHalfOpenLocked(stamped);
            return true;
          }
          return false;
        case HalfOpen =>
          if halfOpenReqs < config.halfOpenMaxRequests {
            halfOpenReqs := halfOpenReqs + 1;
            return true;
          }
          return false;
      }
    }

    method RecordSuccess(now: int)
      requires Counts(View())
      modifies this
      ensures View() == Step(config, old(View()), Success(now))
    {
      totalReqs := totalReqs + 1;
      UpdateStateLocked(now);
    }

    method RecordFailure(now: int)
      requires Counts(View())
      modifies this
      ensures View() == Step(config, old(View()), Failure(now))
    {
      totalReqs := totalReqs + 1;
      failedReqs := failedReqs + 1;
      UpdateStateLocked(now);
    }

    method Reset(now: int)
      modifies this
      ensures View() == NewBreaker(now)
    {
      totalReqs, failedReqs, halfOpenReqs := 0, 0, 0;
      state := Closed;
      lastStateChange := now;
    }

    method UpdateStateLocked(now: int)
      requires totalReqs > 0
      modifies this
      ensures View() == Update(config, old(View()), now)
    {
      match state {
        case Closed =>
          if totalReqs >= config.minRequests {
            var errorRate := failedReqs as real / totalReqs as real;
            if errorRate >= config.errorRateThreshold {
              ToOpenLocked(now);
            }
          }
        case Open =>
        case HalfOpen =>
          if failedReqs > 0 {
            ToOpenLocked(now);
          } else if halfOpenReqs >= config.halfOpenMaxRequests {
            ToClosedLocked(now);
          }
      }
    }

    method ToOpenLocked(now: int)
      modifies this
      ensures View() == ToOpen(old(View()), now)
    {
      if state != Open {
        state := Open;
        lastStateChange := now;
        halfOpenReqs := 0;
      }
    }

    method ToHalfOpenLocked(now: int)
      modifies this
      ensures View() == Breaker(HalfOpen, 0, 0, now, 0)
    {
      state := HalfOpen;
      lastStateChange := now;
      halfOpenReqs, failedReqs, totalReqs := 0, 0, 0;
    }

    method ToClosedLocked(now: int)
      modifies this
      ensures View() == NewBreaker(now)
    {
      state := Closed;
      lastStateChange := now;
      halfOpenReqs, failedReqs, totalReqs := 0, 0, 0;
    }
  }

  // ----- runs -----

  /** The breaker after the first `n` events. */
  function After(config: Config, b: Breaker, events: seq<Event>, n: nat): (r: Breaker)
    requires Counts(b) && n <= |events|
    ensures Counts(r)
  {
    if n == 0 then b else Step(config, After(config, b, events, n - 1), events[n - 1])
  }

  /** How many of the events `lo..hi` are admitted requests. */
  function Admitted(config: Config, b: Breaker, events: seq<Event>, lo: nat, hi: nat): nat
    requires Counts(b) && lo <= hi <= |events|
  {
    if lo == hi then 0
    else Admitted(config, b, events, lo, hi - 1)
         + if Admits(config, After(config, b, events, hi - 1), events[hi - 1]) then 1 else 0
  }

  /** The clock does not run backwards. */
  ghost predicate Timely(events: seq<Event>) {
    && (forall i :: 0 <= i < |events| ==> events[i].Begin() <= events[i].End())
    && (forall i :: 0 < i < |events| ==> events[i - 1].End() <= events[i].Begin())
  }

  /** What `e` half-open episodes since `start` amount to. */
  ghost predicate EpisodesAmountTo(config: Config, after: Breaker, admitted: nat, start: int, end: int, e: nat) {
    var perEpisode := config.CountedProbes() + 1;
    && (e >= 1 ==> start + (e - 1) * config.Timeout() <= end)
    && match after.state
       case Closed => false
       case Open => admitted <= e * perEpisode && (e >= 1 ==> start + (e - 1) * config.Timeout() <= after.lastStateChange)
       case HalfOpen => e >= 1 && after.halfOpenReqs <= config.CountedProbes()
                        && admitted <= (e - 1) * perEpisode + 1 + after.halfOpenReqs
  }

  lemma EpisodeStep(config: Config, b: Breaker, admitted: nat, start: int, end: int, e: nat, event: Event)
    returns (e': nat)
    requires Counts(b) && config.Timeout() > 0
    requires EpisodesAmountTo(config, b, admitted, start, end, e)
    requires start <= end <= event.Begin() <= event.End()
    requires Step(config, b, event).state != Closed
    ensures EpisodesAmountTo(config, Step(config, b, event), admitted + (if Admits(config, b, event) then 1 else 0),
                             start, event.End(), e')
  {
    var t, p := config.Timeout(), config.CountedProbes() + 1;
    assert (e as int) * t == (e - 1) * t + t && e * p == (e - 1) * p + p;
    e' := if b.state == Open && Admits(config, b, event) then e + 1 else e;
  }

  lemma {:induction false} CountEpisodes(config: Config, b: Breaker, events: seq<Event>, n: nat) returns (e: nat)
    requires Counts(b) && b.state == Open && config.Timeout() > 0
    requires 0 < n <= |events| && Timely(events)
    requires forall i :: 0 < i <= n ==> After(config, b, events, i).state != Closed
    ensures EpisodesAmountTo(config, After(config, b, events, n), Admitted(config, b, events, 0, n),
                             events[0].Begin(), events[n - 1].End(), e)
    ensures events[0].Begin() <= events[n - 1].End()
  {
    var start := events[0].Begin();
    var end := start;
    if n == 1 {
      e := NoEpisodeYet(config, b, start);
    } else {
      e := CountEpisodes(config, b, events, n - 1);
      end := events[n - 2].End();
    }
    assert After(config, b, events, n) == Step(config, After(config, b, events, n - 1), events[n - 1]);
    e := EpisodeStep(config, After(config, b, events, n - 1), Admitted(config, b, events, 0, n - 1),
                     start, end, e, events[n - 1]);
  }

  lemma NoEpisodeYet(config: Config, b: Breaker, start: int) returns (e: nat)
    requires b.state == Open
    ensures EpisodesAmountTo(config, b, 0, start, start, e)
  {
    e := 0;
  }

  /** A segment that starts open and never closes admits at most H+1 requests per started timeout period. */
  lemma OpenSegmentBound(config: Config, b: Breaker, events: seq<Event>)
    requires Counts(b) && b.state == Open && config.Timeout() > 0
    requires events != [] && Timely(events)
    requires forall i :: 0 < i <= |events| ==> After(config, b, events, i).state != Closed
    ensures var elapsed := events[|events| - 1].End() - events[0].Begin();
            elapsed >= 0 &&
            Admitted(config, b, events, 0, |events|) <= (elapsed / config.Timeout() + 1) * (config.CountedProbes() + 1)
  {
    var e := CountEpisodes(config, b, events, |events|);
    hide EpisodesAmountTo, Admitted, After;
    var start, end := events[0].Begin(), events[|events| - 1].End();
    var admitted := Admitted(config, b, events, 0, |events|);
    AdmittedPerEpisode(config, After(config, b, events, |events|), admitted, start, end, e);
    PeriodsBound(admitted, e, end - start, config.Timeout(), config.CountedProbes() + 1);
  }

  lemma AdmittedPerEpisode(config: Config, after: Breaker, admitted: nat, start: int, end: int, e: nat)
    requires EpisodesAmountTo(config, after, admitted, start, end, e)
    ensures admitted <= e * (config.CountedProbes() + 1)
    ensures e >= 1 ==> (e - 1) * config.Timeout() <= end - start
  {
    var p := config.CountedProbes() + 1;
    assert e * p == (e - 1) * p + p;
  }

  lemma PeriodsBound(admitted: nat, e: nat, elapsed: nat, t: int, p: nat)
    requires t > 0 && admitted <= e * p && (e >= 1 ==> (e - 1) * t <= elapsed)
    ensures admitted <= (elapsed / t + 1) * p
  {
    if e >= 1 { QuotientBound(e - 1, t, elapsed); }
    assert elapsed / t >= 0;
    ProductMonotone(e, elapsed / t + 1, p);
  }

  lemma QuotientBound(q: int, d: int, n: int)
    requires d > 0 && q * d <= n
    ensures q <= n / d
  {
    assert n == n / d * d + n % d;
    if q >= n / d + 1 {
      ProductMonotone(n / d + 1, q, d);
      assert false;
    }
  }

  lemma ProductMonotone(a: int, b: int, c: int)
    requires a <= b && c >= 0
    ensures a * c <= b * c
  {
  }

  // ----- closing -----

  /** Since event `k` moved it from open to half-open, the breaker has stayed half-open through the first `n` events. */
  ghost predicate HalfOpenSince(config: Config, b: Breaker, events: seq<Event>, k: nat, n: nat)
    requires Counts(b)
  {
    && k < n <= |events|
    && events[k].Ask? && After(config, b, events, k).state == Open
    && (forall i :: k < i <= n ==> After(config, b, events, i).state == HalfOpen)
  }

  /** In half-open the counters tell the history since it was entered: no failure, and the admissions one by one. */
  lemma {:induction false} HalfOpenHistory(config: Config, b: Breaker, events: seq<Event>, n: nat) returns (k: nat)
    requires Counts(b) && b.state != HalfOpen && n <= |events|
    requires After(config, b, events, n).state == HalfOpen
    ensures HalfOpenSince(config, b, events, k, n)
    ensures forall i :: k < i < n ==> !events[i].Failure?
    ensures After(config, b, events, n).failedReqs == 0
    ensures After(config, b, events, n).halfOpenReqs == Admitted(config, b, events, k + 1, n)
  {
    var before := After(config, b, events, n - 1);
    if before.state == HalfOpen {
      k := HalfOpenHistory(config, b, events, n - 1);
    } else {
      k := n - 1;
    }
  }

  /**
   Half-open closes, other than by a reset, exactly on a success recorded when at least the configured
   number of requests has been admitted since it was entered; no failure has been recorded since then. It opens
   again exactly on a recorded failure, at the time of that failure.
   */
  lemma HalfOpenCloses(config: Config, b: Breaker, events: seq<Event>, n: nat) returns (k: nat)
    requires Counts(b) && b.state != HalfOpen && n < |events|
    requires After(config, b, events, n).state == HalfOpen && !events[n].ResetAt?
    ensures HalfOpenSince(config, b, events, k, n)
    ensures forall i :: k < i < n ==> !events[i].Failure?
    ensures After(config, b, events, n + 1).state == Closed <==>
            events[n].Success? && Admitted(config, b, events, k + 1, n) >= config.halfOpenMaxRequests
    ensures After(config, b, events, n + 1).state == Open <==> events[n].Failure?
    ensures events[n].Failure? ==> After(config, b, events, n + 1).lastStateChange == events[n].now
    ensures Admits(config, After(config, b, events, n), events[n]) <==>
              events[n].Ask? && Admitted(config, b, events, k + 1, n) < config.halfOpenMaxRequests
  {
    k := HalfOpenHistory(config, b, events, n);
  }

  // ----- opening -----

  /** The recorded outcomes among the events `lo..hi`, and the failures among them. */
  function Outcomes(events: seq<Event>, lo: nat, hi: nat): nat
    requires lo <= hi <= |events|
  {
    if lo == hi then 0 else Outcomes(events, lo, hi - 1) + if events[hi - 1].Success? || events[hi - 1].Failure? then 1 else 0
  }

  function Failures(events: seq<Event>, lo: nat, hi: nat): nat
    requires lo <= hi <= |events|
  {
    if lo == hi then 0 else Failures(events, lo, hi - 1) + if events[hi - 1].Failure? then 1 else 0
  }

  /** The breaker, made, reset or closed again just before event `k`, has stayed closed since. */
  ghost predicate ClosedSince(config: Config, start: int, events: seq<Event>, k: nat, n: nat) {
    && k <= n <= |events|
    && (k > 0 ==> events[k - 1].ResetAt? || After(config, NewBreaker(start), events, k - 1).state != Closed)
    && (forall i :: k <= i < n ==> !events[i].ResetAt?)
    && (forall i :: k <= i <= n ==> After(config, NewBreaker(start), events, i).state == Closed)
  }

  /** In closed the counters count the outcomes recorded since the breaker was last closed. */
  lemma {:induction false} ClosedHistory(config: Config, start: int, events: seq<Event>, n: nat) returns (k: nat)
    requires n <= |events|
    requires After(config, NewBreaker(start), events, n).state == Closed
    ensures ClosedSince(config, start, events, k, n)
    ensures After(config, NewBreaker(start), events, n).totalReqs == Outcomes(events, k, n)
    ensures After(config, NewBreaker(start), events, n).failedReqs == Failures(events, k, n)
  {
    if n > 0 && After(config, NewBreaker(start), events, n - 1).state == Closed && !events[n - 1].ResetAt? {
      k := ClosedHistory(config, start, events, n - 1);
    } else {
      k := n;
    }
  }

  /**
   A closed breaker admits every request. It opens exactly on a recorded outcome at which the outcomes recorded
   since it was last closed number at least the configured minimum and their failed share reaches the threshold,
   at the time of that outcome; otherwise it stays closed.
   */
  lemma ClosedOpens(config: Config, start: int, events: seq<Event>, n: nat) returns (k: nat)
    requires n < |events|
    requires After(config, NewBreaker(start), events, n).state == Closed
    ensures ClosedSince(config, start, events, k, n)
    ensures Admits(config, After(config, NewBreaker(start), events, n), events[n]) <==> events[n].Ask?
    ensures var after := After(config, NewBreaker(start), events, n + 1);
            var outcomes := Outcomes(events, k, n + 1);
            && (after.state == Open <==>
                  && (events[n].Success? || events[n].Failure?)
                  && outcomes > 0 && outcomes >= config.minRequests
                  && Failures(events, k, n + 1) as real / outcomes as real >= config.errorRateThreshold)
            && (after.state == Open ==> after.lastStateChange == events[n].now)
            && (after.state == Open || after.state == Closed)
  {
    k := ClosedHistory(config, start, events, n);
  }

  /** With a positive threshold, a breaker to which no failure is reported stays closed. */
  lemma {:induction false} NoFailuresStayClosed(config: Config, start: int, events: seq<Event>, n: nat)
    requires config.errorRateThreshold > 0.0
    requires n <= |events| && forall i :: 0 <= i < n ==> !events[i].Failure?
    ensures After(config, NewBreaker(start), events, n).state == Closed
  {
    if n > 0 {
      NoFailuresStayClosed(config, start, events, n - 1);
      var k := ClosedOpens(config, start, events, n - 1);
      NoFailures(events, k, n);
    }
  }

  lemma {:induction false} NoFailures(events: seq<Event>, lo: nat, hi: nat)
    requires lo <= hi <= |events| && forall i :: 0 <= i < hi ==> !events[i].Failure?
    ensures Failures(events, lo, hi) == 0
  {
    if lo < hi { NoFailures(events, lo, hi - 1); }
  }

  // ----- probing -----

  /** The outcome recorded by event `k` opened the breaker, which has stayed open since. */
  ghost predicate OpenSince(config: Config, b: Breaker, events: seq<Event>, k: nat, n: nat)
    requires Counts(b)
  {
    && k < n <= |events|
    && (events[k].Success? || events[k].Failure?) && After(config, b, events, k).state != Open
    && (forall i :: k < i <= n ==> After(config, b, events, i).state == Open)
  }

  lemma OpenStep(config: Config, b: Breaker, e: Event)
    requires Counts(b) && Step(config, b, e).state == Open
    ensures if b.state == Open then Step(config, b, e).lastStateChange == b.lastStateChange
            else (e.Success? || e.Failure?) && Step(config, b, e).lastStateChange == e.now
  {
  }

  /** In open the time of the last change is that of the outcome that opened the breaker. */
  lemma {:induction false} OpenHistory(config: Config, b: Breaker, events: seq<Event>, n: nat) returns (k: nat)
    requires Counts(b) && b.state != Open && n <= |events|
    requires After(config, b, events, n).state == Open
    ensures OpenSince(config, b, events, k, n)
    ensures After(config, b, events, n).lastStateChange == events[k].now
  {
    OpenStep(config, After(config, b, events, n - 1), events[n - 1]);
    hide Step;
    if After(config, b, events, n - 1).state == Open {
      k := OpenHistory(config, b, events, n - 1);
    } else {
      k := n - 1;
    }
  }

  /**
   An open breaker admits a request, and becomes half-open, exactly when the timeout has passed since the outcome
   that opened it; a reset closes it, and nothing else changes its state.
   */
  lemma OpenProbes(config: Config, b: Breaker, events: seq<Event>, n: nat) returns (k: nat)
    requires Counts(b) && b.state != Open && n < |events|
    requires After(config, b, events, n).state == Open
    ensures OpenSince(config, b, events, k, n)
    ensures Admits(config, After(config, b, events, n), events[n]) <==>
              events[n].Ask? && events[n].checked >= events[k].now + config.openTimeoutMs * 1_000_000
    ensures After(config, b, events, n + 1).state ==
              if Admits(config, After(config, b, events, n), events[n]) then HalfOpen
              else if events[n].ResetAt? then Closed else Open
  {
    k := OpenHistory(config, b, events, n);
  }

  /** Closed always means too few requests or an error rate below the threshold. */
  predicate Healthy(config: Config, b: Breaker) {
    b.totalReqs == 0 || b.totalReqs < config.minRequests
    || b.failedReqs as real / b.totalReqs as real < config.errorRateThreshold
  }

  lemma {:induction false} ClosedIsHealthy(config: Config, start: int, events: seq<Event>, n: nat)
    requires n <= |events|
    requires After(config, NewBreaker(start), events, n).state == Closed
    ensures Healthy(config, After(config, NewBreaker(start), events, n))
  {
    if n > 0 && After(config, NewBreaker(start), events, n - 1).state == Closed {
      ClosedIsHealthy(config, start, events, n - 1);
    }
  }
}
