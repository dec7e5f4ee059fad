/** The per-service request quota: a rate limit between consecutive recorded
    requests and a monthly request counter that starts again at zero when the
    calendar month changes. The service's three concurrent maps become the
    three maps of an immutable state; every operation receives the current
    time. */
module Quota {
  import opened JavaText
  import opened Clock

  /** A configured rate, in requests per second. Zero is excluded: the
      minimum interval `1000 / rate` would divide by zero. */
  type Rate = r: int | r != 0 witness 1

  datatype Config = Config(
    braveRate: Rate, googleRate: Rate, bingRate: Rate, aiRate: Rate,
    braveMonthly: int, googleMonthly: int, bingMonthly: int, aiMonthly: int)

  /** The values used when the application properties set nothing. */
  const Defaults: Config := Config(1, 10, 10, 5, 2000, 10000, 10000, 5000)

  /** The services whose status the quota report lists. */
  const ReportedServices: seq<string> := ["brave", "google", "bing", "ai"]

  /** The rate for a service, chosen by its lower-cased name. */
  function RateLimit(cfg: Config, service: string): Rate {
    var key := Lower(service);
    if key == "brave" then cfg.braveRate
    else if key == "google" then cfg.googleRate
    else if key == "bing" then cfg.bingRate
    else if key == "ai" then cfg.aiRate
    else 1
  }

  /** The monthly limit for a service, chosen by its lower-cased name. */
  function MonthlyLimit(cfg: Config, service: string): int {
    var key := Lower(service);
    if key == "brave" then cfg.braveMonthly
    else if key == "google" then cfg.googleMonthly
    else if key == "bing" then cfg.bingMonthly
    else if key == "ai" then cfg.aiMonthly
    else 1000
  }

  /** Java's `long` division, rounding toward zero. */
  function JavaDiv(x: int, d: int): (q: int)
    requires d != 0
    ensures d > 0 && x >= 0 ==> q == x / d
  {
    if (x >= 0) == (d > 0) then
      (if x >= 0 then x else -x) / (if d > 0 then d else -d)
    else -((if x >= 0 then x else -x) / (if d > 0 then d else -d))
  }

  /** The minimum number of milliseconds between two requests. */
  function MinInterval(rate: Rate): int {
    JavaDiv(1000, rate)
  }

  /** Last request time, usage counter and month anchor, each keyed by the
      service name exactly as the caller spelled it. */
  datatype State = State(lastRequest: map<string, DateTime>,
                         usage: map<string, int>,
                         anchor: map<string, DateTime>)

  const Initial: State := State(map[], map[], map[])

  /** The counter and its anchor are always created together, and every
      stored time is a real date-time. */
  predicate WellFormed(st: State) {
    && st.usage.Keys == st.anchor.Keys
    && (forall s :: s in st.lastRequest ==> Valid(st.lastRequest[s]))
    && (forall s :: s in st.anchor ==> Valid(st.anchor[s]) && IsMonthStart(st.anchor[s]))
  }

  predicate IsMonthStart(t: DateTime) {
    t.day == 1 && t.hour == 0 && t.minute == 0 && t.second == 0
  }

  /** The first instant of `now`'s month as the service computes it: day 1,
      00:00:00, but the nanoseconds of `now` are kept because only the
      seconds are reset. */
  function MonthStart(now: DateTime): (r: DateTime)
    requires Valid(now)
    ensures Valid(r) && IsMonthStart(r) && SameMonth(r, now)
  {
    now.(day := 1, hour := 0, minute := 0, second := 0)
  }

  predicate SameMonth(a: DateTime, b: DateTime) {
    a.year == b.year && a.month == b.month
  }

  /** Whether the monthly counter of `service` must start again at `now`. */
  predicate NeedsRollover(st: State, service: string, now: DateTime) {
    service !in st.anchor || !SameMonth(st.anchor[service], now)
  }

  /** Start a fresh monthly counter when there is none or the month changed. */
  function EnsureTracking(st: State, service: string, now: DateTime): (r: State)
    requires WellFormed(st) && Valid(now)
    ensures WellFormed(r)
    ensures service in r.usage && service in r.anchor
    ensures r.lastRequest == st.lastRequest
    ensures NeedsRollover(st, service, now) ==>
              r.usage == st.usage[service := 0] && r.anchor == st.anchor[service := MonthStart(now)]
    ensures !NeedsRollover(st, service, now) ==> r == st
    ensures SameMonth(r.anchor[service], now)
  {
    if NeedsRollover(st, service, now) then
      st.(usage := st.usage[service := 0], anchor := st.anchor[service := MonthStart(now)])
    else st
  }

  /** Requests recorded for `service` in its current counter, zero if none. */
  function Used(st: State, service: string): int {
    if service in st.usage then st.usage[service] else 0
  }

  /** The rate test: no earlier request, or enough milliseconds since it. */
  predicate RatePasses(st: State, cfg: Config, service: string, now: DateTime)
    requires WellFormed(st) && Valid(now)
  {
    service !in st.lastRequest
    || MillisBetween(st.lastRequest[service], now) >= MinInterval(RateLimit(cfg, service))
  }

  /** `canMakeRequest`: the rate test, then (only if it passed) the monthly
      test after a possible rollover. It never records anything. */
  function CanMakeRequest(st: State, cfg: Config, service: string, now: DateTime): (r: (bool, State))
    requires WellFormed(st) && Valid(now)
    ensures WellFormed(r.1)
    ensures r.0 <==> RatePasses(st, cfg, service, now)
                     && Used(EnsureTracking(st, service, now), service) < MonthlyLimit(cfg, service)
    ensures r.1.lastRequest == st.lastRequest
    ensures forall s :: s != service ==> Used(r.1, s) == Used(st, s)
    ensures Used(r.1, service) == Used(st, service) || Used(r.1, service) == 0
    ensures !RatePasses(st, cfg, service, now) ==> r.1 == st
  {
    if !RatePasses(st, cfg, service, now) then (false, st)
    else
      var st1 := EnsureTracking(st, service, now);
      (Used(st1, service) < MonthlyLimit(cfg, service), st1)
  }

  /** `recordRequest`: remember `now` as the last request and add one to the
      (possibly fresh) monthly counter. */
  function RecordRequest(st: State, service: string, now: DateTime): (r: State)
    requires WellFormed(st) && Valid(now)
    ensures WellFormed(r)
    ensures r.lastRequest == st.lastRequest[service := now]
    ensures Used(r, service) == Used(EnsureTracking(st, service, now), service) + 1
    ensures !NeedsRollover(st, service, now) ==> Used(r, service) == Used(st, service) + 1
    ensures NeedsRollover(st, service, now) ==> Used(r, service) == 1
    ensures forall s :: s != service ==> Used(r, s) == Used(st, s)
  {
    var st1 := st.(lastRequest := st.lastRequest[service := now]);
    var st2 := EnsureTracking(st1, service, now);
    st2.(usage := st2.usage[service := st2.usage[service] + 1])
  }

  /** `getRemainingQuota`: the unused part of the monthly limit, never
      negative. Reading the usage may roll the counter over. */
  function RemainingQuota(st: State, cfg: Config, service: string, now: DateTime): (r: (int, State))
    requires WellFormed(st) && Valid(now)
    ensures WellFormed(r.1) && r.1 == EnsureTracking(st, service, now)
    ensures r.0 >= 0
    ensures r.0 == 0 <==> Used(r.1, service) >= MonthlyLimit(cfg, service)
    ensures r.0 > 0 ==> r.0 + Used(r.1, service) == MonthlyLimit(cfg, service)
    ensures Used(r.1, service) >= 0 ==> r.0 <= if MonthlyLimit(cfg, service) > 0 then MonthlyLimit(cfg, service) else 0
  {
    var st1 := EnsureTracking(st, service, now);
    var limit := MonthlyLimit(cfg, service);
    var used := Used(st1, service);
    (if limit - used > 0 then limit - used else 0, st1)
  }

  datatype QuotaStatus = QuotaStatus(serviceName: string, used: int, limit: int, remaining: int,
                                     rateLimit: int, canMakeRequest: bool, nextReset: DateTime)

  /** One entry of `getAllQuotaStatus`; the next reset is one month after the
      anchor, that is the first instant of the following month. */
  function StatusOf(st: State, cfg: Config, service: string, now: DateTime): (r: (QuotaStatus, State))
    requires WellFormed(st) && Valid(now)
    ensures WellFormed(r.1)
    ensures r.0.serviceName == service && r.0.limit == MonthlyLimit(cfg, service)
    ensures r.0.nextReset.day == 1 && r.0.nextReset.hour == 0 && r.0.nextReset.minute == 0
    ensures now.month < 12 ==> r.0.nextReset.year == now.year && r.0.nextReset.month == now.month + 1
    ensures now.month == 12 ==> r.0.nextReset.year == now.year + 1 && r.0.nextReset.month == 1
    ensures r.0.used == if NeedsRollover(st, service, now) then 0 else Used(st, service)
    ensures r.0.remaining >= 0 && (r.0.remaining == 0 <==> r.0.used >= MonthlyLimit(cfg, service))
    ensures r.0.remaining > 0 ==> r.0.remaining + r.0.used == MonthlyLimit(cfg, service)
    ensures r.0.rateLimit == RateLimit(cfg, service)
    ensures r.0.canMakeRequest <==> RatePasses(st, cfg, service, now) && r.0.used < MonthlyLimit(cfg, service)
    ensures r.1 == EnsureTracking(st, service, now)
    ensures r.0.nextReset == PlusOneMonth(EnsureTracking(st, service, now).anchor[service])
  {
    var st1 := EnsureTracking(st, service, now);
    var used := Used(st1, service);
    var (remaining, st2) := RemainingQuota(st1, cfg, service, now);
    var (can, st3) := CanMakeRequest(st2, cfg, service, now);
    assert st3.anchor == st1.anchor;
    var anchor := st3.anchor[service];
    assert anchor == st1.anchor[service] && anchor.day == 1 && anchor.hour == 0 && anchor.minute == 0;
    (QuotaStatus(service, used, MonthlyLimit(cfg, service), remaining, RateLimit(cfg, service),
                 can, PlusOneMonth(anchor)), st3)
  }

  /** `getAllQuotaStatus` for brave, google, bing and ai. The service's map
      is listed here in that order. Each entry is the one the service would
      report on its own in the state it started from: tracking one service
      never touches another's. */
  function AllQuotaStatus(st: State, cfg: Config, now: DateTime): (r: (seq<QuotaStatus>, State))
    requires WellFormed(st) && Valid(now)
    ensures |r.0| == |ReportedServices| && WellFormed(r.1)
    ensures forall i :: 0 <= i < |r.0| ==> r.0[i].serviceName == ReportedServices[i]
    ensures forall i :: 0 <= i < |r.0| ==> r.0[i] == StatusOf(st, cfg, ReportedServices[i], now).0
  {
    ReportedDistinct();
    StatusListEntries(st, cfg, ReportedServices, now);
    StatusList(st, cfg, ReportedServices, now)
  }

  /** No name occurs twice. */
  predicate Distinct(services: seq<string>) {
    forall i, j :: 0 <= i < j < |services| ==> services[i] != services[j]
  }

  /** The four reported names differ, if only in length. */
  lemma ReportedDistinct()
    ensures Distinct(ReportedServices)
  {
    var lengths := [5, 6, 4, 2];
    assert forall i :: 0 <= i < 4 ==> |ReportedServices[i]| == lengths[i];
  }

  /** Starting or rolling over the counter of `a` leaves the status of any
      other service as it was. */
  lemma TrackingLeavesOthers(st: State, cfg: Config, a: string, b: string, now: DateTime)
    requires WellFormed(st) && Valid(now) && a != b
    ensures StatusOf(EnsureTracking(st, a, now), cfg, b, now).0 == StatusOf(st, cfg, b, now).0
  {
    var st1 := EnsureTracking(st, a, now);
    assert NeedsRollover(st1, b, now) == NeedsRollover(st, b, now);
    assert Used(st1, b) == Used(st, b);
    assert RatePasses(st1, cfg, b, now) == RatePasses(st, cfg, b, now);
    assert EnsureTracking(st1, b, now).anchor[b] == EnsureTracking(st, b, now).anchor[b];
    var x := StatusOf(st1, cfg, b, now).0;
    var y := StatusOf(st, cfg, b, now).0;
    assert x.used == y.used;
    assert x.remaining == y.remaining;
  }

  function StatusList(st: State, cfg: Config, services: seq<string>, now: DateTime): (r: (seq<QuotaStatus>, State))
    requires WellFormed(st) && Valid(now)
    ensures |r.0| == |services| && WellFormed(r.1)
    ensures forall i :: 0 <= i < |r.0| ==> r.0[i].serviceName == services[i]
    decreases |services|
  {
    if |services| == 0 then ([], st)
    else
      var (q, st1) := StatusOf(st, cfg, services[0], now);
      var (qs, st2) := StatusList(st1, cfg, services[1..], now);
      ([q] + qs, st2)
  }

  /** With no name repeated, each entry of the list is the status of its
      service in the starting state. */
  lemma {:induction false} StatusListEntries(st: State, cfg: Config, services: seq<string>, now: DateTime)
    requires WellFormed(st) && Valid(now)
    ensures Distinct(services) ==> forall i :: 0 <= i < |services| ==>
              StatusList(st, cfg, services, now).0[i] == StatusOf(st, cfg, services[i], now).0
    decreases |services|
  {
    if |services| > 0 && Distinct(services) {
      var st1 := StatusOf(st, cfg, services[0], now).1;
      var rest := services[1..];
      assert Distinct(rest) by {
        forall i, j | 0 <= i < j < |rest| ensures rest[i] != rest[j] {
          assert rest[i] == services[i + 1] && rest[j] == services[j + 1];
        }
      }
      StatusListEntries(st1, cfg, rest, now);
      var tail := StatusList(st1, cfg, rest, now).0;
      assert StatusList(st, cfg, services, now).0 == [StatusOf(st, cfg, services[0], now).0] + tail;
      forall i | 1 <= i < |services|
        ensures StatusList(st, cfg, services, now).0[i] == StatusOf(st, cfg, services[i], now).0
      {
        assert rest[i - 1] == services[i];
        assert tail[i - 1] == StatusOf(st1, cfg, services[i], now).0;
        assert services[0] != services[i];
        TrackingLeavesOthers(st, cfg, services[0], services[i], now);
      }
    }
  }

  // ---------------------------------------------------------------------
  // Properties

  /** A service that has never recorded a request passes the rate test. */
  lemma FirstCheckPassesRate(st: State, cfg: Config, service: string, now: DateTime)
    requires WellFormed(st) && Valid(now) && service !in st.lastRequest
    ensures RatePasses(st, cfg, service, now)
  {
  }

  /** With the default brave rate of one request per second, a check 500 ms
      after a recorded request is refused, and one a full second later passes. */
  lemma HalfSecondAfterBraveRequestIsRefused()
    ensures var t0 := DateTime(2024, 3, 1, 12, 0, 0, 0);
            var st := RecordRequest(Initial, "brave", t0);
            && !CanMakeRequest(st, Defaults, "brave", DateTime(2024, 3, 1, 12, 0, 0, 500_000_000)).0
            && CanMakeRequest(st, Defaults, "brave", DateTime(2024, 3, 1, 12, 0, 1, 0)).0
  {
    var t0 := DateTime(2024, 3, 1, 12, 0, 0, 0);
    var st := RecordRequest(Initial, "brave", t0);
    assert Used(st, "brave") == 1;
    assert MillisBetween(t0, DateTime(2024, 3, 1, 12, 0, 0, 500_000_000)) == 500;
    assert MillisBetween(t0, DateTime(2024, 3, 1, 12, 0, 1, 0)) == 1000;
  }

  /** Each counter stays between zero and the service's limit (or zero, for
      a limit configured below zero). */
  predicate UsageWithinLimit(st: State, cfg: Config) {
    forall s :: s in st.usage ==> 0 <= st.usage[s] <= (if MonthlyLimit(cfg, s) > 0 then MonthlyLimit(cfg, s) else 0)
  }

  lemma EnsureKeepsBound(st: State, cfg: Config, service: string, now: DateTime)
    requires WellFormed(st) && Valid(now) && UsageWithinLimit(st, cfg)
    ensures UsageWithinLimit(EnsureTracking(st, service, now), cfg)
  {
  }

  /** A request recorded after a passing check, at any later instant, keeps
      the counter within the limit: either the month is unchanged and the
      check saw room for one more, or the counter restarted at one. */
  lemma AdmittedRecordKeepsBound(st: State, cfg: Config, service: string, checkAt: DateTime, recordAt: DateTime)
    requires WellFormed(st) && Valid(checkAt) && Valid(recordAt) && UsageWithinLimit(st, cfg)
    requires CanMakeRequest(st, cfg, service, checkAt).0
    ensures UsageWithinLimit(CanMakeRequest(st, cfg, service, checkAt).1, cfg)
    ensures UsageWithinLimit(RecordRequest(CanMakeRequest(st, cfg, service, checkAt).1, service, recordAt), cfg)
  {
    var st1 := CanMakeRequest(st, cfg, service, checkAt).1;
    EnsureKeepsBound(st, cfg, service, checkAt);
    assert st1 == EnsureTracking(st, service, checkAt);
    RecordKeepsBound(st1, cfg, service, recordAt);
  }

  /** Recording a request when the counter has room for one more keeps
      every counter within its limit. */
  lemma RecordKeepsBound(st: State, cfg: Config, service: string, now: DateTime)
    requires WellFormed(st) && Valid(now) && UsageWithinLimit(st, cfg)
    requires Used(st, service) < MonthlyLimit(cfg, service)
    ensures UsageWithinLimit(RecordRequest(st, service, now), cfg)
  {
    var st1 := st.(lastRequest := st.lastRequest[service := now]);
    EnsureKeepsBound(st1, cfg, service, now);
  }

  /** What a caller of the quota does: ask, possibly record after a
      successful upstream call, or read the remaining quota. */
  datatype Event =
    | Guarded(service: string, checkAt: DateTime, recordAt: DateTime, succeeded: bool)
    | Remaining(service: string, at: DateTime)

  predicate EventTimesValid(e: Event) {
    match e
    case Guarded(_, c, r, _) => Valid(c) && Valid(r)
    case Remaining(_, a) => Valid(a)
  }

  /** One event: a guarded call records only when the check passed and the
      upstream call succeeded. */
  function Step(st: State, cfg: Config, e: Event): (r: State)
    requires WellFormed(st) && EventTimesValid(e)
    ensures WellFormed(r)
  {
    match e
    case Guarded(s, c, t, ok) =>
      var (allowed, st1) := CanMakeRequest(st, cfg, s, c);
      if allowed && ok then RecordRequest(st1, s, t) else st1
    case Remaining(s, a) => RemainingQuota(st, cfg, s, a).1
  }

  function Run(st: State, cfg: Config, events: seq<Event>): (r: State)
    requires WellFormed(st)
    requires forall i :: 0 <= i < |events| ==> EventTimesValid(events[i])
    ensures WellFormed(r)
    decreases |events|
  {
    if |events| == 0 then st else Run(Step(st, cfg, events[0]), cfg, events[1..])
  }

  /** In any sequential run where requests are recorded only after a passing
      check, no counter ever exceeds its monthly limit. */
  lemma {:induction false} RunKeepsUsageWithinLimit(st: State, cfg: Config, events: seq<Event>)
    requires WellFormed(st) && UsageWithinLimit(st, cfg)
    requires forall i :: 0 <= i < |events| ==> EventTimesValid(events[i])
    ensures UsageWithinLimit(Run(st, cfg, events), cfg)
    decreases |events|
  {
    if |events| > 0 {
      var e := events[0];
      match e {
        case Guarded(s, c, t, ok) =>
          var (allowed, st1) := CanMakeRequest(st, cfg, s, c);
          if allowed {
            AdmittedRecordKeepsBound(st, cfg, s, c, t);
          } else if RatePasses(st, cfg, s, c) {
            EnsureKeepsBound(st, cfg, s, c);
          }
        case Remaining(s, a) =>
          EnsureKeepsBound(st, cfg, s, a);
      }
      RunKeepsUsageWithinLimit(Step(st, cfg, e), cfg, events[1..]);
    }
  }

  /** With a non-negative limit and a non-negative counter the remaining
      quota lies between zero and the limit. */
  lemma RemainingBounded(st: State, cfg: Config, service: string, now: DateTime)
    requires WellFormed(st) && Valid(now) && UsageWithinLimit(st, cfg)
    requires MonthlyLimit(cfg, service) >= 0
    ensures 0 <= RemainingQuota(st, cfg, service, now).0 <= MonthlyLimit(cfg, service)
  {
    EnsureKeepsBound(st, cfg, service, now);
  }
}
