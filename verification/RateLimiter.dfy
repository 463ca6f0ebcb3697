/** The per-IP request limiter (internal/infrastructure/http/ratelimit.go).

    Each IP has a counter and the end of its current window; a request after that end opens a
    fresh window. Times are clock readings and the window a duration, in the same unit. */
module RateLimiter {
  import opened Options

  datatype Entry = Entry(count: int, resetAt: int)

  /** One counter: the new entry, and whether the request is admitted. */
  function Hit(entry: Option<Entry>, now: int, limit: int, window: int): (Entry, bool) {
    if entry.None? || now > entry.value.resetAt then (Entry(1, now + window), true)
    else (entry.value.(count := entry.value.count + 1), entry.value.count + 1 <= limit)
  }

  function Lookup(entries: map<string, Entry>, ip: string): Option<Entry> {
    if ip in entries then Some(entries[ip]) else None
  }

  class IPRateLimiter {
    var entries: map<string, Entry>
    const limit: int
    const window: int

    constructor (limit: int, window: int)
      ensures entries == map[] && this.limit == limit && this.window == window
    {
      entries := map[];
      this.limit, this.window := limit, window;
    }

    method Allow(ip: string, now: int) returns (ok: bool)
      modifies this
      ensures ip in entries && (entries[ip], ok) == Hit(old(Lookup(entries, ip)), now, limit, window)
      ensures entries == old(entries)[ip := entries[ip]]
    {
      if ip !in entries || now > entries[ip].resetAt {
        entries := entries[ip := Entry(1, now + window)];
        return true;
      }
      entries := entries[ip := entries[ip].(count := entries[ip].count + 1)];
      ok := entries[ip].count <= limit;
    }

    /** A batch of requests served in order. */
    method Serve(reqs: seq<Request>) returns (admitted: seq<bool>)
      requires entries == map[]
      modifies this
      ensures admitted == Decisions(reqs, limit, window)
    {
      admitted := [];
      for n := 0 to |reqs|
        invariant entries == Entries(reqs[..n], limit, window)
        invariant admitted == Decisions(reqs[..n], limit, window)
      {
        var ok := Allow(reqs[n].ip, reqs[n].at);
        admitted := admitted + [ok];
        assert reqs[..n + 1][..n] == reqs[..n];
      }
      assert reqs[..|reqs|] == reqs;
    }
  }

  // ---------------------------------------------------------------- runs over many addresses

  datatype Request = Request(ip: string, at: int)

  function Entries(reqs: seq<Request>, limit: int, window: int): map<string, Entry> {
    if reqs == [] then map[]
    else
      var r := reqs[|reqs| - 1];
      var before := Entries(reqs[..|reqs| - 1], limit, window);
      before[r.ip := Hit(Lookup(before, r.ip), r.at, limit, window).0]
  }

  function Decisions(reqs: seq<Request>, limit: int, window: int): (r: seq<bool>)
    ensures |r| == |reqs|
  {
    if reqs == [] then []
    else
      var n := |reqs| - 1;
      Decisions(reqs[..n], limit, window)
      + [Hit(Lookup(Entries(reqs[..n], limit, window), reqs[n].ip), reqs[n].at, limit, window).1]
  }

  // ---------------------------------------------------------------- one address on its own

  function Counter(times: seq<int>, limit: int, window: int): Option<Entry> {
    if times == [] then None
    else Some(Hit(Counter(times[..|times| - 1], limit, window), times[|times| - 1], limit, window).0)
  }

  function CounterDecisions(times: seq<int>, limit: int, window: int): (r: seq<bool>)
    ensures |r| == |times|
  {
    if times == [] then []
    else
      var n := |times| - 1;
      CounterDecisions(times[..n], limit, window) + [Hit(Counter(times[..n], limit, window), times[n], limit, window).1]
  }

  function TimesOf(reqs: seq<Request>, ip: string): seq<int> {
    if reqs == [] then []
    else
      var n := |reqs| - 1;
      TimesOf(reqs[..n], ip) + if reqs[n].ip == ip then [reqs[n].at] else []
  }

  function DecisionsFor(reqs: seq<Request>, decisions: seq<bool>, ip: string): seq<bool>
    requires |decisions| == |reqs|
  {
    if reqs == [] then []
    else
      var n := |reqs| - 1;
      DecisionsFor(reqs[..n], decisions[..n], ip) + if reqs[n].ip == ip then [decisions[n]] else []
  }

  /** Addresses do not affect each other: in any interleaving, the answers one address gets are
      those of a limiter that sees that address alone. */
  lemma {:induction false} AddressesAreIsolated(reqs: seq<Request>, ip: string, limit: int, window: int)
    ensures DecisionsFor(reqs, Decisions(reqs, limit, window), ip)
            == CounterDecisions(TimesOf(reqs, ip), limit, window)
    ensures Lookup(Entries(reqs, limit, window), ip) == Counter(TimesOf(reqs, ip), limit, window)
  {
    if reqs != [] {
      var n := |reqs| - 1;
      var d := Decisions(reqs, limit, window);
      AddressesAreIsolated(reqs[..n], ip, limit, window);
      assert d[..n] == Decisions(reqs[..n], limit, window);
      var times := TimesOf(reqs, ip);
      if reqs[n].ip == ip {
        assert times[..|times| - 1] == TimesOf(reqs[..n], ip);
      } else {
        assert times == TimesOf(reqs[..n], ip);
        assert DecisionsFor(reqs, d, ip) == DecisionsFor(reqs[..n], d[..n], ip);
      }
    }
  }

  // ---------------------------------------------------------------- the sliding-interval bound

  /** The first request of a fresh window is always admitted, so a limit below one acts as one. */
  function Effective(limit: int): int {
    if limit < 1 then 1 else limit
  }

  /** An admitted request: when, in which window, and as which one of that window. */
  datatype Admission = Admission(at: int, start: int, ordinal: int)

  function Grow(log: seq<Admission>, e: Option<Entry>, now: int, limit: int, window: int): seq<Admission> {
    var (entry, ok) := Hit(e, now, limit, window);
    if ok then log + [Admission(now, entry.resetAt - window, entry.count - 1)] else log
  }

  function Admissions(times: seq<int>, limit: int, window: int): seq<Admission> {
    if times == [] then []
    else
      var n := |times| - 1;
      Grow(Admissions(times[..n], limit, window), Counter(times[..n], limit, window), times[n], limit, window)
  }

  ghost predicate Monotone(times: seq<int>) {
    forall i, j :: 0 <= i < j < |times| ==> times[i] <= times[j]
  }

  predicate Sound(a: Admission, limit: int) {
    && 0 <= a.ordinal < Effective(limit)
    && a.start <= a.at
    && (a.ordinal == 0 ==> a.start == a.at)
  }

  /** Consecutive admissions share a window, or the later one opens a window after the first ended. */
  predicate Link(a: Admission, b: Admission, window: int) {
    && a.at <= b.at
    && (|| (b.start == a.start && b.ordinal == a.ordinal + 1)
        || (b.ordinal == 0 && b.at > a.start + window))
  }

  predicate Chained(log: seq<Admission>, limit: int, window: int) {
    log != [] ==>
      var n := |log| - 1;
      Sound(log[n], limit) && Chained(log[..n], limit, window) && (n > 0 ==> Link(log[n - 1], log[n], window))
  }

  lemma {:induction false} ChainedAt(log: seq<Admission>, i: nat, limit: int, window: int)
    requires Chained(log, limit, window) && i < |log|
    ensures Sound(log[i], limit)
    ensures i + 1 < |log| ==> Link(log[i], log[i + 1], window)
  {
    if i + 1 < |log| {
      ChainedAt(log[..|log| - 1], i, limit, window);
    }
  }

  /** How the counter after a run describes the newest admission. */
  ghost predicate Newest(log: seq<Admission>, e: Entry, now: int, limit: int, window: int) {
    && log != []
    && e.count >= 1
    && var last := log[|log| - 1];
    && last.start == e.resetAt - window
    && last.start <= last.at <= now
    && last.ordinal == (if e.count <= Effective(limit) then e.count else Effective(limit)) - 1
  }

  lemma AdmissionStep(log: seq<Admission>, e: Option<Entry>, last: int, now: int, limit: int, window: int)
    requires Chained(log, limit, window) && last <= now
    requires if e.Some? then Newest(log, e.value, last, limit, window) else log == []
    ensures Chained(Grow(log, e, now, limit, window), limit, window)
    ensures Newest(Grow(log, e, now, limit, window), Hit(e, now, limit, window).0, now, limit, window)
  {
    var (entry, ok) := Hit(e, now, limit, window);
    if ok {
      var next := Admission(now, entry.resetAt - window, entry.count - 1);
      assert (log + [next])[..|log|] == log;
    }
  }

  lemma {:induction false} AdmissionsChained(times: seq<int>, limit: int, window: int)
    requires Monotone(times)
    ensures Chained(Admissions(times, limit, window), limit, window)
    ensures times != [] ==>
              Newest(Admissions(times, limit, window), Counter(times, limit, window).value,
                     times[|times| - 1], limit, window)
  {
    if times != [] {
      var n := |times| - 1;
      AdmissionsChained(times[..n], limit, window);
      AdmissionStep(Admissions(times[..n], limit, window), Counter(times[..n], limit, window),
                    if n > 0 then times[n - 1] else times[n], times[n], limit, window);
    }
  }

  /** From any admission, a new window starts within the next `limit` admissions. */
  lemma {:induction false} NextWindow(log: seq<Admission>, i: nat, limit: int, window: int) returns (j: nat)
    requires Chained(log, limit, window)
    requires i < |log| && Sound(log[i], limit) && i + Effective(limit) - log[i].ordinal < |log|
    ensures i < j <= i + Effective(limit) - log[i].ordinal
    ensures j < |log| && log[j].ordinal == 0 && log[j].start == log[j].at > log[i].start + window
    decreases |log| - i
  {
    ChainedAt(log, i, limit, window);
    ChainedAt(log, i + 1, limit, window);
    if log[i + 1].ordinal == 0 && log[i + 1].at > log[i].start + window {
      j := i + 1;
    } else {
      j := NextWindow(log, i + 1, limit, window);
    }
  }

  lemma {:induction false} LaterIsNotEarlier(log: seq<Admission>, i: nat, j: nat, limit: int, window: int)
    requires Chained(log, limit, window) && i <= j < |log|
    ensures log[i].at <= log[j].at
    decreases j - i
  {
    if i < j {
      LaterIsNotEarlier(log, i + 1, j, limit, window);
      ChainedAt(log, i, limit, window);
    }
  }

  /** Any 2*limit consecutive admissions take longer than a window. */
  lemma TwiceLimitSpansAWindow(log: seq<Admission>, i: nat, limit: int, window: int)
    requires Chained(log, limit, window)
    requires i + 2 * Effective(limit) - 1 < |log|
    ensures log[i + 2 * Effective(limit) - 1].at > log[i].at + window
  {
    var last := i + 2 * Effective(limit) - 1;
    ChainedAt(log, i, limit, window);
    var j := NextWindow(log, i, limit, window);
    if log[i].ordinal == 0 {
      LaterIsNotEarlier(log, j, last, limit, window);
    } else {
      var k := NextWindow(log, j, limit, window);
      LaterIsNotEarlier(log, i, j, limit, window);
      LaterIsNotEarlier(log, k, last, limit, window);
    }
  }

  // ---------------------------------------------------------------- counting

  /** Admitted requests of one address within the closed interval from lo to hi. */
  function AdmittedWithin(reqs: seq<Request>, decisions: seq<bool>, ip: string, lo: int, hi: int): nat
    requires |decisions| == |reqs|
  {
    if reqs == [] then 0
    else
      var n := |reqs| - 1;
      AdmittedWithin(reqs[..n], decisions[..n], ip, lo, hi)
      + if reqs[n].ip == ip && lo <= reqs[n].at <= hi && decisions[n] then 1 else 0
  }

  function CountWithin(log: seq<Admission>, lo: int, hi: int): nat {
    if log == [] then 0
    else CountWithin(log[..|log| - 1], lo, hi) + if lo <= log[|log| - 1].at <= hi then 1 else 0
  }

  lemma {:induction false} CountsAgree(reqs: seq<Request>, ip: string, lo: int, hi: int, limit: int, window: int)
    ensures AdmittedWithin(reqs, Decisions(reqs, limit, window), ip, lo, hi)
            == CountWithin(Admissions(TimesOf(reqs, ip), limit, window), lo, hi)
  {
    if reqs != [] {
      var n := |reqs| - 1;
      var d := Decisions(reqs, limit, window);
      assert d[..n] == Decisions(reqs[..n], limit, window);
      CountsAgree(reqs[..n], ip, lo, hi, limit, window);
      AddressesAreIsolated(reqs[..n], ip, limit, window);
      var times, before := TimesOf(reqs, ip), TimesOf(reqs[..n], ip);
      if reqs[n].ip == ip {
        assert times[..|times| - 1] == before;
        var log := Admissions(times, limit, window);
        if d[n] {
          assert log[..|log| - 1] == Admissions(before, limit, window);
        }
      } else {
        assert times == before;
      }
    }
  }

  /** At most j - i admissions lie in an interval that misses those before i and from j on. */
  lemma {:induction false} CountBetween(log: seq<Admission>, lo: int, hi: int, i: nat, j: nat)
    requires i <= j
    requires forall k :: 0 <= k < i && k < |log| ==> log[k].at < lo
    requires forall k :: j <= k < |log| ==> log[k].at > hi
    ensures CountWithin(log, lo, hi) <= (if |log| <= i then 0 else if |log| <= j then |log| - i else j - i)
  {
    if log != [] {
      CountBetween(log[..|log| - 1], lo, hi, i, j);
    }
  }

  lemma {:induction false} CountBound(log: seq<Admission>, lo: int, limit: int, window: int)
    requires Chained(log, limit, window)
    ensures CountWithin(log, lo, lo + window) <= 2 * Effective(limit) - 1
  {
    var i := 0;
    while i < |log| && log[i].at < lo
      invariant 0 <= i <= |log|
      invariant forall k :: 0 <= k < i ==> log[k].at < lo
    {
      i := i + 1;
    }
    var j := i + 2 * Effective(limit) - 1;
    if j < |log| {
      TwiceLimitSpansAWindow(log, i, limit, window);
      forall k | j <= k < |log| ensures log[k].at > lo + window {
        LaterIsNotEarlier(log, j, k, limit, window);
      }
    }
    CountBetween(log, lo, lo + window, i, j);
  }

  ghost predicate MonotoneClock(reqs: seq<Request>) {
    forall i, j :: 0 <= i < j < |reqs| ==> reqs[i].at <= reqs[j].at
  }

  lemma {:induction false} TimesAreMonotone(reqs: seq<Request>, ip: string)
    requires MonotoneClock(reqs)
    ensures Monotone(TimesOf(reqs, ip))
    ensures forall k :: 0 <= k < |TimesOf(reqs, ip)| ==>
              reqs != [] && TimesOf(reqs, ip)[k] <= reqs[|reqs| - 1].at
  {
    if reqs != [] {
      var n := |reqs| - 1;
      TimesAreMonotone(reqs[..n], ip);
      if n > 0 { assert reqs[..n][n - 1].at <= reqs[n].at; }
    }
  }

  /** The true sliding-window guarantee of this fixed-window limiter: whatever the interleaving, any
      closed interval one window long holds fewer than twice the limit of one address's admissions. */
  lemma SlidingBound(reqs: seq<Request>, ip: string, lo: int, limit: int, window: int)
    requires MonotoneClock(reqs)
    ensures AdmittedWithin(reqs, Decisions(reqs, limit, window), ip, lo, lo + window) <= 2 * Effective(limit) - 1
  {
    TimesAreMonotone(reqs, ip);
    AdmissionsChained(TimesOf(reqs, ip), limit, window);
    CountsAgree(reqs, ip, lo, lo + window, limit, window);
    CountBound(Admissions(TimesOf(reqs, ip), limit, window), lo, limit, window);
  }

  // ---------------------------------------------------------------- the bound is attained

  function Burst(ip: string, at: int, n: nat): (r: seq<Request>)
    ensures |r| == n
  {
    if n == 0 then [] else Burst(ip, at, n - 1) + [Request(ip, at)]
  }

  function EntryOf(reqs: seq<Request>, ip: string, limit: int, window: int): Option<Entry> {
    Lookup(Entries(reqs, limit, window), ip)
  }

  function Tally(reqs: seq<Request>, ip: string, lo: int, hi: int, limit: int, window: int): nat {
    AdmittedWithin(reqs, Decisions(reqs, limit, window), ip, lo, hi)
  }

  lemma OneMore(reqs: seq<Request>, r: Request, lo: int, hi: int, limit: int, window: int)
    ensures var hit := Hit(EntryOf(reqs, r.ip, limit, window), r.at, limit, window);
            && EntryOf(reqs + [r], r.ip, limit, window) == Some(hit.0)
            && Tally(reqs + [r], r.ip, lo, hi, limit, window)
               == Tally(reqs, r.ip, lo, hi, limit, window) + if lo <= r.at <= hi && hit.1 then 1 else 0
  {
    assert (reqs + [r])[..|reqs|] == reqs;
    assert Decisions(reqs + [r], limit, window)[..|reqs|] == Decisions(reqs, limit, window);
  }

  ghost predicate Stands(reqs: seq<Request>, ip: string, lo: int, hi: int, limit: int, window: int, e: Entry, tally: nat) {
    EntryOf(reqs, ip, limit, window) == Some(e) && Tally(reqs, ip, lo, hi, limit, window) == tally
  }

  lemma OneMoreAdmitted(reqs: seq<Request>, ip: string, at: int, lo: int, hi: int, limit: int, window: int,
                        e: Entry, tally: nat)
    requires Stands(reqs, ip, lo, hi, limit, window, e, tally)
    requires e.count + 1 <= limit && at <= e.resetAt && lo <= at <= hi
    ensures Stands(reqs + [Request(ip, at)], ip, lo, hi, limit, window, Entry(e.count + 1, e.resetAt), tally + 1)
  {
    OneMore(reqs, Request(ip, at), lo, hi, limit, window);
  }

  /** What holds at first and survives each request of a burst holds after it. */
  lemma {:induction false} BurstInduction(P: (seq<Request>, nat) -> bool, reqs: seq<Request>, ip: string, at: int, n: nat)
    requires P(reqs, 0)
    requires forall s, k: nat :: k < n && P(s, k) ==> P(s + [Request(ip, at)], k + 1)
    ensures P(reqs + Burst(ip, at, n), n)
  {
    if n == 0 {
      assert reqs + Burst(ip, at, n) == reqs;
    } else {
      BurstInduction(P, reqs, ip, at, n - 1);
      assert reqs + Burst(ip, at, n) == reqs + Burst(ip, at, n - 1) + [Request(ip, at)];
    }
  }

  lemma BurstAdmitted(reqs: seq<Request>, ip: string, at: int, n: nat,
                      lo: int, hi: int, limit: int, window: int, e: Entry, tally: nat)
    requires Stands(reqs, ip, lo, hi, limit, window, e, tally)
    requires 1 <= e.count && e.count + n <= Effective(limit)
    requires lo <= at <= hi && at <= e.resetAt
    ensures Stands(reqs + Burst(ip, at, n), ip, lo, hi, limit, window, Entry(e.count + n, e.resetAt), tally + n)
  {
    var P: (seq<Request>, nat) -> bool :=
      (s: seq<Request>, k: nat) => Stands(s, ip, lo, hi, limit, window, Entry(e.count + k, e.resetAt), tally + k);
    forall s, k: nat | k < n && P(s, k) ensures P(s + [Request(ip, at)], k + 1) {
      OneMoreAdmitted(s, ip, at, lo, hi, limit, window, Entry(e.count + k, e.resetAt), tally + k);
    }
    BurstInduction(P, reqs, ip, at, n);
  }

  /** The worst case: one request opens a window, the rest of its limit arrive as it ends, and a
      full limit follows in the next window. */
  function WorstCase(ip: string, limit: int, window: int): seq<Request> {
    SpentWindow(ip, limit, window) + [Request(ip, window + 1)] + Burst(ip, window + 1, Effective(limit) - 1)
  }

  function SpentWindow(ip: string, limit: int, window: int): seq<Request> {
    [Request(ip, 0)] + Burst(ip, window, Effective(limit) - 1)
  }

  lemma SpentWindowTally(ip: string, limit: int, window: int)
    requires window >= 1
    ensures Stands(SpentWindow(ip, limit, window), ip, window, window + window, limit, window,
                   Entry(Effective(limit), window), Effective(limit) - 1)
  {
    FirstRequest(ip, window, window + window, limit, window);
    BurstAdmitted([Request(ip, 0)], ip, window, Effective(limit) - 1, window, window + window, limit, window,
                  Entry(1, window), 0);
  }

  lemma WorstCaseTally(ip: string, limit: int, window: int)
    requires window >= 1
    ensures Stands(WorstCase(ip, limit, window), ip, window, window + window, limit, window,
                   Entry(Effective(limit), window + 1 + window), 2 * Effective(limit) - 1)
  {
    var spent, m := SpentWindow(ip, limit, window), Effective(limit) - 1;
    SpentWindowTally(ip, limit, window);
    FreshWindow(spent, ip, window + 1, window, window + window, limit, window, Entry(1 + m, window), m);
    BurstAdmitted(spent + [Request(ip, window + 1)], ip, window + 1, m, window, window + window, limit, window,
                  Entry(1, window + 1 + window), m + 1);
  }

  lemma FirstRequest(ip: string, lo: int, hi: int, limit: int, window: int)
    requires lo > 0
    ensures Stands([Request(ip, 0)], ip, lo, hi, limit, window, Entry(1, window), 0)
  {
    OneMore([], Request(ip, 0), lo, hi, limit, window);
    assert [] + [Request(ip, 0)] == [Request(ip, 0)];
  }

  lemma FreshWindow(reqs: seq<Request>, ip: string, at: int, lo: int, hi: int, limit: int, window: int,
                    e: Entry, tally: nat)
    requires Stands(reqs, ip, lo, hi, limit, window, e, tally)
    requires at > e.resetAt && lo <= at <= hi
    ensures Stands(reqs + [Request(ip, at)], ip, lo, hi, limit, window, Entry(1, at + window), tally + 1)
  {
    OneMore(reqs, Request(ip, at), lo, hi, limit, window);
  }

  /** The bound is exact: on every limit and window a monotone run reaches it. */
  lemma BoundIsAttained(ip: string, limit: int, window: int)
    requires window >= 1
    ensures var reqs := WorstCase(ip, limit, window);
            && MonotoneClock(reqs)
            && AdmittedWithin(reqs, Decisions(reqs, limit, window), ip, window, window + window)
               == 2 * Effective(limit) - 1
  {
    BurstTimes(ip, window, Effective(limit) - 1);
    BurstTimes(ip, window + 1, Effective(limit) - 1);
    WorstCaseTally(ip, limit, window);
  }

  lemma {:induction false} BurstTimes(ip: string, at: int, n: nat)
    ensures forall k :: 0 <= k < n ==> Burst(ip, at, n)[k] == Request(ip, at)
  {
    if n > 0 { BurstTimes(ip, at, n - 1); }
  }

  // ---------------------------------------------------------------- refusals

  /** The counter tells how many admissions its current window holds, all before its end. */
  ghost predicate CountsWindow(log: seq<Admission>, e: Entry, hi: int, limit: int, window: int) {
    && e.count >= 1
    && CountWithin(log, e.resetAt - window, hi) == (if e.count <= Effective(limit) then e.count else Effective(limit))
    && forall k :: 0 <= k < |log| ==> log[k].at <= e.resetAt
  }

  lemma WindowStep(log: seq<Admission>, e: Option<Entry>, now: int, hi: int, limit: int, window: int)
    requires window >= 0 && now <= hi
    requires if e.Some? then CountsWindow(log, e.value, hi, limit, window) && e.value.resetAt - window <= now
             else log == []
    ensures var (entry, ok) := Hit(e, now, limit, window);
            && entry.resetAt - window <= now
            && CountsWindow(if ok then log + [Admission(now, entry.resetAt - window, entry.count - 1)] else log,
                            entry, hi, limit, window)
  {
    var (entry, ok) := Hit(e, now, limit, window);
    if ok {
      CountOneMore(log, Admission(now, entry.resetAt - window, entry.count - 1), entry.resetAt - window, hi);
      if e.None? || now > e.value.resetAt {
        CountBetween(log, now, hi, |log|, |log|);
      }
    }
  }

  lemma CountOneMore(log: seq<Admission>, next: Admission, lo: int, hi: int)
    ensures CountWithin(log + [next], lo, hi) == CountWithin(log, lo, hi) + if lo <= next.at <= hi then 1 else 0
  {
    assert (log + [next])[..|log|] == log;
  }

  lemma {:induction false} CurrentWindowCount(times: seq<int>, hi: int, limit: int, window: int)
    requires Monotone(times) && window >= 0 && times != [] && times[|times| - 1] <= hi
    ensures Counter(times, limit, window).Some?
    ensures CountsWindow(Admissions(times, limit, window), Counter(times, limit, window).value, hi, limit, window)
    ensures Counter(times, limit, window).value.resetAt - window <= times[|times| - 1]
  {
    var n := |times| - 1;
    if n > 0 {
      CurrentWindowCount(times[..n], hi, limit, window);
    }
    WindowStep(Admissions(times[..n], limit, window), Counter(times[..n], limit, window), times[n], hi, limit, window);
  }

  /** A request is refused only when the address already had its limit of admissions in a window
      that is still open, no longer than `window` ago. */
  lemma RefusedOnlyWhenSpent(reqs: seq<Request>, r: Request, limit: int, window: int) returns (start: int)
    requires MonotoneClock(reqs + [r])
    requires !Decisions(reqs + [r], limit, window)[|reqs|]
    ensures r.at - window <= start <= r.at
    ensures AdmittedWithin(reqs, Decisions(reqs, limit, window), r.ip, start, r.at) == Effective(limit)
  {
    var all := reqs + [r];
    assert all[..|reqs|] == reqs;
    assert MonotoneClock(reqs) by {
      forall i, j | 0 <= i < j < |reqs| ensures reqs[i].at <= reqs[j].at {
        assert all[i].at <= all[j].at;
      }
    }
    var times := TimesOf(reqs, r.ip);
    TimesAreMonotone(reqs, r.ip);
    AddressesAreIsolated(reqs, r.ip, limit, window);
    var e := Counter(times, limit, window);
    assert e.Some? && r.at <= e.value.resetAt && e.value.count + 1 > limit;
    var last := times[|times| - 1];
    assert last <= r.at by {
      assert last <= reqs[|reqs| - 1].at;
      assert all[|reqs| - 1].at <= all[|reqs|].at;
    }
    if window < 0 {
      NegativeWindowNeverHolds(times, limit, window);
      assert false;
    } else {
      start := e.value.resetAt - window;
      CurrentWindowCount(times, r.at, limit, window);
      CountsAgree(reqs, r.ip, start, r.at, limit, window);
    }
  }

  lemma {:induction false} NegativeWindowNeverHolds(times: seq<int>, limit: int, window: int)
    requires Monotone(times) && window < 0 && times != []
    ensures Counter(times, limit, window) == Some(Entry(1, times[|times| - 1] + window))
  {
    if |times| > 1 {
      NegativeWindowNeverHolds(times[..|times| - 1], limit, window);
    }
  }
}
