/**
 * The per-IP sliding-window limiter of `rate_limit` (app/utils/security.py).
 *
 * The source keeps two module-level dictionaries: `request_counts`, the
 * timestamps of the recent accepted requests of each IP, and `blocked_ips`,
 * the time until which each blocked IP is refused. Each call of an endpoint
 * wrapped by the decorator would run one `Check`; no route of the application
 * applies this decorator (the served routes are limited by flask_limiter). The
 * clock and the client address are parameters, and the HTTP abort with status
 * 429 is the `Rejected` verdict.
 */
module RateLimit {
  type IP = string

  datatype Verdict = Allowed | Rejected

  /** The two dictionaries, as values. */
  datatype LimiterState = LimiterState(requestCounts: map<IP, seq<real>>, blockedIps: map<IP, real>)

  datatype Outcome = Outcome(next: LimiterState, verdict: Verdict)

  /** How long a client that exceeds its limit is blocked: ten minutes. */
  const BlockSeconds: real := 600.0

  const Empty: LimiterState := LimiterState(map[], map[])

  /** The recorded timestamps of `ip`; an IP never seen has none. */
  function Stored(s: LimiterState, ip: IP): seq<real> {
    if ip in s.requestCounts then s.requestCounts[ip] else []
  }

  predicate IsBlocked(s: LimiterState, ip: IP, now: real) {
    ip in s.blockedIps && s.blockedIps[ip] > now
  }

  /** The timestamps still inside the window ending at `now`, in their order. */
  function Prune(ts: seq<real>, now: real, window: real): (r: seq<real>)
    ensures |r| <= |ts|
    ensures forall t :: t in r <==> t in ts && now - t < window
    ensures forall t :: multiset(r)[t] == if now - t < window then multiset(ts)[t] else 0
  {
    if ts == [] then []
    else
      assert ts == [ts[0]] + ts[1..];
      (if now - ts[0] < window then [ts[0]] else []) + Prune(ts[1..], now, window)
  }

  /** No IP has more than `maxRequests` recorded timestamps. */
  predicate Bounded(s: LimiterState, maxRequests: int) {
    forall ip :: ip in s.requestCounts ==> |s.requestCounts[ip]| <= maxRequests
  }

  /**
   * One request from `ip` at time `now`: a blocked IP is refused and nothing
   * changes; otherwise its timestamps are pruned to the window, and it is
   * either blocked for ten minutes (the limit is reached; the request is not
   * recorded) or allowed (the request is recorded). Other IPs are untouched.
   */
  function Step(s: LimiterState, ip: IP, now: real, window: real, maxRequests: int): (o: Outcome)
    ensures IsBlocked(s, ip, now) ==> o.verdict == Rejected && o.next == s
    ensures !IsBlocked(s, ip, now) ==>
      && o.next.requestCounts - {ip} == s.requestCounts - {ip}
      && o.next.blockedIps - {ip} == s.blockedIps - {ip}
      && ip in o.next.requestCounts
      && (forall t :: t in o.next.requestCounts[ip] ==> now - t < window || t == now)
      && (o.verdict == Allowed <==> |Prune(Stored(s, ip), now, window)| < maxRequests)
    ensures !IsBlocked(s, ip, now) && o.verdict == Allowed ==>
      && o.next.requestCounts[ip] == Prune(Stored(s, ip), now, window) + [now]
      && o.next.blockedIps == s.blockedIps
    ensures !IsBlocked(s, ip, now) && o.verdict == Rejected ==>
      && o.next.requestCounts[ip] == Prune(Stored(s, ip), now, window)
      && o.next.blockedIps == s.blockedIps[ip := now + BlockSeconds]
    ensures 0 <= maxRequests && Bounded(s, maxRequests) ==> Bounded(o.next, maxRequests)
  {
    if IsBlocked(s, ip, now) then
      Outcome(s, Rejected)
    else
      var recent := Prune(Stored(s, ip), now, window);
      if |recent| >= maxRequests then
        Outcome(LimiterState(s.requestCounts[ip := recent], s.blockedIps[ip := now + BlockSeconds]), Rejected)
      else
        Outcome(LimiterState(s.requestCounts[ip := recent + [now]], s.blockedIps), Allowed)
  }

  /** The module-level dictionaries, updated in place by each request. */
  class RateLimiter {
    var requestCounts: map<IP, seq<real>>
    var blockedIps: map<IP, real>

    constructor ()
      ensures requestCounts == map[] && blockedIps == map[]
    {
      requestCounts := map[];
      blockedIps := map[];
    }

    function State(): LimiterState
      reads this
    {
      LimiterState(requestCounts, blockedIps)
    }

    /** The body of the decorated endpoint wrapper, up to the call of the endpoint. */
    method Check(ip: IP, now: real, window: real, maxRequests: int) returns (verdict: Verdict)
      modifies this
      ensures Outcome(State(), verdict) == Step(old(State()), ip, now, window, maxRequests)
    {
      if ip in blockedIps && blockedIps[ip] > now {
        return Rejected;
      }
      if ip !in requestCounts {
        requestCounts := requestCounts[ip := []];
      }
      requestCounts := requestCounts[ip := Prune(requestCounts[ip], now, window)];
      if |requestCounts[ip]| >= maxRequests {
        blockedIps := blockedIps[ip := now + BlockSeconds];
        return Rejected;
      }
      requestCounts := requestCounts[ip := requestCounts[ip] + [now]];
      verdict := Allowed;
    }
  }

  // ---------------------------------------------------------------------
  // The sliding-window guarantee over a sequence of requests
  // ---------------------------------------------------------------------

  datatype Request = Request(ip: IP, now: real)

  /** The requests in the order they are served, with non-decreasing clock readings. */
  predicate Chronological(rs: seq<Request>) {
    forall i, j :: 0 <= i < j < |rs| ==> rs[i].now <= rs[j].now
  }

  /** Serving `rs` in order from `s`, with one window and one limit; the verdicts in order. */
  function Run(s: LimiterState, rs: seq<Request>, window: real, maxRequests: int): (r: (LimiterState, seq<Verdict>))
    ensures |r.1| == |rs|
  {
    if rs == [] then (s, [])
    else
      var prev := Run(s, rs[..|rs| - 1], window, maxRequests);
      var o := Step(prev.0, rs[|rs| - 1].ip, rs[|rs| - 1].now, window, maxRequests);
      (o.next, prev.1 + [o.verdict])
  }

  /** The times of the allowed requests of `ip`, in order. */
  function AllowedTimes(rs: seq<Request>, verdicts: seq<Verdict>, ip: IP): seq<real>
    requires |verdicts| == |rs|
  {
    if rs == [] then []
    else
      var n := |rs| - 1;
      AllowedTimes(rs[..n], verdicts[..n], ip)
        + (if rs[n].ip == ip && verdicts[n] == Allowed then [rs[n].now] else [])
  }

  lemma {:induction false} PruneAppend(a: seq<real>, b: seq<real>, now: real, window: real)
    ensures Prune(a + b, now, window) == Prune(a, now, window) + Prune(b, now, window)
  {
    if a == [] {
      assert a + b == b;
    } else {
      assert (a + b)[0] == a[0] && (a + b)[1..] == a[1..] + b;
      PruneAppend(a[1..], b, now, window);
    }
  }

  /** Pruning at an earlier time, then at a later one, is pruning at the later one. */
  lemma {:induction false} PruneTwice(ts: seq<real>, earlier: real, later: real, window: real)
    requires earlier <= later
    ensures Prune(Prune(ts, earlier, window), later, window) == Prune(ts, later, window)
  {
    if ts != [] {
      PruneTwice(ts[1..], earlier, later, window);
      PruneAppend(if earlier - ts[0] < window then [ts[0]] else [], Prune(ts[1..], earlier, window), later, window);
    }
  }

  /**
   * After the requests `rs`, the limiter state summarises their allowed times:
   * from time `since` on, the stored timestamps of each IP inside any window
   * are exactly its allowed requests inside that window.
   */
  ghost predicate Summarises(s: LimiterState, rs: seq<Request>, verdicts: seq<Verdict>,
                             since: real, window: real, maxRequests: int)
    requires |verdicts| == |rs|
  {
    && Bounded(s, maxRequests)
    && forall ip, t :: since <= t ==>
         Prune(Stored(s, ip), t, window) == Prune(AllowedTimes(rs, verdicts, ip), t, window)
  }

  lemma StepSummarises(s: LimiterState, rs: seq<Request>, verdicts: seq<Verdict>, since: real,
                       q: Request, window: real, maxRequests: int)
    requires |verdicts| == |rs| && 0 <= maxRequests && since <= q.now
    requires Summarises(s, rs, verdicts, since, window, maxRequests)
    ensures var o := Step(s, q.ip, q.now, window, maxRequests);
      Summarises(o.next, rs + [q], verdicts + [o.verdict], q.now, window, maxRequests)
  {
    var o := Step(s, q.ip, q.now, window, maxRequests);
    var rs', vs' := rs + [q], verdicts + [o.verdict];
    assert rs'[..|rs|] == rs && vs'[..|rs|] == verdicts;
    forall ip, t | q.now <= t
      ensures Prune(Stored(o.next, ip), t, window) == Prune(AllowedTimes(rs', vs', ip), t, window)
    {
      var before := AllowedTimes(rs, verdicts, ip);
      assert Prune(Stored(s, ip), t, window) == Prune(before, t, window);
      if IsBlocked(s, q.ip, q.now) || ip != q.ip {
        assert Stored(o.next, ip) == Stored(s, ip);
        if o.verdict == Allowed {
          assert ip != q.ip;
        }
        assert AllowedTimes(rs', vs', ip) == before + [];
        assert before + [] == before;
      } else {
        var recent := Prune(Stored(s, ip), q.now, window);
        PruneTwice(Stored(s, ip), q.now, t, window);
        if o.verdict == Allowed {
          assert AllowedTimes(rs', vs', ip) == before + [q.now];
          assert Stored(o.next, ip) == recent + [q.now];
          PruneAppend(recent, [q.now], t, window);
          PruneAppend(before, [q.now], t, window);
        } else {
          assert AllowedTimes(rs', vs', ip) == before + [];
          assert before + [] == before;
          assert Stored(o.next, ip) == recent;
        }
      }
    }
  }

  lemma {:induction false} RunSummarises(rs: seq<Request>, window: real, maxRequests: int)
    requires rs != [] && Chronological(rs) && 0 <= maxRequests
    ensures var r := Run(Empty, rs, window, maxRequests);
      Summarises(r.0, rs, r.1, rs[|rs| - 1].now, window, maxRequests)
  {
    var n := |rs| - 1;
    var prev := Run(Empty, rs[..n], window, maxRequests);
    if n == 0 {
      assert Summarises(Empty, [], [], rs[0].now, window, maxRequests);
    } else {
      RunSummarises(rs[..n], window, maxRequests);
    }
    assert rs[..n] + [rs[n]] == rs;
    StepSummarises(prev.0, rs[..n], prev.1, if n == 0 then rs[0].now else rs[n - 1].now,
                   rs[n], window, maxRequests);
  }

  /** The indices of the allowed requests of `ip` made in the window `(t - window, t]`. */
  function AllowedInWindow(rs: seq<Request>, verdicts: seq<Verdict>, ip: IP, t: real, window: real): set<nat>
    requires |verdicts| == |rs|
  {
    set i: nat | i < |rs| && rs[i].ip == ip && verdicts[i] == Allowed && t - window < rs[i].now <= t
  }

  /** The window's allowed indices of a sequence are those of its prefix, plus possibly its last index. */
  lemma AllowedInWindowSnoc(rs: seq<Request>, verdicts: seq<Verdict>, ip: IP, t: real, window: real)
    requires |verdicts| == |rs| && rs != []
    ensures var n := |rs| - 1;
      AllowedInWindow(rs, verdicts, ip, t, window)
        == AllowedInWindow(rs[..n], verdicts[..n], ip, t, window)
           + (if rs[n].ip == ip && verdicts[n] == Allowed && t - window < rs[n].now <= t then {n} else {})
  {
    var n := |rs| - 1;
    assert forall i :: 0 <= i < n ==> rs[..n][i] == rs[i] && verdicts[..n][i] == verdicts[i];
  }

  /** Pruning the allowed times of `ip` at `t` counts its allowed requests in the window ending at `t`. */
  lemma {:induction false} PrunedAllowedCount(rs: seq<Request>, verdicts: seq<Verdict>, ip: IP, t: real, window: real)
    requires |verdicts| == |rs|
    requires forall i :: 0 <= i < |rs| ==> rs[i].now <= t
    ensures |Prune(AllowedTimes(rs, verdicts, ip), t, window)| == |AllowedInWindow(rs, verdicts, ip, t, window)|
  {
    if rs != [] {
      var n := |rs| - 1;
      var last := if rs[n].ip == ip && verdicts[n] == Allowed then [rs[n].now] else [];
      assert forall i :: 0 <= i < n ==> rs[..n][i].now <= t;
      PrunedAllowedCount(rs[..n], verdicts[..n], ip, t, window);
      PruneAppend(AllowedTimes(rs[..n], verdicts[..n], ip), last, t, window);
      AllowedInWindowSnoc(rs, verdicts, ip, t, window);
      var earlier := AllowedInWindow(rs[..n], verdicts[..n], ip, t, window);
      var tail: set<nat> := if rs[n].ip == ip && verdicts[n] == Allowed && t - window < rs[n].now <= t then {n} else {};
      assert |Prune(last, t, window)| == |tail|;
      assert n !in earlier;
      assert |earlier + tail| == |earlier| + |tail|;
    }
  }

  /**
   * The promise of the limiter: whatever the order of requests, as long as
   * the clock does not go back and every request uses the same window and
   * limit, no IP is allowed more than `maxRequests` requests in any window
   * `(t - window, t]` ending at or after the last request.
   */
  lemma SlidingWindowLimit(rs: seq<Request>, window: real, maxRequests: int, ip: IP, t: real)
    requires rs != [] && Chronological(rs) && 0 <= maxRequests && rs[|rs| - 1].now <= t
    ensures |AllowedInWindow(rs, Run(Empty, rs, window, maxRequests).1, ip, t, window)| <= maxRequests
  {
    var r := Run(Empty, rs, window, maxRequests);
    RunSummarises(rs, window, maxRequests);
    assert Prune(Stored(r.0, ip), t, window) == Prune(AllowedTimes(rs, r.1, ip), t, window);
    PrunedAllowedCount(rs, r.1, ip, t, window);
  }
}
