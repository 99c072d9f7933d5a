/** The in-memory sliding-window limiters. */
module RateLimit {
  // `_SlidingWindow` of engine/app/portal/router.py and `_limit_auth` of engine/app/api/routes.py. The clock
  // never goes back, calls on one key are serialised, and times are exact.

  /** `while dq and dq[0] < cutoff: popleft()`. */
  function Expire(dq: seq<real>, cutoff: real): seq<real> {
    if dq != [] && dq[0] < cutoff then Expire(dq[1..], cutoff) else dq
  }

  /** The deque after one call at `now`. */
  function Called(dq: seq<real>, now: real, limit: nat, window: real): seq<real> {
    var kept := Expire(dq, now - window);
    if |kept| >= limit then kept else kept + [now]
  }

  // ---- a run of calls on one key ----------------------------------------------------------

  function Deque(calls: seq<real>, limit: nat, window: real): seq<real> {
    if calls == [] then []
    else Called(Deque(calls[..|calls| - 1], limit, window), calls[|calls| - 1], limit, window)
  }

  predicate Allowed(before: seq<real>, now: real, limit: nat, window: real) {
    |Expire(Deque(before, limit, window), now - window)| < limit
  }

  /** The times of the accepted calls. */
  function Accepted(calls: seq<real>, limit: nat, window: real): seq<real> {
    if calls == [] then []
    else
      var before, now := calls[..|calls| - 1], calls[|calls| - 1];
      Accepted(before, limit, window) + (if Allowed(before, now, limit, window) then [now] else [])
  }

  /** The times of a list that lie in a closed interval. */
  function Within(ts: seq<real>, lo: real, hi: real): seq<real> {
    if ts == [] then []
    else Within(ts[..|ts| - 1], lo, hi) + (if lo <= ts[|ts| - 1] <= hi then [ts[|ts| - 1]] else [])
  }

  predicate Nondecreasing(ts: seq<real>) {
    forall i, j | 0 <= i < j < |ts| :: ts[i] <= ts[j]
  }

  predicate Before(ts: seq<real>, now: real) {
    forall i | 0 <= i < |ts| :: ts[i] <= now
  }

  lemma {:induction false} ExpireFilters(dq: seq<real>, cutoff: real, now: real)
    requires Nondecreasing(dq) && Before(dq, now)
    ensures Expire(dq, cutoff) == Within(dq, cutoff, now)
    decreases |dq|
  {
    if dq != [] && dq[0] < cutoff {
      ExpireFilters(dq[1..], cutoff, now);
      WithinSkips(dq, cutoff, now);
    } else if dq != [] {
      WithinAll(dq, cutoff, now);
    }
  }

  lemma {:induction false} WithinSkips(ts: seq<real>, lo: real, hi: real)
    requires ts != [] && ts[0] < lo
    ensures Within(ts, lo, hi) == Within(ts[1..], lo, hi)
    decreases |ts|
  {
    if |ts| > 1 {
      WithinSkips(ts[..|ts| - 1], lo, hi);
      assert ts[1..][..|ts| - 2] == ts[..|ts| - 1][1..];
    }
  }

  lemma {:induction false} WithinAll(ts: seq<real>, lo: real, hi: real)
    requires forall i | 0 <= i < |ts| :: lo <= ts[i] <= hi
    ensures Within(ts, lo, hi) == ts
  {
    if ts != [] {
      WithinAll(ts[..|ts| - 1], lo, hi);
    }
  }

  /** Narrowing the interval twice is narrowing it once. */
  lemma {:induction false} WithinWithin(ts: seq<real>, lo: real, hi: real, lo': real, hi': real)
    requires lo <= lo' && Before(ts, hi) && hi <= hi'
    ensures Within(Within(ts, lo, hi), lo', hi') == Within(ts, lo', hi')
  {
    if ts != [] {
      var init, last := ts[..|ts| - 1], ts[|ts| - 1];
      WithinWithin(init, lo, hi, lo', hi');
      var w := Within(init, lo, hi);
      if lo <= last <= hi {
        assert (w + [last])[..|w|] == w;
      } else {
        assert w + [] == w;
      }
    }
  }

  lemma {:induction false} WithinSubsequence(ts: seq<real>, lo: real, hi: real, now: real)
    requires Nondecreasing(ts) && Before(ts, now)
    ensures Nondecreasing(Within(ts, lo, hi)) && Before(Within(ts, lo, hi), now)
  {
    if ts != [] {
      WithinSubsequence(ts[..|ts| - 1], lo, hi, ts[|ts| - 1]);
    }
  }

  lemma {:induction false} AcceptedAreCalls(calls: seq<real>, limit: nat, window: real, now: real)
    requires Nondecreasing(calls) && Before(calls, now)
    ensures Nondecreasing(Accepted(calls, limit, window)) && Before(Accepted(calls, limit, window), now)
  {
    if calls != [] {
      AcceptedAreCalls(calls[..|calls| - 1], limit, window, calls[|calls| - 1]);
    }
  }

  /** The deque always holds exactly the accepted hits still in the window as of the last call. */
  lemma {:induction false} DequeIsTheLiveWindow(calls: seq<real>, limit: nat, window: real)
    requires Nondecreasing(calls) && calls != [] && window >= 0.0
    decreases |calls|, 0
    ensures var now := calls[|calls| - 1];
      Deque(calls, limit, window) == Within(Accepted(calls, limit, window), now - window, now)
  {
    var before, now := calls[..|calls| - 1], calls[|calls| - 1];
    ExpireSeesTheLiveWindow(before, now, limit, window);
    var acc := Accepted(before, limit, window);
    assert (acc + [now])[..|acc|] == acc;
    if !Allowed(before, now, limit, window) {
      assert acc + [] == acc;
    }
  }

  lemma NoCalls(limit: nat, window: real, now: real)
    ensures Expire(Deque([], limit, window), now - window) == Within(Accepted([], limit, window), now - window, now)
  {}

  /** What is left after expiry at `now` are the accepted hits in the closed window that ends now. */
  lemma ExpireSeesTheLiveWindow(before: seq<real>, now: real, limit: nat, window: real)
    requires Nondecreasing(before) && Before(before, now) && window >= 0.0
    ensures Expire(Deque(before, limit, window), now - window) == Within(Accepted(before, limit, window), now - window, now)
    decreases |before|, 1
  {
    hide Deque, Accepted, Expire, Within;
    if before == [] {
      NoCalls(limit, window, now);
    } else {
      var last := before[|before| - 1];
      var acc := Accepted(before, limit, window);
      DequeIsTheLiveWindow(before, limit, window);
      AcceptedAreCalls(before, limit, window, last);
      WithinSubsequence(acc, last - window, last, now);
      ExpireFilters(Within(acc, last - window, last), now - window, now);
      WithinWithin(acc, last - window, last, now - window, now);
    }
  }

  /** A call is refused exactly when `limit` accepted hits lie in the window that ends with it. */
  lemma RefusedExactlyWhenFull(before: seq<real>, now: real, limit: nat, window: real)
    requires Nondecreasing(before + [now]) && window >= 0.0
    ensures !Allowed(before, now, limit, window) <==> |Within(Accepted(before, limit, window), now - window, now)| == limit
  {
    hide Deque, Accepted, Expire, Within;
    var calls := before + [now];
    assert forall i | 0 <= i < |before| :: before[i] == calls[i];
    assert calls[|before|] == now;
    ExpireSeesTheLiveWindow(before, now, limit, window);
    NeverMoreThanLimit(before, limit, window, now - window);
  }

  lemma {:induction false} WithinIsMonotone(ts: seq<real>, lo: real, hi: real, lo': real, hi': real)
    requires lo' <= lo && forall i | 0 <= i < |ts| :: ts[i] <= hi'
    ensures |Within(ts, lo, hi)| <= |Within(ts, lo', hi')|
  {
    if ts != [] {
      WithinIsMonotone(ts[..|ts| - 1], lo, hi, lo', hi');
    }
  }

  /** Every closed interval of the window's length holds at most `limit` accepted hits. */
  lemma {:induction false} NeverMoreThanLimit(calls: seq<real>, limit: nat, window: real, from: real)
    requires Nondecreasing(calls) && window >= 0.0
    ensures |Within(Accepted(calls, limit, window), from, from + window)| <= limit
    decreases |calls|
  {
    if calls != [] {
      var before, now := calls[..|calls| - 1], calls[|calls| - 1];
      var acc := Accepted(before, limit, window);
      NeverMoreThanLimit(before, limit, window, from);
      assert (acc + [now])[..|acc|] == acc && acc + [] == acc;
      if Allowed(before, now, limit, window) && from <= now <= from + window {
        ExpireSeesTheLiveWindow(before, now, limit, window);
        AcceptedAreCalls(before, limit, window, now);
        WithinIsMonotone(acc, from, from + window, now - window, now);
      }
    }
  }

  // ---- a submission and its two windows ---------------------------------------------------

  datatype Limits = Limits(ip: nat, tenant: nat)
  datatype Submission = Submission(ip: string, tenant: string, at: real)

  const IP_WINDOW := 600.0
  const TENANT_WINDOW := 3600.0

  /** The calls that the submissions of one ip make to its window. */
  function IpCalls(rs: seq<Submission>, ip: string): seq<real> {
    if rs == [] then []
    else IpCalls(rs[..|rs| - 1], ip) + (if rs[|rs| - 1].ip == ip then [rs[|rs| - 1].at] else [])
  }

  predicate PassesIp(l: Limits, before: seq<Submission>, r: Submission) {
    Allowed(IpCalls(before, r.ip), r.at, l.ip, IP_WINDOW)
  }

  /** The calls to a tenant's window: those of submissions that pass the window of their ip. */
  function TenantCalls(l: Limits, rs: seq<Submission>, tenant: string): seq<real> {
    if rs == [] then []
    else
      var before, r := rs[..|rs| - 1], rs[|rs| - 1];
      TenantCalls(l, before, tenant) + (if r.tenant == tenant && PassesIp(l, before, r) then [r.at] else [])
  }

  predicate PassesTenant(l: Limits, before: seq<Submission>, r: Submission) {
    Allowed(TenantCalls(l, before, r.tenant), r.at, l.tenant, TENANT_WINDOW)
  }

  predicate Admitted(l: Limits, before: seq<Submission>, r: Submission) {
    PassesIp(l, before, r) && PassesTenant(l, before, r)
  }

  /** The times of the submissions of an ip that pass its window and are admitted, or are refused after all. */
  function Passing(l: Limits, rs: seq<Submission>, ip: string, admitted: bool): seq<real> {
    if rs == [] then []
    else
      var before, r := rs[..|rs| - 1], rs[|rs| - 1];
      Passing(l, before, ip, admitted) + (if r.ip == ip && PassesIp(l, before, r) && PassesTenant(l, before, r) == admitted then [r.at] else [])
  }

  function AdmittedFor(l: Limits, rs: seq<Submission>, tenant: string): seq<real> {
    if rs == [] then []
    else
      var before, r := rs[..|rs| - 1], rs[|rs| - 1];
      AdmittedFor(l, before, tenant) + (if r.tenant == tenant && Admitted(l, before, r) then [r.at] else [])
  }

  predicate InTime(rs: seq<Submission>) {
    forall i, j | 0 <= i < j < |rs| :: rs[i].at <= rs[j].at
  }

  lemma {:induction false} IpCallsInTime(rs: seq<Submission>, ip: string, now: real)
    requires InTime(rs) && forall i | 0 <= i < |rs| :: rs[i].at <= now
    ensures Nondecreasing(IpCalls(rs, ip)) && Before(IpCalls(rs, ip), now)
  {
    if rs != [] {
      IpCallsInTime(rs[..|rs| - 1], ip, rs[|rs| - 1].at);
    }
  }

  lemma {:induction false} TenantCallsInTime(l: Limits, rs: seq<Submission>, tenant: string, now: real)
    requires InTime(rs) && forall i | 0 <= i < |rs| :: rs[i].at <= now
    ensures Nondecreasing(TenantCalls(l, rs, tenant)) && Before(TenantCalls(l, rs, tenant), now)
  {
    hide PassesIp;
    if rs != [] {
      TenantCallsInTime(l, rs[..|rs| - 1], tenant, rs[|rs| - 1].at);
    }
  }

  lemma AcceptedStep(calls: seq<real>, now: real, limit: nat, window: real)
    ensures Accepted(calls + [now], limit, window) == Accepted(calls, limit, window) + (if Allowed(calls, now, limit, window) then [now] else [])
    ensures Accepted(calls + [], limit, window) == Accepted(calls, limit, window) + []
  {
    assert (calls + [now])[..|calls|] == calls;
    assert calls + [] == calls && Accepted(calls, limit, window) + [] == Accepted(calls, limit, window);
  }

  lemma NothingAccepted(limit: nat, window: real)
    ensures Accepted([], limit, window) == []
  {}

  /** The hits in an ip's window are its submissions that were admitted, and those that its tenant's window
      refused. */
  lemma {:induction false} IpHitsAreBoth(l: Limits, rs: seq<Submission>, ip: string, lo: real, hi: real)
    ensures |Within(Accepted(IpCalls(rs, ip), l.ip, IP_WINDOW), lo, hi)| ==
      |Within(Passing(l, rs, ip, true), lo, hi)| + |Within(Passing(l, rs, ip, false), lo, hi)|
  {
    hide PassesTenant, Allowed;
    if rs != [] {
      var before, r := rs[..|rs| - 1], rs[|rs| - 1];
      IpHitsAreBoth(l, before, ip, lo, hi);
      AcceptedStep(IpCalls(before, ip), r.at, l.ip, IP_WINDOW);
      WithinStep(Accepted(IpCalls(before, ip), l.ip, IP_WINDOW), r.at, lo, hi);
      WithinStep(Passing(l, before, ip, true), r.at, lo, hi);
      WithinStep(Passing(l, before, ip, false), r.at, lo, hi);
    }
  }

  lemma WithinStep(ts: seq<real>, t: real, lo: real, hi: real)
    ensures Within(ts + [t], lo, hi) == Within(ts, lo, hi) + (if lo <= t <= hi then [t] else []) && ts + [] == ts
  {
    assert (ts + [t])[..|ts|] == ts;
  }

  /** So an ip is refused exactly when its submissions in the window that got past it add up to the limit,
      those that a tenant's window then refused included. */
  lemma IpRefusesExactlyWhen(l: Limits, rs: seq<Submission>, r: Submission)
    requires InTime(rs + [r])
    ensures !PassesIp(l, rs, r) <==>
      |Within(Passing(l, rs, r.ip, true), r.at - IP_WINDOW, r.at)| + |Within(Passing(l, rs, r.ip, false), r.at - IP_WINDOW, r.at)| == l.ip
  {
    hide Within, Accepted, Passing;
    var all := rs + [r];
    assert forall i | 0 <= i < |rs| :: all[i] == rs[i] && all[i].at <= all[|rs|].at;
    IpCallsInTime(rs, r.ip, r.at);
    RefusedExactlyWhenFull(IpCalls(rs, r.ip), r.at, l.ip, IP_WINDOW);
    IpHitsAreBoth(l, rs, r.ip, r.at - IP_WINDOW, r.at);
  }

  lemma {:induction false} AdmittedAreAccepted(l: Limits, rs: seq<Submission>, tenant: string)
    ensures AdmittedFor(l, rs, tenant) == Accepted(TenantCalls(l, rs, tenant), l.tenant, TENANT_WINDOW)
  {
    hide PassesIp, Allowed, Accepted;
    if rs == [] {
      NothingAccepted(l.tenant, TENANT_WINDOW);
    } else {
      var before, r := rs[..|rs| - 1], rs[|rs| - 1];
      AdmittedAreAccepted(l, before, tenant);
      AcceptedStep(TenantCalls(l, before, tenant), r.at, l.tenant, TENANT_WINDOW);
      assert AdmittedFor(l, before, tenant) + [] == AdmittedFor(l, before, tenant);
    }
  }

  /** Over every run of submissions of any ips to any tenants, both bounds hold: in ten minutes one ip gets
      at most its limit admitted, and in an hour one tenant. */
  lemma BothLimitsHold(l: Limits, rs: seq<Submission>, ip: string, tenant: string, from: real)
    requires InTime(rs)
    ensures |Within(Passing(l, rs, ip, true), from, from + IP_WINDOW)| <= l.ip
    ensures |Within(AdmittedFor(l, rs, tenant), from, from + TENANT_WINDOW)| <= l.tenant
  {
    hide Within, Accepted, Passing;
    var now := if rs == [] then from else rs[|rs| - 1].at;
    IpCallsInTime(rs, ip, now);
    TenantCallsInTime(l, rs, tenant, now);
    NeverMoreThanLimit(IpCalls(rs, ip), l.ip, IP_WINDOW, from);
    IpHitsAreBoth(l, rs, ip, from, from + IP_WINDOW);
    AdmittedAreAccepted(l, rs, tenant);
    NeverMoreThanLimit(TenantCalls(l, rs, tenant), l.tenant, TENANT_WINDOW, from);
  }

  /** With limits of one: someone else fills the window of one tenant, an ip is refused there, and is then
      refused at another tenant that would have let it in, though none of its submissions was admitted. */
  lemma RefusedSubmissionsLockOut()
    ensures var l, rs, r := Limits(1, 1), [Submission("b", "t", 0.0)] + [Submission("a", "t", 1.0)], Submission("a", "u", 2.0);
      Passing(l, rs, "a", true) == [] && !PassesIp(l, rs, r) && PassesTenant(l, rs, r)
  {
    hide Allowed;
    var l, first, second := Limits(1, 1), Submission("b", "t", 0.0), Submission("a", "t", 1.0);
    var one := [] + [first];
    EmptyAllows(0.0, IP_WINDOW);
    EmptyAllows(1.0, IP_WINDOW);
    EmptyAllows(2.0, TENANT_WINDOW);
    FullAfterOne(0.0, 1.0, TENANT_WINDOW);
    FullAfterOne(1.0, 2.0, IP_WINDOW);
    assert one[..0] == [] && one[0] == first && IpCalls(one, "a") == [] && Passing(l, one, "a", true) == [];
    assert PassesIp(l, [], first) && TenantCalls(l, one, "t") == [] + [0.0] == [0.0] && TenantCalls(l, one, "u") == [];
    var two := one + [second];
    assert two[..1] == one && two[1] == second && [first] + [second] == two;
    assert IpCalls(two, "a") == [] + [1.0] == [1.0] && PassesIp(l, one, second) && !PassesTenant(l, one, second);
    assert TenantCalls(l, two, "u") == [] && Passing(l, two, "a", true) == [];
  }

  lemma EmptyAllows(now: real, window: real)
    ensures Allowed([], now, 1, window)
  {}

  lemma FullAfterOne(at: real, now: real, window: real)
    requires at <= now <= at + window
    ensures !Allowed([at], now, 1, window)
  {
    assert [at][..0] == [] && Deque([], 1, window) == [];
    assert Deque([at], 1, window) == Called([], at, 1, window) == [] + [at];
  }

  lemma KeysDiffer(ip: string, tenant: string)
    ensures "ip:" + ip != "tenant:" + tenant
    ensures forall other: string | other != ip :: "ip:" + other != "ip:" + ip
    ensures forall other: string | other != tenant :: "tenant:" + other != "tenant:" + tenant
  {
    assert ("ip:" + ip)[0] == 'i' && ("tenant:" + tenant)[0] == 't';
    forall other: string | other != ip ensures "ip:" + other != "ip:" + ip {
      assert ("ip:" + other)[3..] == other && ("ip:" + ip)[3..] == ip;
    }
    forall other: string | other != tenant ensures "tenant:" + other != "tenant:" + tenant {
      assert ("tenant:" + other)[7..] == other && ("tenant:" + tenant)[7..] == tenant;
    }
  }

  function IpDeque(l: Limits, rs: seq<Submission>, ip: string): seq<real> {
    Deque(IpCalls(rs, ip), l.ip, IP_WINDOW)
  }

  function TenantDeque(l: Limits, rs: seq<Submission>, tenant: string): seq<real> {
    Deque(TenantCalls(l, rs, tenant), l.tenant, TENANT_WINDOW)
  }

  lemma DequeStep(calls: seq<real>, now: real, limit: nat, window: real)
    ensures Deque(calls + [now], limit, window) == Called(Deque(calls, limit, window), now, limit, window) && calls + [] == calls
  {
    assert (calls + [now])[..|calls|] == calls;
  }

  lemma IpDequeStep(l: Limits, rs: seq<Submission>, r: Submission, ip: string)
    ensures IpDeque(l, rs + [r], ip) == if ip == r.ip then Called(IpDeque(l, rs, ip), r.at, l.ip, IP_WINDOW) else IpDeque(l, rs, ip)
  {
    hide Called;
    assert (rs + [r])[..|rs|] == rs;
    DequeStep(IpCalls(rs, ip), r.at, l.ip, IP_WINDOW);
  }

  lemma TenantDequeStep(l: Limits, rs: seq<Submission>, r: Submission, tenant: string)
    ensures TenantDeque(l, rs + [r], tenant) ==
      if tenant == r.tenant && PassesIp(l, rs, r) then Called(TenantDeque(l, rs, tenant), r.at, l.tenant, TENANT_WINDOW) else TenantDeque(l, rs, tenant)
  {
    hide Called, PassesIp;
    assert (rs + [r])[..|rs|] == rs;
    DequeStep(TenantCalls(l, rs, tenant), r.at, l.tenant, TENANT_WINDOW);
  }

  // ---- the limiters as written ------------------------------------------------------------

  class SlidingWindow {
    var hits: map<string, seq<real>>

    constructor ()
      ensures hits == map[]
    {
      hits := map[];
    }

    /** The deque of a key, empty by default. */
    function Hits(key: string): seq<real>
      reads this
    {
      if key in hits then hits[key] else []
    }

    /** `allow`, at clock reading `now`. */
    method Allow(key: string, now: real, limit: nat, window: real) returns (ok: bool)
      modifies this
      ensures Hits(key) == Called(old(Hits(key)), now, limit, window)
      ensures ok <==> |Expire(old(Hits(key)), now - window)| < limit
      ensures forall other | other != key :: Hits(other) == old(Hits(other))
    {
      var dq := Hits(key);
      var cutoff := now - window;
      while dq != [] && dq[0] < cutoff
        invariant Expire(dq, cutoff) == Expire(old(Hits(key)), cutoff)
        decreases |dq|
      {
        dq := dq[1..];
      }
      if |dq| >= limit {
        hits := hits[key := dq];
        return false;
      }
      hits := hits[key := dq + [now]];
      return true;
    }

    /** The deques are those of the submissions so far. */
    ghost predicate Tracks(l: Limits, rs: seq<Submission>)
      reads this
    {
      (forall ip :: Hits("ip:" + ip) == IpDeque(l, rs, ip)) && forall tenant :: Hits("tenant:" + tenant) == TenantDeque(l, rs, tenant)
    }

    /** `_rate_limit`: the window of the ip, and only if that passes the window of the tenant, at one reading
        of the clock; false stands for the 429 response. */
    method RateLimit(l: Limits, r: Submission, ghost rs: seq<Submission>) returns (ok: bool)
      requires Tracks(l, rs)
      modifies this
      ensures Tracks(l, rs + [r])
      ensures ok <==> Admitted(l, rs, r)
    {
      hide Called, Expire, Deque, IpCalls, TenantCalls;
      assert Hits("ip:" + r.ip) == IpDeque(l, rs, r.ip) && Hits("tenant:" + r.tenant) == TenantDeque(l, rs, r.tenant);
      ok := Allow("ip:" + r.ip, r.at, l.ip, IP_WINDOW);
      KeysDiffer(r.ip, r.tenant);
      if ok {
        ok := Allow("tenant:" + r.tenant, r.at, l.tenant, TENANT_WINDOW);
      }
      forall ip ensures Hits("ip:" + ip) == IpDeque(l, rs + [r], ip) {
        KeysDiffer(ip, r.tenant);
        IpDequeStep(l, rs, r, ip);
      }
      forall tenant ensures Hits("tenant:" + tenant) == TenantDeque(l, rs + [r], tenant) {
        KeysDiffer(r.ip, tenant);
        TenantDequeStep(l, rs, r, tenant);
      }
    }

    /** `_limit_auth`: twenty attempts in ten minutes; false stands for the 429 response. */
    method LimitAuth(ip: string, now: real) returns (ok: bool)
      modifies this
      ensures Hits(ip) == Called(old(Hits(ip)), now, 20, 600.0)
      ensures ok <==> |Expire(old(Hits(ip)), now - 600.0)| < 20
      ensures forall other | other != ip :: Hits(other) == old(Hits(other))
    {
      var dq := Hits(ip);
      while dq != [] && dq[0] < now - 600.0
        invariant Expire(dq, now - 600.0) == Expire(old(Hits(ip)), now - 600.0)
        decreases |dq|
      {
        dq := dq[1..];
      }
      hits := hits[ip := if |dq| >= 20 then dq else dq + [now]];
      return |dq| < 20;
    }
  }
}
