/** The token bucket that limits UDP cookies, with lazy refill and a bounded table. */
module CookieLimiter {
  import opened Reals

  type Ip = string

  datatype Bucket = Bucket(tokens: real, last: real)

  type Table = map<Ip, Bucket>

  const CAPACITY := 10.0
  const REFILL := 5.0
  const LIMIT := 1000

  /** The tokens a stored bucket holds at time `now`. */
  function Level(b: Bucket, now: real): real {
    Min(CAPACITY, b.tokens + (now - b.last) * REFILL)
  }

  /** The tokens of an address: an address without an entry has a full bucket. */
  function Tokens(t: Table, ip: Ip, now: real): real {
    if ip in t then Level(t[ip], now) else CAPACITY
  }

  predicate Allows(t: Table, ip: Ip, now: real) {
    Tokens(t, ip, now) >= 1.0
  }

  /** The table after charging the caller, before any pruning. */
  function Charged(t: Table, ip: Ip, now: real): Table {
    t[ip := Bucket(Tokens(t, ip, now) - (if Allows(t, ip, now) then 1.0 else 0.0), now)]
  }

  /** The table without the entries that have refilled completely. */
  function Unfilled(t: Table, now: real): Table {
    map ip | ip in t && Level(t[ip], now) < CAPACITY :: t[ip]
  }

  function Pruned(t: Table, now: real): Table {
    if |t| > LIMIT then Unfilled(t, now) else t
  }

  /** The entries oldest-first eviction may remove from `t`: as many as it takes, none younger than
      one it keeps. */
  predicate Evictable(t: Table, victims: set<Ip>) {
    && victims <= t.Keys
    && |victims| == (if |t| > LIMIT then |t| - LIMIT else 0)
    && forall v, k :: v in victims && k in t && k !in victims ==> t[v].last <= t[k].last
  }

  /** The table after a call; a refused call neither prunes nor evicts. */
  function After(t: Table, ip: Ip, now: real, victims: set<Ip>): Table {
    if Allows(t, ip, now) then Pruned(Charged(t, ip, now), now) - victims else Charged(t, ip, now)
  }

  /** What a call may evict. */
  predicate Permitted(t: Table, ip: Ip, now: real, victims: set<Ip>) {
    if Allows(t, ip, now) then Evictable(Pruned(Charged(t, ip, now), now), victims) else victims == {}
  }

  lemma EvictOne(t: Table, kept: Table, victims: set<Ip>, k: Ip)
    requires victims <= t.Keys && kept == t - victims && |kept| == |t| - |victims| && k in kept
    ensures var fewer, more := kept - {k}, victims + {k};
      more <= t.Keys && fewer == t - more && |fewer| == |kept| - 1 && |fewer| == |t| - |more|
  {
    assert (kept - {k}).Keys == kept.Keys - {k};
  }

  /** Oldest-first eviction down to the limit. */
  method Evict(t: Table) returns (kept: Table, victims: set<Ip>)
    ensures Evictable(t, victims) && kept == t - victims
  {
    kept, victims := t, {};
    while |kept| > LIMIT
      invariant victims <= t.Keys && kept == t - victims && |kept| == |t| - |victims|
      invariant if |t| > LIMIT then |kept| >= LIMIT else victims == {}
      invariant forall v, k :: v in victims && k in kept ==> t[v].last <= t[k].last
      decreases |kept|
    {
      var k := Oldest(kept, (b: Bucket) => b.last);
      EvictOne(t, kept, victims, k);
      kept, victims := kept - {k}, victims + {k};
    }
  }

  class Limiter {
    var table: Table

    constructor ()
      ensures table == map[]
    {
      table := map[];
    }

    /** `_allow_udp_cookie`, also reporting what it evicts. */
    method Allow(ip: Ip, now: real) returns (allowed: bool, victims: set<Ip>)
      modifies this`table
      ensures allowed == Allows(old(table), ip, now)
      ensures Permitted(old(table), ip, now, victims)
      ensures table == After(old(table), ip, now, victims)
    {
      var tokens := Tokens(table, ip, now);
      if tokens < 1.0 {
        table := table[ip := Bucket(tokens, now)];
        return false, {};
      }
      table := table[ip := Bucket(tokens - 1.0, now)];
      victims := {};
      if |table| > LIMIT {
        table := Unfilled(table, now);
        table, victims := Evict(table);
      } else {
        assert table - {} == table;
      }
      allowed := true;
    }
  }

  // ----- whole histories -----

  datatype Call = Call(ip: Ip, now: real, victims: set<Ip>)

  /** A history the limiter can have: time does not run backwards, and each call evicts only what
      the table lets it. */
  predicate History(t: Table, start: real, calls: seq<Call>)
    decreases |calls|
  {
    calls == [] ||
      (var c := calls[0];
       start <= c.now && Permitted(t, c.ip, c.now, c.victims)
       && History(After(t, c.ip, c.now, c.victims), c.now, calls[1..]))
  }

  function TableAfter(t: Table, calls: seq<Call>): Table
    decreases |calls|
  {
    if calls == [] then t
    else TableAfter(After(t, calls[0].ip, calls[0].now, calls[0].victims), calls[1..])
  }

  function Decisions(t: Table, calls: seq<Call>): seq<bool>
    decreases |calls|
  {
    if calls == [] then []
    else
      var c := calls[0];
      [Allows(t, c.ip, c.now)] + Decisions(After(t, c.ip, c.now, c.victims), calls[1..])
  }

  /** Entries hold between nothing and a full bucket and were written in the past. */
  predicate Sane(t: Table, now: real) {
    forall ip :: ip in t ==> 0.0 <= t[ip].tokens <= CAPACITY && t[ip].last <= now
  }

  lemma SaneAfter(t: Table, ip: Ip, now: real, start: real, victims: set<Ip>)
    requires Sane(t, start) && start <= now
    ensures Sane(After(t, ip, now, victims), now)
  {
  }

  // ----- the table stays bounded -----

  /** A refused caller already has an entry, so only an allowed call can add one, and it prunes. */
  lemma SizeAfter(t: Table, ip: Ip, now: real, victims: set<Ip>)
    requires |t| <= LIMIT && Permitted(t, ip, now, victims)
    ensures |After(t, ip, now, victims)| <= LIMIT
  {
    var c := Charged(t, ip, now);
    if Allows(t, ip, now) {
      var p := Pruned(c, now);
      assert (p - victims).Keys == p.Keys - victims;
    } else {
      assert c.Keys == t.Keys;
    }
  }

  lemma {:induction false} TableBounded(t: Table, start: real, calls: seq<Call>)
    requires |t| <= LIMIT && History(t, start, calls)
    ensures |TableAfter(t, calls)| <= 1000
    decreases |calls|
  {
    if calls != [] {
      var c := calls[0];
      SizeAfter(t, c.ip, c.now, c.victims);
      TableBounded(After(t, c.ip, c.now, c.victims), c.now, calls[1..]);
    }
  }

  // ----- the table against a bucket that forgets nothing -----

  /** The decisions of a limiter that keeps every bucket for ever. */
  function IdealDecisions(t: Table, calls: seq<Call>): seq<bool>
    decreases |calls|
  {
    if calls == [] then []
    else
      var c := calls[0];
      [Allows(t, c.ip, c.now)] + IdealDecisions(Charged(t, c.ip, c.now), calls[1..])
  }

  predicate NeverEvicted(calls: seq<Call>, ip: Ip) {
    forall k :: 0 <= k < |calls| ==> ip !in calls[k].victims
  }

  /** From now on the two tables hold the same tokens for the address. */
  ghost predicate Alike(t: Table, ideal: Table, ip: Ip, now: real) {
    forall later: real :: now <= later ==> Tokens(t, ip, later) == Tokens(ideal, ip, later)
  }

  /** Dropping a refilled entry changes nothing, now or later. */
  lemma UnfilledAlike(t: Table, ip: Ip, now: real)
    ensures Alike(Pruned(t, now), t, ip, now)
  {
  }

  lemma CallAlike(t: Table, ideal: Table, c: Call, ip: Ip, start: real)
    requires Alike(t, ideal, ip, start) && start <= c.now && ip !in c.victims
    ensures ip == c.ip ==> Allows(t, ip, c.now) == Allows(ideal, ip, c.now)
    ensures Alike(After(t, c.ip, c.now, c.victims), Charged(ideal, c.ip, c.now), ip, c.now)
  {
    assert Tokens(t, ip, c.now) == Tokens(ideal, ip, c.now);
    var charged := Charged(t, c.ip, c.now);
    UnfilledAlike(charged, ip, c.now);
    forall later: real | c.now <= later
      ensures Tokens(After(t, c.ip, c.now, c.victims), ip, later) == Tokens(Charged(ideal, c.ip, c.now), ip, later)
    {
      assert Tokens(t, ip, later) == Tokens(ideal, ip, later);
      assert Tokens(Pruned(charged, c.now), ip, later) == Tokens(charged, ip, later);
    }
  }

  lemma {:induction false} SameDecision(t: Table, ideal: Table, start: real, calls: seq<Call>, ip: Ip, k: nat)
    requires History(t, start, calls) && NeverEvicted(calls, ip) && Alike(t, ideal, ip, start)
    requires k < |calls| && calls[k].ip == ip
    ensures k < |Decisions(t, calls)| && k < |IdealDecisions(ideal, calls)|
    ensures Decisions(t, calls)[k] == IdealDecisions(ideal, calls)[k]
    decreases k
  {
    hide After;
    hide Charged;
    hide Allows;
    hide Alike;
    hide Permitted;
    var c := calls[0];
    assert ip !in c.victims;
    CallAlike(t, ideal, c, ip, start);
    if k > 0 {
      assert forall j :: 0 <= j < |calls[1..]| ==> calls[1..][j] == calls[j + 1];
      SameDecision(After(t, c.ip, c.now, c.victims), Charged(ideal, c.ip, c.now), c.now, calls[1..], ip, k - 1);
    }
  }

  /** Over any history, every decision on an address that eviction never hits is the decision of the
      bucket that forgets nothing. */
  lemma LazyRefinesIdeal(start: real, calls: seq<Call>, ip: Ip, k: nat)
    requires History(map[], start, calls) && NeverEvicted(calls, ip) && k < |calls| && calls[k].ip == ip
    ensures k < |Decisions(map[], calls)| && k < |IdealDecisions(map[], calls)|
    ensures Decisions(map[], calls)[k] == IdealDecisions(map[], calls)[k]
  {
    SameDecision(map[], map[], start, calls, ip, k);
  }

  // ----- the rate -----

  /** How many of the calls are from the address and allowed. */
  function AllowedCount(t: Table, calls: seq<Call>, ip: Ip): nat
    decreases |calls|
  {
    if calls == [] then 0
    else
      var c := calls[0];
      (if c.ip == ip && Allows(t, c.ip, c.now) then 1 else 0)
        + AllowedCount(After(t, c.ip, c.now, c.victims), calls[1..], ip)
  }

  /** One call: tokens grow at the refill rate, and an allowed call of the address costs one. */
  lemma CallCharges(t: Table, c: Call, ip: Ip, start: real)
    requires Sane(t, start) && start <= c.now && ip !in c.victims
    ensures Tokens(After(t, c.ip, c.now, c.victims), ip, c.now) + (if c.ip == ip && Allows(t, ip, c.now) then 1.0 else 0.0)
         <= Tokens(t, ip, start) + REFILL * (c.now - start)
    ensures 0.0 <= Tokens(After(t, c.ip, c.now, c.victims), ip, c.now)
  {
    var charged := Charged(t, c.ip, c.now);
    UnfilledAlike(charged, ip, c.now);
    assert Tokens(Pruned(charged, c.now), ip, c.now) == Tokens(charged, ip, c.now);
  }

  lemma {:induction false} SpentTokens(t: Table, start: real, calls: seq<Call>, ip: Ip, end: real)
    requires Sane(t, start) && History(t, start, calls) && NeverEvicted(calls, ip) && start <= end
    requires calls != [] ==> calls[|calls| - 1].now <= end
    ensures AllowedCount(t, calls, ip) as real <= Tokens(t, ip, start) + REFILL * (end - start)
    decreases |calls|
  {
    assert Tokens(t, ip, start) >= 0.0;
    hide Tokens;
    hide After;
    hide Sane;
    hide Permitted;
    hide Allows;
    if calls != [] {
      var c := calls[0];
      assert ip !in c.victims;
      assert c.now <= end by { TimesOrdered(t, start, calls); }
      SaneAfter(t, c.ip, c.now, start, c.victims);
      CallCharges(t, c, ip, start);
      assert forall k :: 0 <= k < |calls[1..]| ==> calls[1..][k] == calls[k + 1];
      SpentTokens(After(t, c.ip, c.now, c.victims), c.now, calls[1..], ip, end);
    }
  }

  lemma {:induction false} TimesOrdered(t: Table, start: real, calls: seq<Call>)
    requires History(t, start, calls) && calls != []
    ensures start <= calls[0].now <= calls[|calls| - 1].now
    decreases |calls|
  {
    if |calls| > 1 {
      var c := calls[0];
      TimesOrdered(After(t, c.ip, c.now, c.victims), c.now, calls[1..]);
    }
  }

  /** After any history, in any interval in which eviction does not hit it, an address is allowed at
      most ten times plus five per second. */
  lemma RateBounded(first: real, before: seq<Call>, calls: seq<Call>, ip: Ip, start: real, end: real)
    requires History(map[], first, before) && History(TableAfter(map[], before), start, calls)
    requires before != [] ==> before[|before| - 1].now <= start
    requires first <= start <= end && (calls != [] ==> calls[|calls| - 1].now <= end) && NeverEvicted(calls, ip)
    ensures AllowedCount(TableAfter(map[], before), calls, ip) as real <= 10.0 + 5.0 * (end - start)
  {
    SaneRun(map[], first, before, start);
    SpentTokens(TableAfter(map[], before), start, calls, ip, end);
  }

  lemma {:induction false} SaneRun(t: Table, start: real, calls: seq<Call>, end: real)
    requires Sane(t, start) && History(t, start, calls) && start <= end
    requires calls != [] ==> calls[|calls| - 1].now <= end
    ensures Sane(TableAfter(t, calls), end)
    decreases |calls|
  {
    if calls != [] {
      var c := calls[0];
      TimesOrdered(t, start, calls);
      SaneAfter(t, c.ip, c.now, start, c.victims);
      hide After;
      SaneRun(After(t, c.ip, c.now, c.victims), c.now, calls[1..], end);
    }
  }

  // ----- service -----

  /** Calls of the address come at least a fifth of a second apart. */
  predicate Paced(calls: seq<Call>, ip: Ip) {
    forall j, k :: 0 <= j < k < |calls| && calls[j].ip == ip && calls[k].ip == ip ==> calls[k].now - calls[j].now >= 0.2
  }

  /** The address will have a token whenever it next calls. */
  ghost predicate Funded(t: Table, ip: Ip, calls: seq<Call>) {
    forall k :: 0 <= k < |calls| && calls[k].ip == ip ==> Tokens(t, ip, calls[k].now) >= 1.0
  }

  lemma CallKeepsFunded(t: Table, start: real, calls: seq<Call>, ip: Ip)
    requires calls != [] && Sane(t, start) && History(t, start, calls) && NeverEvicted(calls, ip)
    requires Paced(calls, ip) && Funded(t, ip, calls)
    ensures var c := calls[0]; Funded(After(t, c.ip, c.now, c.victims), ip, calls[1..])
  {
    var c := calls[0];
    var t' := After(t, c.ip, c.now, c.victims);
    var charged := Charged(t, c.ip, c.now);
    assert ip !in c.victims;
    UnfilledAlike(charged, ip, c.now);
    forall k | 0 <= k < |calls[1..]| && calls[1..][k].ip == ip ensures Tokens(t', ip, calls[1..][k].now) >= 1.0 {
      var later := calls[1..][k].now;
      assert calls[1..][k] == calls[k + 1];
      LaterCalls(t, start, calls, k + 1);
      assert Tokens(Pruned(charged, c.now), ip, later) == Tokens(charged, ip, later);
    }
  }

  lemma {:induction false} LaterCalls(t: Table, start: real, calls: seq<Call>, k: nat)
    requires History(t, start, calls) && k < |calls|
    ensures start <= calls[0].now <= calls[k].now
    decreases |calls|
  {
    if k > 0 {
      var c := calls[0];
      LaterCalls(After(t, c.ip, c.now, c.victims), c.now, calls[1..], k - 1);
    }
  }

  lemma {:induction false} FundedServed(t: Table, start: real, calls: seq<Call>, ip: Ip, k: nat)
    requires Sane(t, start) && History(t, start, calls) && NeverEvicted(calls, ip)
    requires Paced(calls, ip) && Funded(t, ip, calls) && k < |calls| && calls[k].ip == ip
    ensures k < |Decisions(t, calls)| && Decisions(t, calls)[k]
    decreases |calls|
  {
    if k > 0 {
      var c := calls[0];
      CallKeepsFunded(t, start, calls, ip);
      SaneAfter(t, c.ip, c.now, start, c.victims);
      assert forall j :: 0 <= j < |calls[1..]| ==> calls[1..][j] == calls[j + 1];
      hide After;
      FundedServed(After(t, c.ip, c.now, c.victims), c.now, calls[1..], ip, k - 1);
    }
  }

  /** An address that calls at most five times a second is never refused, whatever the others do,
      as long as eviction does not hit it. */
  lemma PacedAlwaysServed(start: real, calls: seq<Call>, ip: Ip, k: nat)
    requires History(map[], start, calls) && NeverEvicted(calls, ip) && Paced(calls, ip)
    requires k < |calls| && calls[k].ip == ip
    ensures k < |Decisions(map[], calls)| && Decisions(map[], calls)[k]
  {
    FundedServed(map[], start, calls, ip, k);
  }

  // ----- exactly who is served -----

  /** One call of the address: when, and whether it was allowed. */
  datatype Served = Served(now: real, allowed: bool)

  /** The calls of the address among all calls. */
  function Log(calls: seq<Call>, decisions: seq<bool>, ip: Ip): seq<Served>
    requires |calls| == |decisions|
  {
    if calls == [] then []
    else (if calls[0].ip == ip then [Served(calls[0].now, decisions[0])] else []) + Log(calls[1..], decisions[1..], ip)
  }

  /** How many of the calls from `j` up to `k` were allowed. */
  function Used(log: seq<Served>, j: nat, k: nat): nat
    requires j <= k <= |log|
  {
    if j == k then 0 else Used(log, j, k - 1) + (if log[k - 1].allowed then 1 else 0)
  }

  /** What is left of a burst of ten and five a second since call `j`, at a later time. */
  function Left(log: seq<Served>, j: nat, k: nat, later: real): real
    requires j < |log| && j <= k <= |log|
  {
    10.0 - Used(log, j, k) as real + 5.0 * (later - log[j].now)
  }

  /** The tokens are the least that is left of any of the bursts begun so far, and at most ten. */
  predicate Least(log: seq<Served>, later: real, tokens: real) {
    && tokens <= 10.0 && (forall j :: 0 <= j < |log| ==> tokens <= Left(log, j, |log|, later))
    && (tokens == 10.0 || exists j :: 0 <= j < |log| && tokens == Left(log, j, |log|, later))
  }

  ghost predicate Tallies(t: Table, ip: Ip, log: seq<Served>, now: real) {
    forall later: real :: now <= later ==> Least(log, later, Tokens(t, ip, later))
  }

  /** A call is allowed if and only if with it no interval from an earlier call, or this one, would see more than ten
      allowed calls and five per second. */
  predicate Fair(log: seq<Served>, k: nat)
    requires k < |log|
  {
    log[k].allowed <==> forall j :: 0 <= j <= k ==> Left(log, j, k, log[k].now) >= 1.0
  }

  predicate AllFair(log: seq<Served>) {
    forall k :: 0 <= k < |log| ==> Fair(log, k)
  }

  lemma {:induction false} UsedPrefix(log: seq<Served>, s: Served, j: nat, k: nat)
    requires j <= k <= |log|
    ensures Used(log + [s], j, k) == Used(log, j, k)
    decreases k
  {
    if j < k {
      UsedPrefix(log, s, j, k - 1);
    }
  }

  lemma LeftMore(log: seq<Served>, s: Served, j: nat, later: real)
    requires j < |log|
    ensures Left(log + [s], j, |log|, later) == Left(log, j, |log|, later)
    ensures Left(log + [s], j, |log| + 1, later) == Left(log, j, |log|, s.now) - (if s.allowed then 1.0 else 0.0) + 5.0 * (later - s.now)
  {
    UsedPrefix(log, s, j, |log|);
  }

  /** The tokens of an address after a call. */
  lemma TokensAfter(t: Table, start: real, c: Call, ip: Ip, later: real)
    requires Sane(t, start) && start <= c.now <= later && ip !in c.victims
    ensures Tokens(After(t, c.ip, c.now, c.victims), ip, later) ==
      if c.ip != ip then Tokens(t, ip, later)
      else Min(10.0, Tokens(t, ip, c.now) - (if Allows(t, ip, c.now) then 1.0 else 0.0) + 5.0 * (later - c.now))
  {
    var charged := Charged(t, c.ip, c.now);
    UnfilledAlike(charged, ip, c.now);
    assert Tokens(Pruned(charged, c.now), ip, later) == Tokens(charged, ip, later);
  }

  /** The tally of the calls is kept. */
  lemma TallyKept(t: Table, start: real, c: Call, ip: Ip, log: seq<Served>)
    requires Sane(t, start) && start <= c.now && ip !in c.victims && Tallies(t, ip, log, start)
    ensures var s := Served(c.now, Allows(t, ip, c.now));
      Tallies(After(t, c.ip, c.now, c.victims), ip, if c.ip == ip then log + [s] else log, c.now)
  {
    var s, t' := Served(c.now, Allows(t, ip, c.now)), After(t, c.ip, c.now, c.victims);
    assert Least(log, c.now, Tokens(t, ip, c.now));
    forall later: real | c.now <= later ensures Least(if c.ip == ip then log + [s] else log, later, Tokens(t', ip, later)) {
      TokensAfter(t, start, c, ip, later);
      if c.ip == ip {
        LeastMore(log, s, Tokens(t, ip, c.now), later);
      } else {
        assert Least(log, later, Tokens(t, ip, later));
      }
    }
  }

  lemma LeastMore(log: seq<Served>, s: Served, tokens: real, later: real)
    requires Least(log, s.now, tokens) && s.now <= later
    ensures Least(log + [s], later, Min(10.0, tokens - (if s.allowed then 1.0 else 0.0) + 5.0 * (later - s.now)))
  {
    var more, x := log + [s], tokens - (if s.allowed then 1.0 else 0.0) + 5.0 * (later - s.now);
    assert Used(more, |log|, |log|) == 0;
    assert Left(more, |log|, |more|, later) == 10.0 - (if s.allowed then 1.0 else 0.0) + 5.0 * (later - s.now);
    forall j | 0 <= j < |more| ensures x <= Left(more, j, |more|, later) {
      if j < |log| {
        LeftMore(log, s, j, later);
      }
    }
    if tokens != 10.0 {
      var j :| 0 <= j < |log| && tokens == Left(log, j, |log|, s.now);
      LeftMore(log, s, j, later);
      assert x == Left(more, j, |more|, later);
    } else {
      assert x == Left(more, |log|, |more|, later);
    }
  }

  lemma FairMore(log: seq<Served>, s: Served)
    requires AllFair(log)
    requires s.allowed <==> forall j :: 0 <= j < |log| ==> Left(log, j, |log|, s.now) >= 1.0
    ensures AllFair(log + [s])
  {
    var more := log + [s];
    forall k | 0 <= k < |log| + 1 ensures Fair(more, k) {
      forall j | 0 <= j <= k && j < |log| ensures Left(more, j, k, more[k].now) == Left(log, j, k, more[k].now) {
        UsedPrefix(log, s, j, k);
      }
      if k < |log| {
        assert Fair(log, k);
        assert forall j :: 0 <= j <= k ==> Left(more, j, k, log[k].now) == Left(log, j, k, log[k].now);
      } else {
        assert Left(more, k, k, s.now) == 10.0;
        assert forall j :: 0 <= j < k ==> Left(more, j, k, s.now) == Left(log, j, k, s.now);
      }
    }
  }

  lemma {:induction false} DecisionCount(t: Table, calls: seq<Call>)
    ensures |Decisions(t, calls)| == |calls|
    decreases |calls|
  {
    if calls != [] {
      var c := calls[0];
      DecisionCount(After(t, c.ip, c.now, c.victims), calls[1..]);
    }
  }

  lemma NowFair(t: Table, start: real, c: Call, ip: Ip, log: seq<Served>)
    requires Tallies(t, ip, log, start) && start <= c.now && AllFair(log)
    ensures AllFair(log + [Served(c.now, Allows(t, ip, c.now))])
  {
    hide Fair;
    var s := Served(c.now, Allows(t, ip, c.now));
    var tokens := Tokens(t, ip, c.now);
    assert Least(log, c.now, tokens);
    FairMore(log, s);
  }

  /** The first call in the log of its address, if it is one of them. */
  lemma LogFirst(t: Table, calls: seq<Call>, ip: Ip, log: seq<Served>)
    requires calls != [] && |Decisions(t, calls)| == |calls|
    ensures var c := calls[0];
      && |Decisions(After(t, c.ip, c.now, c.victims), calls[1..])| == |calls| - 1
      && log + Log(calls, Decisions(t, calls), ip)
      == (if c.ip == ip then log + [Served(c.now, Allows(t, c.ip, c.now))] else log)
         + Log(calls[1..], Decisions(After(t, c.ip, c.now, c.victims), calls[1..]), ip)
  {
    hide After;
    hide Allows;
    var c := calls[0];
    var rest := Decisions(After(t, c.ip, c.now, c.victims), calls[1..]);
    assert Decisions(t, calls) == [Allows(t, c.ip, c.now)] + rest;
    assert Decisions(t, calls)[1..] == rest;
  }

  lemma {:induction false} HistoryFair(t: Table, start: real, calls: seq<Call>, ip: Ip, log: seq<Served>)
    requires Sane(t, start) && History(t, start, calls) && NeverEvicted(calls, ip) && Tallies(t, ip, log, start)
    requires AllFair(log) && |Decisions(t, calls)| == |calls|
    ensures AllFair(log + Log(calls, Decisions(t, calls), ip))
    decreases |calls|
  {
    hide AllFair;
    hide Permitted;
    hide Tallies;
    hide Sane;
    hide After;
    hide Allows;
    if calls == [] {
      assert log + Log(calls, Decisions(t, calls), ip) == log;
    } else {
      var c := calls[0];
      assert ip !in c.victims;
      var t' := After(t, c.ip, c.now, c.victims);
      LogFirst(t, calls, ip, log);
      TallyKept(t, start, c, ip, log);
      NowFair(t, start, c, ip, log);
      SaneAfter(t, c.ip, c.now, start, c.victims);
      assert forall k :: 0 <= k < |calls[1..]| ==> calls[1..][k] == calls[k + 1];
      hide Log;
      hide Decisions;
      HistoryFair(t', c.now, calls[1..], ip, if c.ip == ip then log + [Served(c.now, Allows(t, c.ip, c.now))] else log);
    }
  }

  /** Over any history in which eviction does not hit it, a call of an address is allowed if and only if, counting
      it, no interval that begins with one of its calls has seen more than ten allowed calls and five per second. */
  lemma AllowedExactly(start: real, calls: seq<Call>, ip: Ip, k: nat)
    requires History(map[], start, calls) && NeverEvicted(calls, ip)
    ensures |Decisions(map[], calls)| == |calls|
    ensures var log := Log(calls, Decisions(map[], calls), ip);
      k < |log| ==> (log[k].allowed <==>
        forall j :: 0 <= j <= k ==> Used(log, j, k) as real + 1.0 <= 10.0 + 5.0 * (log[k].now - log[j].now))
  {
    DecisionCount(map[], calls);
    forall later: real | start <= later ensures Least([], later, Tokens(map[], ip, later)) {
    }
    HistoryFair(map[], start, calls, ip, []);
    var log := Log(calls, Decisions(map[], calls), ip);
    assert [] + log == log;
    if k < |log| {
      assert Fair(log, k);
      assert forall j :: 0 <= j <= k ==>
        (Left(log, j, k, log[k].now) >= 1.0 <==> Used(log, j, k) as real + 1.0 <= 10.0 + 5.0 * (log[k].now - log[j].now));
    }
  }

  lemma {:induction false} UsedAtMost(log: seq<Served>, j: nat, k: nat)
    requires j <= k <= |log|
    ensures Used(log, j, k) <= k - j
    decreases k
  {
    if j < k {
      UsedAtMost(log, j, k - 1);
    }
  }

  /** So an address whose calls in every interval number at most ten plus five per second is never refused. */
  lemma BurstServed(start: real, calls: seq<Call>, ip: Ip, k: nat)
    requires History(map[], start, calls) && NeverEvicted(calls, ip) && |Decisions(map[], calls)| == |calls|
    requires var log := Log(calls, Decisions(map[], calls), ip);
      k < |log| && forall j :: 0 <= j <= k ==> (k - j + 1) as real <= 10.0 + 5.0 * (log[k].now - log[j].now)
    ensures Log(calls, Decisions(map[], calls), ip)[k].allowed
  {
    AllowedExactly(start, calls, ip, k);
    var log := Log(calls, Decisions(map[], calls), ip);
    forall j | 0 <= j <= k ensures Used(log, j, k) as real + 1.0 <= 10.0 + 5.0 * (log[k].now - log[j].now) {
      UsedAtMost(log, j, k);
    }
  }

  /** The addresses that call. */
  function Callers(calls: seq<Call>): set<Ip> {
    set k | 0 <= k < |calls| :: calls[k].ip
  }

  /** Eviction hits nobody while the table and the callers make at most a thousand addresses. */
  lemma CallEvictsNobody(t: Table, c: Call, all: set<Ip>)
    requires Permitted(t, c.ip, c.now, c.victims) && t.Keys <= all && c.ip in all && |all| <= 1000
    ensures c.victims == {} && After(t, c.ip, c.now, c.victims).Keys <= all
  {
    var p := Pruned(Charged(t, c.ip, c.now), c.now);
    assert p.Keys <= all;
    SubsetSize(p.Keys, all);
    assert p - {} == p;
  }

  lemma {:induction false} FewFrom(t: Table, start: real, calls: seq<Call>, all: set<Ip>)
    requires History(t, start, calls) && t.Keys <= all && Callers(calls) <= all && |all| <= 1000
    ensures forall k :: 0 <= k < |calls| ==> calls[k].victims == {}
    decreases |calls|
  {
    if calls != [] {
      var c := calls[0];
      assert c.ip in Callers(calls);
      CallEvictsNobody(t, c, all);
      assert forall k :: 0 <= k < |calls[1..]| ==> calls[1..][k] == calls[k + 1];
      hide After;
      hide Permitted;
      FewFrom(After(t, c.ip, c.now, c.victims), c.now, calls[1..], all);
      forall k | 0 <= k < |calls| ensures calls[k].victims == {} {
        if k > 0 {
          assert calls[k] == calls[1..][k - 1];
        }
      }
    }
  }

  /** In a history in which at most a thousand addresses call, eviction hits nobody, so that what is said above of an
      address it does not hit is true of all. */
  lemma FewNeverEvicted(start: real, calls: seq<Call>, ip: Ip)
    requires History(map[], start, calls) && |Callers(calls)| <= 1000
    ensures NeverEvicted(calls, ip)
  {
    FewFrom(map[], start, calls, Callers(calls));
  }

  // ----- exactly what is kept -----

  /** The entries worth keeping: those that have not refilled to ten at five a second. */
  function Active(t: Table, ip: Ip, now: real): set<Ip> {
    set k | k in t && k != ip && t[k].tokens + 5.0 * (now - t[k].last) < 10.0
  }

  lemma ChargedEntries(t: Table, start: real, ip: Ip, now: real)
    requires Sane(t, start) && start <= now
    ensures var c := Charged(t, ip, now);
      && c.Keys == t.Keys + {ip} && |c| == |t.Keys + {ip}|
      && (forall k :: k in t && k != ip ==> c[k] == t[k]) && c[ip].last == now
      && (Allows(t, ip, now) ==> Level(c[ip], now) < CAPACITY)
  {
    var c := Charged(t, ip, now);
    assert c.Keys == t.Keys + {ip};
    assert |c| == |c.Keys|;
  }

  lemma UnfilledEntries(t: Table, start: real, ip: Ip, now: real)
    requires Sane(t, start) && start <= now && Allows(t, ip, now)
    ensures var u := Unfilled(Charged(t, ip, now), now);
      && u.Keys == Active(t, ip, now) + {ip} && |u| == |Active(t, ip, now) + {ip}|
      && (forall k :: k in u ==> k in t.Keys + {ip} && u[k] == Charged(t, ip, now)[k])
  {
    ChargedEntries(t, start, ip, now);
    var c := Charged(t, ip, now);
    hide Charged;
    hide Allows;
    var u := Unfilled(c, now);
    assert u.Keys == Active(t, ip, now) + {ip};
    assert |u| == |u.Keys|;
  }

  /** `t'` is `t` with the caller's entry renewed and, if it `prunes`, only the `active` entries kept, less the victims. */
  predicate Keeps(t: Table, t': Table, ip: Ip, now: real, victims: set<Ip>, active: set<Ip>, prunes: bool) {
    && t'.Keys == (if prunes then active - victims else t.Keys + {ip})
    && (forall k :: k in t' && k != ip ==> k in t && t'[k] == t[k]) && (ip in t' ==> t'[ip].last == now)
    && |victims| == (if prunes && |active| > 1000 then |active| - 1000 else 0)
    && (forall v, k :: v in victims && v != ip && k in t' && k != ip ==> v in t && k in t && t[v].last <= t[k].last)
  }

  /** A call leaves the other entries as they are, unless it is allowed and the table then holds more than a thousand:
      then the full ones go, and as many of the rest as exceed a thousand, none of them younger than one that stays.
      The caller's own entry is the youngest. */
  lemma KeptExactly(t: Table, start: real, ip: Ip, now: real, victims: set<Ip>)
    requires Sane(t, start) && start <= now && Permitted(t, ip, now, victims)
    ensures Keeps(t, After(t, ip, now, victims), ip, now, victims, Active(t, ip, now) + {ip},
                  Allows(t, ip, now) && |t.Keys + {ip}| > 1000)
  {
    ChargedEntries(t, start, ip, now);
    hide Allows;
    hide Charged;
    hide Unfilled;
    hide Active;
    hide Sane;
    hide Level;
    hide Keeps;
    var c := Charged(t, ip, now);
    if Allows(t, ip, now) && |c| > LIMIT {
      UnfilledEntries(t, start, ip, now);
      EvictedKeeps(t, Unfilled(c, now), ip, now, victims, Active(t, ip, now) + {ip});
    } else {
      assert c - {} == c && victims == {};
      AllKept(t, c, ip, now, Active(t, ip, now) + {ip});
    }
  }

  lemma AllKept(t: Table, c: Table, ip: Ip, now: real, active: set<Ip>)
    requires c.Keys == t.Keys + {ip} && (forall k :: k in t && k != ip ==> c[k] == t[k]) && c[ip].last == now
    ensures Keeps(t, c, ip, now, {}, active, false)
  {
  }

  lemma EvictedKeeps(t: Table, u: Table, ip: Ip, now: real, victims: set<Ip>, active: set<Ip>)
    requires u.Keys == active && |u| == |active| && Evictable(u, victims)
    requires forall k :: k in u && k != ip ==> k in t && u[k] == t[k]
    requires ip in u && u[ip].last == now
    ensures Keeps(t, u - victims, ip, now, victims, active, true)
  {
  }
}
