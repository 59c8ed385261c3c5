/** The table of failed handshakes per address: counting, exponential lockout, cap and pruning. */
module HandshakeLimiter {
  import opened Reals

  type Ip = string

  /** Failures so far, the end of the lockout (0 for none), the time of the last failure. */
  datatype Entry = Entry(fails: nat, until: real, last: real)

  type Table = map<Ip, Entry>

  const THRESHOLD := 5
  const LIMIT := 1000
  const MAX_BACKOFF := 60.0
  const IDLE := 600.0

  /** The last count whose backoff can be computed: `2.0 ** 1024` is beyond a double and raises. */
  const LAST_COUNT := 1028

  /** How long the `fails`-th failure locks an address out. */
  function Backoff(fails: nat): real
    requires THRESHOLD <= fails <= LAST_COUNT
  {
    Min(MAX_BACKOFF, Doubled(1.0, fails - THRESHOLD))
  }

  /** The count a new failure of the address would reach. */
  function NextCount(t: Table, ip: Ip): nat {
    (if ip in t then t[ip].fails else 0) + 1
  }

  /** The new failure raises an error before it writes anything. */
  predicate Overflows(t: Table, ip: Ip) {
    NextCount(t, ip) > LAST_COUNT
  }

  /** The entry a new failure writes. */
  function Failed(t: Table, ip: Ip, now: real): Entry
    requires !Overflows(t, ip)
  {
    var fails := NextCount(t, ip);
    Entry(fails, if fails >= THRESHOLD then now + Backoff(fails) else 0.0, now)
  }

  predicate Expired(e: Entry, now: real) {
    now - e.last > IDLE || (e.until > 0.0 && e.until < now)
  }

  predicate Full(t: Table, ip: Ip) {
    |t| >= LIMIT && ip !in t
  }

  /** Room for a new address is made by dropping the one whose last failure is oldest. */
  predicate Victim(t: Table, ip: Ip, victim: Ip) {
    Full(t, ip) ==> victim in t && forall k :: k in t ==> t[victim].last <= t[k].last
  }

  function Written(t: Table, ip: Ip, now: real, victim: Ip): Table
    requires !Overflows(t, ip)
  {
    (if Full(t, ip) then t - {victim} else t)[ip := Failed(t, ip, now)]
  }

  function Recorded(t: Table, ip: Ip, now: real, victim: Ip): Table {
    if Overflows(t, ip) then t
    else
      var w := Written(t, ip, now, victim);
      map k | k in w && !Expired(w[k], now) :: w[k]
  }

  predicate Locked(t: Table, ip: Ip, now: real) {
    ip in t && t[ip].until > now
  }

  class FailureTable {
    var table: Table

    constructor ()
      ensures table == map[]
    {
      table := map[];
    }

    /** `record_failed_handshake`, also reporting the address it drops for room and whether it raised. */
    method Record(ip: Ip, now: real) returns (victim: Ip, raised: bool)
      modifies this`table
      ensures raised == Overflows(old(table), ip)
      ensures Victim(old(table), ip, victim) && table == Recorded(old(table), ip, now, victim)
    {
      victim := ip;
      if NextCount(table, ip) > LAST_COUNT {
        return ip, true;
      }
      var entry := Failed(table, ip, now);
      if |table| >= LIMIT && ip !in table {
        victim := Oldest(table, (e: Entry) => e.last);
        table := table - {victim};
      }
      table := table[ip := entry];
      table := map k | k in table && !Expired(table[k], now) :: table[k];
      raised := false;
    }

    /** A completed handshake clears the record. */
    method Forgive(ip: Ip)
      modifies this`table
      ensures table == old(table) - {ip}
    {
      table := table - {ip};
    }
  }

  // ----- whole histories -----

  datatype Event = Failure(ip: Ip, now: real, victim: Ip) | Success(ip: Ip, now: real)

  function After(t: Table, e: Event): Table {
    match e
    case Failure(ip, now, victim) => Recorded(t, ip, now, victim)
    case Success(ip, _) => t - {ip}
  }

  predicate History(t: Table, start: real, events: seq<Event>)
    decreases |events|
  {
    events == [] ||
      (var e := events[0];
       && start <= e.now && (e.Failure? ==> Victim(t, e.ip, e.victim))
       && History(After(t, e), e.now, events[1..]))
  }

  function TableAfter(t: Table, events: seq<Event>): Table
    decreases |events|
  {
    if events == [] then t else TableAfter(After(t, events[0]), events[1..])
  }

  /** Locked entries have reached the threshold, and no lockout outlasts its failure by over a minute. */
  predicate Sane(t: Table, now: real) {
    forall ip :: ip in t ==>
      && t[ip].last <= now && t[ip].fails <= LAST_COUNT
      && (if t[ip].fails >= THRESHOLD then t[ip].until == t[ip].last + Backoff(t[ip].fails) else t[ip].until == 0.0)
  }

  lemma {:induction false} DoubledPositive(n: nat)
    ensures Doubled(1.0, n) >= 1.0
  {
    if n > 0 {
      DoubledPositive(n - 1);
    }
  }

  /** More failures never lock out for a shorter time, up to the last count there is. */
  lemma BackoffGrows(fails: nat)
    requires THRESHOLD <= fails <= LAST_COUNT
    ensures 1.0 <= Backoff(fails) <= MAX_BACKOFF
    ensures fails < LAST_COUNT ==> Backoff(fails) <= Backoff(fails + 1)
  {
    DoubledPositive(fails - THRESHOLD);
  }

  lemma SaneAfter(t: Table, start: real, e: Event)
    requires Sane(t, start) && start <= e.now
    ensures Sane(After(t, e), e.now)
  {
  }

  lemma WrittenSize(t: Table, ip: Ip, now: real, victim: Ip)
    requires |t| <= LIMIT && Victim(t, ip, victim) && !Overflows(t, ip)
    ensures |Written(t, ip, now, victim)| <= LIMIT
  {
    hide Failed;
    var kept := if Full(t, ip) then t - {victim} else t;
    assert (t - {victim}).Keys == t.Keys - {victim};
    assert Written(t, ip, now, victim).Keys == kept.Keys + {ip};
  }

  lemma SizeAfter(t: Table, e: Event)
    requires |t| <= LIMIT && (e.Failure? ==> Victim(t, e.ip, e.victim))
    ensures |After(t, e)| <= LIMIT
  {
    if e.Failure? && !Overflows(t, e.ip) {
      WrittenSize(t, e.ip, e.now, e.victim);
      hide Written;
      hide Victim;
      hide Expired;
      SubsetSize(After(t, e).Keys, Written(t, e.ip, e.now, e.victim).Keys);
    } else if e.Success? {
      assert (t - {e.ip}).Keys == t.Keys - {e.ip};
    }
  }

  /** The table never holds more than a thousand addresses. */
  lemma {:induction false} TableBounded(t: Table, start: real, events: seq<Event>)
    requires |t| <= LIMIT && History(t, start, events)
    ensures |TableAfter(t, events)| <= 1000
    decreases |events|
  {
    if events != [] {
      SizeAfter(t, events[0]);
      TableBounded(After(t, events[0]), events[0].now, events[1..]);
    }
  }

  /** The event neither clears the address's record nor drops it for room. */
  predicate Spares(t: Table, e: Event, ip: Ip) {
    match e
    case Failure(other, _, victim) => Full(t, other) ==> victim != ip
    case Success(other, _) => other != ip
  }

  predicate AllSpare(t: Table, events: seq<Event>, ip: Ip)
    decreases |events|
  {
    events == [] || (Spares(t, events[0], ip) && AllSpare(After(t, events[0]), events[1..], ip))
  }

  /** A lockout still running survives any event that spares its address. */
  lemma LockSurvives(t: Table, start: real, e: Event, ip: Ip, until: real)
    requires Sane(t, start) && 0.0 <= start <= e.now < until && Spares(t, e, ip)
    requires ip in t && t[ip].until >= until
    ensures ip in After(t, e) && After(t, e)[ip].until >= until
  {
    assert t[ip].fails >= THRESHOLD;
    BackoffGrows(t[ip].fails);
  }

  /** Pruning never lifts a lockout early: until it runs out, only a completed handshake of the
      address or the cap of a thousand addresses can. */
  lemma {:induction false} NeverUnlockedEarly(t: Table, start: real, events: seq<Event>, ip: Ip, until: real, now: real)
    requires Sane(t, start) && 0.0 <= start && History(t, start, events) && AllSpare(t, events, ip)
    requires ip in t && t[ip].until >= until && now < until
    requires start <= now && (forall k :: 0 <= k < |events| ==> events[k].now <= now)
    ensures Locked(TableAfter(t, events), ip, now)
    decreases |events|
  {
    if events != [] {
      var e := events[0];
      assert e.now <= now;
      LockSurvives(t, start, e, ip, until);
      SaneAfter(t, start, e);
      assert forall k :: 0 <= k < |events[1..]| ==> events[1..][k] == events[k + 1];
      hide After;
      NeverUnlockedEarly(After(t, e), e.now, events[1..], ip, until, now);
    }
  }

  /** A failure sets a lockout if and only if its count is between 5 and 1028, from the eleventh on for a
      full minute.  A later one raises and leaves the table as it was, so that however often the
      address fails from then on, only a lockout already running holds. */
  lemma LockoutLength(t: Table, ip: Ip, now: real, victim: Ip)
    requires 0.0 <= now
    ensures var t', n := Recorded(t, ip, now, victim), (if ip in t then t[ip].fails else 0) + 1;
      && (n > 1028 ==> t' == t)
      && (n <= 1028 ==> ip in t' && t'[ip].fails == n && t'[ip].last == now)
      && (n < 5 ==> t'[ip].until == 0.0)
      && (5 <= n <= 1028 ==> t'[ip].until == now + Seconds(n)
                             && forall later: real :: Locked(t', ip, later) <==> later < now + Seconds(n))
      && (!Locked(t, ip, now) ==> (Locked(t', ip, now) <==> 5 <= n <= 1028))
  {
    var n := NextCount(t, ip);
    if THRESHOLD <= n <= LAST_COUNT {
      BackoffGrows(n);
      BackoffSeconds(n);
    }
    hide Doubled;
    hide Backoff;
  }

  /** How long the failures lock out: 1, 2, 4, 8, 16 and 32 seconds from the fifth to the tenth, then a minute. */
  function Seconds(n: nat): real {
    match n
    case 5 => 1.0
    case 6 => 2.0
    case 7 => 4.0
    case 8 => 8.0
    case 9 => 16.0
    case 10 => 32.0
    case _ => 60.0
  }

  lemma BackoffSeconds(n: nat)
    requires 5 <= n <= 1028
    ensures Backoff(n) == Seconds(n)
  {
    assert Doubled(1.0, 0) == 1.0 && Doubled(1.0, 1) == 2.0 && Doubled(1.0, 2) == 4.0;
    assert Doubled(1.0, 3) == 8.0 && Doubled(1.0, 4) == 16.0 && Doubled(1.0, 5) == 32.0;
    if n >= 11 {
      DoubledFromSix(n - THRESHOLD);
    }
  }

  /** The count is not only reset by success: a failure of any other address prunes an entry that is
      idle or past its lockout, and the next failure then counts as the first.  So failures keep
      adding up exactly when no such pruning falls between them. */
  lemma OthersResetTheCount(t: Table, ip: Ip, e: Event)
    requires ip in t && e.Failure? && e.ip != ip && Spares(t, e, ip)
    ensures var idle, passed := e.now - t[ip].last > 600.0, 0.0 < t[ip].until < e.now;
      var pruned := (idle || passed) && (if e.ip in t then t[e.ip].fails else 0) < 1028;
      (ip in After(t, e) <==> !pruned) && NextCount(After(t, e), ip) == if pruned then 1 else t[ip].fails + 1
  {
  }

  /** An address at the last count is never locked out again by its own failures. */
  lemma {:induction false} NeverLockedAgain(t: Table, start: real, events: seq<Event>, ip: Ip, now: real)
    requires History(t, start, events) && Overflows(t, ip) && !Locked(t, ip, now)
    requires forall k :: 0 <= k < |events| ==> events[k].Failure? && events[k].ip == ip
    ensures TableAfter(t, events) == t && !Locked(TableAfter(t, events), ip, now)
    decreases |events|
  {
    if events != [] {
      assert events[0].Failure? && events[0].ip == ip;
      assert forall k :: 0 <= k < |events[1..]| ==> events[1..][k] == events[k + 1];
      NeverLockedAgain(After(t, events[0]), events[0].now, events[1..], ip, now);
    }
  }

  lemma {:induction false} DoubledFromSix(n: nat)
    requires n >= 6
    ensures Doubled(1.0, n) >= 64.0
  {
    if n == 6 {
      assert Doubled(1.0, 3) == 8.0;
      assert Doubled(1.0, 6) == 8.0 * Doubled(1.0, 3);
    } else {
      DoubledFromSix(n - 1);
    }
  }

  /** A failure drops another address's record if and only if that record is ten minutes old or past its lockout, or it
      is the one made room for: the table then holds a thousand others, and none of these failed longer ago. */
  lemma DroppedExactly(t: Table, e: Event, ip: Ip)
    requires ip in t && e.Failure? && e.ip != ip && Victim(t, e.ip, e.victim)
    requires (if e.ip in t then t[e.ip].fails else 0) < 1028
    ensures ip !in After(t, e) <==>
      || e.now - t[ip].last > 600.0 || 0.0 < t[ip].until < e.now
      || (|t| >= 1000 && e.ip !in t && e.victim == ip)
    ensures ip in After(t, e) ==> After(t, e)[ip] == t[ip]
    ensures |t| >= 1000 && e.ip !in t ==> e.victim in t && forall k :: k in t ==> t[e.victim].last <= t[k].last
  {
  }
}
