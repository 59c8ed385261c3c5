/** TCP admission: the per-address connection counts of `_on_transport_connect`. */
module TcpAdmission {
  type Ip = string

  function Count(conns: map<Ip, int>, ip: Ip): int {
    if ip in conns then conns[ip] else 0
  }

  /** The sum of all entries. */
  ghost function Total(conns: map<Ip, int>): int
    decreases |conns|
  {
    if conns == map[] then 0
    else
      var ip :| ip in conns;
      conns[ip] + Total(conns - {ip})
  }

  lemma {:induction false} TotalSplit(conns: map<Ip, int>, ip: Ip)
    requires ip in conns
    ensures Total(conns) == conns[ip] + Total(conns - {ip})
    decreases |conns|
  {
    var k :| k in conns && Total(conns) == conns[k] + Total(conns - {k});
    if k != ip {
      TotalSplit(conns - {k}, ip);
      TotalSplit(conns - {ip}, k);
      assert conns - {k} - {ip} == conns - {ip} - {k};
    }
  }

  /** Writing one entry moves the sum by the change in that entry. */
  lemma TotalPut(conns: map<Ip, int>, ip: Ip, v: int)
    ensures Total(conns[ip := v]) == Total(conns) - Count(conns, ip) + v
    ensures Total(conns - {ip}) == Total(conns) - Count(conns, ip)
  {
    TotalSplit(conns[ip := v], ip);
    assert conns[ip := v] - {ip} == conns - {ip};
    if ip in conns {
      TotalSplit(conns, ip);
    } else {
      assert conns - {ip} == conns;
    }
  }

  /** Admission is refused at the global cap or at the cap of the address. */
  ghost predicate Admits(conns: map<Ip, int>, max: int, perIp: int, ip: Ip) {
    Total(conns) < max && Count(conns, ip) < perIp
  }

  /** The cleanup every admitted handler makes on its way out. */
  function Released(conns: map<Ip, int>, ip: Ip): map<Ip, int> {
    if ip !in conns then conns
    else if conns[ip] - 1 <= 0 then conns - {ip}
    else conns[ip := conns[ip] - 1]
  }

  /** The server's table of connections and its two methods on it. */
  class Connections {
    const max: int
    const perIp: int
    var table: map<Ip, int>

    constructor (max: int, perIp: int)
      ensures this.max == max && this.perIp == perIp && table == map[]
    {
      this.max, this.perIp, table := max, perIp, map[];
    }

    method Sum() returns (total: int)
      ensures total == Total(table)
    {
      total := 0;
      var rest := table;
      while rest != map[]
        invariant total + Total(rest) == Total(table)
        decreases |rest|
      {
        var ip :| ip in rest;
        TotalSplit(rest, ip);
        total := total + rest[ip];
        rest := rest - {ip};
      }
    }

    method Connect(ip: Ip) returns (admitted: bool)
      modifies this`table
      ensures admitted == Admits(old(table), max, perIp, ip)
      ensures table == if admitted then old(table)[ip := Count(old(table), ip) + 1] else old(table)
    {
      var globalCount := Sum();
      if globalCount >= max {
        return false;
      }
      var ipCount := if ip in table then table[ip] else 0;
      if ipCount >= perIp {
        return false;
      }
      table := table[ip := ipCount + 1];
      admitted := true;
    }

    method Disconnect(ip: Ip)
      modifies this`table
      ensures table == Released(old(table), ip)
    {
      if ip in table {
        table := table[ip := table[ip] - 1];
        if table[ip] <= 0 {
          table := table - {ip};
        }
      }
    }
  }

  // ----- every interleaving of handlers -----

  /** The table, and the handlers admitted and not yet cleaned up. */
  datatype State = State(conns: map<Ip, int>, live: map<nat, Ip>)

  datatype Step = Arrive(id: nat, ip: Ip) | Leave(id: nat)

  predicate Enabled(s: State, step: Step) {
    match step
    case Arrive(id, _) => id !in s.live
    case Leave(id) => id in s.live
  }

  /** A rejected handler returns before its cleanup block and leaves no trace. */
  ghost function Apply(s: State, step: Step, max: int, perIp: int): State
    requires Enabled(s, step)
  {
    match step
    case Arrive(id, ip) =>
      if Admits(s.conns, max, perIp, ip) then State(s.conns[ip := Count(s.conns, ip) + 1], s.live[id := ip]) else s
    case Leave(id) => State(Released(s.conns, s.live[id]), s.live - {id})
  }

  ghost predicate Legal(s: State, steps: seq<Step>, max: int, perIp: int)
    decreases |steps|
  {
    steps == [] || (Enabled(s, steps[0]) && Legal(Apply(s, steps[0], max, perIp), steps[1..], max, perIp))
  }

  ghost function Exec(s: State, steps: seq<Step>, max: int, perIp: int): State
    requires Legal(s, steps, max, perIp)
    decreases |steps|
  {
    if steps == [] then s else Exec(Apply(s, steps[0], max, perIp), steps[1..], max, perIp)
  }

  /** The live handlers from an address. */
  function From(live: map<nat, Ip>, ip: Ip): set<nat> {
    set id | id in live && live[id] == ip
  }

  ghost predicate Invariant(s: State, max: int, perIp: int) {
    && (forall ip :: Count(s.conns, ip) == |From(s.live, ip)|)
    && (forall ip :: ip in s.conns ==> 1 <= s.conns[ip] <= perIp)
    && Total(s.conns) == |s.live|
    && (|s.live| <= max || s.live == map[])
  }

  lemma ArriveCounts(live: map<nat, Ip>, id: nat, ip: Ip, x: Ip)
    requires id !in live
    ensures |From(live[id := ip], x)| == |From(live, x)| + (if x == ip then 1 else 0)
    ensures |live[id := ip]| == |live| + 1
  {
    assert From(live[id := ip], x) == if x == ip then From(live, x) + {id} else From(live, x);
  }

  lemma LeaveCounts(live: map<nat, Ip>, id: nat, x: Ip)
    requires id in live
    ensures |From(live - {id}, x)| == |From(live, x)| - (if x == live[id] then 1 else 0)
    ensures |live - {id}| == |live| - 1
  {
    assert From(live - {id}, x) == From(live, x) - {id};
    assert x == live[id] <==> id in From(live, x);
    assert (live - {id}).Keys == live.Keys - {id};
  }

  /** The count of one address after a step. */
  lemma CountAfter(s: State, step: Step, max: int, perIp: int, x: Ip)
    requires Invariant(s, max, perIp) && Enabled(s, step)
    ensures var s' := Apply(s, step, max, perIp);
      Count(s'.conns, x) == |From(s'.live, x)| && (x in s'.conns ==> 1 <= s'.conns[x] <= perIp)
  {
    hide Total;
    hide From;
    assert Count(s.conns, x) == |From(s.live, x)|;
    if step.Arrive? {
      ArriveCounts(s.live, step.id, step.ip, x);
    } else {
      LeaveCounts(s.live, step.id, x);
    }
  }

  lemma ReleasedTotal(conns: map<Ip, int>, ip: Ip)
    requires ip in conns && conns[ip] >= 1
    ensures Total(Released(conns, ip)) == Total(conns) - 1
  {
    TotalPut(conns, ip, conns[ip] - 1);
    hide Total;
  }

  /** A live handler's address has an entry. */
  lemma LeaverCounted(s: State, id: nat, max: int, perIp: int)
    requires Invariant(s, max, perIp) && id in s.live
    ensures s.live[id] in s.conns && s.conns[s.live[id]] >= 1
  {
    hide Total;
    assert Count(s.conns, s.live[id]) == |From(s.live, s.live[id])|;
    assert id in From(s.live, s.live[id]);
  }

  /** The sum of the counts after a step. */
  lemma TotalAfter(s: State, step: Step, max: int, perIp: int)
    requires Invariant(s, max, perIp) && Enabled(s, step)
    ensures var s' := Apply(s, step, max, perIp);
      Total(s'.conns) == |s'.live| && (|s'.live| <= max || s'.live == map[])
  {
    assert Total(s.conns) == |s.live| && (|s.live| <= max || s.live == map[]);
    if step.Leave? {
      LeaverCounted(s, step.id, max, perIp);
    }
    hide Invariant;
    hide Total;
    hide From;
    if step.Arrive? {
      TotalPut(s.conns, step.ip, Count(s.conns, step.ip) + 1);
      ArriveCounts(s.live, step.id, step.ip, step.ip);
      hide Count;
    } else {
      LeaveCounts(s.live, step.id, s.live[step.id]);
      ReleasedTotal(s.conns, s.live[step.id]);
      hide Released;
    }
  }

  lemma StepKeeps(s: State, step: Step, max: int, perIp: int)
    requires Invariant(s, max, perIp) && Enabled(s, step)
    ensures Invariant(Apply(s, step, max, perIp), max, perIp)
  {
    hide Total;
    hide From;
    hide Apply;
    TotalAfter(s, step, max, perIp);
    var s' := Apply(s, step, max, perIp);
    forall x ensures Count(s'.conns, x) == |From(s'.live, x)| && (x in s'.conns ==> 1 <= s'.conns[x] <= perIp) {
      CountAfter(s, step, max, perIp, x);
    }
  }

  lemma {:induction false} RunKeeps(s: State, steps: seq<Step>, max: int, perIp: int)
    requires Invariant(s, max, perIp) && Legal(s, steps, max, perIp)
    ensures Invariant(Exec(s, steps, max, perIp), max, perIp)
    decreases |steps|
  {
    if steps != [] {
      StepKeeps(s, steps[0], max, perIp);
      RunKeeps(Apply(s, steps[0], max, perIp), steps[1..], max, perIp);
    }
  }

  /** In every interleaving, an address's entry is the number of its admitted handlers not yet
      cleaned up, no entry is zero or negative, and neither cap is exceeded. */
  lemma CountsAreHandlers(steps: seq<Step>, max: int, perIp: int, ip: Ip)
    requires Legal(State(map[], map[]), steps, max, perIp)
    ensures var s := Exec(State(map[], map[]), steps, max, perIp);
      && Count(s.conns, ip) == |From(s.live, ip)|
      && (ip in s.conns ==> 1 <= s.conns[ip] <= perIp)
      && Total(s.conns) == |s.live| && (s.live != map[] ==> |s.live| <= max)
  {
    assert forall x :: From(map[], x) == {};
    RunKeeps(State(map[], map[]), steps, max, perIp);
  }

  /** In every interleaving a connection is admitted if and only if fewer than `max` admitted handlers are running in
      all, and fewer than `perIp` from its address. */
  lemma AdmittedExactly(steps: seq<Step>, max: int, perIp: int, id: nat, ip: Ip)
    requires Legal(State(map[], map[]), steps, max, perIp) && 0 <= max
    requires id !in Exec(State(map[], map[]), steps, max, perIp).live
    ensures var s := Exec(State(map[], map[]), steps, max, perIp);
      id in Apply(s, Arrive(id, ip), max, perIp).live <==> |s.live| < max && |From(s.live, ip)| < perIp
  {
    CountsAreHandlers(steps, max, perIp, ip);
  }
}
