/** UDP admission: handshakes in progress, active sessions, and the handlers that own them. */
module UdpAdmission {
  import opened Wire

  type Ip = string
  datatype Addr = Addr(ip: Ip, port: nat)

  const MAX_HANDSHAKES_PER_IP := 3

  /** The server's three tables; streams are named by numbers. */
  datatype Tables = Tables(handshakes: map<Addr, nat>, sessions: map<Addr, nat>, inProgress: map<Ip, int>)

  /** How many entries of a table belong to an address. */
  function At(table: map<Addr, nat>, ip: Ip): set<Addr> {
    set a | a in table && a.ip == ip
  }

  function Progress(t: Tables, ip: Ip): int {
    if ip in t.inProgress then t.inProgress[ip] else 0
  }

  /** A HELLO with a valid cookie starts a handshake unless one is running at this very address, the
      address is locked out, or a limit is reached. */
  predicate Starts(t: Tables, max: nat, addr: Addr, lockedOut: bool) {
    && addr !in t.handshakes && !lockedOut
    && Progress(t, addr.ip) < MAX_HANDSHAKES_PER_IP && |t.handshakes| < 2 * max
  }

  function Started(t: Tables, addr: Addr, stream: nat): Tables {
    t.(inProgress := t.inProgress[addr.ip := Progress(t, addr.ip) + 1], handshakes := t.handshakes[addr := stream])
  }

  function Decremented(t: Tables, ip: Ip): Tables {
    if ip !in t.inProgress then t
    else if t.inProgress[ip] - 1 <= 0 then t.(inProgress := t.inProgress - {ip})
    else t.(inProgress := t.inProgress[ip := t.inProgress[ip] - 1])
  }

  lemma DecrementedElsewhere(t: Tables, ip: Ip)
    ensures Decremented(t, ip) == t.(inProgress := Decremented(t, ip).inProgress)
  {
  }

  function DropIf(table: map<Addr, nat>, addr: Addr, stream: nat): map<Addr, nat> {
    if addr in table && table[addr] == stream then table - {addr} else table
  }

  /** The cleanup block: a handler removes only entries that name its own stream. */
  function Cleaned(t: Tables, addr: Addr, stream: nat, decremented: bool): Tables {
    var t' := if decremented then t else Decremented(t, addr.ip);
    t'.(handshakes := DropIf(t'.handshakes, addr, stream), sessions := DropIf(t'.sessions, addr, stream))
  }

  predicate RoomForSession(t: Tables, max: nat, perIp: nat, ip: Ip) {
    |t.sessions| < max && |At(t.sessions, ip)| < perIp
  }

  /** What follows a successful handshake: promotion, or rejection and cleanup. */
  function Promoted(t: Tables, max: nat, perIp: nat, addr: Addr, stream: nat): Tables {
    var t' := Decremented(t, addr.ip);
    if RoomForSession(t', max, perIp, addr.ip)
    then t'.(sessions := t'.sessions[addr := stream], handshakes := t'.handshakes - {addr})
    else Cleaned(t', addr, stream, true)
  }

  /** The server's tables and the methods that change them, each one stretch without a suspension. */
  class Registry {
    const max: nat
    const perIp: nat
    var tables: Tables

    constructor (max: nat, perIp: nat)
      ensures this.max == max && this.perIp == perIp && tables == Tables(map[], map[], map[])
    {
      this.max, this.perIp, tables := max, perIp, Tables(map[], map[], map[]);
    }

    method OnHello(addr: Addr, stream: nat, lockedOut: bool) returns (started: bool)
      modifies this`tables
      ensures started == Starts(old(tables), max, addr, lockedOut)
      ensures tables == if started then Started(old(tables), addr, stream) else old(tables)
    {
      if addr in tables.handshakes || lockedOut {
        return false;
      }
      var inProgress := if addr.ip in tables.inProgress then tables.inProgress[addr.ip] else 0;
      if inProgress >= MAX_HANDSHAKES_PER_IP || |tables.handshakes| >= max * 2 {
        return false;
      }
      tables := tables.(inProgress := tables.inProgress[addr.ip := inProgress + 1]);
      tables := tables.(handshakes := tables.handshakes[addr := stream]);
      started := true;
    }

    method Decrement(ip: Ip)
      modifies this`tables
      ensures tables == Decremented(old(tables), ip)
    {
      if ip in tables.inProgress {
        tables := tables.(inProgress := tables.inProgress[ip := tables.inProgress[ip] - 1]);
        if tables.inProgress[ip] <= 0 {
          tables := tables.(inProgress := tables.inProgress - {ip});
        }
      }
    }

    method CleanUp(addr: Addr, stream: nat, decremented: bool)
      modifies this`tables
      ensures tables == Cleaned(old(tables), addr, stream, decremented)
    {
      if !decremented {
        Decrement(addr.ip);
      }
      if addr in tables.handshakes && tables.handshakes[addr] == stream {
        tables := tables.(handshakes := tables.handshakes - {addr});
      }
      if addr in tables.sessions && tables.sessions[addr] == stream {
        tables := tables.(sessions := tables.sessions - {addr});
      }
    }

    /** Returns the stream whose session the new one replaces, which is closed. */
    method OnHandshakeDone(addr: Addr, stream: nat) returns (kept: bool, replaced: Option<nat>)
      modifies this`tables
      ensures tables == Promoted(old(tables), max, perIp, addr, stream)
      ensures kept == RoomForSession(old(tables), max, perIp, addr.ip)
      ensures replaced == if kept && addr in old(tables).sessions then Some(old(tables).sessions[addr]) else None
    {
      hide At;
      hide Decremented;
      DecrementedElsewhere(tables, addr.ip);
      Decrement(addr.ip);
      if |tables.sessions| >= max || |At(tables.sessions, addr.ip)| >= perIp {
        CleanUp(addr, stream, true);
        return false, None;
      }
      replaced := if addr in tables.sessions then Some(tables.sessions[addr]) else None;
      tables := tables.(sessions := tables.sessions[addr := stream]);
      tables := tables.(handshakes := tables.handshakes - {addr});
      kept := true;
    }
  }

  /** The stream a datagram is fed to: a handshake in progress at its address comes first, and only a session
      datagram may go to the session. */
  function Route(t: Tables, addr: Addr, handshakeType: bool): Option<nat> {
    if addr in t.handshakes then Some(t.handshakes[addr])
    else if !handshakeType && addr in t.sessions then Some(t.sessions[addr])
    else None
  }

  // ----- every interleaving of handlers -----

  datatype Phase = Handshaking | Established

  /** A running handler and the address of its stream. */
  datatype Handler = Handler(addr: Addr, phase: Phase)

  datatype State = State(t: Tables, handlers: map<nat, Handler>)

  /** A stream's handler starts, finishes its handshake, or ends: by an error, a timeout or a
      cancellation during the handshake, or when its session is over. */
  datatype Step =
    | Hello(addr: Addr, stream: nat, lockedOut: bool)
    | Complete(stream: nat)
    | End(stream: nat)

  predicate Enabled(s: State, step: Step) {
    match step
    case Hello(_, stream, _) => stream !in s.handlers
    case Complete(stream) => stream in s.handlers && s.handlers[stream].phase == Handshaking
    case End(stream) => stream in s.handlers
  }

  function Apply(s: State, step: Step, max: nat, perIp: nat): State
    requires Enabled(s, step)
  {
    match step
    case Hello(addr, stream, lockedOut) =>
      if Starts(s.t, max, addr, lockedOut)
      then State(Started(s.t, addr, stream), s.handlers[stream := Handler(addr, Handshaking)]) else s
    case Complete(stream) =>
      var a := s.handlers[stream].addr;
      State(Promoted(s.t, max, perIp, a, stream),
            if RoomForSession(s.t, max, perIp, a.ip) then s.handlers[stream := Handler(a, Established)]
            else s.handlers - {stream})
    case End(stream) =>
      var h := s.handlers[stream];
      State(Cleaned(s.t, h.addr, stream, h.phase == Established), s.handlers - {stream})
  }

  predicate Legal(s: State, steps: seq<Step>, max: nat, perIp: nat)
    decreases |steps|
  {
    steps == [] || (Enabled(s, steps[0]) && Legal(Apply(s, steps[0], max, perIp), steps[1..], max, perIp))
  }

  function Exec(s: State, steps: seq<Step>, max: nat, perIp: nat): State
    requires Legal(s, steps, max, perIp)
    decreases |steps|
  {
    if steps == [] then s else Exec(Apply(s, steps[0], max, perIp), steps[1..], max, perIp)
  }

  /** Entries and handlers belong together: each handshake entry to the one handshaking handler of
      its address, each session entry to an established handler. */
  predicate Owned(s: State) {
    && (forall a :: a in s.t.handshakes ==>
          s.t.handshakes[a] in s.handlers && s.handlers[s.t.handshakes[a]] == Handler(a, Handshaking))
    && (forall h :: h in s.handlers && s.handlers[h].phase == Handshaking ==>
          s.handlers[h].addr in s.t.handshakes && s.t.handshakes[s.handlers[h].addr] == h)
    && (forall a :: a in s.t.sessions ==>
          s.t.sessions[a] in s.handlers && s.handlers[s.t.sessions[a]] == Handler(a, Established))
  }

  ghost predicate Counted(t: Tables) {
    && (forall ip :: Progress(t, ip) == |At(t.handshakes, ip)|)
    && (forall ip :: ip in t.inProgress ==> 1 <= t.inProgress[ip] <= MAX_HANDSHAKES_PER_IP)
  }

  ghost predicate Capped(t: Tables, max: nat, perIp: nat) {
    && |t.handshakes| <= 2 * max && |t.sessions| <= max
    && (forall ip :: |At(t.sessions, ip)| <= perIp)
  }

  ghost predicate Invariant(s: State, max: nat, perIp: nat) {
    Owned(s) && Counted(s.t) && Capped(s.t, max, perIp)
  }

  /** A handshaking handler holds the handshake entry of its address, an established one does not. */
  lemma OwnEntry(s: State, stream: nat)
    requires Owned(s) && stream in s.handlers
    ensures var h := s.handlers[stream];
      h.phase == Handshaking <==> h.addr in s.t.handshakes && s.t.handshakes[h.addr] == stream
  {
  }

  /** What each step does to the tables, given who owns what. */
  lemma EntriesAfter(s: State, step: Step, max: nat, perIp: nat)
    requires Owned(s) && Enabled(s, step) && !step.Hello?
    ensures var t', h := Apply(s, step, max, perIp).t, s.handlers[step.stream];
      && t'.handshakes == (if h.phase == Handshaking then s.t.handshakes - {h.addr} else s.t.handshakes)
      && t'.sessions == (if step.Complete? && RoomForSession(s.t, max, perIp, h.addr.ip)
                         then s.t.sessions[h.addr := step.stream] else DropIf(s.t.sessions, h.addr, step.stream))
      && t'.inProgress == (if h.phase == Handshaking then Decremented(s.t, h.addr.ip) else s.t).inProgress
  {
    OwnEntry(s, step.stream);
    var ip := s.handlers[step.stream].addr.ip;
    DecrementedElsewhere(s.t, ip);
    assert RoomForSession(Decremented(s.t, ip), max, perIp, ip) == RoomForSession(s.t, max, perIp, ip);
    hide Decremented;
    hide RoomForSession;
    hide At;
    hide Owned;
  }

  lemma HelloKeepsOwned(s: State, a: Addr, stream: nat)
    requires Owned(s) && stream !in s.handlers && a !in s.t.handshakes
    ensures Owned(State(Started(s.t, a, stream), s.handlers[stream := Handler(a, Handshaking)]))
  {
    hide Progress;
  }

  /** A handler leaves, its handshake entry with it, and its session entry if it still has one. */
  lemma EndKeepsOwned(s: State, stream: nat, t: Tables)
    requires Owned(s) && stream in s.handlers
    requires var h := s.handlers[stream];
      && t.handshakes == (if h.phase == Handshaking then s.t.handshakes - {h.addr} else s.t.handshakes)
      && t.sessions == DropIf(s.t.sessions, h.addr, stream)
    ensures Owned(State(t, s.handlers - {stream}))
  {
    OwnEntry(s, stream);
  }

  /** A handshaking handler becomes established, taking over the session entry of its address. */
  lemma PromoteKeepsOwned(s: State, stream: nat, t: Tables)
    requires Owned(s) && stream in s.handlers && s.handlers[stream].phase == Handshaking
    requires var h := s.handlers[stream];
      t.handshakes == s.t.handshakes - {h.addr} && t.sessions == s.t.sessions[h.addr := stream]
    ensures Owned(State(t, s.handlers[stream := Handler(s.handlers[stream].addr, Established)]))
  {
    OwnEntry(s, stream);
  }

  lemma OwnedKept(s: State, step: Step, max: nat, perIp: nat)
    requires Owned(s) && Enabled(s, step)
    ensures Owned(Apply(s, step, max, perIp))
  {
    hide At;
    hide Owned;
    if step.Hello? {
      if Starts(s.t, max, step.addr, step.lockedOut) {
        HelloKeepsOwned(s, step.addr, step.stream);
      }
    } else {
      EntriesAfter(s, step, max, perIp);
      hide Promoted;
      hide Cleaned;
      hide Decremented;
      var s' := Apply(s, step, max, perIp);
      if step.Complete? && RoomForSession(s.t, max, perIp, s.handlers[step.stream].addr.ip) {
        PromoteKeepsOwned(s, step.stream, s'.t);
      } else {
        EndKeepsOwned(s, step.stream, s'.t);
      }
    }
  }

  lemma PutCounts(table: map<Addr, nat>, a: Addr, v: nat, ip: Ip)
    ensures |At(table[a := v], ip)| == |At(table, ip)| + (if ip == a.ip && a !in table then 1 else 0)
    ensures |table[a := v]| == |table| + (if a in table then 0 else 1)
  {
    assert At(table[a := v], ip) == if ip == a.ip then At(table, ip) + {a} else At(table, ip);
    assert table[a := v].Keys == table.Keys + {a};
  }

  lemma DropCounts(table: map<Addr, nat>, a: Addr, ip: Ip)
    ensures |At(table - {a}, ip)| == |At(table, ip)| - (if ip == a.ip && a in table then 1 else 0)
    ensures |table - {a}| == |table| - (if a in table then 1 else 0)
  {
    assert At(table - {a}, ip) == At(table, ip) - {a};
    assert (table - {a}).Keys == table.Keys - {a};
  }

  /** The counter and the entries of one address, after a step. */
  lemma CountedAt(s: State, step: Step, max: nat, perIp: nat, ip: Ip)
    requires Owned(s) && Counted(s.t) && Enabled(s, step)
    ensures var t' := Apply(s, step, max, perIp).t;
      && Progress(t', ip) == |At(t'.handshakes, ip)|
      && (ip in t'.inProgress ==> 1 <= t'.inProgress[ip] <= MAX_HANDSHAKES_PER_IP)
  {
    hide At;
    if step.Hello? {
      assert Progress(s.t, ip) == |At(s.t.handshakes, ip)|;
      PutCounts(s.t.handshakes, step.addr, step.stream, ip);
    } else {
      EntriesAfter(s, step, max, perIp);
      OwnEntry(s, step.stream);
      hide Apply;
      hide Owned;
      hide RoomForSession;
      hide Decremented;
      hide Counted;
      FinishedCounted(s.t, s.handlers[step.stream].addr, ip);
      CountedBefore(s.t, ip);
    }
  }

  lemma CountedBefore(t: Tables, ip: Ip)
    requires Counted(t)
    ensures Progress(t, ip) == |At(t.handshakes, ip)|
    ensures ip in t.inProgress ==> 1 <= t.inProgress[ip] <= MAX_HANDSHAKES_PER_IP
  {
    hide At;
  }

  /** A handshake that leaves the table takes one off its counter. */
  lemma FinishedCounted(t: Tables, a: Addr, ip: Ip)
    requires Counted(t)
    ensures a in t.handshakes ==>
      var t' := Decremented(t, a.ip).(handshakes := t.handshakes - {a});
      && Progress(t', ip) == |At(t'.handshakes, ip)|
      && (ip in t'.inProgress ==> 1 <= t'.inProgress[ip] <= MAX_HANDSHAKES_PER_IP)
  {
    DropCounts(t.handshakes, a, ip);
    hide At;
    assert Progress(t, ip) == |At(t.handshakes, ip)|;
  }

  lemma CountedKept(s: State, step: Step, max: nat, perIp: nat)
    requires Owned(s) && Counted(s.t) && Enabled(s, step)
    ensures Counted(Apply(s, step, max, perIp).t)
  {
    hide At;
    hide Owned;
    var t' := Apply(s, step, max, perIp).t;
    forall ip
      ensures Progress(t', ip) == |At(t'.handshakes, ip)|
      ensures ip in t'.inProgress ==> 1 <= t'.inProgress[ip] <= MAX_HANDSHAKES_PER_IP
    {
      CountedAt(s, step, max, perIp, ip);
    }
  }

  lemma HelloCapped(t: Tables, max: nat, a: Addr, stream: nat, lockedOut: bool)
    requires |t.handshakes| <= 2 * max && Starts(t, max, a, lockedOut)
    ensures |Started(t, a, stream).handshakes| <= 2 * max
  {
    PutCounts(t.handshakes, a, stream, a.ip);
  }

  lemma CappedAt(s: State, step: Step, max: nat, perIp: nat, ip: Ip)
    requires Owned(s) && Capped(s.t, max, perIp) && Enabled(s, step)
    ensures var t' := Apply(s, step, max, perIp).t;
      |t'.handshakes| <= 2 * max && |t'.sessions| <= max && |At(t'.sessions, ip)| <= perIp
  {
    assert |At(s.t.sessions, ip)| <= perIp;
    hide At;
    if step.Hello? {
      if Starts(s.t, max, step.addr, step.lockedOut) {
        HelloCapped(s.t, max, step.addr, step.stream, step.lockedOut);
      }
      hide Owned;
      hide Starts;
    } else {
      EntriesAfter(s, step, max, perIp);
      hide Apply;
      hide Owned;
      hide Decremented;
      var a := s.handlers[step.stream].addr;
      DropCounts(s.t.handshakes, a, ip);
      if step.Complete? && RoomForSession(s.t, max, perIp, a.ip) {
        PromotedCapped(s.t, max, perIp, a, step.stream, ip);
      } else {
        DropCounts(s.t.sessions, a, ip);
      }
    }
  }

  lemma PromotedCapped(t: Tables, max: nat, perIp: nat, a: Addr, stream: nat, ip: Ip)
    requires Capped(t, max, perIp) && RoomForSession(t, max, perIp, a.ip)
    ensures |t.sessions[a := stream]| <= max && |At(t.sessions[a := stream], ip)| <= perIp
  {
    assert |At(t.sessions, ip)| <= perIp;
    PutCounts(t.sessions, a, stream, ip);
    hide At;
  }

  lemma CappedKept(s: State, step: Step, max: nat, perIp: nat)
    requires Owned(s) && Capped(s.t, max, perIp) && Enabled(s, step)
    ensures Capped(Apply(s, step, max, perIp).t, max, perIp)
  {
    hide At;
    hide Owned;
    var t' := Apply(s, step, max, perIp).t;
    CappedAt(s, step, max, perIp, "");
    forall ip ensures |At(t'.sessions, ip)| <= perIp {
      CappedAt(s, step, max, perIp, ip);
    }
  }

  lemma {:induction false} RunKeeps(s: State, steps: seq<Step>, max: nat, perIp: nat)
    requires Invariant(s, max, perIp) && Legal(s, steps, max, perIp)
    ensures Invariant(Exec(s, steps, max, perIp), max, perIp)
    decreases |steps|
  {
    if steps != [] {
      OwnedKept(s, steps[0], max, perIp);
      CountedKept(s, steps[0], max, perIp);
      CappedKept(s, steps[0], max, perIp);
      hide Owned;
      hide Counted;
      hide Capped;
      RunKeeps(Apply(s, steps[0], max, perIp), steps[1..], max, perIp);
    }
  }

  const EMPTY := State(Tables(map[], map[], map[]), map[])

  /** The handlers now handshaking with an address. */
  function HandshakingAt(s: State, ip: Ip): set<nat> {
    set h | h in s.handlers && s.handlers[h].phase == Handshaking && s.handlers[h].addr.ip == ip
  }

  /** In every interleaving the counter of an address is the number of its handshake entries and of
      its handshaking handlers, is at most three, and never lingers at zero; all session and
      handshake caps hold. */
  lemma CountsAreHandshakes(steps: seq<Step>, max: nat, perIp: nat, ip: Ip)
    requires Legal(EMPTY, steps, max, perIp)
    ensures var s := Exec(EMPTY, steps, max, perIp);
      && Progress(s.t, ip) == |At(s.t.handshakes, ip)| == |HandshakingAt(s, ip)| <= 3
      && (ip in s.t.inProgress ==> s.t.inProgress[ip] >= 1)
      && |s.t.handshakes| <= 2 * max && |s.t.sessions| <= max && |At(s.t.sessions, ip)| <= perIp
  {
    EmptyGood(max, perIp);
    RunKeeps(EMPTY, steps, max, perIp);
    var s := Exec(EMPTY, steps, max, perIp);
    OneHandlerPerEntry(s, At(s.t.handshakes, ip), ip);
    assert Owners(s, At(s.t.handshakes, ip), ip) == HandshakingAt(s, ip);
    assert Progress(s.t, ip) == |At(s.t.handshakes, ip)|;
  }

  /** The handshaking handlers of the given entries of an address. */
  function Owners(s: State, entries: set<Addr>, ip: Ip): set<nat> {
    set h | h in HandshakingAt(s, ip) && s.handlers[h].addr in entries
  }

  /** Entries and handshaking handlers of an address are in one-to-one correspondence. */
  lemma {:induction false} OneHandlerPerEntry(s: State, entries: set<Addr>, ip: Ip)
    requires Owned(s) && entries <= At(s.t.handshakes, ip)
    ensures |Owners(s, entries, ip)| == |entries|
  {
    if entries == {} {
      assert Owners(s, entries, ip) == {};
    } else {
      var a :| a in entries;
      var h := s.t.handshakes[a];
      OneHandlerPerEntry(s, entries - {a}, ip);
      assert Owners(s, entries, ip) == Owners(s, entries - {a}, ip) + {h};
    }
  }

  /** Whatever the state, a handler that ends leaves every entry naming another stream where it is:
      the stream that replaced it, in either table, survives. */
  lemma EndSparesOthers(s: State, stream: nat, a: Addr)
    requires stream in s.handlers
    ensures var t' := Cleaned(s.t, s.handlers[stream].addr, stream, s.handlers[stream].phase == Established);
      && (a in s.t.handshakes && s.t.handshakes[a] != stream ==> a in t'.handshakes && t'.handshakes[a] == s.t.handshakes[a])
      && (a in s.t.sessions && s.t.sessions[a] != stream ==> a in t'.sessions && t'.sessions[a] == s.t.sessions[a])
      && t'.handshakes.Values <= s.t.handshakes.Values && t'.sessions.Values <= s.t.sessions.Values
  {
  }

  /** What a step does to one entry of each table, in a state in which entries and handlers belong
      together. */
  lemma StepMovesEntry(s: State, step: Step, max: nat, perIp: nat, a: Addr)
    requires Owned(s) && Enabled(s, step)
    ensures var t, t' := s.t, Apply(s, step, max, perIp).t;
      && (a in t.handshakes ==>
            (a in t'.handshakes && t'.handshakes[a] == t.handshakes[a] <==>
               step != End(t.handshakes[a]) && step != Complete(t.handshakes[a])))
      && (a in t.sessions ==>
            (a in t'.sessions && t'.sessions[a] == t.sessions[a] <==>
               step != End(t.sessions[a]) && !Replaces(s, step, max, perIp, a)))
      && (Replaces(s, step, max, perIp, a) ==> a in t'.sessions && t'.sessions[a] == step.stream)
  {
    hide At;
    if step.Hello? {
      hide Progress;
    } else {
      EntriesAfter(s, step, max, perIp);
      OwnEntry(s, step.stream);
      hide Apply;
      hide Decremented;
      hide RoomForSession;
    }
  }

  /** The step establishes a session at the address. */
  predicate Replaces(s: State, step: Step, max: nat, perIp: nat, a: Addr)
    requires Enabled(s, step)
  {
    step.Complete? && s.handlers[step.stream].addr == a && RoomForSession(s.t, max, perIp, a.ip)
  }

  /** In every interleaving a handshake entry goes exactly when its own handler ends or completes, and a
      session entry exactly when its own handler ends or a later handshake at that address replaces it. */
  lemma EntriesStay(steps: seq<Step>, step: Step, max: nat, perIp: nat, a: Addr)
    requires Legal(EMPTY, steps, max, perIp) && Enabled(Exec(EMPTY, steps, max, perIp), step)
    ensures var s := Exec(EMPTY, steps, max, perIp);
      var t, t' := s.t, Apply(s, step, max, perIp).t;
      && (a in t.handshakes ==>
            (a in t'.handshakes && t'.handshakes[a] == t.handshakes[a] <==>
               step != End(t.handshakes[a]) && step != Complete(t.handshakes[a])))
      && (a in t.sessions ==>
            (a in t'.sessions && t'.sessions[a] == t.sessions[a] <==>
               step != End(t.sessions[a]) && !Replaces(s, step, max, perIp, a)))
  {
    EmptyGood(max, perIp);
    RunKeeps(EMPTY, steps, max, perIp);
    hide Apply;
    hide Exec;
    hide Legal;
    hide Owned;
    hide Replaces;
    StepMovesEntry(Exec(EMPTY, steps, max, perIp), step, max, perIp, a);
  }

  lemma EmptyGood(max: nat, perIp: nat)
    ensures Invariant(EMPTY, max, perIp)
  {
    assert forall x :: At(map[], x) == {};
  }

  /** In every interleaving a session datagram reaches the stream of the session at its address if and only if no
      handshake is in progress there. */
  lemma SessionReached(steps: seq<Step>, max: nat, perIp: nat, a: Addr)
    requires Legal(EMPTY, steps, max, perIp) && a in Exec(EMPTY, steps, max, perIp).t.sessions
    ensures var t := Exec(EMPTY, steps, max, perIp).t;
      Route(t, a, false) == Some(t.sessions[a]) <==> a !in t.handshakes
  {
    EmptyGood(max, perIp);
    RunKeeps(EMPTY, steps, max, perIp);
    hide Legal;
    hide Exec;
    hide At;
    hide Counted;
    hide Capped;
  }

  /** So a HELLO that is let in from the address of a live session takes over its datagrams at once, and keeps them
      through every step until the new handler ends or completes. */
  lemma HelloDiverts(steps: seq<Step>, max: nat, perIp: nat, a: Addr, stream: nat, next: Step)
    requires Legal(EMPTY, steps, max, perIp) && stream !in Exec(EMPTY, steps, max, perIp).handlers
    requires a in Exec(EMPTY, steps, max, perIp).t.sessions && Starts(Exec(EMPTY, steps, max, perIp).t, max, a, false)
    requires Enabled(Apply(Exec(EMPTY, steps, max, perIp), Hello(a, stream, false), max, perIp), next)
    ensures var s := Exec(EMPTY, steps, max, perIp);
      var s' := Apply(s, Hello(a, stream, false), max, perIp);
      && Route(s.t, a, false) == Some(s.t.sessions[a])
      && Route(s'.t, a, false) == Some(stream) && s'.t.sessions == s.t.sessions && stream != s.t.sessions[a]
      && (next != Complete(stream) ==> (Route(Apply(s', next, max, perIp).t, a, false) == Some(stream) <==> next != End(stream)))
  {
    EmptyGood(max, perIp);
    RunKeeps(EMPTY, steps, max, perIp);
    var s := Exec(EMPTY, steps, max, perIp);
    hide Legal;
    hide Exec;
    hide At;
    hide Counted;
    hide Capped;
    var hello := Hello(a, stream, false);
    assert Owned(s);
    OwnedKept(s, hello, max, perIp);
    var s' := Apply(s, hello, max, perIp);
    StepMovesEntry(s', next, max, perIp, a);
    CompletedElsewhere(s', next, max, perIp, a, stream);
  }

  /** Once the handshake entry of the address is gone, datagrams go to another stream, except that a completed
      handshake becomes the session. */
  lemma CompletedElsewhere(s: State, step: Step, max: nat, perIp: nat, a: Addr, stream: nat)
    requires Owned(s) && Enabled(s, step) && a in s.t.handshakes && s.t.handshakes[a] == stream
    ensures step == End(stream) ==> Route(Apply(s, step, max, perIp).t, a, false) != Some(stream)
  {
    hide At;
    if step == End(stream) {
      EntriesAfter(s, step, max, perIp);
      OwnEntry(s, stream);
      hide Apply;
      hide Decremented;
    }
  }

  /** All handlers now handshaking. */
  function AllHandshaking(s: State): set<nat> {
    set h | h in s.handlers && s.handlers[h].phase == Handshaking
  }

  /** The handshaking handlers of the given entries. */
  function OwnersOf(s: State, entries: set<Addr>): set<nat> {
    set h | h in AllHandshaking(s) && s.handlers[h].addr in entries
  }

  lemma {:induction false} OneHandlerEach(s: State, entries: set<Addr>)
    requires Owned(s) && entries <= s.t.handshakes.Keys
    ensures |OwnersOf(s, entries)| == |entries|
  {
    if entries == {} {
      assert OwnersOf(s, entries) == {};
    } else {
      var a :| a in entries;
      var h := s.t.handshakes[a];
      OneHandlerEach(s, entries - {a});
      assert OwnersOf(s, entries) == OwnersOf(s, entries - {a}) + {h};
    }
  }

  /** In every interleaving a HELLO that has passed its cookie starts a handshake if and only if its address is not
      locked out, no handler is handshaking with that very address and port, fewer than three are with its address,
      and fewer than twice the session limit in all. */
  lemma HelloStartsExactly(steps: seq<Step>, max: nat, perIp: nat, a: Addr, stream: nat, lockedOut: bool)
    requires Legal(EMPTY, steps, max, perIp) && stream !in Exec(EMPTY, steps, max, perIp).handlers
    ensures var s := Exec(EMPTY, steps, max, perIp);
      stream in Apply(s, Hello(a, stream, lockedOut), max, perIp).handlers <==>
        && !lockedOut && (forall h :: h in AllHandshaking(s) ==> s.handlers[h].addr != a)
        && |HandshakingAt(s, a.ip)| < 3 && |AllHandshaking(s)| < 2 * max
  {
    EmptyGood(max, perIp);
    RunKeeps(EMPTY, steps, max, perIp);
    CountsAreHandshakes(steps, max, perIp, a.ip);
    var s := Exec(EMPTY, steps, max, perIp);
    hide Legal;
    hide Exec;
    hide At;
    hide Counted;
    hide Capped;
    hide Progress;
    hide Started;
    hide HandshakingAt;
    OneHandlerEach(s, s.t.handshakes.Keys);
    assert OwnersOf(s, s.t.handshakes.Keys) == AllHandshaking(s);
    EntryIsHandler(s, a);
  }

  lemma EntryIsHandler(s: State, a: Addr)
    requires Owned(s)
    ensures a in s.t.handshakes <==> exists h :: h in AllHandshaking(s) && s.handlers[h].addr == a
  {
    if a in s.t.handshakes {
      assert s.t.handshakes[a] in AllHandshaking(s);
    }
  }

  /** In every interleaving a completed handshake becomes the session of its address if and only if fewer than `max`
      sessions are held, and fewer than `perIp` by its address; otherwise it ends without a trace. */
  lemma PromotedExactly(steps: seq<Step>, max: nat, perIp: nat, stream: nat)
    requires Legal(EMPTY, steps, max, perIp) && Enabled(Exec(EMPTY, steps, max, perIp), Complete(stream))
    ensures var s := Exec(EMPTY, steps, max, perIp);
      var a, s' := s.handlers[stream].addr, Apply(s, Complete(stream), max, perIp);
      && a !in s'.t.handshakes
      && if |s.t.sessions| < max && |At(s.t.sessions, a.ip)| < perIp
         then s'.t.sessions == s.t.sessions[a := stream] && s'.handlers == s.handlers[stream := Handler(a, Established)]
         else s'.t.sessions == s.t.sessions && s'.handlers == s.handlers - {stream}
  {
    EmptyGood(max, perIp);
    RunKeeps(EMPTY, steps, max, perIp);
    var s := Exec(EMPTY, steps, max, perIp);
    hide Legal;
    hide Exec;
    hide At;
    hide Counted;
    hide Capped;
    EntriesAfter(s, Complete(stream), max, perIp);
    OwnEntry(s, stream);
    hide Promoted;
    hide Decremented;
  }

  /** A datagram of a handshake type reaches the handshake in progress at its address, or nobody: never a session. */
  lemma HandshakeRouted(steps: seq<Step>, max: nat, perIp: nat, a: Addr)
    requires Legal(EMPTY, steps, max, perIp)
    ensures var s := Exec(EMPTY, steps, max, perIp);
      match Route(s.t, a, true)
      case Some(h) => h in s.handlers && s.handlers[h] == Handler(a, Handshaking)
      case None => forall h :: h in AllHandshaking(s) ==> s.handlers[h].addr != a
  {
    EmptyGood(max, perIp);
    RunKeeps(EMPTY, steps, max, perIp);
    var s := Exec(EMPTY, steps, max, perIp);
    hide Legal;
    hide Exec;
    hide At;
    hide Counted;
    hide Capped;
    EntryIsHandler(s, a);
  }
}
