/**
 Shared connections with reference counts. Acquiring takes two critical sections with the
 dial between them, so several goroutines may dial for one address and all but one discard.
 */
module ConnectionManager {
  import opened Wrappers

  type Addr = string

  type ConnID = nat

  datatype Managed = Managed(conn: ConnID, refCount: int)

  type Table = map<Addr, Managed>

  // -------------------------------------------------------- the critical sections

  function Bumped(table: Table, addr: Addr): Table
    requires addr in table
  {
    table[addr := table[addr].(refCount := table[addr].refCount + 1)]
  }

  /** The second section of an acquisition: the table, and the connection the caller gets. */
  function Installed(table: Table, addr: Addr, conn: ConnID): (Table, ConnID) {
    if addr in table then (Bumped(table, addr), table[addr].conn) else (table[addr := Managed(conn, 1)], conn)
  }

  /** A release: the table, and the connection it closes, if any. */
  function Released(table: Table, addr: Addr): (Table, Option<ConnID>) {
    if addr !in table then (table, None)
    else if table[addr].refCount - 1 <= 0 then (table - {addr}, Some(table[addr].conn))
    else (table[addr := table[addr].(refCount := table[addr].refCount - 1)], None)
  }

  class Manager {
    var connManager: Table
    var closed: set<ConnID>

    constructor ()
      ensures connManager == map[] && closed == {}
    {
      connManager, closed := map[], {};
    }

    /** The first section of GetConnection. */
    method TryAcquire(addr: Addr) returns (conn: Option<ConnID>)
      modifies `connManager
      ensures addr in old(connManager) ==> connManager == Bumped(old(connManager), addr) && conn == Some(old(connManager)[addr].conn)
      ensures addr !in old(connManager) ==> connManager == old(connManager) && conn == None
    {
      if addr in connManager {
        var managed := connManager[addr];
        connManager := connManager[addr := managed.(refCount := managed.refCount + 1)];
        return Some(managed.conn);
      }
      return None;
    }

    /** The second section: `existing` is not the dialled connection when another goroutine was faster. */
    method InstallOrJoin(addr: Addr, conn: ConnID) returns (existing: ConnID)
      modifies `connManager
      ensures (connManager, existing) == Installed(old(connManager), addr, conn)
    {
      if addr in connManager {
        var managed := connManager[addr];
        connManager := connManager[addr := managed.(refCount := managed.refCount + 1)];
        return managed.conn;
      }
      connManager := connManager[addr := Managed(conn, 1)];
      return conn;
    }

    method ReleaseConnection(addr: Addr)
      modifies this
      ensures connManager == Released(old(connManager), addr).0
      ensures match Released(old(connManager), addr).1
              case Some(conn) => closed == old(closed) + {conn}
              case None => closed == old(closed)
    {
      if addr !in connManager { return; }
      var managed := connManager[addr];
      managed := managed.(refCount := managed.refCount - 1);
      connManager := connManager[addr := managed];
      if managed.refCount <= 0 {
        closed := closed + {managed.conn};
        connManager := connManager - {addr};
      }
    }
  }

  // ------------------------------------------------------------- the interleavings

  datatype Pc =
    | Idle
    | Dialing(addr: Addr)
    | Dialed(addr: Addr, conn: ConnID)
    | Discarding(conn: ConnID)

  /** What a successful GetConnection gave out; a release hands one back. */
  datatype Handle = Handle(addr: Addr, conn: ConnID)

  /**
   `handles` has one entry for each acquisition, `None` once it is released. The last three
   fields are history: the releases by someone without a handle, for each connection the
   releases that hit it without giving back one of its handles, and the handles given back
   after it had been closed.
   */
  datatype State = State(
    table: Table, closed: set<ConnID>, created: nat, threads: seq<Pc>, handles: seq<Option<Handle>>,
    unheld: nat, stray: multiset<ConnID>, late: multiset<ConnID>)

  const Init := State(map[], {}, 0, [], [], 0, multiset{}, multiset{})

  datatype Step =
    | Spawn
    | Get(t: nat, addr: Addr)
    | Dial(t: nat, ok: bool)
    | Install(t: nat)
    | Discard(t: nat)
    | Release(h: nat)
    | UnheldRelease(addr: Addr)

  predicate Enabled(s: State, step: Step) {
    match step
    case Spawn => true
    case Get(t, _) => t < |s.threads| && s.threads[t].Idle?
    case Dial(t, _) => t < |s.threads| && s.threads[t].Dialing?
    case Install(t) => t < |s.threads| && s.threads[t].Dialed?
    case Discard(t) => t < |s.threads| && s.threads[t].Discarding?
    case Release(h) => h < |s.handles| && s.handles[h].Some?
    case UnheldRelease(_) => true
  }

  /** ReleaseConnection, and the history of what it hit. `given` is the connection of the handle given back, if any. */
  function Hit(s: State, addr: Addr, given: Option<ConnID>): State {
    var (table, closing) := Released(s.table, addr);
    s.(table := table,
       closed := if closing.Some? then s.closed + {closing.value} else s.closed,
       stray := if addr in s.table && given != Some(s.table[addr].conn) then s.stray + multiset{s.table[addr].conn} else s.stray,
       late := if given.Some? && given.value in s.closed then s.late + multiset{given.value} else s.late)
  }

  function Do(s: State, step: Step): State
    requires Enabled(s, step)
  {
    match step
    case Spawn => s.(threads := s.threads + [Idle])
    case Get(t, addr) =>
      if addr in s.table then
        s.(table := Bumped(s.table, addr), handles := s.handles + [Some(Handle(addr, s.table[addr].conn))])
      else s.(threads := s.threads[t := Dialing(addr)])
    case Dial(t, ok) =>
      if ok then s.(created := s.created + 1, threads := s.threads[t := Dialed(s.threads[t].addr, s.created)])
      else s.(threads := s.threads[t := Idle])
    case Install(t) =>
      var addr, conn := s.threads[t].addr, s.threads[t].conn;
      var (table, existing) := Installed(s.table, addr, conn);
      s.(table := table, handles := s.handles + [Some(Handle(addr, existing))],
         threads := s.threads[t := if addr in s.table then Discarding(conn) else Idle])
    case Discard(t) => s.(closed := s.closed + {s.threads[t].conn}, threads := s.threads[t := Idle])
    case Release(h) => Hit(s, s.handles[h].value.addr, Some(s.handles[h].value.conn)).(handles := s.handles[h := None])
    case UnheldRelease(addr) => Hit(s, addr, None).(unheld := s.unheld + 1)
  }

  ghost predicate Steps(s: State, s': State) {
    exists step :: Enabled(s, step) && s' == Do(s, step)
  }

  ghost predicate IsRun(run: seq<State>) {
    && |run| > 0 && run[0] == Init
    && forall i :: 0 <= i < |run| - 1 ==> Steps(run[i], run[i + 1])
  }

  // ---------------------------------------------------------------- the invariant

  datatype Key = OfAddr(addr: Addr) | OfConn(conn: ConnID)

  predicate Counts(h: Handle, key: Key) {
    match key
    case OfAddr(addr) => h.addr == addr
    case OfConn(conn) => h.conn == conn
  }

  /** How many handles of an address, or of a connection, are out. */
  function Holders(handles: seq<Option<Handle>>, key: Key): nat {
    if handles == [] then 0
    else
      var last := handles[|handles| - 1];
      Holders(handles[..|handles| - 1], key) + if last.Some? && Counts(last.value, key) then 1 else 0
  }

  predicate InFlight(pc: Pc) {
    pc.Dialed? || pc.Discarding?
  }

  ghost predicate HeldBy(s: State, addr: Addr, conn: ConnID) {
    addr in s.table && s.table[addr].conn == conn
  }

  ghost predicate IsInstalled(s: State, conn: ConnID) {
    exists addr :: HeldBy(s, addr, conn)
  }

  ghost predicate TableOk(s: State) {
    && (forall addr :: addr in s.table ==>
          s.table[addr].refCount > 0 && s.table[addr].conn < s.created && s.table[addr].conn !in s.closed)
    && (forall addr, other :: addr in s.table && other in s.table && addr != other ==>
          s.table[addr].conn != s.table[other].conn)
  }

  /** Handles and history, one connection at a time. */
  ghost predicate Balanced(s: State, conn: ConnID) {
    && (forall addr :: HeldBy(s, addr, conn) ==>
          Holders(s.handles, OfConn(conn)) == s.table[addr].refCount + s.stray[conn] && s.late[conn] == 0)
    && (conn in s.closed ==> Holders(s.handles, OfConn(conn)) + s.late[conn] == s.stray[conn])
    && (!IsInstalled(s, conn) && conn !in s.closed ==>
          Holders(s.handles, OfConn(conn)) == s.late[conn] == s.stray[conn] == 0)
  }

  ghost predicate AllBalanced(s: State) {
    forall conn :: Balanced(s, conn)
  }

  ghost predicate HandlesOk(s: State) {
    forall h :: 0 <= h < |s.handles| && s.handles[h].Some? ==>
      s.handles[h].value.conn in s.closed || HeldBy(s, s.handles[h].value.addr, s.handles[h].value.conn)
  }

  ghost predicate FlightsOk(s: State) {
    && (forall t :: 0 <= t < |s.threads| && InFlight(s.threads[t]) ==>
          && s.threads[t].conn < s.created && s.threads[t].conn !in s.closed
          && forall addr :: addr in s.table ==> s.table[addr].conn != s.threads[t].conn)
    && (forall t, u :: 0 <= t < u < |s.threads| && InFlight(s.threads[t]) && InFlight(s.threads[u]) ==>
          s.threads[t].conn != s.threads[u].conn)
  }

  /** A connection is in the table, closed, or with the goroutine that dialled it. */
  ghost predicate Accounted(s: State, conn: ConnID) {
    || IsInstalled(s, conn)
    || conn in s.closed
    || exists t :: 0 <= t < |s.threads| && InFlight(s.threads[t]) && s.threads[t].conn == conn
  }

  ghost predicate AllAccounted(s: State) {
    && (forall conn :: 0 <= conn < s.created ==> Accounted(s, conn))
    && (forall conn :: conn in s.closed ==> conn < s.created)
  }

  /** Clients that release only what they hold cause no stray release. */
  ghost predicate StrayOk(s: State) {
    s.unheld == 0 ==> s.stray == multiset{}
  }

  ghost predicate Inv(s: State) {
    TableOk(s) && HandlesOk(s) && FlightsOk(s) && AllBalanced(s) && AllAccounted(s) && StrayOk(s)
  }

  lemma HoldersAppend(handles: seq<Option<Handle>>, h: Handle, key: Key)
    ensures Holders(handles + [Some(h)], key) == Holders(handles, key) + if Counts(h, key) then 1 else 0
  {
    assert (handles + [Some(h)])[..|handles|] == handles;
  }

  lemma {:induction false} HoldersRelease(handles: seq<Option<Handle>>, h: nat, key: Key)
    requires h < |handles| && handles[h].Some?
    ensures Holders(handles[h := None], key) == Holders(handles, key) - if Counts(handles[h].value, key) then 1 else 0
  {
    var n := |handles| - 1;
    var after := handles[h := None];
    if h < n {
      HoldersRelease(handles[..n], h, key);
      assert after[..n] == handles[..n][h := None];
    } else {
      assert after[..n] == handles[..n];
    }
  }

  /** A handle that is out counts. */
  lemma {:induction false} HolderCounts(handles: seq<Option<Handle>>, h: nat, key: Key)
    requires h < |handles| && handles[h].Some? && Counts(handles[h].value, key)
    ensures Holders(handles, key) > 0
  {
    var n := |handles| - 1;
    if h < n { HolderCounts(handles[..n], h, key); }
  }

  /** A release changes one entry of the table, and closes that connection if it removes the entry. */
  lemma HitKeeps(s: State, s': State, addr: Addr)
    requires TableOk(s) && FlightsOk(s) && s'.created == s.created && s'.threads == s.threads
    requires s'.table == Released(s.table, addr).0
    requires s'.closed == match Released(s.table, addr).1 case Some(conn) => s.closed + {conn} case None => s.closed
    ensures TableOk(s') && FlightsOk(s')
  {
  }

  /** An acquisition bumps an entry or installs a dialled connection. */
  lemma GetKeeps(s: State, s': State, addr: Addr, conn: ConnID)
    requires TableOk(s) && s'.created == s.created && s'.closed == s.closed && s'.table == Installed(s.table, addr, conn).0
    requires addr in s.table || (conn < s.created && conn !in s.closed && !IsInstalled(s, conn))
    ensures TableOk(s')
  {
    assert forall other :: other in s.table ==> HeldBy(s, other, s.table[other].conn);
  }

  lemma KeepTable(s: State, step: Step)
    requires Inv(s) && Enabled(s, step)
    ensures TableOk(Do(s, step))
  {
    match step
    case Get(t, addr) => if addr in s.table { GetKeeps(s, Do(s, step), addr, 0); }
    case Install(t) => GetKeeps(s, Do(s, step), s.threads[t].addr, s.threads[t].conn);
    case Release(h) => HitKeeps(s, Do(s, step), s.handles[h].value.addr);
    case UnheldRelease(addr) => HitKeeps(s, Do(s, step), addr);
    case _ =>
  }

  /** The goroutine that dialled hands its connection to the table, or is about to discard it. */
  lemma KeepLanding(s: State, s': State, t: nat)
    requires FlightsOk(s) && t < |s.threads| && s.threads[t].Dialed?
    requires var addr, conn := s.threads[t].addr, s.threads[t].conn;
             && s'.table == Installed(s.table, addr, conn).0
             && s'.threads == s.threads[t := if addr in s.table then Discarding(conn) else Idle]
    requires s'.created == s.created && s'.closed == s.closed
    ensures FlightsOk(s')
  {
    var addr, conn := s.threads[t].addr, s.threads[t].conn;
    forall u | 0 <= u < |s'.threads| && InFlight(s'.threads[u])
      ensures s'.threads[u].conn == s.threads[u].conn && InFlight(s.threads[u])
      ensures addr !in s.table ==> s'.threads[u].conn != conn
    {
    }
  }

  /** A goroutine gives up or closes what it dialled. */
  lemma KeepOthers(s: State, s': State, t: nat, pc: Pc)
    requires FlightsOk(s) && t < |s.threads| && s'.threads == s.threads[t := pc] && !InFlight(pc)
    requires s'.table == s.table && s'.created == s.created
    requires s'.closed == if InFlight(s.threads[t]) then s.closed + {s.threads[t].conn} else s.closed
    ensures FlightsOk(s')
  {
  }

  /** A new connection is different from all others. */
  lemma KeepDialed(s: State, s': State, t: nat)
    requires TableOk(s) && FlightsOk(s) && t < |s.threads| && s.threads[t].Dialing?
    requires s' == s.(created := s.created + 1, threads := s.threads[t := Dialed(s.threads[t].addr, s.created)])
    requires forall conn :: conn in s.closed ==> conn < s.created
    ensures FlightsOk(s')
  {
  }

  lemma KeepFlights(s: State, step: Step)
    requires Inv(s) && Enabled(s, step)
    ensures FlightsOk(Do(s, step))
  {
    match step
    case Dial(t, ok) => if ok { KeepDialed(s, Do(s, step), t); } else { KeepOthers(s, Do(s, step), t, Idle); }
    case Install(t) => KeepLanding(s, Do(s, step), t);
    case Discard(t) => KeepOthers(s, Do(s, step), t, Idle);
    case Release(h) => HitKeeps(s, Do(s, step), s.handles[h].value.addr);
    case UnheldRelease(addr) => HitKeeps(s, Do(s, step), addr);
    case _ =>
  }

  lemma KeepHandles(s: State, step: Step)
    requires Inv(s) && Enabled(s, step)
    ensures HandlesOk(Do(s, step))
  {
  }

  /** An acquisition adds a handle and a reference. */
  lemma BalancedGet(s: State, s': State, addr: Addr, conn: ConnID, c: ConnID)
    requires TableOk(s) && AllBalanced(s) && conn !in s.closed && HeldBy(s', addr, conn)
    requires s'.handles == s.handles + [Some(Handle(addr, conn))]
    requires s'.closed == s.closed && s'.stray == s.stray && s'.late == s.late
    requires s'.table == Installed(s.table, addr, conn).0 && (addr !in s.table ==> !IsInstalled(s, conn))
    ensures Balanced(s', c)
  {
    HoldersAppend(s.handles, Handle(addr, conn), OfConn(c));
    assert Balanced(s, c);
    SameInstalled(s, s', addr, c);
  }

  /** Outside one address the table is as before. */
  lemma SameInstalled(s: State, s': State, addr: Addr, c: ConnID)
    requires forall other :: other != addr ==> (other in s.table <==> other in s'.table)
    requires forall other :: other != addr && other in s.table ==> s.table[other] == s'.table[other]
    ensures IsInstalled(s, c) ==> IsInstalled(s', c) || HeldBy(s, addr, c)
    ensures IsInstalled(s', c) ==> IsInstalled(s, c) || HeldBy(s', addr, c)
  {
    if other :| HeldBy(s, other, c) { assert other != addr ==> HeldBy(s', other, c); }
    if other :| HeldBy(s', other, c) { assert other != addr ==> HeldBy(s, other, c); }
  }

  /** What a release does to the connection it hits. */
  lemma BalancedHit(s: State, s': State, addr: Addr, given: Option<ConnID>, c: ConnID)
    requires TableOk(s) && Balanced(s, c) && HeldBy(s, addr, c)
    requires s'.table == Hit(s, addr, given).table && s'.closed == Hit(s, addr, given).closed
    requires s'.stray == Hit(s, addr, given).stray && s'.late == Hit(s, addr, given).late
    requires given.Some? ==> given.value in s.closed || given.value == c
    requires Holders(s'.handles, OfConn(c)) == Holders(s.handles, OfConn(c)) - if given == Some(c) then 1 else 0
    ensures Balanced(s', c)
  {
    assert HeldBy(s', addr, c) || c in s'.closed;
    assert forall other :: HeldBy(s', other, c) ==> other == addr by {
      assert forall other :: HeldBy(s', other, c) ==> HeldBy(s, other, c);
    }
  }

  /** To another connection it matters only if a handle of it, closed as it is, is given back late. */
  lemma BalancedMiss(s: State, s': State, addr: Addr, given: Option<ConnID>, c: ConnID)
    requires Balanced(s, c) && !HeldBy(s, addr, c)
    requires s'.table == Hit(s, addr, given).table && s'.closed == Hit(s, addr, given).closed
    requires s'.stray == Hit(s, addr, given).stray && s'.late == Hit(s, addr, given).late
    requires given == Some(c) ==> c in s.closed
    requires c in s.closed ==> !IsInstalled(s, c)
    requires Holders(s'.handles, OfConn(c)) == Holders(s.handles, OfConn(c)) - if given == Some(c) then 1 else 0
    ensures Balanced(s', c)
  {
    assert forall other :: HeldBy(s', other, c) <==> HeldBy(s, other, c);
    assert IsInstalled(s', c) <==> IsInstalled(s, c);
    assert forall other :: HeldBy(s', other, c) ==> s'.table[other] == s.table[other];
  }

  lemma BalancedRelease(s: State, s': State, addr: Addr, given: Option<ConnID>, c: ConnID)
    requires TableOk(s) && Balanced(s, c)
    requires s'.table == Hit(s, addr, given).table && s'.closed == Hit(s, addr, given).closed
    requires s'.stray == Hit(s, addr, given).stray && s'.late == Hit(s, addr, given).late
    requires given.Some? ==> given.value in s.closed || HeldBy(s, addr, given.value)
    requires Holders(s'.handles, OfConn(c)) == Holders(s.handles, OfConn(c)) - if given == Some(c) then 1 else 0
    ensures Balanced(s', c)
  {
    if HeldBy(s, addr, c) { BalancedHit(s, s', addr, given, c); } else { BalancedMiss(s, s', addr, given, c); }
  }

  /** A step that moves no handle and no reference. */
  lemma BalancedElse(s: State, s': State, c: ConnID)
    requires TableOk(s) && AllBalanced(s) && s'.table == s.table && s'.handles == s.handles && s'.stray == s.stray && s'.late == s.late
    requires s.closed <= s'.closed && forall conn :: conn in s'.closed && conn !in s.closed ==> !IsInstalled(s, conn)
    ensures Balanced(s', c)
  {
    assert Balanced(s, c);
    assert forall addr :: HeldBy(s', addr, c) <==> HeldBy(s, addr, c);
    assert IsInstalled(s', c) <==> IsInstalled(s, c);
  }

  lemma KeepBalanced(s: State, step: Step)
    requires Inv(s) && Enabled(s, step)
    ensures AllBalanced(Do(s, step))
  {
    var s' := Do(s, step);
    forall c ensures Balanced(s', c) {
      if step.Release? {
        var handle := s.handles[step.h].value;
        HoldersRelease(s.handles, step.h, OfConn(c));
        BalancedRelease(s, s', handle.addr, Some(handle.conn), c);
      } else if step.UnheldRelease? {
        BalancedRelease(s, s', step.addr, None, c);
      } else if |s'.handles| > |s.handles| {
        var handle := s'.handles[|s.handles|].value;
        BalancedGet(s, s', handle.addr, handle.conn, c);
      } else {
        BalancedElse(s, s', c);
      }
    }
  }

  lemma KeepStray(s: State, step: Step)
    requires Inv(s) && Enabled(s, step)
    ensures StrayOk(Do(s, step))
  {
    if step.Release? && s.unheld == 0 {
      var handle := s.handles[step.h].value;
      HolderCounts(s.handles, step.h, OfConn(handle.conn));
      assert Balanced(s, handle.conn);
      assert HeldBy(s, handle.addr, handle.conn);
    }
  }

  lemma KeepAccounts(s: State, step: Step)
    requires Inv(s) && Enabled(s, step)
    ensures AllAccounted(Do(s, step))
  {
    var s' := Do(s, step);
    forall conn | 0 <= conn < s'.created ensures Accounted(s', conn) {
      if conn < s.created {
        assert Accounted(s, conn);
        StaysAccounted(s, step, conn);
      } else {
        assert InFlight(s'.threads[step.t]) && s'.threads[step.t].conn == conn;
      }
    }
  }

  /** An installed connection stays installed or is closed. */
  lemma InstalledStays(s: State, step: Step, addr: Addr, conn: ConnID)
    requires Enabled(s, step) && HeldBy(s, addr, conn)
    ensures HeldBy(Do(s, step), addr, conn) || conn in Do(s, step).closed
  {
  }

  /** A connection in flight stays there, is installed, or is closed. */
  lemma FlightLands(s: State, step: Step, t: nat)
    requires Enabled(s, step) && t < |s.threads| && InFlight(s.threads[t])
    ensures Accounted(Do(s, step), s.threads[t].conn)
  {
    var s', conn := Do(s, step), s.threads[t].conn;
    if InFlight(s'.threads[t]) {
      assert s'.threads[t].conn == conn;
    } else if step.Install? {
      assert HeldBy(s', s.threads[t].addr, conn);
    }
  }

  lemma StaysAccounted(s: State, step: Step, conn: ConnID)
    requires Enabled(s, step) && Accounted(s, conn)
    ensures Accounted(Do(s, step), conn)
  {
    if addr :| HeldBy(s, addr, conn) {
      InstalledStays(s, step, addr, conn);
    } else if conn !in s.closed {
      var t :| 0 <= t < |s.threads| && InFlight(s.threads[t]) && s.threads[t].conn == conn;
      FlightLands(s, step, t);
    }
  }

  lemma InvKept(s: State, step: Step)
    requires Inv(s) && Enabled(s, step)
    ensures Inv(Do(s, step))
  {
    KeepTable(s, step);
    KeepHandles(s, step);
    KeepFlights(s, step);
    KeepBalanced(s, step);
    KeepAccounts(s, step);
    KeepStray(s, step);
  }

  lemma {:induction false} ReachableInv(run: seq<State>, i: nat)
    requires IsRun(run) && i < |run|
    ensures Inv(run[i])
  {
    if i > 0 {
      ReachableInv(run, i - 1);
      assert Steps(run[i - 1], run[i - 1 + 1]);
      var step :| Enabled(run[i - 1], step) && run[i] == Do(run[i - 1], step);
      InvKept(run[i - 1], step);
    }
  }

  // ---------------------------------------------------------------- the theorems

  /**
   In every run the count of an installed connection is the number of its holders less the
   stray releases that hit it.
   */
  lemma RefCountIsHoldersLessStray(run: seq<State>, i: nat, addr: Addr)
    requires IsRun(run) && i < |run| && addr in run[i].table
    ensures var conn := run[i].table[addr].conn;
            run[i].table[addr].refCount == Holders(run[i].handles, OfConn(conn)) - run[i].stray[conn] > 0
  {
    ReachableInv(run, i);
    assert Balanced(run[i], run[i].table[addr].conn) && HeldBy(run[i], addr, run[i].table[addr].conn);
  }

  /** A closed connection has been released too often exactly as many times as handles were still out when it was closed. */
  lemma ClosedWithHoldersIffStray(run: seq<State>, i: nat, conn: ConnID)
    requires IsRun(run) && i < |run| && conn in run[i].closed
    ensures Holders(run[i].handles, OfConn(conn)) + run[i].late[conn] == run[i].stray[conn]
  {
    ReachableInv(run, i);
    assert Balanced(run[i], conn);
  }

  /** While clients release only what they hold, the count of an address is the number of its holders. */
  lemma RefCountIsHolders(run: seq<State>, i: nat, addr: Addr)
    requires IsRun(run) && i < |run| && run[i].unheld == 0
    ensures addr in run[i].table ==> run[i].table[addr].refCount == Holders(run[i].handles, OfAddr(addr)) > 0
    ensures addr !in run[i].table ==> Holders(run[i].handles, OfAddr(addr)) == 0
  {
    ReachableInv(run, i);
    var s := run[i];
    forall h | 0 <= h < |s.handles| && s.handles[h].Some?
      ensures HeldBy(s, s.handles[h].value.addr, s.handles[h].value.conn)
    {
      HeldConnectionIsOpen(run, i, h);
    }
    if addr in s.table {
      RefCountIsHoldersLessStray(run, i, addr);
      SameHolders(s.handles, OfAddr(addr), OfConn(s.table[addr].conn));
    } else {
      NoHolders(s.handles, OfAddr(addr));
    }
  }

  lemma {:induction false} SameHolders(handles: seq<Option<Handle>>, a: Key, b: Key)
    requires forall h :: 0 <= h < |handles| && handles[h].Some? ==> (Counts(handles[h].value, a) <==> Counts(handles[h].value, b))
    ensures Holders(handles, a) == Holders(handles, b)
  {
    if handles != [] { SameHolders(handles[..|handles| - 1], a, b); }
  }

  lemma {:induction false} NoHolders(handles: seq<Option<Handle>>, key: Key)
    requires forall h :: 0 <= h < |handles| ==> handles[h].None? || !Counts(handles[h].value, key)
    ensures Holders(handles, key) == 0
  {
    if handles != [] { NoHolders(handles[..|handles| - 1], key); }
  }

  /**
   Whoever holds a handle holds the connection installed for its address, and it is open, while
   clients release only what they hold, or at least no stray release has hit this connection.
   */
  lemma HeldConnectionIsOpen(run: seq<State>, i: nat, h: nat)
    requires IsRun(run) && i < |run| && h < |run[i].handles| && run[i].handles[h].Some?
    requires run[i].unheld == 0 || run[i].stray[run[i].handles[h].value.conn] == 0
    ensures var handle := run[i].handles[h].value;
            HeldBy(run[i], handle.addr, handle.conn) && handle.conn !in run[i].closed
  {
    ReachableInv(run, i);
    var conn := run[i].handles[h].value.conn;
    HolderCounts(run[i].handles, h, OfConn(conn));
    assert Balanced(run[i], conn);
  }

  /** Somebody holds a connection that has been closed. */
  ghost predicate HeldAndClosed(s: State, conn: ConnID) {
    conn in s.closed && Holders(s.handles, OfConn(conn)) > 0
  }

  /**
   The exact condition, over whole runs: a connection is at no time closed while somebody
   holds it, exactly if it is not closed at all or no stray release has hit it.
   */
  lemma StaysOpenIff(run: seq<State>, i: nat, conn: ConnID)
    requires IsRun(run) && i < |run|
    ensures (forall k :: 0 <= k <= i ==> !HeldAndClosed(run[k], conn)) <==>
              conn !in run[i].closed || run[i].stray[conn] == 0
  {
    if conn !in run[i].closed || run[i].stray[conn] == 0 {
      forall k | 0 <= k <= i ensures !HeldAndClosed(run[k], conn) {
        HistoryGrows(run, k, i, conn);
        if conn in run[k].closed { ClosedWithHoldersIffStray(run, k, conn); }
      }
    } else {
      var k := ClosedTooEarly(run, i, conn);
    }
  }

  lemma {:induction false} HistoryGrows(run: seq<State>, k: nat, i: nat, conn: ConnID)
    requires IsRun(run) && k <= i < |run|
    ensures conn in run[k].closed ==> conn in run[i].closed
    ensures run[k].stray[conn] <= run[i].stray[conn]
    decreases i
  {
    if k < i {
      HistoryGrows(run, k, i - 1, conn);
      assert Steps(run[i - 1], run[i - 1 + 1]);
    }
  }

  /** Only installed connections are hit, and only handles of closed ones are late. */
  lemma HistoryStep(s: State, step: Step, conn: ConnID)
    requires TableOk(s) && Balanced(s, conn) && Enabled(s, step)
    ensures conn in s.closed ==> Do(s, step).stray[conn] == s.stray[conn]
    ensures conn !in s.closed ==> Do(s, step).late[conn] == 0
  {
    if addr :| HeldBy(s, addr, conn) {}
  }

  lemma HistoryBetween(run: seq<State>, i: nat, conn: ConnID)
    requires IsRun(run) && i + 1 < |run|
    ensures conn in run[i].closed ==> run[i + 1].stray[conn] == run[i].stray[conn]
    ensures conn !in run[i].closed ==> run[i + 1].late[conn] == 0
  {
    ReachableInv(run, i);
    assert Balanced(run[i], conn);
    assert Steps(run[i], run[i + 1]);
    var step :| Enabled(run[i], step) && run[i + 1] == Do(run[i], step);
    HistoryStep(run[i], step, conn);
  }

  /** The moment at which a connection hit by a stray release was closed. */
  lemma {:induction false} ClosedTooEarly(run: seq<State>, i: nat, conn: ConnID) returns (k: nat)
    requires IsRun(run) && i < |run| && conn in run[i].closed && run[i].stray[conn] > 0
    ensures k <= i && HeldAndClosed(run[k], conn)
  {
    HistoryBetween(run, i - 1, conn);
    if conn in run[i - 1].closed {
      k := ClosedTooEarly(run, i - 1, conn);
    } else {
      k := i;
      ClosedWithHoldersIffStray(run, i, conn);
    }
  }

  /**
   At any moment, a release by someone without a handle closes the connection exactly if its
   holders outnumber the stray releases before by one, and closes it while it is held. While
   clients have released only what they hold, that is exactly if there is a single holder.
   */
  lemma UnheldReleaseClosesHeldConnection(run: seq<State>, i: nat, addr: Addr)
    requires IsRun(run) && i < |run|
    ensures var (s, s') := (run[i], Do(run[i], UnheldRelease(addr)));
            && (s'.closed != s.closed <==>
                  addr in s.table && Holders(s.handles, OfConn(s.table[addr].conn)) == s.stray[s.table[addr].conn] + 1)
            && (s'.closed != s.closed ==> addr in s.table && HeldAndClosed(s', s.table[addr].conn))
            && (s.unheld == 0 ==> (s'.closed != s.closed <==> Holders(s.handles, OfAddr(addr)) == 1))
  {
    ReachableInv(run, i);
    if addr in run[i].table { RefCountIsHoldersLessStray(run, i, addr); }
    if run[i].unheld == 0 { RefCountIsHolders(run, i, addr); }
  }

  /** Every dialled connection is installed, closed or in flight, and never two of these; no leak, whatever clients release. */
  lemma EveryConnectionIsInOnePlace(run: seq<State>, i: nat, conn: ConnID)
    requires IsRun(run) && i < |run| && conn < run[i].created
    ensures var s := run[i];
            var installed := exists addr :: addr in s.table && s.table[addr].conn == conn;
            var flying := exists t :: 0 <= t < |s.threads| && InFlight(s.threads[t]) && s.threads[t].conn == conn;
            && (installed || flying || conn in s.closed)
            && !(installed && flying) && !(installed && conn in s.closed) && !(flying && conn in s.closed)
  {
    ReachableInv(run, i);
    assert Accounted(run[i], conn);
    if addr :| HeldBy(run[i], addr, conn) {}
  }

  /** When all handles are back and no goroutine is under way, every connection has been closed. */
  lemma AllReleasedMeansAllClosed(run: seq<State>, i: nat)
    requires IsRun(run) && i < |run|
    requires forall h :: 0 <= h < |run[i].handles| ==> run[i].handles[h].None?
    requires forall t :: 0 <= t < |run[i].threads| ==> !InFlight(run[i].threads[t])
    ensures run[i].table == map[] && forall c: ConnID :: c in run[i].closed <==> c < run[i].created
  {
    ReachableInv(run, i);
    var s := run[i];
    forall addr | addr in s.table ensures false {
      NoHolders(s.handles, OfConn(s.table[addr].conn));
      RefCountIsHoldersLessStray(run, i, addr);
    }
    forall c | 0 <= c < s.created ensures c in s.closed {
      assert Accounted(s, c);
    }
  }

  /** A first client has acquired connection 0. */
  lemma OneClient(addr: Addr) returns (run: seq<State>)
    ensures IsRun(run) && |run| == 5
    ensures run[4] == Init.(table := map[addr := Managed(0, 1)], created := 1, threads := [Idle], handles := [Some(Handle(addr, 0))])
  {
    var s1 := Init.(threads := [Idle]);
    var s2 := Init.(threads := [Dialing(addr)]);
    var s3 := Init.(threads := [Dialed(addr, 0)], created := 1);
    var s4 := s3.(table := map[addr := Managed(0, 1)], threads := [Idle], handles := [Some(Handle(addr, 0))]);
    run := [Init, s1, s2, s3, s4];
    assert Enabled(Init, Spawn) && s1 == Do(Init, Spawn);
    assert Enabled(s1, Get(0, addr)) && s2 == Do(s1, Get(0, addr));
    assert Enabled(s2, Dial(0, true)) && s3 == Do(s2, Dial(0, true));
    assert Enabled(s3, Install(0)) && s4 == Do(s3, Install(0));
    assert Steps(Init, s1) && Steps(s1, s2) && Steps(s2, s3) && Steps(s3, s4);
  }

  /** A held connection can be closed: a release by someone else closes that of a single client. */
  lemma HeldConnectionCanBeClosed(addr: Addr) returns (run: seq<State>)
    ensures IsRun(run) && HeldAndClosed(run[|run| - 1], 0) && run[|run| - 1].unheld == 1
  {
    var before := OneClient(addr);
    var s := Do(before[4], UnheldRelease(addr));
    assert Enabled(before[4], UnheldRelease(addr));
    run := before + [s];
    assert Steps(run[4], run[5]);
    HolderCounts(before[4].handles, 0, OfConn(0));
    RefCountIsHolders(before, 4, addr);
    UnheldReleaseClosesHeldConnection(before, 4, addr);
  }
}
