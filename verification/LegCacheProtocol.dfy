/**
 All interleavings of the leg-geometry cache: any number of processes and callers share one
 table, and each process has its own lock per key.  A caller runs read, lock, re-read, compute,
 insert, re-read, unlock; any step may raise instead.
 */
module LegCacheProtocol {
  import opened Base
  import opened LegCache

  type Proc = nat
  type CallerId = nat
  type LockId = nat

  /** Where a caller is in `get_or_compute`; `lock` is the lock object it was given. */
  datatype Pc =
    | Start
    | NeedsLock
    | Waiting(lock: LockId)
    | Rechecking(lock: LockId)
    | Computing(lock: LockId)
    | Inserting(lock: LockId, result: LegResult)
    | Rereading(lock: LockId)
    | Done(returned: LegResult)
    | Failed
    | MissingRow // the final re-read finds nothing

  datatype Caller = Caller(proc: Proc, key: Key, coords: Coords, pc: Pc)

  datatype Flight = Flight(proc: Proc, key: Key)

  /**
   `locks` are the `_key_locks` dictionaries, `holder` says who holds a lock.  `completed` counts
   the computations that returned and `lost` those whose result was then lost to an exception.
   With `upsert` the insert would overwrite; the program's does nothing on conflict.
   */
  datatype State = State(rows: Rows, locks: map<Flight, LockId>, nextLock: LockId, holder: map<LockId, CallerId>,
                         callers: map<CallerId, Caller>, completed: map<Flight, nat>, lost: map<Flight, nat>,
                         upsert: bool)

  const INIT := State(map[], map[], 0, map[], map[], map[], map[], false)

  /** The variant that overwrites the row instead. */
  const INIT_UPSERT := INIT.(upsert := true)

  function Count(m: map<Flight, nat>, f: Flight): nat {
    if f in m then m[f] else 0
  }

  function FlightOf(c: Caller): Flight {
    Flight(c.proc, c.key)
  }

  predicate InCritical(pc: Pc) {
    pc.Rechecking? || pc.Computing? || pc.Inserting? || pc.Rereading?
  }

  predicate IsLive(pc: Pc) {
    !pc.Done? && !pc.Failed? && !pc.MissingRow?
  }

  // ---------------------------------------------------------------- steps

  datatype Event =
    | Arrive(id: CallerId, proc: Proc, key: Key, coords: Coords)
    | FirstRead(id: CallerId)
    | GetLock(id: CallerId)
    | Acquire(id: CallerId)
    | Recheck(id: CallerId)
    | ComputeReturns(id: CallerId, result: LegResult)
    | Insert(id: CallerId, clock: real)
    | Reread(id: CallerId)
    | Raise(id: CallerId)

  predicate Enabled(s: State, e: Event) {
    if e.Arrive? then e.id !in s.callers
    else
      && e.id in s.callers
      && var pc := s.callers[e.id].pc;
         match e
         case Arrive(_, _, _, _) => false
         case FirstRead(_) => pc.Start?
         case GetLock(_) => pc.NeedsLock?
         case Acquire(_) => pc.Waiting? && pc.lock !in s.holder
         case Recheck(_) => pc.Rechecking?
         case ComputeReturns(_, _) => pc.Computing?
         case Insert(_, _) => pc.Inserting?
         case Reread(_) => pc.Rereading?
         case Raise(_) => IsLive(pc)
  }

  /** Where the stepping caller goes. */
  function NextPc(s: State, e: Event): Pc
    requires Enabled(s, e)
  {
    if e.Arrive? then Start
    else
      var c := s.callers[e.id];
      match e
      case Arrive(_, _, _, _) => Start
      case FirstRead(_) => if IsHit(s.rows, c.key, c.coords) then Done(s.rows[c.key].result) else NeedsLock
      case GetLock(_) => Waiting(if FlightOf(c) in s.locks then s.locks[FlightOf(c)] else s.nextLock)
      case Acquire(_) => Rechecking(c.pc.lock)
      case Recheck(_) => if IsHit(s.rows, c.key, c.coords) then Done(s.rows[c.key].result) else Computing(c.pc.lock)
      case ComputeReturns(_, result) => Inserting(c.pc.lock, result)
      case Insert(_, _) => Rereading(c.pc.lock)
      case Reread(_) => if c.key in s.rows then Done(s.rows[c.key].result) else MissingRow
      case Raise(_) => Failed
  }

  function NextRows(s: State, e: Event): Rows
    requires Enabled(s, e)
  {
    if e.Insert? then
      var c := s.callers[e.id];
      var row := Row(c.coords, c.pc.result, e.clock);
      if s.upsert then s.rows[c.key := row] else InsertIfAbsent(s.rows, c.key, row)
    else s.rows
  }

  /** The first use of a key in a process makes its lock. */
  predicate MakesLock(s: State, e: Event)
    requires Enabled(s, e)
  {
    e.GetLock? && FlightOf(s.callers[e.id]) !in s.locks
  }

  /** Entering the `with` block takes the lock; leaving it, in whatever way, gives it back. */
  function NextHolder(s: State, e: Event): map<LockId, CallerId>
    requires Enabled(s, e)
  {
    if e.Arrive? then s.holder
    else
      var pc := s.callers[e.id].pc;
      if e.Acquire? then s.holder[pc.lock := e.id]
      else if InCritical(pc) && !InCritical(NextPc(s, e)) then s.holder - {pc.lock}
      else s.holder
  }

  function NextCaller(s: State, e: Event): Caller
    requires Enabled(s, e)
  {
    if e.Arrive? then Caller(e.proc, e.key, e.coords, Start) else s.callers[e.id].(pc := NextPc(s, e))
  }

  function Bump(m: map<Flight, nat>, f: Flight): map<Flight, nat> {
    m[f := Count(m, f) + 1]
  }

  function Apply(s: State, e: Event): State
    requires Enabled(s, e)
  {
    State(NextRows(s, e),
          if MakesLock(s, e) then s.locks[FlightOf(s.callers[e.id]) := s.nextLock] else s.locks,
          if MakesLock(s, e) then s.nextLock + 1 else s.nextLock,
          NextHolder(s, e),
          s.callers[e.id := NextCaller(s, e)],
          if e.ComputeReturns? then Bump(s.completed, FlightOf(s.callers[e.id])) else s.completed,
          if e.Raise? && s.callers[e.id].pc.Inserting? then Bump(s.lost, FlightOf(s.callers[e.id])) else s.lost,
          s.upsert)
  }

  // ---------------------------------------------------------------- invariant

  ghost predicate LocksAreDistinct(s: State) {
    && (forall f :: f in s.locks ==> s.locks[f] < s.nextLock)
    && (forall f, g :: f in s.locks && g in s.locks && s.locks[f] == s.locks[g] ==> f == g)
  }

  predicate HasLock(pc: Pc) {
    pc.Waiting? || InCritical(pc)
  }

  ghost predicate CallerOk(s: State, id: CallerId)
    requires id in s.callers
  {
    var c := s.callers[id];
    && (HasLock(c.pc) ==> FlightOf(c) in s.locks && s.locks[FlightOf(c)] == c.pc.lock)
    && (InCritical(c.pc) ==> c.pc.lock in s.holder && s.holder[c.pc.lock] == id)
    && (c.pc.Rereading? ==> c.key in s.rows)
    && (c.pc.Done? && !s.upsert ==> c.key in s.rows && s.rows[c.key].result == c.pc.returned)
    && !c.pc.MissingRow?
  }

  ghost predicate HolderOk(s: State, l: LockId)
    requires l in s.holder
  {
    && s.holder[l] in s.callers
    && InCritical(s.callers[s.holder[l]].pc) && s.callers[s.holder[l]].pc.lock == l
  }

  ghost predicate Inv(s: State) {
    && LocksAreDistinct(s)
    && (forall id :: id in s.callers ==> CallerOk(s, id))
    && (forall l :: l in s.holder ==> HolderOk(s, l))
  }

  lemma InitHasInv()
    ensures Inv(INIT)
  {
  }

  /** Rows are only ever added: a row never changes once it is written. */
  ghost predicate Grows(before: Rows, after: Rows) {
    forall k :: k in before ==> k in after && after[k] == before[k]
  }

  lemma StepGrowsRows(s: State, e: Event)
    requires Enabled(s, e)
    ensures !s.upsert ==> Grows(s.rows, Apply(s, e).rows)
    ensures s.rows.Keys <= Apply(s, e).rows.Keys
    ensures Apply(s, e).upsert == s.upsert
  {
  }

  lemma StepKeepsLocks(s: State, e: Event)
    requires Inv(s) && Enabled(s, e)
    ensures LocksAreDistinct(Apply(s, e))
    ensures forall f :: f in s.locks ==> f in Apply(s, e).locks && Apply(s, e).locks[f] == s.locks[f]
  {
  }

  /** The stepping caller itself. */
  lemma StepKeepsSelf(s: State, e: Event)
    requires Inv(s) && Enabled(s, e)
    ensures e.id in Apply(s, e).callers && CallerOk(Apply(s, e), e.id)
  {
    hide LocksAreDistinct, HolderOk;
    if !e.Arrive? {
      assert CallerOk(s, e.id);
    }
  }

  /** Everybody else: no lock of theirs is released or taken over. */
  lemma StepKeepsOthers(s: State, e: Event, id: CallerId)
    requires Inv(s) && Enabled(s, e) && id in s.callers && id != e.id
    ensures id in Apply(s, e).callers && Apply(s, e).callers[id] == s.callers[id] && CallerOk(Apply(s, e), id)
  {
    StepGrowsRows(s, e);
    StepKeepsLocks(s, e);
    assert CallerOk(s, id);
    if !e.Arrive? {
      assert CallerOk(s, e.id);
    }
  }

  lemma StepKeepsHolders(s: State, e: Event, l: LockId)
    requires Inv(s) && Enabled(s, e) && l in Apply(s, e).holder
    ensures HolderOk(Apply(s, e), l)
  {
    if l in s.holder {
      assert HolderOk(s, l);
    }
    if !e.Arrive? {
      assert CallerOk(s, e.id);
    }
  }

  lemma CallersOf(s: State, e: Event, id: CallerId)
    requires Enabled(s, e)
    ensures id in Apply(s, e).callers <==> id in s.callers || id == e.id
  {
  }

  lemma StepKeepsInv(s: State, e: Event)
    requires Inv(s) && Enabled(s, e)
    ensures Inv(Apply(s, e))
  {
    hide Enabled, Apply, CallerOk, HolderOk, LocksAreDistinct;
    StepKeepsLocks(s, e);
    forall id | id in Apply(s, e).callers
      ensures CallerOk(Apply(s, e), id)
    {
      CallersOf(s, e, id);
      if id == e.id { StepKeepsSelf(s, e); } else { StepKeepsOthers(s, e, id); }
    }
    forall l | l in Apply(s, e).holder
      ensures HolderOk(Apply(s, e), l)
    {
      StepKeepsHolders(s, e, l);
    }
  }

  // ---------------------------------------------------------------- runs

  ghost predicate IsRun(s: State, es: seq<Event>)
    decreases |es|
  {
    es == [] || (Enabled(s, es[0]) && IsRun(Apply(s, es[0]), es[1..]))
  }

  ghost function After(s: State, es: seq<Event>): State
    requires IsRun(s, es)
    decreases |es|
  {
    if es == [] then s else After(Apply(s, es[0]), es[1..])
  }

  lemma {:induction false} RunKeepsInv(s: State, es: seq<Event>)
    requires Inv(s) && IsRun(s, es)
    ensures Inv(After(s, es)) && After(s, es).upsert == s.upsert
    ensures !s.upsert ==> Grows(s.rows, After(s, es).rows)
    decreases |es|
  {
    hide Enabled, Apply, Inv;
    if es != [] {
      StepKeepsInv(s, es[0]);
      StepGrowsRows(s, es[0]);
      RunKeepsInv(Apply(s, es[0]), es[1..]);
    }
  }

  /** Whatever happens later, whoever has an answer for a key has the one that is in the table. */
  lemma AllAnswersAgree(es: seq<Event>, later: seq<Event>, a: CallerId, b: CallerId)
    requires IsRun(INIT, es) && IsRun(After(INIT, es), later)
    requires a in After(INIT, es).callers && After(INIT, es).callers[a].pc.Done?
    requires var s := After(After(INIT, es), later);
             b in s.callers && s.callers[b].pc.Done? && s.callers[b].key == After(INIT, es).callers[a].key
    ensures After(After(INIT, es), later).callers[b].pc.returned == After(INIT, es).callers[a].pc.returned
  {
    hide Enabled, Apply, IsRun, After;
    InitHasInv();
    RunKeepsInv(INIT, es);
    RunKeepsInv(After(INIT, es), later);
    assert CallerOk(After(INIT, es), a);
    assert CallerOk(After(After(INIT, es), later), b);
  }

  /** In one process at most one caller per key is between the two ends of the lock. */
  lemma SingleFlight(es: seq<Event>, a: CallerId, b: CallerId)
    requires IsRun(INIT, es)
    requires var s := After(INIT, es);
             && a in s.callers && b in s.callers
             && InCritical(s.callers[a].pc) && InCritical(s.callers[b].pc)
             && FlightOf(s.callers[a]) == FlightOf(s.callers[b])
    ensures a == b
  {
    hide Enabled, Apply, IsRun, After;
    InitHasInv();
    RunKeepsInv(INIT, es);
    assert CallerOk(After(INIT, es), a) && CallerOk(After(INIT, es), b);
  }

  /** The final re-read always finds a row, and a caller that is out of the call holds no lock. */
  lemma CallsEndCleanly(es: seq<Event>, id: CallerId)
    requires IsRun(INIT, es) && id in After(INIT, es).callers
    ensures var s := After(INIT, es);
            && !s.callers[id].pc.MissingRow?
            && (!InCritical(s.callers[id].pc) ==> forall l :: l in s.holder ==> s.holder[l] != id)
  {
    hide Enabled, Apply, IsRun, After;
    InitHasInv();
    RunKeepsInv(INIT, es);
    var s := After(INIT, es);
    assert CallerOk(s, id);
    forall l | l in s.holder
      ensures HolderOk(s, l)
    {
    }
  }

  /** The next event of a caller inside the lock, when nothing raises; `result` is what `compute` returns. */
  function OrdinaryEvent(s: State, id: CallerId, result: LegResult, clock: real): Event
    requires id in s.callers && InCritical(s.callers[id].pc)
  {
    match s.callers[id].pc
    case Rechecking(_) => Recheck(id)
    case Computing(_) => ComputeReturns(id, result)
    case Inserting(_, _) => Insert(id, clock)
    case _ => Reread(id)
  }

  /** How far a caller inside the lock is from leaving it. */
  function Remaining(pc: Pc): nat {
    match pc
    case Rechecking(_) => 4
    case Computing(_) => 3
    case Inserting(_, _) => 2
    case Rereading(_) => 1
    case _ => 0
  }

  /**
   No caller waits for a lock that nobody will give back: the lock is free, or its holder's next
   ordinary step is possible and brings it nearer to giving the lock back.
   */
  lemma HolderCanStep(es: seq<Event>, id: CallerId, result: LegResult, clock: real)
    requires IsRun(INIT, es) && id in After(INIT, es).callers && After(INIT, es).callers[id].pc.Waiting?
    ensures var s := After(INIT, es);
            var l := s.callers[id].pc.lock;
            if l !in s.holder then Enabled(s, Acquire(id))
            else
              var holder := s.holder[l];
              && holder in s.callers && InCritical(s.callers[holder].pc)
              && var e := OrdinaryEvent(s, holder, result, clock);
                 && Enabled(s, e) && holder in Apply(s, e).callers
                 && Remaining(Apply(s, e).callers[holder].pc) < Remaining(s.callers[holder].pc)
                 && (Remaining(Apply(s, e).callers[holder].pc) == 0 ==> l !in Apply(s, e).holder)
  {
    hide IsRun, After;
    InitHasInv();
    RunKeepsInv(INIT, es);
    var s := After(INIT, es);
    if s.callers[id].pc.lock in s.holder {
      assert HolderOk(s, s.callers[id].pc.lock);
    }
  }

  // ---------------------------------------------------------------- stable coordinates

  /** Callers of a key always pass the same coordinates and `compute` is a function of the key. */
  predicate IsStable(e: Event, s: State, coordsOf: Key -> Coords, f: Key -> LegResult) {
    && (e.Arrive? ==> e.coords == coordsOf(e.key))
    && (e.ComputeReturns? && e.id in s.callers ==> e.result == f(s.callers[e.id].key))
  }

  ghost predicate IsStableRun(s: State, es: seq<Event>, coordsOf: Key -> Coords, f: Key -> LegResult)
    decreases |es|
  {
    es == [] || (Enabled(s, es[0]) && IsStable(es[0], s, coordsOf, f)
                 && IsStableRun(Apply(s, es[0]), es[1..], coordsOf, f))
  }

  /** Some caller of this flight carries a computed result that is not in the table yet. */
  ghost predicate InAir(s: State, f: Flight) {
    exists id :: id in s.callers && FlightOf(s.callers[id]) == f && s.callers[id].pc.Inserting?
  }

  ghost predicate StableInv(s: State, coordsOf: Key -> Coords, f: Key -> LegResult) {
    && (forall id :: id in s.callers ==>
          && s.callers[id].coords == coordsOf(s.callers[id].key)
          && (s.callers[id].pc.Inserting? ==> s.callers[id].pc.result == f(s.callers[id].key))
          && (s.callers[id].pc.Done? ==> s.callers[id].pc.returned == f(s.callers[id].key)))
    && (forall k :: k in s.rows ==> s.rows[k].coords == coordsOf(k) && s.rows[k].result == f(k))
  }

  /** Completed computations are either lost, or in the table, or about to be. */
  ghost predicate FlightOk(s: State, f: Flight) {
    && Count(s.lost, f) <= Count(s.completed, f) <= Count(s.lost, f) + 1
    && (Count(s.completed, f) > Count(s.lost, f) ==> f.key in s.rows || InAir(s, f))
    && (InAir(s, f) ==> Count(s.completed, f) > Count(s.lost, f))
  }

  /** A caller only gets to compute when every completed computation of its flight was lost. */
  ghost predicate ComputesAfresh(s: State, id: CallerId)
    requires id in s.callers
  {
    s.callers[id].pc.Computing? ==>
      Count(s.completed, FlightOf(s.callers[id])) == Count(s.lost, FlightOf(s.callers[id]))
  }

  ghost predicate CountInv(s: State) {
    && (forall f :: FlightOk(s, f))
    && (forall id :: id in s.callers ==> ComputesAfresh(s, id))
  }

  lemma StepKeepsStable(s: State, e: Event, coordsOf: Key -> Coords, f: Key -> LegResult)
    requires Enabled(s, e) && IsStable(e, s, coordsOf, f) && StableInv(s, coordsOf, f)
    ensures StableInv(Apply(s, e), coordsOf, f)
  {
  }

  /** With stable coordinates a row is a hit, so re-reading under the lock misses only when no row is there. */
  lemma RowIsHit(s: State, id: CallerId, coordsOf: Key -> Coords, f: Key -> LegResult)
    requires StableInv(s, coordsOf, f) && id in s.callers
    ensures IsHit(s.rows, s.callers[id].key, s.callers[id].coords) <==> s.callers[id].key in s.rows
  {
  }

  /** Two callers of one flight are never both past the lock. */
  lemma CriticalIsAlone(s: State, a: CallerId, b: CallerId)
    requires Inv(s) && a in s.callers && b in s.callers && FlightOf(s.callers[a]) == FlightOf(s.callers[b])
    requires InCritical(s.callers[a].pc) && InCritical(s.callers[b].pc)
    ensures a == b
  {
    assert CallerOk(s, a) && CallerOk(s, b);
  }

  /** The event is a step of a caller of this flight that computes or holds a result. */
  predicate Carries(s: State, e: Event, f: Flight)
    requires Enabled(s, e)
  {
    !e.Arrive? && FlightOf(s.callers[e.id]) == f && (s.callers[e.id].pc.Computing? || s.callers[e.id].pc.Inserting?)
  }

  /** A step of a caller that neither was nor is carrying a result of this flight changes nothing for it. */
  lemma SameAir(s: State, t: State, f: Flight, id: CallerId)
    requires forall x :: x in s.callers && x != id ==> x in t.callers && t.callers[x] == s.callers[x]
    requires forall x :: x in t.callers && x != id ==> x in s.callers
    requires id in s.callers ==> FlightOf(s.callers[id]) != f || !s.callers[id].pc.Inserting?
    requires id in t.callers ==> FlightOf(t.callers[id]) != f || !t.callers[id].pc.Inserting?
    ensures InAir(t, f) <==> InAir(s, f)
  {
    if InAir(s, f) {
      var x :| x in s.callers && FlightOf(s.callers[x]) == f && s.callers[x].pc.Inserting?;
      assert x in t.callers && t.callers[x] == s.callers[x];
    }
    if InAir(t, f) {
      var x :| x in t.callers && FlightOf(t.callers[x]) == f && t.callers[x].pc.Inserting?;
      assert x in s.callers && t.callers[x] == s.callers[x];
    }
  }

  lemma BystanderIsNotInAir(s: State, e: Event, f: Flight)
    requires Enabled(s, e) && !Carries(s, e, f)
    ensures InAir(Apply(s, e), f) <==> InAir(s, f)
  {
    SameAir(s, Apply(s, e), f, e.id);
  }

  lemma BystanderKeepsFlight(s: State, e: Event, f: Flight)
    requires Enabled(s, e) && FlightOk(s, f) && !Carries(s, e, f)
    ensures FlightOk(Apply(s, e), f)
  {
    hide InAir;
    BystanderIsNotInAir(s, e, f);
  }

  /** The one caller of a flight that computes or carries a result moves on. */
  lemma CarrierKeepsFlight(s: State, e: Event, f: Flight)
    requires Inv(s) && FlightOk(s, f) && Enabled(s, e) && Carries(s, e, f) && ComputesAfresh(s, e.id)
    ensures FlightOk(Apply(s, e), f)
  {
    var t := Apply(s, e);
    forall id | id in s.callers && FlightOf(s.callers[id]) == f && s.callers[id].pc.Inserting?
      ensures id == e.id
    {
      CriticalIsAlone(s, id, e.id);
    }
    if t.callers[e.id].pc.Inserting? {
      assert InAir(t, f);
    } else {
      assert !InAir(t, f);
      if s.callers[e.id].pc.Inserting? {
        assert InAir(s, f);
      }
    }
  }

  lemma StepKeepsFlight(s: State, e: Event, f: Flight, coordsOf: Key -> Coords, g: Key -> LegResult)
    requires Inv(s) && StableInv(s, coordsOf, g) && CountInv(s)
    requires Enabled(s, e) && IsStable(e, s, coordsOf, g)
    ensures FlightOk(Apply(s, e), f)
  {
    hide Inv, StableInv, FlightOk, Apply, IsStable;
    assert FlightOk(s, f);
    if Carries(s, e, f) {
      assert ComputesAfresh(s, e.id);
      CarrierKeepsFlight(s, e, f);
    } else {
      BystanderKeepsFlight(s, e, f);
    }
  }

  lemma StepKeepsAfresh(s: State, e: Event, id: CallerId, coordsOf: Key -> Coords, g: Key -> LegResult)
    requires Inv(s) && StableInv(s, coordsOf, g) && CountInv(s)
    requires Enabled(s, e) && IsStable(e, s, coordsOf, g) && id in Apply(s, e).callers
    ensures ComputesAfresh(Apply(s, e), id)
  {
    var t := Apply(s, e);
    if t.callers[id].pc.Computing? {
      var f := FlightOf(t.callers[id]);
      if id == e.id {
        RowIsHit(s, id, coordsOf, g);
        assert FlightOk(s, f);
        if InAir(s, f) {
          var x :| x in s.callers && FlightOf(s.callers[x]) == f && s.callers[x].pc.Inserting?;
          CriticalIsAlone(s, x, id);
          assert false;
        }
      } else {
        assert ComputesAfresh(s, id);
        if !e.Arrive? && FlightOf(s.callers[e.id]) == f && InCritical(s.callers[e.id].pc) {
          CriticalIsAlone(s, e.id, id);
          assert false;
        }
      }
    }
  }

  lemma {:induction false} StableRunKeepsAll(s: State, es: seq<Event>, coordsOf: Key -> Coords, f: Key -> LegResult)
    requires Inv(s) && StableInv(s, coordsOf, f) && CountInv(s) && IsStableRun(s, es, coordsOf, f)
    ensures IsRun(s, es) && Inv(After(s, es)) && StableInv(After(s, es), coordsOf, f) && CountInv(After(s, es))
    decreases |es|
  {
    hide Enabled, Apply, Inv, StableInv, FlightOk, ComputesAfresh, IsStable;
    if es != [] {
      var t := Apply(s, es[0]);
      StepKeepsInv(s, es[0]);
      StepKeepsStable(s, es[0], coordsOf, f);
      forall x
        ensures FlightOk(t, x)
      {
        StepKeepsFlight(s, es[0], x, coordsOf, f);
      }
      forall id | id in t.callers
        ensures ComputesAfresh(t, id)
      {
        StepKeepsAfresh(s, es[0], id, coordsOf, f);
      }
      StableRunKeepsAll(t, es[1..], coordsOf, f);
    }
  }

  /** The caller is one of that process for that key. */
  predicate IsFor(s: State, id: CallerId, f: Flight) {
    id in s.callers && s.callers[id].proc == f.proc && s.callers[id].key == f.key
  }

  /** How often, in a run, a computation of that flight returns. */
  ghost function Completions(s: State, es: seq<Event>, f: Flight): nat
    requires IsRun(s, es)
    decreases |es|
  {
    if es == [] then 0
    else (if es[0].ComputeReturns? && IsFor(s, es[0].id, f) then 1 else 0) + Completions(Apply(s, es[0]), es[1..], f)
  }

  /** And how often an exception comes between that and the insert. */
  ghost function Losses(s: State, es: seq<Event>, f: Flight): nat
    requires IsRun(s, es)
    decreases |es|
  {
    if es == [] then 0
    else
      (if es[0].Raise? && IsFor(s, es[0].id, f) && s.callers[es[0].id].pc.Inserting? then 1 else 0)
      + Losses(Apply(s, es[0]), es[1..], f)
  }

  lemma StepCounts(s: State, e: Event, f: Flight)
    requires Enabled(s, e)
    ensures Count(Apply(s, e).completed, f)
            == Count(s.completed, f) + if e.ComputeReturns? && IsFor(s, e.id, f) then 1 else 0
    ensures Count(Apply(s, e).lost, f)
            == Count(s.lost, f) + if e.Raise? && IsFor(s, e.id, f) && s.callers[e.id].pc.Inserting? then 1 else 0
  {
    hide NextRows, NextHolder, NextCaller, MakesLock;
  }

  /** The counters say how often these things have happened. */
  lemma {:induction false} CountersCount(s: State, es: seq<Event>, f: Flight)
    requires IsRun(s, es)
    ensures Count(After(s, es).completed, f) == Count(s.completed, f) + Completions(s, es, f)
    ensures Count(After(s, es).lost, f) == Count(s.lost, f) + Losses(s, es, f)
    decreases |es|
  {
    hide Enabled, Apply, IsFor, Count;
    if es != [] {
      StepCounts(s, es[0], f);
      CountersCount(Apply(s, es[0]), es[1..], f);
    }
  }

  /**
   With stable coordinates and a deterministic `compute` the cache is invisible: every answer is
   what computing would give, and a process completes `compute` for a key at most once more than
   it lost a computed result to an exception -- once, if it never does.
   */
  lemma CacheRefinesComputation(es: seq<Event>, coordsOf: Key -> Coords, f: Key -> LegResult, id: CallerId,
                                flight: Flight)
    requires IsStableRun(INIT, es, coordsOf, f)
    ensures IsRun(INIT, es)
    ensures var s := After(INIT, es);
            && (id in s.callers && s.callers[id].pc.Done? ==> s.callers[id].pc.returned == f(s.callers[id].key))
            && Completions(INIT, es, flight) <= Losses(INIT, es, flight) + 1
  {
    hide Enabled, Apply, IsRun, IsStableRun, After, Completions, Losses;
    InitHasInv();
    assert CountInv(INIT);
    StableRunKeepsAll(INIT, es, coordsOf, f);
    CountersCount(INIT, es, flight);
    var s := After(INIT, es);
    assert FlightOk(s, flight);
  }

  // ---------------------------------------------------------------- a call without interference

  /** The events of one caller that runs alone, up to and after the computation. */
  function UpToCompute(id: CallerId, key: Key, c: Coords): seq<Event> {
    [Arrive(id, 0, key, c), FirstRead(id), GetLock(id), Acquire(id), Recheck(id)]
  }

  function FromCompute(id: CallerId, compute: Result<LegResult, Raised>, clock: real): seq<Event> {
    match compute
    case Ok(result) => [ComputeReturns(id, result), Insert(id, clock), Reread(id)]
    case Err(_) => [Raise(id)]
  }

  function SoloEvents(rows: Rows, id: CallerId, key: Key, c: Coords, compute: Result<LegResult, Raised>,
                      clock: real): seq<Event> {
    if IsHit(rows, key, c) then [Arrive(id, 0, key, c), FirstRead(id)]
    else UpToCompute(id, key, c) + FromCompute(id, compute, clock)
  }

  ghost predicate SoloAgrees(s: State, id: CallerId, o: Outcome) {
    && s.rows == o.rows && s.holder == map[] && id in s.callers
    && (match o.returned
        case Ok(result) => s.callers[id].pc == Done(result)
        case Err(_) => s.callers[id].pc == Failed)
  }

  lemma {:induction false} RunsCompose(s: State, es: seq<Event>, fs: seq<Event>)
    requires IsRun(s, es) && IsRun(After(s, es), fs)
    ensures IsRun(s, es + fs) && After(s, es + fs) == After(After(s, es), fs)
    decreases |es|
  {
    hide Enabled, Apply;
    if es == [] {
      assert es + fs == fs;
    } else {
      RunsCompose(Apply(s, es[0]), es[1..], fs);
      assert (es + fs)[1..] == es[1..] + fs;
    }
  }

  lemma StepThenRun(s: State, e: Event, t: State, fs: seq<Event>)
    requires Enabled(s, e) && Apply(s, e) == t && IsRun(t, fs)
    ensures IsRun(s, [e] + fs) && After(s, [e] + fs) == After(t, fs)
  {
    hide Apply, Enabled;
    assert ([e] + fs)[1..] == fs;
  }

  /** The caller alone at some point of the call; after `GetLock` lock 0 exists, inside the block it is held. */
  function Alone(rows: Rows, id: CallerId, key: Key, c: Coords, pc: Pc, computed: bool): State {
    State(rows, if HasLock(pc) then map[Flight(0, key) := 0] else map[], if HasLock(pc) then 1 else 0,
          if InCritical(pc) then map[0 := id] else map[], map[id := Caller(0, key, c, pc)],
          if computed then map[Flight(0, key) := 1] else map[], map[], false)
  }

  lemma AloneAtStart(rows: Rows, id: CallerId, key: Key, c: Coords)
    requires !IsHit(rows, key, c)
    ensures var s, e := INIT.(rows := rows), Arrive(id, 0, key, c);
            Enabled(s, e) && Apply(s, e) == Alone(rows, id, key, c, Start, false)
    ensures var s, e := Alone(rows, id, key, c, Start, false), FirstRead(id);
            Enabled(s, e) && Apply(s, e) == Alone(rows, id, key, c, NeedsLock, false)
  {
  }

  lemma AloneAtLock(rows: Rows, id: CallerId, key: Key, c: Coords)
    requires !IsHit(rows, key, c)
    ensures var s, e := Alone(rows, id, key, c, NeedsLock, false), GetLock(id);
            Enabled(s, e) && Apply(s, e) == Alone(rows, id, key, c, Waiting(0), false)
    ensures var s, e := Alone(rows, id, key, c, Waiting(0), false), Acquire(id);
            Enabled(s, e) && Apply(s, e) == Alone(rows, id, key, c, Rechecking(0), false)
    ensures var s, e := Alone(rows, id, key, c, Rechecking(0), false), Recheck(id);
            Enabled(s, e) && Apply(s, e) == Alone(rows, id, key, c, Computing(0), false)
  {
  }

  lemma SoloReachesCompute(rows: Rows, id: CallerId, key: Key, c: Coords)
    requires !IsHit(rows, key, c)
    ensures var s := INIT.(rows := rows);
            && IsRun(s, UpToCompute(id, key, c))
            && After(s, UpToCompute(id, key, c)) == Alone(rows, id, key, c, Computing(0), false)
  {
    hide Apply, Enabled, Alone, IsHit;
    AloneAtStart(rows, id, key, c);
    AloneAtLock(rows, id, key, c);
    var es := [Recheck(id)];
    StepThenRun(Alone(rows, id, key, c, Rechecking(0), false), Recheck(id),
                Alone(rows, id, key, c, Computing(0), false), []);
    assert [Recheck(id)] + [] == es;
    StepThenRun(Alone(rows, id, key, c, Waiting(0), false), Acquire(id),
                Alone(rows, id, key, c, Rechecking(0), false), es);
    es := [Acquire(id)] + es;
    StepThenRun(Alone(rows, id, key, c, NeedsLock, false), GetLock(id), Alone(rows, id, key, c, Waiting(0), false), es);
    es := [GetLock(id)] + es;
    StepThenRun(Alone(rows, id, key, c, Start, false), FirstRead(id), Alone(rows, id, key, c, NeedsLock, false), es);
    es := [FirstRead(id)] + es;
    StepThenRun(INIT.(rows := rows), Arrive(id, 0, key, c), Alone(rows, id, key, c, Start, false), es);
    es := [Arrive(id, 0, key, c)] + es;
    assert es == UpToCompute(id, key, c);
  }

  lemma AloneAtCompute(rows: Rows, id: CallerId, key: Key, c: Coords, result: LegResult, clock: real)
    ensures var s, e := Alone(rows, id, key, c, Computing(0), false), ComputeReturns(id, result);
            Enabled(s, e) && Apply(s, e) == Alone(rows, id, key, c, Inserting(0, result), true)
    ensures var after := InsertIfAbsent(rows, key, Row(c, result, clock));
            var s, e := Alone(rows, id, key, c, Inserting(0, result), true), Insert(id, clock);
            Enabled(s, e) && Apply(s, e) == Alone(after, id, key, c, Rereading(0), true)
  {
  }

  lemma AloneAtEnd(rows: Rows, id: CallerId, key: Key, c: Coords, result: LegResult, clock: real)
    ensures var after := InsertIfAbsent(rows, key, Row(c, result, clock));
            var s, e := Alone(after, id, key, c, Rereading(0), true), Reread(id);
            && Enabled(s, e) && Apply(s, e).rows == after && Apply(s, e).holder == map[]
            && id in Apply(s, e).callers && Apply(s, e).callers[id].pc == Done(after[key].result)
    ensures var s, e := Alone(rows, id, key, c, Computing(0), false), Raise(id);
            && Enabled(s, e) && Apply(s, e).rows == rows && Apply(s, e).holder == map[]
            && id in Apply(s, e).callers && Apply(s, e).callers[id].pc == Failed
  {
  }

  lemma SoloComputes(rows: Rows, id: CallerId, key: Key, c: Coords, compute: Result<LegResult, Raised>, clock: real)
    requires !IsHit(rows, key, c)
    ensures var s, es := Alone(rows, id, key, c, Computing(0), false), FromCompute(id, compute, clock);
            IsRun(s, es) && SoloAgrees(After(s, es), id, SoloCall(rows, key, c, compute, clock))
  {
    hide Apply, Enabled, Alone, SoloCall, IsHit;
    SoloMiss(rows, key, c, compute, clock);
    var s := Alone(rows, id, key, c, Computing(0), false);
    if compute.Err? {
      AloneAtEnd(rows, id, key, c, LegResult("", 0.0), clock);
      StepThenRun(s, Raise(id), Apply(s, Raise(id)), []);
      assert [Raise(id)] + [] == FromCompute(id, compute, clock);
    } else {
      AloneAtCompute(rows, id, key, c, compute.value, clock);
      AloneAtEnd(rows, id, key, c, compute.value, clock);
      var s1 := Alone(rows, id, key, c, Inserting(0, compute.value), true);
      var s2 := Alone(InsertIfAbsent(rows, key, Row(c, compute.value, clock)), id, key, c, Rereading(0), true);
      StepThenRun(s2, Reread(id), Apply(s2, Reread(id)), []);
      assert [Reread(id)] + [] == [Reread(id)];
      StepThenRun(s1, Insert(id, clock), s2, [Reread(id)]);
      StepThenRun(s, ComputeReturns(id, compute.value), s1, [Insert(id, clock)] + [Reread(id)]);
      assert [ComputeReturns(id, compute.value)] + ([Insert(id, clock)] + [Reread(id)])
          == FromCompute(id, compute, clock);
    }
  }

  /** Run alone, the protocol does what `SoloCall` -- and hence the method of the cache class -- says. */
  lemma ProtocolRefinesSoloCall(rows: Rows, id: CallerId, key: Key, c: Coords, compute: Result<LegResult, Raised>,
                                clock: real)
    ensures var s := INIT.(rows := rows);
            var es := SoloEvents(rows, id, key, c, compute, clock);
            IsRun(s, es) && SoloAgrees(After(s, es), id, SoloCall(rows, key, c, compute, clock))
  {
    var s0 := INIT.(rows := rows);
    if IsHit(rows, key, c) {
      var s1 := Alone(rows, id, key, c, Start, false);
      StepThenRun(s1, FirstRead(id), Apply(s1, FirstRead(id)), []);
      assert [FirstRead(id)] + [] == [FirstRead(id)];
      StepThenRun(s0, Arrive(id, 0, key, c), s1, [FirstRead(id)]);
      assert SoloEvents(rows, id, key, c, compute, clock) == [Arrive(id, 0, key, c)] + [FirstRead(id)];
    } else {
      hide Enabled, Apply, SoloAgrees, UpToCompute, FromCompute;
      SoloReachesCompute(rows, id, key, c);
      SoloComputes(rows, id, key, c, compute, clock);
      RunsCompose(s0, UpToCompute(id, key, c), FromCompute(id, compute, clock));
    }
  }
}
