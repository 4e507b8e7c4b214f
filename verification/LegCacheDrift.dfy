/**
 What the leg-geometry cache serves when a key's coordinates drift, over all interleavings: exactly
 when an answer belongs to the coordinates it was asked for, and runs in which it does not.
 */
module LegCacheDrift {
  import opened Base
  import opened LegCache
  import opened LegCacheProtocol

  lemma InitsHaveInv()
    ensures Inv(INIT) && Inv(INIT_UPSERT) && !INIT.upsert && INIT_UPSERT.upsert
    ensures INIT.callers == map[] == INIT_UPSERT.callers
  {
  }

  /** What every state of the program that is reached from the empty cache satisfies. */
  lemma ReachedState(es: seq<Event>)
    requires IsRun(INIT, es)
    ensures Inv(After(INIT, es)) && !After(INIT, es).upsert
  {
    hide Inv, IsRun, After, Grows;
    InitsHaveInv();
    RunKeepsInv(INIT, es);
  }

  lemma CallerStays(s: State, e: Event, id: CallerId)
    requires Enabled(s, e) && id in s.callers
    ensures id in Apply(s, e).callers
    ensures Apply(s, e).callers[id].key == s.callers[id].key && Apply(s, e).callers[id].coords == s.callers[id].coords
  {
    hide NextPc, NextRows, NextHolder;
  }

  lemma {:induction false} AnswersStay(s: State, es: seq<Event>, id: CallerId)
    requires IsRun(s, es) && id in s.callers
    ensures id in After(s, es).callers
    ensures After(s, es).callers[id].key == s.callers[id].key && After(s, es).callers[id].coords == s.callers[id].coords
    decreases |es|
  {
    hide Enabled;
    if es != [] {
      CallerStays(s, es[0], id);
      AnswersStay(Apply(s, es[0]), es[1..], id);
    }
  }

  // ---------------------------------------------------------------- the program

  lemma InsertedRow(s: State, id: CallerId, clock: real)
    requires Enabled(s, Insert(id, clock)) && !s.upsert
    ensures var t, key, c := Apply(s, Insert(id, clock)), s.callers[id].key, s.callers[id].coords;
            && id in t.callers && t.callers[id].key == key && t.callers[id].coords == c && !t.upsert
            && key in t.rows && (key in s.rows ==> t.rows[key] == s.rows[key])
            && (key !in s.rows ==> t.rows[key].coords == c)
            && (IsNear(t.rows[key].coords, c) <==> key !in s.rows || IsNear(s.rows[key].coords, c))
  {
  }

  lemma DoneAnswersRow(s: State, id: CallerId)
    requires Inv(s) && !s.upsert && id in s.callers && s.callers[id].pc.Done?
    ensures s.callers[id].key in s.rows && s.callers[id].pc.returned == s.rows[s.callers[id].key].result
  {
    assert CallerOk(s, id);
  }

  /**
   Over all runs: the row behind an answer that was computed has the caller's coordinates if and only
   if, just before the caller's insert, the key was absent or its row matched.
   */
  lemma ComputedAnswerMatchesIff(es: seq<Event>, id: CallerId, clock: real, later: seq<Event>)
    requires IsRun(INIT, es)
    requires var s := After(INIT, es);
             && Enabled(s, Insert(id, clock)) && IsRun(Apply(s, Insert(id, clock)), later)
             && var u := After(Apply(s, Insert(id, clock)), later);
                id in u.callers && u.callers[id].pc.Done?
    ensures var s := After(INIT, es);
            var key, c := s.callers[id].key, s.callers[id].coords;
            var u := After(Apply(s, Insert(id, clock)), later);
            && key in u.rows && u.callers[id].pc.returned == u.rows[key].result
            && (IsNear(u.rows[key].coords, c) <==> key !in s.rows || IsNear(s.rows[key].coords, c))
  {
    hide Inv, IsRun, After, Enabled, Apply;
    var s := After(INIT, es);
    var t := Apply(s, Insert(id, clock));
    ReachedState(es);
    InsertedRow(s, id, clock);
    StepKeepsInv(s, Insert(id, clock));
    RunKeepsInv(t, later);
    AnswersStay(t, later, id);
    DoneAnswersRow(After(t, later), id);
  }

  lemma NoEvents(s: State)
    ensures IsRun(s, []) && After(s, []) == s
  {
  }

  /**
   A caller that looks takes the row if and only if it is there and near in all four coordinates: one that
   is off by a millionth of a degree or more, at either end, is computed anew under the lock.
   */
  lemma LooksAreExact(s: State, e: Event)
    requires (e.FirstRead? || e.Recheck?) && Enabled(s, e)
    ensures var key, c := s.callers[e.id].key, s.callers[e.id].coords;
            && (NextPc(s, e).Done? <==> key in s.rows && IsNear(s.rows[key].coords, c))
            && (!NextPc(s, e).Done? ==> if e.FirstRead? then NextPc(s, e).NeedsLock? else NextPc(s, e).Computing?)
  {
    hide CoordsMatch, IsNear;
    var key, c := s.callers[e.id].key, s.callers[e.id].coords;
    if key in s.rows {
      MatchesIffNear(s.rows[key], c);
    }
  }

  /** An answer that was read, before or under the lock, always belongs to the caller's coordinates. */
  lemma ReadAnswerMatches(es: seq<Event>, e: Event, later: seq<Event>)
    requires IsRun(INIT, es) && (e.FirstRead? || e.Recheck?) && Enabled(After(INIT, es), e)
    requires NextPc(After(INIT, es), e).Done? && IsRun(Apply(After(INIT, es), e), later)
    ensures var s := After(INIT, es);
            var key, c, u := s.callers[e.id].key, s.callers[e.id].coords, After(Apply(s, e), later);
            && key in u.rows && NextPc(s, e).returned == u.rows[key].result
            && var at := u.rows[key].coords;
               && -0.000001 < at.fromLon - c.fromLon < 0.000001 && -0.000001 < at.fromLat - c.fromLat < 0.000001
               && -0.000001 < at.toLon - c.toLon < 0.000001 && -0.000001 < at.toLat - c.toLat < 0.000001
  {
    hide Inv, IsRun, After, CoordsMatch;
    LooksAreExact(After(INIT, es), e);
    var s := After(INIT, es);
    ReachedState(es);
    StepKeepsInv(s, e);
    RunKeepsInv(Apply(s, e), later);
  }

  // ---------------------------------------------------------------- overwriting instead

  /** The coordinates of the last insert for a key among some events. */
  ghost function LastInsert(s: State, es: seq<Event>, key: Key): Option<Coords>
    requires IsRun(s, es)
    decreases |es|
  {
    if es == [] then None
    else
      var rest := LastInsert(Apply(s, es[0]), es[1..], key);
      if rest.Some? then rest
      else if es[0].Insert? && s.callers[es[0].id].key == key then Some(s.callers[es[0].id].coords)
      else None
  }

  lemma {:induction false} RowIsLastInsert(s: State, es: seq<Event>, key: Key)
    requires s.upsert && IsRun(s, es) && key in s.rows
    ensures key in After(s, es).rows
    ensures After(s, es).rows[key].coords
            == (match LastInsert(s, es, key) case Some(c) => c case None => s.rows[key].coords)
    decreases |es|
  {
    if es != [] {
      hide Enabled, NextHolder, NextCaller;
      RowIsLastInsert(Apply(s, es[0]), es[1..], key);
    }
  }

  /**
   Over all runs of the overwriting variant: the row that a caller re-reads has its coordinates if and
   only if the last insert of its key, if there was one after its own, had matching ones.
   */
  lemma UpsertAnswerMatchesIff(s: State, id: CallerId, clock: real, between: seq<Event>)
    requires s.upsert && Enabled(s, Insert(id, clock)) && IsRun(Apply(s, Insert(id, clock)), between)
    ensures var t, key, c := Apply(s, Insert(id, clock)), s.callers[id].key, s.callers[id].coords;
            var u, last := After(t, between), LastInsert(t, between, key);
            && key in u.rows
            && (IsNear(u.rows[key].coords, c) <==> last.None? || IsNear(last.value, c))
  {
    var t, key := Apply(s, Insert(id, clock)), s.callers[id].key;
    assert t.upsert && key in t.rows && t.rows[key].coords == s.callers[id].coords;
    hide Apply, Enabled, IsRun, After, LastInsert;
    RowIsLastInsert(t, between, key);
  }

  /** All callers of a key are in one process. */
  ghost predicate OneProcess(s: State, key: Key) {
    forall a, b :: a in s.callers && b in s.callers && s.callers[a].key == key && s.callers[b].key == key ==>
                     s.callers[a].proc == s.callers[b].proc
  }

  /** Whoever is about to re-read finds the row it has inserted. */
  ghost predicate OwnRow(s: State, id: CallerId)
    requires id in s.callers
  {
    var key := s.callers[id].key;
    s.callers[id].pc.Rereading? && OneProcess(s, key) ==>
      key in s.rows && s.rows[key].coords == s.callers[id].coords
  }

  lemma OtherInsertsElsewhere(s: State, e: Event, id: CallerId)
    requires Inv(s) && e.Insert? && Enabled(s, e) && id in s.callers && id != e.id && s.callers[id].pc.Rereading?
    requires OneProcess(s, s.callers[id].key)
    ensures s.callers[e.id].key != s.callers[id].key
  {
    hide Inv;
    if s.callers[e.id].key == s.callers[id].key {
      CriticalIsAlone(s, e.id, id);
    }
  }

  lemma StepKeepsOwnRow(s: State, e: Event, id: CallerId)
    requires Inv(s) && s.upsert && Enabled(s, e) && id in Apply(s, e).callers
    requires id in s.callers ==> OwnRow(s, id)
    ensures OwnRow(Apply(s, e), id)
  {
    hide Inv;
    var t := Apply(s, e);
    if id != e.id && id in s.callers && t.callers[id].pc.Rereading? && OneProcess(t, t.callers[id].key) {
      forall a | a in s.callers
        ensures a in t.callers && t.callers[a].key == s.callers[a].key && t.callers[a].proc == s.callers[a].proc
      {
      }
      assert OneProcess(s, s.callers[id].key);
      if e.Insert? {
        OtherInsertsElsewhere(s, e, id);
      }
    }
  }

  lemma {:induction false} OwnRowOverRun(s: State, es: seq<Event>, id: CallerId)
    requires Inv(s) && s.upsert && IsRun(s, es) && id in After(s, es).callers
    requires forall x :: x in s.callers ==> OwnRow(s, x)
    ensures OwnRow(After(s, es), id)
    decreases |es|
  {
    hide Enabled, Apply, Inv, OwnRow;
    if es != [] {
      var t := Apply(s, es[0]);
      StepKeepsInv(s, es[0]);
      StepGrowsRows(s, es[0]);
      forall x | x in t.callers
        ensures OwnRow(t, x)
      {
        StepKeepsOwnRow(s, es[0], x);
      }
      OwnRowOverRun(t, es[1..], id);
    }
  }

  /** Within one process the lock makes the overwriting variant meet the rule, over all interleavings. */
  lemma UpsertMeetsRuleInOneProcess(es: seq<Event>, id: CallerId)
    requires IsRun(INIT_UPSERT, es) && Enabled(After(INIT_UPSERT, es), Reread(id))
    requires OneProcess(After(INIT_UPSERT, es), After(INIT_UPSERT, es).callers[id].key)
    ensures var s := After(INIT_UPSERT, es);
            && s.callers[id].key in s.rows && s.rows[s.callers[id].key].coords == s.callers[id].coords
            && Apply(s, Reread(id)).callers[id].pc == Done(s.rows[s.callers[id].key].result)
  {
    InitsHaveInv();
    hide IsRun, After, Inv;
    OwnRowOverRun(INIT_UPSERT, es, id);
  }

  // ---------------------------------------------------------------- runs that serve other coordinates

  /**
   Callers 0 and 1, in processes 0 and 1, somewhere inside a call for one key with coordinates of their
   own; each holds its own process's lock.
   */
  function Duo(rows: Rows, key: Key, c: Coords, d: Coords, p: Pc, q: Pc, upsert: bool): State {
    State(rows,
          if HasLock(q) then map[Flight(0, key) := 0, Flight(1, key) := 1] else map[Flight(0, key) := 0],
          if HasLock(q) then 2 else 1,
          if InCritical(p) && InCritical(q) then map[0 := 0, 1 := 1]
          else if InCritical(p) then map[0 := 0] else if InCritical(q) then map[1 := 1] else map[],
          map[0 := Caller(0, key, c, p), 1 := Caller(1, key, d, q)],
          if q.Inserting? || q.Rereading? then map[Flight(0, key) := 1, Flight(1, key) := 1]
          else map[Flight(0, key) := 1],
          map[], upsert)
  }

  function DuoArrives(key: Key, c: Coords, d: Coords): seq<Event> {
    [Arrive(0, 0, key, c), Arrive(1, 1, key, d), FirstRead(0), GetLock(0), Acquire(0), Recheck(0)]
  }

  function DuoComputes(r: LegResult, x: LegResult): seq<Event> {
    [ComputeReturns(0, r), FirstRead(1), GetLock(1), Acquire(1), Recheck(1), ComputeReturns(1, x)]
  }

  /** Before caller 1 has looked. */
  function Early(key: Key, c: Coords, d: Coords, p: Pc, upsert: bool): State {
    State(map[], if HasLock(p) then map[Flight(0, key) := 0] else map[], if HasLock(p) then 1 else 0,
          if InCritical(p) then map[0 := 0] else map[],
          map[0 := Caller(0, key, c, p), 1 := Caller(1, key, d, Start)], map[], map[], upsert)
  }

  lemma ArriveSteps(start: State, key: Key, c: Coords, d: Coords)
    requires start == INIT || start == INIT_UPSERT
    ensures var one := start.(callers := map[0 := Caller(0, key, c, Start)]);
            && Enabled(start, Arrive(0, 0, key, c)) && Apply(start, Arrive(0, 0, key, c)) == one
            && Enabled(one, Arrive(1, 1, key, d))
            && Apply(one, Arrive(1, 1, key, d)) == Early(key, c, d, Start, start.upsert)
  {
  }

  lemma EarlySteps(key: Key, c: Coords, d: Coords, upsert: bool)
    ensures var s, e := Early(key, c, d, Start, upsert), FirstRead(0);
            Enabled(s, e) && Apply(s, e) == Early(key, c, d, NeedsLock, upsert)
    ensures var s, e := Early(key, c, d, NeedsLock, upsert), GetLock(0);
            Enabled(s, e) && Apply(s, e) == Early(key, c, d, Waiting(0), upsert)
  {
  }

  lemma EarlyLocks(key: Key, c: Coords, d: Coords, upsert: bool)
    ensures var s, e := Early(key, c, d, Waiting(0), upsert), Acquire(0);
            Enabled(s, e) && Apply(s, e) == Early(key, c, d, Rechecking(0), upsert)
  {
  }

  lemma EarlyMisses(key: Key, c: Coords, d: Coords, upsert: bool)
    ensures var s, e := Early(key, c, d, Rechecking(0), upsert), Recheck(0);
            Enabled(s, e) && Apply(s, e) == Early(key, c, d, Computing(0), upsert)
  {
  }

  lemma BothArrive(start: State, key: Key, c: Coords, d: Coords)
    requires start == INIT || start == INIT_UPSERT
    ensures IsRun(start, DuoArrives(key, c, d))
    ensures After(start, DuoArrives(key, c, d)) == Early(key, c, d, Computing(0), start.upsert)
  {
    var u, one := start.upsert, start.(callers := map[0 := Caller(0, key, c, Start)]);
    var end := Early(key, c, d, Computing(0), u);
    ArriveSteps(start, key, c, d);
    EarlySteps(key, c, d, u);
    EarlyLocks(key, c, d, u);
    EarlyMisses(key, c, d, u);
    hide Apply, Enabled, Early;
    NoEvents(end);
    var es := [Recheck(0)];
    StepThenRun(Early(key, c, d, Rechecking(0), u), Recheck(0), end, []);
    assert [Recheck(0)] + [] == es;
    StepThenRun(Early(key, c, d, Waiting(0), u), Acquire(0), Early(key, c, d, Rechecking(0), u), es);
    es := [Acquire(0)] + es;
    StepThenRun(Early(key, c, d, NeedsLock, u), GetLock(0), Early(key, c, d, Waiting(0), u), es);
    es := [GetLock(0)] + es;
    StepThenRun(Early(key, c, d, Start, u), FirstRead(0), Early(key, c, d, NeedsLock, u), es);
    es := [FirstRead(0)] + es;
    StepThenRun(one, Arrive(1, 1, key, d), Early(key, c, d, Start, u), es);
    es := [Arrive(1, 1, key, d)] + es;
    StepThenRun(start, Arrive(0, 0, key, c), one, es);
    assert [Arrive(0, 0, key, c)] + es == DuoArrives(key, c, d);
  }

  lemma DuoLooks(upsert: bool, key: Key, c: Coords, d: Coords, r: LegResult)
    ensures var s, e := Early(key, c, d, Computing(0), upsert), ComputeReturns(0, r);
            Enabled(s, e) && Apply(s, e) == Duo(map[], key, c, d, Inserting(0, r), Start, upsert)
  {
  }

  lemma DuoMisses(upsert: bool, key: Key, c: Coords, d: Coords, r: LegResult)
    ensures var s, e := Duo(map[], key, c, d, Inserting(0, r), Start, upsert), FirstRead(1);
            Enabled(s, e) && Apply(s, e) == Duo(map[], key, c, d, Inserting(0, r), NeedsLock, upsert)
  {
  }

  lemma DuoLocks(upsert: bool, key: Key, c: Coords, d: Coords, r: LegResult)
    ensures var s, e := Duo(map[], key, c, d, Inserting(0, r), NeedsLock, upsert), GetLock(1);
            Enabled(s, e) && Apply(s, e) == Duo(map[], key, c, d, Inserting(0, r), Waiting(1), upsert)
    ensures var s, e := Duo(map[], key, c, d, Inserting(0, r), Waiting(1), upsert), Acquire(1);
            Enabled(s, e) && Apply(s, e) == Duo(map[], key, c, d, Inserting(0, r), Rechecking(1), upsert)
  {
  }

  lemma DuoRechecks(upsert: bool, key: Key, c: Coords, d: Coords, r: LegResult)
    ensures var s, e := Duo(map[], key, c, d, Inserting(0, r), Rechecking(1), upsert), Recheck(1);
            Enabled(s, e) && Apply(s, e) == Duo(map[], key, c, d, Inserting(0, r), Computing(1), upsert)
  {
  }

  lemma DuoReturns(upsert: bool, key: Key, c: Coords, d: Coords, r: LegResult, x: LegResult)
    ensures var s, e := Duo(map[], key, c, d, Inserting(0, r), Computing(1), upsert), ComputeReturns(1, x);
            Enabled(s, e) && Apply(s, e) == Duo(map[], key, c, d, Inserting(0, r), Inserting(1, x), upsert)
  {
  }

  lemma BothReturn(upsert: bool, key: Key, c: Coords, d: Coords, r: LegResult, x: LegResult)
    ensures var s := Early(key, c, d, Computing(0), upsert);
            && IsRun(s, DuoComputes(r, x))
            && After(s, DuoComputes(r, x)) == Duo(map[], key, c, d, Inserting(0, r), Inserting(1, x), upsert)
  {
    var p := Inserting(0, r);
    var s0 := Early(key, c, d, Computing(0), upsert);
    var s1 := Duo(map[], key, c, d, p, Start, upsert);
    var s2 := Duo(map[], key, c, d, p, NeedsLock, upsert);
    var s3 := Duo(map[], key, c, d, p, Waiting(1), upsert);
    var s4 := Duo(map[], key, c, d, p, Rechecking(1), upsert);
    var s5 := Duo(map[], key, c, d, p, Computing(1), upsert);
    var end := Duo(map[], key, c, d, p, Inserting(1, x), upsert);
    DuoLooks(upsert, key, c, d, r);
    DuoMisses(upsert, key, c, d, r);
    DuoLocks(upsert, key, c, d, r);
    DuoRechecks(upsert, key, c, d, r);
    DuoReturns(upsert, key, c, d, r, x);
    hide Apply, Enabled, Duo, Early;
    NoEvents(end);
    var es := [ComputeReturns(1, x)];
    StepThenRun(s5, ComputeReturns(1, x), end, []);
    assert [ComputeReturns(1, x)] + [] == es;
    StepThenRun(s4, Recheck(1), s5, es);
    es := [Recheck(1)] + es;
    StepThenRun(s3, Acquire(1), s4, es);
    es := [Acquire(1)] + es;
    StepThenRun(s2, GetLock(1), s3, es);
    es := [GetLock(1)] + es;
    StepThenRun(s1, FirstRead(1), s2, es);
    es := [FirstRead(1)] + es;
    StepThenRun(s0, ComputeReturns(0, r), s1, es);
    assert [ComputeReturns(0, r)] + es == DuoComputes(r, x);
  }

  /** Both have found the key absent and computed; nothing is in the table. */
  lemma BothCompute(start: State, key: Key, c: Coords, d: Coords, r: LegResult, x: LegResult)
    requires start == INIT || start == INIT_UPSERT
    ensures var es := DuoArrives(key, c, d) + DuoComputes(r, x);
            && IsRun(start, es)
            && After(start, es) == Duo(map[], key, c, d, Inserting(0, r), Inserting(1, x), start.upsert)
  {
    hide Apply, Enabled, IsRun, After;
    BothArrive(start, key, c, d);
    BothReturn(start.upsert, key, c, d, r, x);
    RunsCompose(start, DuoArrives(key, c, d), DuoComputes(r, x));
  }

  /** Both inserts, the first one counting unless inserts overwrite, and caller 0's re-read. */
  lemma InsertsMeet(s: State, e: Event, f: Event, key: Key, d: Coords, c: Coords, x: LegResult)
    requires e.Insert? && f.Insert? && {e.id, f.id} == {0, 1}
    requires exists r :: s == Duo(map[], key, c, d, Inserting(0, r), Inserting(1, x), e.id == 0)
    ensures IsRun(s, [e, f, Reread(0)])
    ensures var t := After(s, [e, f, Reread(0)]);
            0 in t.callers && t.callers[0] == Caller(0, key, c, Done(x)) && key in t.rows && t.rows[key].coords == d
  {
    assert Enabled(s, e);
    var s1 := Apply(s, e);
    assert Enabled(s1, f);
    var s2 := Apply(s1, f);
    assert Enabled(s2, Reread(0));
    var s3 := Apply(s2, Reread(0));
    assert s3.callers[0] == Caller(0, key, c, Done(x)) && key in s3.rows && s3.rows[key].coords == d;
    hide Apply, Enabled;
    NoEvents(s3);
    StepThenRun(s2, Reread(0), s3, []);
    assert [Reread(0)] + [] == [Reread(0)];
    StepThenRun(s1, f, s2, [Reread(0)]);
    assert [f] + [Reread(0)] == [f, Reread(0)];
    StepThenRun(s, e, s1, [f, Reread(0)]);
    assert [e] + [f, Reread(0)] == [e, f, Reread(0)];
  }

  /**
   The program serves drifted coordinates although the key was absent whenever the caller looked: the
   other process's row is there when it inserts.
   */
  lemma RaceServesOtherCoordinates(key: Key, c: Coords, d: Coords, r: LegResult, x: LegResult, clock: real)
    ensures var es := DuoArrives(key, c, d) + DuoComputes(r, x) + [Insert(1, clock), Insert(0, clock), Reread(0)];
            && IsRun(INIT, es)
            && var s := After(INIT, es);
               && 0 in s.callers && s.callers[0] == Caller(0, key, c, Done(x)) && key in s.rows
               && s.rows[key].coords == d
  {
    var es := [Insert(1, clock), Insert(0, clock), Reread(0)];
    var s := Duo(map[], key, c, d, Inserting(0, r), Inserting(1, x), false);
    BothCompute(INIT, key, c, d, r, x);
    InsertsMeet(s, Insert(1, clock), Insert(0, clock), key, d, c, x);
    RunsCompose(INIT, DuoArrives(key, c, d) + DuoComputes(r, x), es);
  }

  /** Overwriting does the same, with the two inserts the other way round. */
  lemma UpsertRaceServesOtherCoordinates(key: Key, c: Coords, d: Coords, r: LegResult, x: LegResult, clock: real)
    ensures var es := DuoArrives(key, c, d) + DuoComputes(r, x) + [Insert(0, clock), Insert(1, clock), Reread(0)];
            && IsRun(INIT_UPSERT, es)
            && var s := After(INIT_UPSERT, es);
               && 0 in s.callers && s.callers[0] == Caller(0, key, c, Done(x)) && key in s.rows
               && s.rows[key].coords == d
  {
    var es := [Insert(0, clock), Insert(1, clock), Reread(0)];
    var s := Duo(map[], key, c, d, Inserting(0, r), Inserting(1, x), true);
    BothCompute(INIT_UPSERT, key, c, d, r, x);
    InsertsMeet(s, Insert(0, clock), Insert(1, clock), key, d, c, x);
    RunsCompose(INIT_UPSERT, DuoArrives(key, c, d) + DuoComputes(r, x), es);
  }
}
