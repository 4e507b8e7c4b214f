/**
 The leg-geometry cache of cache.py as one process sees it: a table with an insert that does
 nothing on conflict, a lock per key, and `get_or_compute`.  How several processes and callers
 interleave is the subject of LegCacheProtocol.
 */
module LegCache {
  import opened Base

  /** The primary key of the table.  Coordinates are deliberately no part of it. */
  datatype Key = Key(fromLocode: string, toLocode: string, mode: string, routingVersion: string)

  datatype Coords = Coords(fromLon: real, fromLat: real, toLon: real, toLat: real)

  datatype LegResult = LegResult(geometry: string, distanceKm: real)

  datatype Row = Row(coords: Coords, result: LegResult, createdAt: real)

  type Rows = map<Key, Row>

  /** The exception that `compute` raised. */
  datatype Raised = Raised(message: string)

  const EPSILON := 0.000001

  predicate CoordsMatch(row: Row, c: Coords) {
    && Abs(row.coords.fromLon - c.fromLon) < EPSILON
    && Abs(row.coords.fromLat - c.fromLat) < EPSILON
    && Abs(row.coords.toLon - c.toLon) < EPSILON
    && Abs(row.coords.toLat - c.toLat) < EPSILON
  }

  /** Less than a millionth of a degree apart in each of the four coordinates. */
  predicate IsNear(a: Coords, b: Coords) {
    && -0.000001 < a.fromLon - b.fromLon < 0.000001 && -0.000001 < a.fromLat - b.fromLat < 0.000001
    && -0.000001 < a.toLon - b.toLon < 0.000001 && -0.000001 < a.toLat - b.toLat < 0.000001
  }

  /** That is what matching is: both ends are compared, in longitude and in latitude. */
  lemma MatchesIffNear(row: Row, c: Coords)
    ensures CoordsMatch(row, c) <==> IsNear(row.coords, c)
  {
  }

  predicate IsHit(rows: Rows, key: Key, c: Coords) {
    key in rows && CoordsMatch(rows[key], c)
  }

  /** INSERT ... ON CONFLICT DO NOTHING. */
  function InsertIfAbsent(rows: Rows, key: Key, row: Row): Rows {
    if key in rows then rows else rows[key := row]
  }

  // ---------------------------------------------------------------- one call on its own

  /** What a call leaves in the table, what it returns, and whether it ran `compute`. */
  datatype Outcome = Outcome(rows: Rows, returned: Result<LegResult, Raised>, computed: bool)

  /**
   A call that found `rows` once it held the lock, while other processes inserted `during` the
   computation, and `later` before the re-read, over no row that was there.
   */
  function CallAmong(rows: Rows, during: Rows, later: Rows, key: Key, c: Coords, compute: Result<LegResult, Raised>,
                     clock: real): Outcome {
    if IsHit(rows, key, c) then Outcome(rows, Ok(rows[key].result), false)
    else match compute
      case Err(e) => Outcome(during + rows, Err(e), true)
      case Ok(result) =>
        var after := later + InsertIfAbsent(during + rows, key, Row(c, result, clock));
        Outcome(after, Ok(after[key].result), true)
  }

  /**
   Computed unless the row found is there and near in all four coordinates; then it is that row's result.
   What is computed is answered unless other processes have inserted a row meanwhile, or one was there.
   */
  predicate IsAnswer(found: Rows, during: Rows, key: Key, c: Coords, compute: Result<LegResult, Raised>, clock: real,
                     r: Result<LegResult, Raised>, computed: bool) {
    && (computed <==> !(key in found && IsNear(found[key].coords, c)))
    && (!computed ==> r == Ok(found[key].result))
    && (computed && compute.Err? ==> r == compute)
    && (computed && compute.Ok? ==>
          r == if key in found then Ok(found[key].result)
               else if key in during then Ok(during[key].result) else compute)
  }

  lemma CallMeans(rows: Rows, during: Rows, later: Rows, key: Key, c: Coords, compute: Result<LegResult, Raised>,
                  clock: real)
    ensures var o := CallAmong(rows, during, later, key, c, compute, clock);
            && IsAnswer(rows, during, key, c, compute, clock, o.returned, o.computed)
            && (!o.computed ==> o.rows == rows)
            && (o.computed && compute.Err? ==> o.rows == during + rows)
            && (o.computed && compute.Ok? ==>
                  o.rows == later + map[key := Row(c, compute.value, clock)] + during + rows)
  {
    hide CoordsMatch, IsNear;
    if key in rows {
      MatchesIffNear(rows[key], c);
    }
  }

  lemma HitMeans(before: Rows, arrivals: Rows, during: Rows, key: Key, c: Coords, compute: Result<LegResult, Raised>,
                 clock: real)
    requires IsHit(before, key, c)
    ensures IsAnswer(arrivals + before, during, key, c, compute, clock, Ok(before[key].result), false)
  {
    hide CoordsMatch, IsNear;
    MatchesIffNear(before[key], c);
  }

  /** A call that nobody interferes with. */
  function SoloCall(rows: Rows, key: Key, c: Coords, compute: Result<LegResult, Raised>, clock: real): Outcome {
    CallAmong(rows, map[], map[], key, c, compute, clock)
  }

  lemma SoloMiss(rows: Rows, key: Key, c: Coords, compute: Result<LegResult, Raised>, clock: real)
    requires !IsHit(rows, key, c)
    ensures SoloCall(rows, key, c, compute, clock) ==
            match compute
            case Err(e) => Outcome(rows, Err(e), true)
            case Ok(result) =>
              var after := InsertIfAbsent(rows, key, Row(c, result, clock));
              Outcome(after, Ok(after[key].result), true)
  {
    assert forall some: Rows :: map[] + some == some;
  }

  /** Matching is a tolerance, not an equivalence: drift can creep past it in two matching steps. */
  lemma MatchingIsNotTransitive()
    ensures exists a: Row, b: Row, c: Row ::
              CoordsMatch(a, b.coords) && CoordsMatch(b, c.coords) && !CoordsMatch(a, c.coords)
  {
    var r := LegResult("", 0.0);
    var a, b, c := Row(Coords(0.0, 0.0, 0.0, 0.0), r, 0.0), Row(Coords(0.0000007, 0.0, 0.0, 0.0), r, 0.0),
                   Row(Coords(0.0000014, 0.0, 0.0, 0.0), r, 0.0);
    assert CoordsMatch(a, b.coords) && CoordsMatch(b, c.coords) && !CoordsMatch(a, c.coords);
  }

  // ---------------------------------------------------------------- the objects

  /** The database file that all processes share. */
  class LegTable {
    var rows: Rows

    constructor ()
      ensures rows == map[]
    {
      rows := map[];
    }
  }

  class KeyLock {
    var held: bool

    constructor ()
      ensures !held
    {
      held := false;
    }
  }

  /** One instance per process. */
  class LegGeometryCache {
    const table: LegTable
    var keyLocks: map<Key, KeyLock>

    constructor (table: LegTable)
      ensures this.table == table && keyLocks == map[] && Valid()
    {
      this.table := table;
      keyLocks := map[];
    }

    /** Different keys have different locks. */
    ghost predicate Valid()
      reads this
    {
      forall k, m :: k in keyLocks && m in keyLocks && k != m ==> keyLocks[k] != keyLocks[m]
    }

    /** The lock of a key: always the same object, made on first use. */
    method LockFor(key: Key) returns (lock: KeyLock)
      requires Valid()
      modifies this`keyLocks
      ensures Valid() && key in keyLocks && keyLocks[key] == lock
      ensures key in old(keyLocks) ==> keyLocks == old(keyLocks)
      ensures key !in old(keyLocks) ==> fresh(lock) && !lock.held && keyLocks == old(keyLocks)[key := lock]
    {
      if key in keyLocks {
        return keyLocks[key];
      }
      lock := new KeyLock();
      keyLocks := keyLocks[key := lock];
    }

    method Read(key: Key) returns (row: Option<Row>)
      ensures row == if key in table.rows then Some(table.rows[key]) else None
    {
      row := if key in table.rows then Some(table.rows[key]) else None;
    }

    method Write(key: Key, c: Coords, result: LegResult, clock: real)
      modifies table
      ensures table.rows == InsertIfAbsent(old(table.rows), key, Row(c, result, clock))
    {
      if key !in table.rows {
        table.rows := table.rows[key := Row(c, result, clock)];
      }
    }

    /** Waiting for the lock; meanwhile other processes may insert rows, but never over existing ones. */
    method Acquire(lock: KeyLock, arrivals: Rows)
      requires !lock.held
      modifies lock, table
      ensures lock.held && table.rows == arrivals + old(table.rows)
    {
      lock.held := true;
      table.rows := arrivals + table.rows;
    }

    /** Running `compute`, which is given by what it returns; meanwhile, too, other processes insert rows. */
    method Compute(compute: Result<LegResult, Raised>, during: Rows) returns (r: Result<LegResult, Raised>)
      modifies table
      ensures r == compute && table.rows == during + old(table.rows)
    {
      table.rows := during + table.rows;
      return compute;
    }

    /** Between two statements other processes insert rows. */
    method Pause(later: Rows)
      modifies table
      ensures table.rows == later + old(table.rows)
    {
      table.rows := later + table.rows;
    }

    /** What happens inside the lock: read again, compute, insert, read once more. */
    method ComputeUnderLock(key: Key, c: Coords, compute: Result<LegResult, Raised>, clock: real, during: Rows,
                            later: Rows)
      returns (r: Result<LegResult, Raised>, computed: bool)
      modifies table
      ensures Outcome(table.rows, r, computed) == CallAmong(old(table.rows), during, later, key, c, compute, clock)
    {
      hide CoordsMatch;
      var row := Read(key);
      if row.Some? && CoordsMatch(row.value, c) {
        return Ok(row.value.result), false;
      }
      var result := Compute(compute, during);
      if result.Err? {
        return result, true;
      }
      Write(key, c, result.value, clock);
      Pause(later);
      row := Read(key);
      return Ok(row.value.result), true;
    }

    /**
     A hit on the first read answers from the table.  Otherwise the call has exactly the effect of
     `CallAmong` on the rows present once the lock is held, and the lock is free again on every way
     out, also when `compute` raises.
     */
    method GetOrCompute(key: Key, c: Coords, compute: Result<LegResult, Raised>, clock: real,
                        arrivals: Rows, during: Rows, later: Rows)
      returns (r: Result<LegResult, Raised>, computed: bool)
      requires Valid() && (key in keyLocks ==> !keyLocks[key].held)
      modifies this`keyLocks, table, keyLocks.Values
      ensures Valid()
      ensures Outcome(table.rows, r, computed) ==
              if IsHit(old(table.rows), key, c) then Outcome(old(table.rows), Ok(old(table.rows)[key].result), false)
              else CallAmong(arrivals + old(table.rows), during, later, key, c, compute, clock)
      ensures IsAnswer(arrivals + old(table.rows), during, key, c, compute, clock, r, computed)
      ensures forall k :: k in old(keyLocks) ==> k in keyLocks && keyLocks[k] == old(keyLocks[k])
      ensures forall k :: k in old(keyLocks) ==> keyLocks[k].held == old(keyLocks[k].held)
      ensures key in keyLocks ==> !keyLocks[key].held
    {
      hide CoordsMatch, CallAmong, IsAnswer;
      var row := Read(key);
      if row.Some? && CoordsMatch(row.value, c) {
        HitMeans(table.rows, arrivals, during, key, c, compute, clock);
        return Ok(row.value.result), false;
      }
      CallMeans(arrivals + table.rows, during, later, key, c, compute, clock);
      var lock := LockFor(key);
      assert key in old(keyLocks) ==> lock in old(keyLocks.Values);
      Acquire(lock, arrivals);
      r, computed := ComputeUnderLock(key, c, compute, clock, during, later);
      lock.held := false;
    }
  }
}
