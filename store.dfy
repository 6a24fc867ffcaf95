/**
 * The database the service writes to: the two tables, created at start-up,
 * filled with generated history on a first run, and appended to by the two
 * manual-write endpoints. A table that does not exist yet holds no rows.
 */
module Store {
  import opened Wrappers
  import opened Tables
  import opened Queries
  import opened Seed
  import opened Status
  import opened Clock
  import opened Api

  /** Why a write or the seeding left the tables as they were. */
  datatype WriteError =
    | MissingFields  // 400: group, device or status missing or not accepted
    | NotNumeric     // 400: the value does not convert with `float()`
    | NoTable        // the table does not exist yet
    | NullName       // `param_name` is `NOT NULL` and the body has no `param`
    | Overflow       // a seed timestamp leaves the `datetime` range (`OverflowError`)
    | UnknownParam   // a configured parameter has no baseline (`KeyError`)

  datatype SeedOutcome = Skipped | Seeded | SeedFailed(reason: WriteError)

  /**
   * The seed's loops end and their timestamps, from the oldest to the one
   * after the last bucket, stay representable. A negative step over a window
   * that is not negative walks back until `datetime` raises `OverflowError`.
   */
  predicate SeedInRange(now: int, hours: int, stepMinutes: int)
  {
    && StepOk(hours, stepMinutes)
    && 0 <= Oldest(now, hours)
    && BucketTs(now, hours, stepMinutes, BucketCount(hours, stepMinutes)) < MaxInstant
  }

  class Db {
    /** Whether `init_db` has created the tables. */
    var ready: bool
    var states: seq<StateRow>
    var params: seq<ParamRow>

    /** A missing table is empty; every stored time is representable; every status is 0 or 1. */
    ghost predicate Valid()
      reads this
    {
      && (!ready ==> states == [] && params == [])
      && StatesInRange(states)
      && ParamsInRange(params)
      && (forall r | r in states :: r.status == 0 || r.status == 1)
    }

    /** A fresh database file: no tables yet. */
    constructor ()
      ensures Valid() && !ready && states == [] && params == []
    {
      ready := false;
      states := [];
      params := [];
    }

    /** `table_count`: the row count, or `None` when the table does not exist and the query raises. */
    function StateCount(): Option<nat>
      reads this
    {
      if ready then Some(|states|) else None
    }

    function ParamCount(): Option<nat>
      reads this
    {
      if ready then Some(|params|) else None
    }

    /** `init_db`: create the tables if they do not exist; existing rows are kept. */
    method InitDb()
      requires Valid()
      modifies this
      ensures Valid() && ready
      ensures states == old(states) && params == old(params)
    {
      ready := true;
    }

    /**
     * `seed_data_if_needed`: when seeding is enabled and both tables count
     * no rows, generate the history of every configured device and
     * parameter and insert it; any failure on the way inserts nothing.
     */
    method SeedIfNeeded(cfg: SeedConfig, groups: seq<Group>, now: int, draw: Draw, hash: Hash)
      returns (outcome: SeedOutcome)
      requires Valid() && 0 <= now < MaxInstant
      requires SeedGate(cfg, StateCount(), ParamCount()) && Hours(cfg) >= 0 && 0 <= Oldest(now, Hours(cfg)) ==>
                 StepMinutes(cfg) != 0
      modifies this
      ensures Valid() && ready == old(ready)
      ensures !SeedGate(cfg, old(StateCount()), old(ParamCount())) ==>
                outcome == Skipped && states == old(states) && params == old(params)
      ensures SeedGate(cfg, old(StateCount()), old(ParamCount())) ==>
                var (h, s, names) := (Hours(cfg), StepMinutes(cfg), ParamNames(cfg));
                && (!SeedInRange(now, h, s) ==> outcome == SeedFailed(Overflow))
                && (SeedInRange(now, h, s) && !AllProfiled(names) ==> outcome == SeedFailed(UnknownParam))
                && (SeedInRange(now, h, s) && AllProfiled(names) && !old(ready) ==> outcome == SeedFailed(NoTable))
                && (SeedInRange(now, h, s) && AllProfiled(names) && old(ready) ==>
                      outcome == Seeded
                      && states == StateSeed(groups, now, h, s, draw)
                      && params == ParamSeedRows(names, now, h, s, hash))
      ensures outcome != Seeded ==> states == old(states) && params == old(params)
    {
      if !SeedGate(cfg, StateCount(), ParamCount()) {
        return Skipped;
      }
      var hours := Hours(cfg);
      var step := StepMinutes(cfg);
      var names := ParamNames(cfg);
      if !SeedInRange(now, hours, step) {
        return SeedFailed(Overflow);
      }
      var rowsStates := SeedStates(groups, now, hours, step, draw);
      var rowsParams := SeedParams(names, now, hours, step, hash);
      if rowsParams.None? {
        return SeedFailed(UnknownParam);
      }
      if !ready {
        return SeedFailed(NoTable);
      }
      StateSeedBounds(groups, now, hours, step, draw);
      ParamSeedBounds(names, now, hours, step, hash);
      states := states + rowsStates;
      params := params + rowsParams.value;
      assert states == rowsStates && params == rowsParams.value;
      return Seeded;
    }

    /**
     * `POST /api/manual_state`: with a non-empty group and device and an
     * accepted status, append one row at `now` (whole seconds) holding the
     * status as the endpoint maps it (`StatusNumAsWritten`, so the float
     * `1.0` is stored as 0) and answer with its text; otherwise nothing is
     * written.
     */
    method ManualState(group: Option<string>, device: Option<string>, status: Json, now: int)
      returns (r: Result<string, WriteError>)
      requires Valid() && 0 <= now < MaxInstant
      modifies this
      ensures Valid() && ready == old(ready) && params == old(params)
      ensures !(Truthy(group) && Truthy(device) && Accepted(status)) ==>
                r == Failure(MissingFields) && states == old(states)
      ensures Truthy(group) && Truthy(device) && Accepted(status) && !old(ready) ==>
                r == Failure(NoTable) && states == old(states)
      ensures Truthy(group) && Truthy(device) && Accepted(status) && old(ready) ==>
                r == Success(Iso(now))
                && states == old(states) + [StateRow(group.value, device.value, StatusNumAsWritten(status), now)]
    {
      if !(Truthy(group) && Truthy(device) && Accepted(status)) {
        return Failure(MissingFields);
      }
      var num := StatusNumAsWritten(status);
      if !ready {
        return Failure(NoTable);
      }
      states := states + [StateRow(group.value, device.value, num, now)];
      return Success(Iso(now));
    }

    /**
     * `POST /api/manual_param`: a value that converts to a float is appended
     * at `now` under the given name (an empty name included) and the answer
     * is its time; otherwise nothing is written.
     */
    method ManualParam(param: Option<string>, value: Json, now: int, parseText: string -> Option<real>)
      returns (r: Result<string, WriteError>)
      requires Valid() && 0 <= now < MaxInstant
      modifies this
      ensures Valid() && ready == old(ready) && states == old(states)
      ensures ToFloat(value, parseText).None? ==> r == Failure(NotNumeric) && params == old(params)
      ensures ToFloat(value, parseText).Some? && !old(ready) ==> r == Failure(NoTable) && params == old(params)
      ensures ToFloat(value, parseText).Some? && old(ready) && param.None? ==> r == Failure(NullName) && params == old(params)
      ensures ToFloat(value, parseText).Some? && old(ready) && param.Some? ==>
                r == Success(Iso(now))
                && params == old(params) + [ParamRow(param.value, ToFloat(value, parseText).value, now)]
    {
      var v := ToFloat(value, parseText);
      if v.None? {
        return Failure(NotNumeric);
      }
      if !ready {
        return Failure(NoTable);
      }
      if param.None? {
        return Failure(NullName);
      }
      params := params + [ParamRow(param.value, v.value, now)];
      return Success(Iso(now));
    }
  }

  /* ---------------- Writes as the read endpoints see them ---------------- */

  /**
   * A state row with status 0 or 1 written at a time no earlier than any
   * stored state of its device is what `/api/device_states` then reports for
   * that device: ON exactly when the status is 1, at the written time.
   */
  lemma WriteReported(rows: seq<StateRow>, g: string, d: string, num: int, now: int)
    requires StatesInRange(rows) && 0 <= now < MaxInstant
    requires forall s :: s in rows && s.group == g && s.device == d ==> s.ts <= now
    ensures var after := rows + [StateRow(g, d, num, now)];
            StatesInRange(after) &&
            StateOut(g, d, if num == 1 then "ON" else "OFF", num, Iso(now)) in DeviceStates(after)
  {
    var r := StateRow(g, d, num, now);
    var after := rows + [r];
    assert IsLatest(after, StateKey, StateTs, r) by {
      forall s | s in after && StateKey(s) == StateKey(r)
        ensures StateTs(s) <= StateTs(r)
      {
        if s != r {
          assert s in rows && s.group == g && s.device == d;
        }
      }
    }
    assert r in after;
    assert StatesInRange(after);
  }

  /**
   * A manual state written at a time no earlier than any stored state of
   * its device is what `/api/device_states` then reports for that device,
   * at the written time: ON exactly when the endpoint stored 1, which for
   * every accepted status but the float `1.0` is exactly when it means on.
   */
  lemma ManualStateReported(rows: seq<StateRow>, g: string, d: string, v: Json, now: int)
    requires StatesInRange(rows) && Accepted(v) && 0 <= now < MaxInstant
    requires forall s :: s in rows && s.group == g && s.device == d ==> s.ts <= now
    ensures var after := rows + [StateRow(g, d, StatusNumAsWritten(v), now)];
            StatesInRange(after) &&
            StateOut(g, d, if StatusNumAsWritten(v) == 1 then "ON" else "OFF", StatusNumAsWritten(v), Iso(now))
              in DeviceStates(after)
    ensures v != JFloat(1.0) ==> (StatusNumAsWritten(v) == 1 <==> MeansOn(v))
  {
    WriteReported(rows, g, d, StatusNumAsWritten(v), now);
    StatusNumAsWrittenOnlyFloatOne(v);
    StatusNumMeansOn(v);
  }

  /**
   * With the corrected mapping the reported state is ON exactly when the
   * written status means on, for every accepted status.
   */
  lemma CorrectedStateReported(rows: seq<StateRow>, g: string, d: string, v: Json, now: int)
    requires StatesInRange(rows) && Accepted(v) && 0 <= now < MaxInstant
    requires forall s :: s in rows && s.group == g && s.device == d ==> s.ts <= now
    ensures var after := rows + [StateRow(g, d, StatusNum(v), now)];
            StatesInRange(after) &&
            StateOut(g, d, if MeansOn(v) then "ON" else "OFF", if MeansOn(v) then 1 else 0, Iso(now)) in DeviceStates(after)
  {
    WriteReported(rows, g, d, StatusNum(v), now);
    StatusNumMeansOn(v);
  }

  /** A state written for one device changes nothing `/api/device_states` reports for the others. */
  lemma ManualStateOthersUnchanged(rows: seq<StateRow>, r: StateRow, x: StateRow)
    requires StateKey(x) != StateKey(r)
    ensures x in LatestDeviceStates(rows + [r]) <==> x in LatestDeviceStates(rows)
  {
    var after := rows + [r];
    assert x in after <==> x in rows;
    assert IsLatest(after, StateKey, StateTs, x) <==> IsLatest(rows, StateKey, StateTs, x) by {
      forall s | s in after && StateKey(s) == StateKey(x)
        ensures s in rows
      {
      }
    }
  }

  /**
   * A parameter value written at a time no earlier than any stored value of
   * that name is what `/api/important_params` then reports for it.
   */
  lemma ManualParamReported(rows: seq<ParamRow>, p: string, v: real, now: int)
    requires ParamsInRange(rows) && 0 <= now < MaxInstant
    requires forall s :: s in rows && s.name == p ==> s.ts <= now
    ensures var after := rows + [ParamRow(p, v, now)];
            ParamsInRange(after) && ParamOut(p, v, Iso(now)) in ImportantParams(after)
  {
    var r := ParamRow(p, v, now);
    var after := rows + [r];
    assert IsLatest(after, ParamKey, ParamTs, r) by {
      forall s | s in after && ParamKey(s) == ParamKey(r)
        ensures ParamTs(s) <= ParamTs(r)
      {
        if s != r {
          assert s in rows && s.name == p;
        }
      }
    }
    assert r in after;
    assert ParamsInRange(after);
  }

  /**
   * A written state shows in the default history (the last `hours` hours up
   * to the time of writing) of every group filter that admits it.
   */
  lemma ManualStateInHistory(rows: seq<StateRow>, r: StateRow, group: Option<string>, hours: nat)
    requires StatesInRange(rows) && 0 <= r.ts < MaxInstant && 0 <= r.ts - 3600 * hours
    requires !Truthy(group) || group.value == r.group
    ensures var after := rows + [r];
            StatesInRange(after) &&
            var h := DeviceStateHistory(after, group, None, None, Some(hours), r.ts);
            h.Success? && RenderState(r) in h.value
  {
    var after := rows + [r];
    assert r in after;
  }

  /* ---------------- The seed as the read endpoints see it ---------------- */

  /** The (group, device) pairs the catalog lists. */
  function Catalog(groups: seq<Group>): set<(string, string)>
  {
    set d | d in Flatten(groups) :: (d.group, d.device)
  }

  /**
   * After seeding, `/api/device_states` lists exactly the catalog's devices
   * (none when the window is negative and the loop never runs).
   */
  lemma SeededDevicesReported(groups: seq<Group>, now: int, hours: int, stepMinutes: int, draw: Draw)
    requires SeedInRange(now, hours, stepMinutes) && now < MaxInstant
    ensures var rows := StateSeed(groups, now, hours, stepMinutes, draw);
            StatesInRange(rows) &&
            OutDevices(DeviceStates(rows)) == if hours >= 0 then Catalog(groups) else {}
  {
    var rows := StateSeed(groups, now, hours, stepMinutes, draw);
    StateSeedBounds(groups, now, hours, stepMinutes, draw);
    if hours >= 0 {
      SeedDevices(groups, now, hours, stepMinutes, draw);
    } else {
      assert rows == [];
    }
  }

  /** The devices the seed writes state rows for. */
  lemma SeedDevices(groups: seq<Group>, now: int, hours: int, stepMinutes: int, draw: Draw)
    requires stepMinutes > 0 && 0 <= hours
    ensures Devices(StateSeed(groups, now, hours, stepMinutes, draw)) == Catalog(groups)
  {
    var rows := StateSeed(groups, now, hours, stepMinutes, draw);
    StatesThroughDevices(Flatten(groups), now, hours, stepMinutes, draw, BucketCount(hours, stepMinutes));
    FlattenLength(groups);
    forall c | c in Catalog(groups)
      ensures c in Devices(rows)
    {
      var j :| 0 <= j < |Flatten(groups)| && (Flatten(groups)[j].group, Flatten(groups)[j].device) == c;
      StateSeedAt(groups, now, hours, stepMinutes, draw, 0, j);
      assert rows[j] in rows;
    }
    assert Devices(rows) <= Catalog(groups);
  }

  /** The parameter names the seed writes rows for. */
  lemma SeedNames(names: seq<string>, now: int, hours: int, stepMinutes: int, hash: Hash)
    requires stepMinutes > 0 && 0 <= hours && AllProfiled(names)
    ensures Names(ParamSeedRows(names, now, hours, stepMinutes, hash)) == set n | n in names
  {
    var rows := ParamSeedRows(names, now, hours, stepMinutes, hash);
    ParamSeedBounds(names, now, hours, stepMinutes, hash);
    forall n | n in names
      ensures n in Names(rows)
    {
      var i :| 0 <= i < |names| && names[i] == n;
      ParamSeedAt(names, now, hours, stepMinutes, hash, i, 0);
      assert rows[i * BucketCount(hours, stepMinutes)] in rows;
    }
  }

  /**
   * After seeding, `/api/important_params` lists exactly the configured
   * parameters (none when the window is negative).
   */
  lemma SeededParamsReported(names: seq<string>, now: int, hours: int, stepMinutes: int, hash: Hash)
    requires SeedInRange(now, hours, stepMinutes) && now < MaxInstant && AllProfiled(names)
    ensures var rows := ParamSeedRows(names, now, hours, stepMinutes, hash);
            ParamsInRange(rows) &&
            OutNames(ImportantParams(rows)) == if hours >= 0 then set n | n in names else {}
  {
    var rows := ParamSeedRows(names, now, hours, stepMinutes, hash);
    ParamSeedBounds(names, now, hours, stepMinutes, hash);
    if hours >= 0 {
      SeedNames(names, now, hours, stepMinutes, hash);
    } else {
      ParamSeedLength(names, now, hours, stepMinutes, hash);
      assert rows == [];
    }
  }
}
