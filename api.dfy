/**
 * The read endpoints of the HTTP API over the two tables: the latest state
 * of every device, the state history, the latest value of every parameter
 * and the parameter history. Each is a query of `Queries` whose rows are
 * rendered as the JSON objects the endpoint returns; timestamps are the
 * text `iso` writes, which is also how they are stored.
 */
module Api {
  import opened Wrappers
  import opened Ordering
  import opened Tables
  import opened Queries
  import opened Clock
  import opened TextOrder

  /** One element of a device-state response. */
  datatype StateOut = StateOut(group: string, device: string, status: string, statusNum: int, ts: string)

  /** One element of a parameter response. */
  datatype ParamOut = ParamOut(param: string, value: real, ts: string)

  /** Every stored timestamp is a representable instant. */
  predicate StatesInRange(rows: seq<StateRow>)
  {
    forall r | r in rows :: 0 <= r.ts < MaxInstant
  }

  predicate ParamsInRange(rows: seq<ParamRow>)
  {
    forall r | r in rows :: 0 <= r.ts < MaxInstant
  }

  /** A state row as JSON: `'ON' if st == 1 else 'OFF'`, with the number beside it. */
  function RenderState(r: StateRow): (o: StateOut)
    requires 0 <= r.ts < MaxInstant
    ensures o.group == r.group && o.device == r.device && o.statusNum == r.status
    ensures o.status == "ON" <==> r.status == 1
    ensures o.status == "OFF" <==> r.status != 1
    ensures |o.ts| == 19 && o.ts == Iso(r.ts)
  {
    StateOut(r.group, r.device, if r.status == 1 then "ON" else "OFF", r.status, Iso(r.ts))
  }

  function RenderParam(r: ParamRow): (o: ParamOut)
    requires 0 <= r.ts < MaxInstant
    ensures o.param == r.name && o.value == r.value && o.ts == Iso(r.ts)
  {
    ParamOut(r.name, r.value, Iso(r.ts))
  }

  /** Rendering loses nothing: the JSON object of a stored state determines the row. */
  lemma RenderStateInjective(a: StateRow, b: StateRow)
    requires 0 <= a.ts < MaxInstant && 0 <= b.ts < MaxInstant
    ensures RenderState(a) == RenderState(b) <==> a == b
  {
    IsoOrder(a.ts, b.ts);
  }

  /** The JSON object of a stored parameter value determines the row. */
  lemma RenderParamInjective(a: ParamRow, b: ParamRow)
    requires 0 <= a.ts < MaxInstant && 0 <= b.ts < MaxInstant
    ensures RenderParam(a) == RenderParam(b) <==> a == b
  {
    IsoOrder(a.ts, b.ts);
  }

  function RenderStates(rows: seq<StateRow>): (out: seq<StateOut>)
    requires StatesInRange(rows)
    ensures |out| == |rows| && forall i :: 0 <= i < |rows| ==> out[i] == RenderState(rows[i])
  {
    seq(|rows|, i requires 0 <= i < |rows| => RenderState(rows[i]))
  }

  function RenderParams(rows: seq<ParamRow>): (out: seq<ParamOut>)
    requires ParamsInRange(rows)
    ensures |out| == |rows| && forall i :: 0 <= i < |rows| ==> out[i] == RenderParam(rows[i])
  {
    seq(|rows|, i requires 0 <= i < |rows| => RenderParam(rows[i]))
  }

  /** A rendered list holds exactly the renderings of its rows. */
  lemma RenderStatesMembers(rows: seq<StateRow>)
    requires StatesInRange(rows)
    ensures forall x :: x in rows ==> RenderState(x) in RenderStates(rows)
    ensures forall o :: o in RenderStates(rows) ==> exists x :: x in rows && o == RenderState(x)
  {
    var out := RenderStates(rows);
    forall x | x in rows
      ensures RenderState(x) in out
    {
      var i :| 0 <= i < |rows| && rows[i] == x;
      assert out[i] == RenderState(x);
    }
    forall o | o in out
      ensures exists x :: x in rows && o == RenderState(x)
    {
      var i :| 0 <= i < |out| && out[i] == o;
      assert rows[i] in rows;
    }
  }

  lemma RenderParamsMembers(rows: seq<ParamRow>)
    requires ParamsInRange(rows)
    ensures forall x :: x in rows ==> RenderParam(x) in RenderParams(rows)
    ensures forall o :: o in RenderParams(rows) ==> exists x :: x in rows && o == RenderParam(x)
  {
    var out := RenderParams(rows);
    forall x | x in rows
      ensures RenderParam(x) in out
    {
      var i :| 0 <= i < |rows| && rows[i] == x;
      assert out[i] == RenderParam(x);
    }
    forall o | o in out
      ensures exists x :: x in rows && o == RenderParam(x)
    {
      var i :| 0 <= i < |out| && out[i] == o;
      assert rows[i] in rows;
    }
  }

  /** The devices a state response lists. */
  function OutDevices(out: seq<StateOut>): set<(string, string)>
  {
    set o | o in out :: (o.group, o.device)
  }

  /** The parameters a parameter response lists. */
  function OutNames(out: seq<ParamOut>): set<string>
  {
    set o | o in out :: o.param
  }

  /** Rendering keeps which devices a list covers. */
  lemma RenderStatesDevices(rows: seq<StateRow>)
    requires StatesInRange(rows)
    ensures OutDevices(RenderStates(rows)) == Devices(rows)
  {
    RenderStatesMembers(rows);
    forall d | d in Devices(rows)
      ensures d in OutDevices(RenderStates(rows))
    {
      var x :| x in rows && (x.group, x.device) == d;
      assert RenderState(x) in RenderStates(rows);
    }
  }

  lemma RenderParamsNames(rows: seq<ParamRow>)
    requires ParamsInRange(rows)
    ensures OutNames(RenderParams(rows)) == Names(rows)
  {
    RenderParamsMembers(rows);
    forall n | n in Names(rows)
      ensures n in OutNames(RenderParams(rows))
    {
      var x :| x in rows && x.name == n;
      assert RenderParam(x) in RenderParams(rows);
    }
  }

  /** Rendering keeps the order of a list sorted by device. */
  lemma RenderStatesSorted(latest: seq<StateRow>)
    requires StatesInRange(latest) && SortedBy(latest, ByKey(StateKey))
    ensures var out := RenderStates(latest);
            forall i, j :: 0 <= i < j < |out| ==> KeyLe(Key(out[i].group, out[i].device), Key(out[j].group, out[j].device))
  {
    SortedByDevice(latest);
  }

  /**
   * `GET /api/device_states`: the response lists exactly the devices that
   * have a state row, each element renders a row at its device's latest
   * second (and every such row is rendered), ordered by group and device.
   */
  function DeviceStates(rows: seq<StateRow>): (out: seq<StateOut>)
    requires StatesInRange(rows)
    ensures OutDevices(out) == Devices(rows)
    ensures forall o :: o in out ==> exists x :: x in rows && IsLatest(rows, StateKey, StateTs, x) && o == RenderState(x)
    ensures forall x :: x in rows && IsLatest(rows, StateKey, StateTs, x) ==> RenderState(x) in out
    ensures forall i, j :: 0 <= i < j < |out| ==> KeyLe(Key(out[i].group, out[i].device), Key(out[j].group, out[j].device))
  {
    var latest := LatestDeviceStates(rows);
    RenderStatesMembers(latest);
    RenderStatesDevices(latest);
    RenderStatesSorted(latest);
    RenderStates(latest)
  }

  /**
   * `GET /api/important_params`: the response lists exactly the parameters
   * that have a row, each element renders a row at its parameter's latest
   * second (and every such row is rendered), ordered by name.
   */
  function ImportantParams(rows: seq<ParamRow>): (out: seq<ParamOut>)
    requires ParamsInRange(rows)
    ensures OutNames(out) == Names(rows)
    ensures forall o :: o in out ==> exists x :: x in rows && IsLatest(rows, ParamKey, ParamTs, x) && o == RenderParam(x)
    ensures forall x :: x in rows && IsLatest(rows, ParamKey, ParamTs, x) ==> RenderParam(x) in out
    ensures forall i, j :: 0 <= i < j < |out| ==> StrLe(out[i].param, out[j].param)
  {
    var latest := LatestParams(rows);
    RenderParamsMembers(latest);
    RenderParamsNames(latest);
    RenderParams(latest)
  }

  /** The `group` filter: only a non-empty group restricts the rows. */
  function GroupFilter(group: Option<string>): string
  {
    if Truthy(group) then group.value else ""
  }

  /** Rendering rows whose times never decrease gives text timestamps that never decrease. */
  lemma RenderStatesAscending(rows: seq<StateRow>)
    requires StatesInRange(rows)
    requires forall i, j :: 0 <= i < j < |rows| ==> rows[i].ts <= rows[j].ts
    ensures var out := RenderStates(rows);
            forall i, j :: 0 <= i < j < |out| ==> StrLe(out[i].ts, out[j].ts)
  {
    forall i, j | 0 <= i < j < |rows|
      ensures StrLe(Iso(rows[i].ts), Iso(rows[j].ts))
    {
      assert rows[i] in rows && rows[j] in rows;
      IsoMonotone(rows[i].ts, rows[j].ts);
    }
  }

  lemma RenderParamsAscending(rows: seq<ParamRow>)
    requires ParamsInRange(rows)
    requires forall i, j :: 0 <= i < j < |rows| ==> rows[i].ts <= rows[j].ts
    ensures var out := RenderParams(rows);
            forall i, j :: 0 <= i < j < |out| ==> StrLe(out[i].ts, out[j].ts)
  {
    forall i, j | 0 <= i < j < |rows|
      ensures StrLe(Iso(rows[i].ts), Iso(rows[j].ts))
    {
      assert rows[i] in rows && rows[j] in rows;
      IsoMonotone(rows[i].ts, rows[j].ts);
    }
  }

  /** The state history of the window `[lo, hi]`, rendered: its rows of the group, oldest first. */
  function StateHistoryOut(rows: seq<StateRow>, group: Option<string>, lo: int, hi: int): (out: seq<StateOut>)
    requires StatesInRange(rows)
    ensures forall x :: x in rows && lo <= x.ts <= hi && (!Truthy(group) || x.group == group.value) ==> RenderState(x) in out
    ensures forall o :: o in out ==> exists x :: x in rows && lo <= x.ts <= hi && (!Truthy(group) || x.group == group.value) && o == RenderState(x)
    ensures forall i, j :: 0 <= i < j < |out| ==> StrLe(out[i].ts, out[j].ts)
  {
    var hist := StateHistory(rows, GroupFilter(group), lo, hi);
    RenderStatesMembers(hist);
    RenderStatesAscending(hist);
    RenderStates(hist)
  }

  /** The parameter history of the window `[lo, hi]`, rendered: its rows of the named parameters, oldest first. */
  function ParamHistoryOut(rows: seq<ParamRow>, names: seq<string>, lo: int, hi: int): (out: seq<ParamOut>)
    requires ParamsInRange(rows)
    ensures forall x :: x in rows && lo <= x.ts <= hi && (|names| == 0 || x.name in names) ==> RenderParam(x) in out
    ensures forall o :: o in out ==> exists x :: x in rows && lo <= x.ts <= hi && (|names| == 0 || x.name in names) && o == RenderParam(x)
    ensures forall i, j :: 0 <= i < j < |out| ==> StrLe(out[i].ts, out[j].ts)
  {
    var hist := ParamHistory(rows, names, lo, hi);
    RenderParamsMembers(hist);
    RenderParamsAscending(hist);
    RenderParams(hist)
  }

  /**
   * `GET /api/device_state_history`: the window of the query string, then
   * its rendered history; a window that cannot be formed is the error.
   */
  function DeviceStateHistory(rows: seq<StateRow>, group: Option<string>, from: Option<string>, to: Option<string>,
                              hours: Option<int>, now: int): (r: Result<seq<StateOut>, WindowError>)
    requires StatesInRange(rows) && 0 <= now < MaxInstant
    ensures r.Success? <==> Window(from, to, hours, now).Success?
    ensures r.Failure? ==> r.error == Window(from, to, hours, now).error
    ensures r.Success? ==> r.value == StateHistoryOut(rows, group, Window(from, to, hours, now).value.0, Window(from, to, hours, now).value.1)
  {
    match Window(from, to, hours, now)
    case Failure(e) => Failure(e)
    case Success((lo, hi)) => Success(StateHistoryOut(rows, group, lo, hi))
  }

  /**
   * `GET /api/important_params_history`: the window of the query string,
   * then its rendered history; a window that cannot be formed is the error.
   */
  function ImportantParamsHistory(rows: seq<ParamRow>, names: seq<string>, from: Option<string>, to: Option<string>,
                                  hours: Option<int>, now: int): (r: Result<seq<ParamOut>, WindowError>)
    requires ParamsInRange(rows) && 0 <= now < MaxInstant
    ensures r.Success? <==> Window(from, to, hours, now).Success?
    ensures r.Failure? ==> r.error == Window(from, to, hours, now).error
    ensures r.Success? ==> r.value == ParamHistoryOut(rows, names, Window(from, to, hours, now).value.0, Window(from, to, hours, now).value.1)
  {
    match Window(from, to, hours, now)
    case Failure(e) => Failure(e)
    case Success((lo, hi)) => Success(ParamHistoryOut(rows, names, lo, hi))
  }
}
