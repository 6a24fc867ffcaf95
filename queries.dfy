/**
 * The read side of the store: the latest row per key and the history of a
 * time window, over in-memory copies of the two tables.
 *
 * Both latest-per-key queries exist in two dialects. sqlite joins every row
 * with the `MAX(ts)` of its key, so rows tied at the latest second all come
 * back; SQL Server keeps the row numbered 1 by `ROW_NUMBER() OVER (PARTITION
 * BY key ORDER BY ts DESC)`, exactly one per key, the engine choosing among
 * ties. `ORDER BY` leaves the relative order of rows with equal sort keys to
 * the engine: the model fixes one (insertion sort, a stable order) and every
 * contract holds whatever order the engine picks among such rows.
 */
module Queries {
  import opened Ordering
  import opened Tables

  /* ---------------- Keys and orders ---------------- */

  function StateKey(r: StateRow): Key { Key(r.group, r.device) }
  function StateTs(r: StateRow): int { r.ts }
  function ParamKey(r: ParamRow): Key { Key(r.name, "") }
  function ParamTs(r: ParamRow): int { r.ts }

  /** `ORDER BY key`: compare two rows by their keys. */
  function ByKey<R>(key: R -> Key): (R, R) -> bool
  {
    (a: R, b: R) => KeyLe(key(a), key(b))
  }

  /** `ORDER BY ts ASC`: compare two rows by their timestamps. */
  function ByTs<R>(ts: R -> int): (R, R) -> bool
  {
    (a: R, b: R) => ts(a) <= ts(b)
  }

  lemma ByKeyTotalPreorder<R(!new)>(key: R -> Key)
    ensures TotalPreorder(ByKey(key))
  {
    var le := ByKey(key);
    forall a, b ensures le(a, b) || le(b, a) {
      KeyLeTotal(key(a), key(b));
    }
    forall a, b, c | le(a, b) && le(b, c) ensures le(a, c) {
      KeyLeTrans(key(a), key(b), key(c));
    }
  }

  lemma ByTsTotalPreorder<R(!new)>(ts: R -> int)
    ensures TotalPreorder(ByTs(ts))
  {
  }

  /* ---------------- Latest row per key ---------------- */

  /** No stored row with the key of `r` is more recent than `r`. */
  predicate IsLatest<R(==,!new)>(rows: seq<R>, key: R -> Key, ts: R -> int, r: R)
  {
    forall s | s in rows && key(s) == key(r) :: ts(s) <= ts(r)
  }

  /** The rows the sqlite join keeps: those whose timestamp equals the maximum of their key. */
  function AtMax<R(==,!new)>(rows: seq<R>, key: R -> Key, ts: R -> int): seq<R>
  {
    Filter(rows, (r: R) => IsLatest(rows, key, ts, r))
  }

  lemma AtMaxCounts<R(!new)>(rows: seq<R>, key: R -> Key, ts: R -> int)
    ensures forall x :: x in AtMax(rows, key, ts) <==> x in rows && IsLatest(rows, key, ts, x)
    ensures forall x :: multiset(AtMax(rows, key, ts))[x] == if IsLatest(rows, key, ts, x) then multiset(rows)[x] else 0
  {
  }

  /** The sqlite variant: every row at its key's latest second, ordered by key. */
  function LatestJoin<R(==,!new)>(rows: seq<R>, key: R -> Key, ts: R -> int): seq<R>
  {
    Sort(AtMax(rows, key, ts), ByKey(key))
  }

  /**
   * The row SQL Server numbers 1: latest for its key, and (the model's
   * choice among ties) no earlier row of that key is as recent.
   */
  predicate RankedFirstAt<R(==,!new)>(rows: seq<R>, key: R -> Key, ts: R -> int, i: int)
    requires 0 <= i < |rows|
  {
    IsLatest(rows, key, ts, rows[i]) &&
    forall j | 0 <= j < i && key(rows[j]) == key(rows[i]) :: ts(rows[j]) < ts(rows[i])
  }

  /** The rows numbered 1 among positions `i..` of the table, in table order. */
  function RankedFirstFrom<R(==,!new)>(rows: seq<R>, key: R -> Key, ts: R -> int, i: nat): seq<R>
    requires i <= |rows|
    decreases |rows| - i
  {
    if i == |rows| then []
    else (if RankedFirstAt(rows, key, ts, i) then [rows[i]] else []) + RankedFirstFrom(rows, key, ts, i + 1)
  }

  /** The SQL Server variant: one row per key (`rn = 1`), ordered by key. */
  function LatestRanked<R(==,!new)>(rows: seq<R>, key: R -> Key, ts: R -> int): seq<R>
  {
    Sort(RankedFirstFrom(rows, key, ts, 0), ByKey(key))
  }

  /** Every key present in the table has a row that is latest for it. */
  lemma LatestExists<R(!new)>(rows: seq<R>, key: R -> Key, ts: R -> int, s: R)
    requires s in rows
    ensures exists i :: 0 <= i < |rows| && key(rows[i]) == key(s) && IsLatest(rows, key, ts, rows[i])
  {
    var k := key(s);
    var w :| 0 <= w < |rows| && rows[w] == s;
    var j := 0;
    while j < |rows|
      invariant 0 <= j <= |rows| && 0 <= w < |rows| && key(rows[w]) == k
      invariant forall l :: 0 <= l < j && key(rows[l]) == k ==> ts(rows[l]) <= ts(rows[w])
    {
      if key(rows[j]) == k && ts(rows[j]) > ts(rows[w]) {
        w := j;
      }
      j := j + 1;
    }
    assert IsLatest(rows, key, ts, rows[w]);
  }

  /** Every key present in the table has a row that SQL Server numbers 1. */
  lemma RankedFirstExists<R(!new)>(rows: seq<R>, key: R -> Key, ts: R -> int, s: R)
    requires s in rows
    ensures exists i :: 0 <= i < |rows| && key(rows[i]) == key(s) && RankedFirstAt(rows, key, ts, i)
  {
    LatestExists(rows, key, ts, s);
    var w :| 0 <= w < |rows| && key(rows[w]) == key(s) && IsLatest(rows, key, ts, rows[w]);
    var i := 0;
    while !(key(rows[i]) == key(s) && ts(rows[i]) == ts(rows[w]))
      invariant 0 <= i <= w
      invariant forall j :: 0 <= j < i && key(rows[j]) == key(s) ==> ts(rows[j]) != ts(rows[w])
      decreases w - i
    {
      i := i + 1;
    }
    assert RankedFirstAt(rows, key, ts, i);
  }

  /** The rows numbered 1 from position `i` on are exactly the table rows at such positions. */
  lemma {:induction false} RankedFirstFromMembers<R(!new)>(rows: seq<R>, key: R -> Key, ts: R -> int, i: nat)
    requires i <= |rows|
    ensures forall x :: x in RankedFirstFrom(rows, key, ts, i) <==>
              exists k :: i <= k < |rows| && rows[k] == x && RankedFirstAt(rows, key, ts, k)
    decreases |rows| - i
  {
    if i < |rows| {
      RankedFirstFromMembers(rows, key, ts, i + 1);
    }
  }

  /** Two different positions numbered 1 never share a key. */
  lemma RankedFirstUnique<R(!new)>(rows: seq<R>, key: R -> Key, ts: R -> int, i: int, j: int)
    requires 0 <= i < j < |rows|
    requires RankedFirstAt(rows, key, ts, i) && RankedFirstAt(rows, key, ts, j)
    ensures key(rows[i]) != key(rows[j])
  {
    assert rows[j] in rows;
  }

  lemma {:induction false} RankedFirstFromDistinct<R(!new)>(rows: seq<R>, key: R -> Key, ts: R -> int, i: nat)
    requires i <= |rows|
    ensures DistinctBy(RankedFirstFrom(rows, key, ts, i), key)
    decreases |rows| - i
  {
    if i < |rows| {
      RankedFirstFromDistinct(rows, key, ts, i + 1);
      RankedFirstFromMembers(rows, key, ts, i + 1);
      var rest := RankedFirstFrom(rows, key, ts, i + 1);
      if RankedFirstAt(rows, key, ts, i) {
        forall y | y in rest ensures key(y) != key(rows[i]) {
          var k :| i + 1 <= k < |rows| && rows[k] == y && RankedFirstAt(rows, key, ts, k);
          RankedFirstUnique(rows, key, ts, i, k);
        }
        assert RankedFirstFrom(rows, key, ts, i) == [rows[i]] + rest;
      }
    }
  }

  /**
   * The sqlite latest-per-key query: it returns exactly the stored rows at
   * their key's latest second (every tied row, as often as it is stored),
   * ordered by key; every key of the table is represented.
   */
  lemma LatestJoinCorrect<R(!new)>(rows: seq<R>, key: R -> Key, ts: R -> int)
    ensures forall x :: x in LatestJoin(rows, key, ts) <==> x in rows && IsLatest(rows, key, ts, x)
    ensures forall x :: multiset(LatestJoin(rows, key, ts))[x] ==
                        if IsLatest(rows, key, ts, x) then multiset(rows)[x] else 0
    ensures forall s :: s in rows ==> exists x :: x in LatestJoin(rows, key, ts) && key(x) == key(s)
    ensures SortedBy(LatestJoin(rows, key, ts), ByKey(key))
  {
    var sel := AtMax(rows, key, ts);
    var res := LatestJoin(rows, key, ts);
    AtMaxCounts(rows, key, ts);
    SortMembers(sel, ByKey(key));
    assert multiset(res) == multiset(sel);
    forall s | s in rows ensures exists x :: x in res && key(x) == key(s) {
      LatestExists(rows, key, ts, s);
      var i :| 0 <= i < |rows| && key(rows[i]) == key(s) && IsLatest(rows, key, ts, rows[i]);
      assert rows[i] in res;
    }
    ByKeyTotalPreorder(key);
    SortSorted(AtMax(rows, key, ts), ByKey(key));
  }

  /**
   * The SQL Server latest-per-key query: every returned row is a stored row
   * at its key's latest second, every key of the table has exactly one
   * returned row, and the rows are ordered strictly by key.
   */
  lemma LatestRankedCorrect<R(!new)>(rows: seq<R>, key: R -> Key, ts: R -> int)
    ensures forall x :: x in LatestRanked(rows, key, ts) ==> x in rows && IsLatest(rows, key, ts, x)
    ensures forall s :: s in rows ==> exists x :: x in LatestRanked(rows, key, ts) && key(x) == key(s)
    ensures DistinctBy(LatestRanked(rows, key, ts), key)
    ensures SortedBy(LatestRanked(rows, key, ts), ByKey(key))
  {
    var picked := RankedFirstFrom(rows, key, ts, 0);
    var res := LatestRanked(rows, key, ts);
    RankedFirstFromMembers(rows, key, ts, 0);
    SortMembers(picked, ByKey(key));
    forall s | s in rows ensures exists x :: x in res && key(x) == key(s) {
      RankedFirstExists(rows, key, ts, s);
      var i :| 0 <= i < |rows| && key(rows[i]) == key(s) && RankedFirstAt(rows, key, ts, i);
      assert rows[i] in picked;
    }
    RankedFirstFromDistinct(rows, key, ts, 0);
    SortDistinct(picked, ByKey(key), key);
    ByKeyTotalPreorder(key);
    SortSorted(picked, ByKey(key));
  }

  /* ---------------- History of a time window ---------------- */

  /** `WHERE <filter> AND ts BETWEEN lo AND hi ORDER BY ts ASC`. */
  function History<R(==,!new)>(rows: seq<R>, ts: R -> int, keep: R -> bool, lo: int, hi: int): seq<R>
  {
    Sort(Filter(rows, (r: R) => keep(r) && lo <= ts(r) <= hi), ByTs(ts))
  }

  /**
   * A history query returns every stored row of the window that passes the
   * filter, as many times as it is stored (no deduplication), in ascending
   * timestamp order; and no other row.
   */
  lemma HistoryCorrect<R(!new)>(rows: seq<R>, ts: R -> int, keep: R -> bool, lo: int, hi: int)
    ensures forall x :: multiset(History(rows, ts, keep, lo, hi))[x] ==
                        if keep(x) && lo <= ts(x) <= hi then multiset(rows)[x] else 0
    ensures forall x :: x in History(rows, ts, keep, lo, hi) <==> x in rows && keep(x) && lo <= ts(x) <= hi
    ensures forall i, j :: 0 <= i < j < |History(rows, ts, keep, lo, hi)| ==>
              ts(History(rows, ts, keep, lo, hi)[i]) <= ts(History(rows, ts, keep, lo, hi)[j])
  {
    var sel := Filter(rows, (r: R) => keep(r) && lo <= ts(r) <= hi);
    SortMembers(sel, ByTs(ts));
    ByTsTotalPreorder(ts);
    SortSorted(sel, ByTs(ts));
  }

  /** Widening the window never drops a row (nor a copy of one). */
  lemma HistoryWiden<R(!new)>(rows: seq<R>, ts: R -> int, keep: R -> bool, lo: int, hi: int, lo': int, hi': int)
    requires lo' <= lo && hi <= hi'
    ensures multiset(History(rows, ts, keep, lo, hi)) <= multiset(History(rows, ts, keep, lo', hi'))
  {
    FilterMono(rows, (r: R) => keep(r) && lo <= ts(r) <= hi, (r: R) => keep(r) && lo' <= ts(r) <= hi');
  }

  /* ---------------- The four endpoints ---------------- */

  /** The devices (group, device) that have at least one state row. */
  function Devices(rows: seq<StateRow>): set<(string, string)>
  {
    set r | r in rows :: (r.group, r.device)
  }

  /** The parameter names that have at least one row. */
  function Names(rows: seq<ParamRow>): set<string>
  {
    set r | r in rows :: r.name
  }

  /** A selection of the rows covers no device the rows do not. */
  lemma DevicesSubset(rows: seq<StateRow>, res: seq<StateRow>)
    requires forall x :: x in res ==> x in rows
    ensures Devices(res) <= Devices(rows)
  {
  }

  /** A selection that keeps a row of every key covers every device of the rows. */
  lemma DevicesCovered(rows: seq<StateRow>, res: seq<StateRow>)
    requires forall s :: s in rows ==> exists x :: x in res && StateKey(x) == StateKey(s)
    ensures Devices(rows) <= Devices(res)
  {
    forall d | d in Devices(rows)
      ensures d in Devices(res)
    {
      var s :| s in rows && (s.group, s.device) == d;
      var x :| x in res && StateKey(x) == StateKey(s);
      assert (x.group, x.device) == d;
    }
  }

  lemma NamesSubset(rows: seq<ParamRow>, res: seq<ParamRow>)
    requires forall x :: x in res ==> x in rows
    ensures Names(res) <= Names(rows)
  {
  }

  lemma NamesCovered(rows: seq<ParamRow>, res: seq<ParamRow>)
    requires forall s :: s in rows ==> exists x :: x in res && ParamKey(x) == ParamKey(s)
    ensures Names(rows) <= Names(res)
  {
    forall n | n in Names(rows)
      ensures n in Names(res)
    {
      var s :| s in rows && s.name == n;
      var x :| x in res && ParamKey(x) == ParamKey(s);
      assert x.name == n;
    }
  }

  /**
   * `/api/device_states` on sqlite: exactly the rows at their device's
   * latest second (ties included, each as often as stored), every device
   * with a row represented, ordered by group and device.
   */
  function LatestDeviceStates(rows: seq<StateRow>): (res: seq<StateRow>)
    ensures forall x :: x in res <==> x in rows && IsLatest(rows, StateKey, StateTs, x)
    ensures forall x :: multiset(res)[x] == if IsLatest(rows, StateKey, StateTs, x) then multiset(rows)[x] else 0
    ensures Devices(res) == Devices(rows)
    ensures SortedBy(res, ByKey(StateKey))
  {
    LatestJoinCorrect(rows, StateKey, StateTs);
    DevicesSubset(rows, LatestJoin(rows, StateKey, StateTs));
    DevicesCovered(rows, LatestJoin(rows, StateKey, StateTs));
    LatestJoin(rows, StateKey, StateTs)
  }

  /** Rows sorted by device compare by group first, then by device name. */
  lemma SortedByDevice(res: seq<StateRow>)
    requires SortedBy(res, ByKey(StateKey))
    ensures forall i, j :: 0 <= i < j < |res| ==> KeyLe(Key(res[i].group, res[i].device), Key(res[j].group, res[j].device))
  {
    forall i, j | 0 <= i < j < |res|
      ensures KeyLe(Key(res[i].group, res[i].device), Key(res[j].group, res[j].device))
    {
      assert ByKey(StateKey)(res[i], res[j]);
      assert KeyLe(StateKey(res[i]), StateKey(res[j]));
    }
  }

  /**
   * `/api/device_states` on SQL Server: one latest row per device with a
   * row, ordered by group and device.
   */
  function LatestDeviceStatesRanked(rows: seq<StateRow>): (res: seq<StateRow>)
    ensures forall x :: x in res ==> x in rows && IsLatest(rows, StateKey, StateTs, x)
    ensures Devices(res) == Devices(rows)
    ensures forall i, j :: 0 <= i < j < |res| ==> StateKey(res[i]) != StateKey(res[j])
    ensures SortedBy(res, ByKey(StateKey))
  {
    LatestRankedCorrect(rows, StateKey, StateTs);
    DevicesSubset(rows, LatestRanked(rows, StateKey, StateTs));
    DevicesCovered(rows, LatestRanked(rows, StateKey, StateTs));
    LatestRanked(rows, StateKey, StateTs)
  }

  /** `/api/important_params` on sqlite: the rows at their parameter's latest second, ordered by name. */
  function LatestParams(rows: seq<ParamRow>): (res: seq<ParamRow>)
    ensures forall x :: x in res <==> x in rows && IsLatest(rows, ParamKey, ParamTs, x)
    ensures forall x :: multiset(res)[x] == if IsLatest(rows, ParamKey, ParamTs, x) then multiset(rows)[x] else 0
    ensures Names(res) == Names(rows)
    ensures forall i, j :: 0 <= i < j < |res| ==> StrLe(res[i].name, res[j].name)
  {
    var res := LatestJoin(rows, ParamKey, ParamTs);
    LatestParamsFacts(rows, res);
    res
  }

  lemma LatestParamsFacts(rows: seq<ParamRow>, res: seq<ParamRow>)
    requires res == LatestJoin(rows, ParamKey, ParamTs)
    ensures forall x :: x in res <==> x in rows && IsLatest(rows, ParamKey, ParamTs, x)
    ensures forall x :: multiset(res)[x] == if IsLatest(rows, ParamKey, ParamTs, x) then multiset(rows)[x] else 0
    ensures Names(res) == Names(rows)
    ensures forall i, j :: 0 <= i < j < |res| ==> StrLe(res[i].name, res[j].name)
  {
    LatestJoinCorrect(rows, ParamKey, ParamTs);
    NamesSubset(rows, res);
    NamesCovered(rows, res);
    ParamOrderByName(res);
  }

  /** Parameter rows ordered by key are ordered by name. */
  lemma ParamOrderByName(res: seq<ParamRow>)
    requires SortedBy(res, ByKey(ParamKey))
    ensures forall i, j :: 0 <= i < j < |res| ==> StrLe(res[i].name, res[j].name)
  {
    forall i, j | 0 <= i < j < |res| ensures StrLe(res[i].name, res[j].name) {
      assert ByKey(ParamKey)(res[i], res[j]);
      KeyLeMajor(ParamKey(res[i]), ParamKey(res[j]));
    }
  }

  /** `/api/important_params` on SQL Server: one latest row per parameter, names strictly ascending. */
  function LatestParamsRanked(rows: seq<ParamRow>): (res: seq<ParamRow>)
    ensures forall x :: x in res ==> x in rows && IsLatest(rows, ParamKey, ParamTs, x)
    ensures Names(res) == Names(rows)
    ensures forall i, j :: 0 <= i < j < |res| ==> res[i].name != res[j].name
    ensures forall i, j :: 0 <= i < j < |res| ==> StrLe(res[i].name, res[j].name)
  {
    var res := LatestRanked(rows, ParamKey, ParamTs);
    LatestParamsRankedFacts(rows, res);
    res
  }

  lemma LatestParamsRankedFacts(rows: seq<ParamRow>, res: seq<ParamRow>)
    requires res == LatestRanked(rows, ParamKey, ParamTs)
    ensures forall x :: x in res ==> x in rows && IsLatest(rows, ParamKey, ParamTs, x)
    ensures Names(res) == Names(rows)
    ensures forall i, j :: 0 <= i < j < |res| ==> res[i].name != res[j].name
    ensures forall i, j :: 0 <= i < j < |res| ==> StrLe(res[i].name, res[j].name)
  {
    LatestRankedCorrect(rows, ParamKey, ParamTs);
    NamesSubset(rows, res);
    NamesCovered(rows, res);
    ParamOrderByName(res);
    forall i, j | 0 <= i < j < |res|
      ensures res[i].name != res[j].name
    {
      assert ParamKey(res[i]) != ParamKey(res[j]);
    }
  }

  /** The group filter of `/api/device_state_history`: an empty group means every group. */
  function InGroup(group: string): StateRow -> bool
  {
    (r: StateRow) => group == "" || r.group == group
  }

  /** The `param IN (...)` filter of `/api/important_params_history`: an empty list means every parameter. */
  function InParams(names: seq<string>): ParamRow -> bool
  {
    (r: ParamRow) => |names| == 0 || r.name in names
  }

  /** `/api/device_state_history` for the window `[lo, hi]` (both dialects). */
  function StateHistory(rows: seq<StateRow>, group: string, lo: int, hi: int): (res: seq<StateRow>)
    ensures forall x :: x in res <==> x in rows && lo <= x.ts <= hi && (group == "" || x.group == group)
    ensures forall x :: multiset(res)[x] ==
                        if lo <= x.ts <= hi && (group == "" || x.group == group) then multiset(rows)[x] else 0
    ensures forall i, j :: 0 <= i < j < |res| ==> res[i].ts <= res[j].ts
  {
    var res := History(rows, StateTs, InGroup(group), lo, hi);
    StateHistoryFacts(rows, group, lo, hi, res);
    res
  }

  /** The contract of `StateHistory`, proved once from `HistoryCorrect`. */
  lemma StateHistoryFacts(rows: seq<StateRow>, group: string, lo: int, hi: int, res: seq<StateRow>)
    requires res == History(rows, StateTs, InGroup(group), lo, hi)
    ensures forall x :: x in res <==> x in rows && lo <= x.ts <= hi && (group == "" || x.group == group)
    ensures forall x :: multiset(res)[x] ==
                        if lo <= x.ts <= hi && (group == "" || x.group == group) then multiset(rows)[x] else 0
    ensures forall i, j :: 0 <= i < j < |res| ==> res[i].ts <= res[j].ts
  {
    HistoryCorrect(rows, StateTs, InGroup(group), lo, hi);
  }

  /** `/api/important_params_history` for the window `[lo, hi]` (both dialects). */
  function ParamHistory(rows: seq<ParamRow>, names: seq<string>, lo: int, hi: int): (res: seq<ParamRow>)
    ensures forall x :: x in res <==> x in rows && lo <= x.ts <= hi && (|names| == 0 || x.name in names)
    ensures forall x :: multiset(res)[x] ==
                        if lo <= x.ts <= hi && (|names| == 0 || x.name in names) then multiset(rows)[x] else 0
    ensures forall i, j :: 0 <= i < j < |res| ==> res[i].ts <= res[j].ts
  {
    var res := History(rows, ParamTs, InParams(names), lo, hi);
    ParamHistoryFacts(rows, names, lo, hi, res);
    res
  }

  /** The contract of `ParamHistory`, proved once from `HistoryCorrect`. */
  lemma ParamHistoryFacts(rows: seq<ParamRow>, names: seq<string>, lo: int, hi: int, res: seq<ParamRow>)
    requires res == History(rows, ParamTs, InParams(names), lo, hi)
    ensures forall x :: x in res <==> x in rows && lo <= x.ts <= hi && (|names| == 0 || x.name in names)
    ensures forall x :: multiset(res)[x] ==
                        if lo <= x.ts <= hi && (|names| == 0 || x.name in names) then multiset(rows)[x] else 0
    ensures forall i, j :: 0 <= i < j < |res| ==> res[i].ts <= res[j].ts
  {
    HistoryCorrect(rows, ParamTs, InParams(names), lo, hi);
  }

  /** Widening the window of a state history keeps every row of the narrower one. */
  lemma StateHistoryWiden(rows: seq<StateRow>, group: string, lo: int, hi: int, lo': int, hi': int)
    requires lo' <= lo && hi <= hi'
    ensures multiset(StateHistory(rows, group, lo, hi)) <= multiset(StateHistory(rows, group, lo', hi'))
  {
    HistoryWiden(rows, StateTs, InGroup(group), lo, hi, lo', hi');
  }

  /** Widening the window of a parameter history keeps every row of the narrower one. */
  lemma ParamHistoryWiden(rows: seq<ParamRow>, names: seq<string>, lo: int, hi: int, lo': int, hi': int)
    requires lo' <= lo && hi <= hi'
    ensures multiset(ParamHistory(rows, names, lo, hi)) <= multiset(ParamHistory(rows, names, lo', hi'))
  {
    HistoryWiden(rows, ParamTs, InParams(names), lo, hi, lo', hi');
  }
}
