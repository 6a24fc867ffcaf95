/**
 * The synthetic history written on first start (`seed_data_if_needed`).
 *
 * Time buckets run from `now - H hours` to `now` inclusive in steps of `S`
 * minutes. Every catalog device gets a state row per bucket (bucket-major,
 * then catalog order); every parameter gets a random walk of one row per
 * bucket (parameter-major). The random state draws and Python's salted
 * `hash` are parameters of the model: nothing here depends on their values
 * beyond their types. Parameter values are reals, not binary floats.
 */
module Seed {
  import opened Wrappers
  import opened Tables

  /* ---------------- Configuration and gate ---------------- */

  /** The seeding keys of the configuration file; `None` is a key left out of the file. */
  datatype SeedConfig = SeedConfig(
    seedOnFirstRun: Option<bool>,
    seedHours: Option<int>,
    seedStepMinutes: Option<int>,
    params: Option<seq<string>>)

  function Enabled(cfg: SeedConfig): bool { cfg.seedOnFirstRun.GetOr(true) }
  function Hours(cfg: SeedConfig): int { cfg.seedHours.GetOr(24) }
  function StepMinutes(cfg: SeedConfig): int { cfg.seedStepMinutes.GetOr(30) }

  /** The parameter catalog; only a missing `params` key falls back to the built-in list. */
  function ParamNames(cfg: SeedConfig): seq<string> { cfg.params.GetOr(DefaultParams) }

  const DefaultParams: seq<string> := [
    "Cleanroom_Temp", "Cleanroom_Humid", "CDA_Pressure", "CH_Supply_Temp",
    "CH_Return_Temp", "CH_Flow", "DI_Resistivity", "VAC_Level"]

  /** Starting value and drift scale of a parameter's random walk. */
  datatype Profile = Profile(base: real, drift: real)

  /** The built-in baselines and drift scales (both tables of the source have the same keys). */
  const Profiles: map<string, Profile> := map[
    "Cleanroom_Temp" := Profile(22.0, 0.08),
    "Cleanroom_Humid" := Profile(48.0, 0.5),
    "CDA_Pressure" := Profile(7.2, 0.05),
    "CH_Supply_Temp" := Profile(6.5, 0.05),
    "CH_Return_Temp" := Profile(13.0, 0.06),
    "CH_Flow" := Profile(950.0, 12.0),
    "DI_Resistivity" := Profile(16.0, 0.2),
    "VAC_Level" := Profile(-0.8, 0.05)]

  /** `table_count`: the row count, or 0 when the `COUNT` query raised (`None`). */
  function CountOrZero(count: Option<nat>): nat
  {
    match count
    case Some(n) => n
    case None => 0
  }

  /** Seeding runs only when enabled and both tables count zero rows. */
  predicate SeedGate(cfg: SeedConfig, stateCount: Option<nat>, paramCount: Option<nat>)
  {
    Enabled(cfg) && CountOrZero(stateCount) == 0 && CountOrZero(paramCount) == 0
  }

  /**
   * The gate stays shut when seeding is disabled or when either table
   * reports a row; only a count that raised can let a non-empty table through.
   */
  lemma SeedGateShut(cfg: SeedConfig, stateCount: Option<nat>, paramCount: Option<nat>)
    ensures SeedGate(cfg, stateCount, paramCount) <==>
            Enabled(cfg) && stateCount in {None, Some(0)} && paramCount in {None, Some(0)}
  {
  }

  /* ---------------- Time buckets ---------------- */

  /** The oldest bucket, `now - timedelta(hours=H)`, in seconds. */
  function Oldest(now: int, hours: int): int { now - hours * 3600 }

  /** The time of bucket `k`: `k` steps of `S` minutes after the oldest. */
  function BucketTs(now: int, hours: int, stepMinutes: int, k: int): int
  {
    Oldest(now, hours) + k * (stepMinutes * 60)
  }

  /**
   * The `while ts <= now` loops end: either the window is negative, so the
   * oldest bucket already lies after `now` whatever the step, or the step
   * moves forward. A zero step with a window that is not negative never
   * leaves the loop; a negative one walks back until `datetime` overflows.
   */
  predicate StepOk(hours: int, stepMinutes: int)
  {
    hours < 0 || stepMinutes > 0
  }

  /** How many buckets `while ts <= now` visits: `floor(H * 60 / S) + 1`, none for a negative `H`. */
  function BucketCount(hours: int, stepMinutes: int): nat
    requires StepOk(hours, stepMinutes)
  {
    if hours < 0 then 0 else hours * 60 / stepMinutes + 1
  }

  lemma MulMono(a: int, b: int, c: int)
    requires a <= b && 0 <= c
    ensures a * c <= b * c
  {
    assert b * c - a * c == (b - a) * c;
  }

  lemma MulSucc(a: int, c: int)
    ensures (a + 1) * c == a * c + c
  {
  }

  /** Bucket `k` is still inside the window exactly when `k` is below the bucket count. */
  lemma BucketInWindow(now: int, hours: int, stepMinutes: int, k: nat)
    requires stepMinutes > 0
    ensures BucketTs(now, hours, stepMinutes, k) <= now <==> k < BucketCount(hours, stepMinutes)
  {
    var s, x := stepMinutes, hours * 60;
    assert k * (s * 60) == (k * s) * 60;
    assert hours * 3600 == x * 60;
    assert BucketTs(now, hours, s, k) <= now <==> k * s <= x;
    MulMono(0, k, s);
    if hours >= 0 {
      var q := x / s;
      assert x == q * s + x % s;
      if k <= q {
        MulMono(k, q, s);
      } else {
        MulMono(q + 1, k, s);
      }
    }
  }

  /** Bucket times strictly increase with the bucket index. */
  lemma BucketTsIncreasing(now: int, hours: int, stepMinutes: int, a: int, b: int)
    requires stepMinutes > 0 && a < b
    ensures BucketTs(now, hours, stepMinutes, a) < BucketTs(now, hours, stepMinutes, b)
  {
    MulMono(a + 1, b, stepMinutes * 60);
  }

  /** Every visited bucket lies in `[now - H hours, now]`. */
  lemma BucketBounds(now: int, hours: int, stepMinutes: int, k: nat)
    requires StepOk(hours, stepMinutes) && k < BucketCount(hours, stepMinutes)
    ensures Oldest(now, hours) <= BucketTs(now, hours, stepMinutes, k) <= now
  {
    BucketInWindow(now, hours, stepMinutes, k);
    MulMono(0, k, stepMinutes * 60);
  }

  /* ---------------- Device states ---------------- */

  /**
   * The random state draw for the `j`-th catalog entry at bucket `k`,
   * `draw(uniform, k, j)`: `random.choice([0,1])` when `uniform` (the oldest
   * bucket), `random.choices([0,1], weights=[1,3])` otherwise; true stands
   * for 1. Every row of the seed has its own draw, so a device listed twice
   * in the catalog draws twice per bucket.
   */
  type Draw = (bool, nat, nat) -> bool

  /** The status column value of a draw: 1 for ON, 0 for OFF. */
  function Bit(on: bool): (b: int)
    ensures 0 <= b <= 1 && (b == 1 <==> on)
  {
    if on then 1 else 0
  }

  /** The rows of one bucket: one per device, in the given order. */
  function BucketRows(devs: seq<Device>, t: int, uniform: bool, k: nat, draw: Draw): seq<StateRow>
  {
    seq(|devs|, j requires 0 <= j < |devs| =>
      StateRow(devs[j].group, devs[j].device, Bit(draw(uniform, k, j)), t))
  }

  /** The state rows of the first `k` buckets. */
  function StatesThrough(devs: seq<Device>, now: int, hours: int, stepMinutes: int, draw: Draw, k: nat): seq<StateRow>
  {
    if k == 0 then []
    else
      StatesThrough(devs, now, hours, stepMinutes, draw, k - 1)
      + BucketRows(devs, BucketTs(now, hours, stepMinutes, k - 1), k - 1 == 0, k - 1, draw)
  }

  /** Every state row the seed generates, bucket by bucket. */
  function StateSeed(groups: seq<Group>, now: int, hours: int, stepMinutes: int, draw: Draw): seq<StateRow>
    requires StepOk(hours, stepMinutes)
  {
    StatesThrough(Flatten(groups), now, hours, stepMinutes, draw, BucketCount(hours, stepMinutes))
  }

  /** The `rows_states` loop of the seed generator. */
  method SeedStates(groups: seq<Group>, now: int, hours: int, stepMinutes: int, draw: Draw)
    returns (rows: seq<StateRow>)
    requires StepOk(hours, stepMinutes)
    ensures rows == StateSeed(groups, now, hours, stepMinutes, draw)
  {
    ghost var devs := Flatten(groups);
    var oldest := now - hours * 3600;
    var step := stepMinutes * 60;
    rows := [];
    var ts := oldest;
    var k: nat := 0;
    while ts <= now
      invariant k <= BucketCount(hours, stepMinutes)
      invariant ts == BucketTs(now, hours, stepMinutes, k)
      invariant rows == StatesThrough(devs, now, hours, stepMinutes, draw, k)
      decreases BucketCount(hours, stepMinutes) - k
    {
      assert hours >= 0;
      BucketInWindow(now, hours, stepMinutes, k);
      var uniform := ts == oldest;
      if k > 0 {
        BucketTsIncreasing(now, hours, stepMinutes, 0, k);
      }
      var bucket := SeedBucket(groups, ts, uniform, k, draw);
      rows := rows + bucket;
      ts := ts + step;
      k := k + 1;
    }
    if hours >= 0 {
      BucketInWindow(now, hours, stepMinutes, k);
    }
  }

  /** The two nested loops over the catalog inside one bucket: one row per device, in catalog order. */
  method SeedBucket(groups: seq<Group>, ts: int, uniform: bool, k: nat, draw: Draw) returns (bucket: seq<StateRow>)
    ensures bucket == BucketRows(Flatten(groups), ts, uniform, k, draw)
  {
    bucket := [];
    for gi := 0 to |groups|
      invariant bucket == BucketRows(Flatten(groups[..gi]), ts, uniform, k, draw)
    {
      var g := groups[gi];
      for di := 0 to |g.devices|
        invariant bucket == BucketRows(Flatten(groups[..gi]) + Expand(g)[..di], ts, uniform, k, draw)
      {
        var dv := g.devices[di];
        var state := Bit(draw(uniform, k, |bucket|));
        ghost var done := Flatten(groups[..gi]) + Expand(g)[..di];
        assert Flatten(groups[..gi]) + Expand(g)[..di + 1] == done + [Device(g.name, dv)];
        BucketRowsSnoc(done, Device(g.name, dv), ts, uniform, k, draw);
        bucket := bucket + [StateRow(g.name, dv, state, ts)];
      }
      assert Expand(g)[..|g.devices|] == Expand(g);
      assert groups[..gi + 1][..gi] == groups[..gi];
    }
    assert groups[..|groups|] == groups;
  }

  /** One more device in the catalog is one more row at the end of the bucket. */
  lemma BucketRowsSnoc(devs: seq<Device>, d: Device, t: int, uniform: bool, k: nat, draw: Draw)
    ensures BucketRows(devs + [d], t, uniform, k, draw)
         == BucketRows(devs, t, uniform, k, draw) + [StateRow(d.group, d.device, Bit(draw(uniform, k, |devs|)), t)]
  {
    assert (devs + [d])[|devs|] == d;
  }

  lemma {:induction false} StatesThroughLength(devs: seq<Device>, now: int, hours: int, stepMinutes: int, draw: Draw, k: nat)
    ensures |StatesThrough(devs, now, hours, stepMinutes, draw, k)| == k * |devs|
  {
    if k > 0 {
      StatesThroughLength(devs, now, hours, stepMinutes, draw, k - 1);
    }
  }

  /** Row `b * D + j` of the first `k` buckets is device `j` at bucket `b`. */
  lemma {:induction false} StatesThroughAt(devs: seq<Device>, now: int, hours: int, stepMinutes: int, draw: Draw,
                                            k: nat, b: nat, j: nat)
    requires b < k && j < |devs|
    ensures b * |devs| + j < |StatesThrough(devs, now, hours, stepMinutes, draw, k)|
    ensures StatesThrough(devs, now, hours, stepMinutes, draw, k)[b * |devs| + j]
         == StateRow(devs[j].group, devs[j].device,
                     Bit(draw(b == 0, b, j)),
                     BucketTs(now, hours, stepMinutes, b))
  {
    StatesThroughLength(devs, now, hours, stepMinutes, draw, k - 1);
    StatesThroughLength(devs, now, hours, stepMinutes, draw, k);
    if b < k - 1 {
      StatesThroughAt(devs, now, hours, stepMinutes, draw, k - 1, b, j);
    } else {
      assert b * |devs| == (k - 1) * |devs|;
    }
  }

  /** The state seed has one row per bucket and catalog device. */
  lemma StateSeedCount(groups: seq<Group>, now: int, hours: int, stepMinutes: int, draw: Draw)
    requires StepOk(hours, stepMinutes)
    ensures |StateSeed(groups, now, hours, stepMinutes, draw)| == BucketCount(hours, stepMinutes) * DeviceCount(groups)
  {
    FlattenLength(groups);
    StatesThroughLength(Flatten(groups), now, hours, stepMinutes, draw, BucketCount(hours, stepMinutes));
  }

  /**
   * Seed layout: the row at position `b * D + j` (D catalog devices) is
   * catalog device `j` at bucket `b`, so rows run bucket-major and then in
   * catalog order; the oldest bucket is drawn uniformly.
   */
  lemma StateSeedAt(groups: seq<Group>, now: int, hours: int, stepMinutes: int, draw: Draw, b: nat, j: nat)
    requires StepOk(hours, stepMinutes) && b < BucketCount(hours, stepMinutes) && j < DeviceCount(groups)
    ensures j < |Flatten(groups)|
    ensures b * DeviceCount(groups) + j < |StateSeed(groups, now, hours, stepMinutes, draw)|
    ensures var d := Flatten(groups)[j];
            StateSeed(groups, now, hours, stepMinutes, draw)[b * DeviceCount(groups) + j]
              == StateRow(d.group, d.device, Bit(draw(b == 0, b, j)),
                          BucketTs(now, hours, stepMinutes, b))
  {
    FlattenLength(groups);
    StatesThroughAt(Flatten(groups), now, hours, stepMinutes, draw, BucketCount(hours, stepMinutes), b, j);
  }

  lemma {:induction false} StatesThroughOrdered(devs: seq<Device>, now: int, hours: int, stepMinutes: int, draw: Draw, k: nat)
    requires StepOk(hours, stepMinutes) && k <= BucketCount(hours, stepMinutes)
    ensures forall r :: r in StatesThrough(devs, now, hours, stepMinutes, draw, k) ==>
              Oldest(now, hours) <= r.ts <= now && r.ts < BucketTs(now, hours, stepMinutes, k) && 0 <= r.status <= 1
    ensures forall i, j :: 0 <= i < j < |StatesThrough(devs, now, hours, stepMinutes, draw, k)| ==>
              StatesThrough(devs, now, hours, stepMinutes, draw, k)[i].ts <= StatesThrough(devs, now, hours, stepMinutes, draw, k)[j].ts
  {
    if k > 0 {
      var prev := StatesThrough(devs, now, hours, stepMinutes, draw, k - 1);
      var t := BucketTs(now, hours, stepMinutes, k - 1);
      var bucket := BucketRows(devs, t, k - 1 == 0, k - 1, draw);
      var s := prev + bucket;
      StatesThroughOrdered(devs, now, hours, stepMinutes, draw, k - 1);
      BucketBounds(now, hours, stepMinutes, k - 1);
      BucketTsIncreasing(now, hours, stepMinutes, k - 1, k);
      forall r: StateRow | r in s
        ensures Oldest(now, hours) <= r.ts <= now && r.ts < BucketTs(now, hours, stepMinutes, k) && 0 <= r.status <= 1
      {
        if r !in prev {
          var j :| 0 <= j < |bucket| && bucket[j] == r;
          assert r.status == Bit(draw(k - 1 == 0, k - 1, j));
        }
      }
      forall i, j | 0 <= i < j < |s|
        ensures s[i].ts <= s[j].ts
      {
        if j < |prev| {
          assert s[i] == prev[i] && s[j] == prev[j];
        } else if i < |prev| {
          assert s[i] in prev;
          assert s[j] == bucket[j - |prev|];
        } else {
          assert s[i] == bucket[i - |prev|] && s[j] == bucket[j - |prev|];
        }
      }
    }
  }

  /**
   * Seed bounds and order: every generated state lies in `[now - H hours, now]`,
   * is 0 or 1, and timestamps never decrease along the generated rows.
   */
  lemma StateSeedBounds(groups: seq<Group>, now: int, hours: int, stepMinutes: int, draw: Draw)
    requires StepOk(hours, stepMinutes)
    ensures forall r :: r in StateSeed(groups, now, hours, stepMinutes, draw) ==>
              Oldest(now, hours) <= r.ts <= now && (r.status == 0 || r.status == 1)
    ensures forall i, j :: 0 <= i < j < |StateSeed(groups, now, hours, stepMinutes, draw)| ==>
              StateSeed(groups, now, hours, stepMinutes, draw)[i].ts <= StateSeed(groups, now, hours, stepMinutes, draw)[j].ts
  {
    StatesThroughOrdered(Flatten(groups), now, hours, stepMinutes, draw, BucketCount(hours, stepMinutes));
  }

  /** Every generated state row belongs to a device of the catalog. */
  lemma {:induction false} StatesThroughDevices(devs: seq<Device>, now: int, hours: int, stepMinutes: int, draw: Draw, k: nat)
    ensures forall r :: r in StatesThrough(devs, now, hours, stepMinutes, draw, k) ==> Device(r.group, r.device) in devs
  {
    if k > 0 {
      StatesThroughDevices(devs, now, hours, stepMinutes, draw, k - 1);
      var bucket := BucketRows(devs, BucketTs(now, hours, stepMinutes, k - 1), k - 1 == 0, k - 1, draw);
      forall r | r in bucket
        ensures Device(r.group, r.device) in devs
      {
        var j :| 0 <= j < |bucket| && bucket[j] == r;
        assert Device(r.group, r.device) == devs[j];
      }
    }
  }

  /* ---------------- Parameters ---------------- */

  /** Python's per-process salted `hash(f"{p}{ts}")`. */
  type Hash = (string, int) -> int

  /** One walk step: `((hash % 100) / 100 - 0.5) * drift`; `%` by 100 is never negative in Python either. */
  function Increment(p: string, t: int, hash: Hash): real
    requires p in Profiles
  {
    ((hash(p, t) % 100) as real / 100.0 - 0.5) * Profiles[p].drift
  }

  /** The walk value recorded for `p` at bucket `k`: the baseline plus the increments of buckets `0..k`. */
  function Walk(p: string, now: int, hours: int, stepMinutes: int, hash: Hash, k: nat): real
    requires p in Profiles
  {
    (if k == 0 then Profiles[p].base else Walk(p, now, hours, stepMinutes, hash, k - 1))
    + Increment(p, BucketTs(now, hours, stepMinutes, k), hash)
  }

  /** The rows of parameter `p` for its first `k` buckets. */
  function SeriesThrough(p: string, now: int, hours: int, stepMinutes: int, hash: Hash, k: nat): seq<ParamRow>
    requires p in Profiles
  {
    if k == 0 then []
    else
      SeriesThrough(p, now, hours, stepMinutes, hash, k - 1)
      + [ParamRow(p, Walk(p, now, hours, stepMinutes, hash, k - 1), BucketTs(now, hours, stepMinutes, k - 1))]
  }

  /** Every name has a baseline (otherwise `base_val[p]` raises `KeyError`). */
  predicate AllProfiled(names: seq<string>)
  {
    forall p | p in names :: p in Profiles
  }

  /** The parameter rows of the seed, parameter by parameter. */
  function ParamSeedRows(names: seq<string>, now: int, hours: int, stepMinutes: int, hash: Hash): seq<ParamRow>
    requires StepOk(hours, stepMinutes) && AllProfiled(names)
  {
    if names == [] then []
    else
      ParamSeedRows(names[..|names| - 1], now, hours, stepMinutes, hash)
      + SeriesThrough(names[|names| - 1], now, hours, stepMinutes, hash, BucketCount(hours, stepMinutes))
  }

  /** The parameter rows of the seed, or `None` when a name has no baseline. */
  function ParamSeed(names: seq<string>, now: int, hours: int, stepMinutes: int, hash: Hash): Option<seq<ParamRow>>
    requires StepOk(hours, stepMinutes)
  {
    if AllProfiled(names) then Some(ParamSeedRows(names, now, hours, stepMinutes, hash)) else None
  }

  /** The inner loop of `rows_params`: the random walk of one parameter over every bucket. */
  method SeedSeries(p: string, now: int, hours: int, stepMinutes: int, hash: Hash)
    returns (rows: seq<ParamRow>)
    requires StepOk(hours, stepMinutes) && p in Profiles
    ensures rows == SeriesThrough(p, now, hours, stepMinutes, hash, BucketCount(hours, stepMinutes))
  {
    var profile := Profiles[p];
    var val := profile.base;
    var ts := now - hours * 3600;
    var step := stepMinutes * 60;
    rows := [];
    ghost var k: nat := 0;
    while ts <= now
      invariant k <= BucketCount(hours, stepMinutes)
      invariant ts == BucketTs(now, hours, stepMinutes, k)
      invariant val == if k == 0 then profile.base else Walk(p, now, hours, stepMinutes, hash, k - 1)
      invariant rows == SeriesThrough(p, now, hours, stepMinutes, hash, k)
      decreases BucketCount(hours, stepMinutes) - k
    {
      assert hours >= 0;
      BucketInWindow(now, hours, stepMinutes, k);
      var stepv := (hash(p, ts) % 100) as real / 100.0 - 0.5;
      val := val + stepv * profile.drift;
      assert val == Walk(p, now, hours, stepMinutes, hash, k);
      rows := rows + [ParamRow(p, val, ts)];
      ts := ts + step;
      k := k + 1;
    }
    if hours >= 0 {
      BucketInWindow(now, hours, stepMinutes, k);
    }
  }

  /** The `rows_params` loop of the seed generator; an unknown name stops it with `KeyError`. */
  method SeedParams(names: seq<string>, now: int, hours: int, stepMinutes: int, hash: Hash)
    returns (result: Option<seq<ParamRow>>)
    requires StepOk(hours, stepMinutes)
    ensures result == ParamSeed(names, now, hours, stepMinutes, hash)
  {
    var rows := [];
    for i := 0 to |names|
      invariant AllProfiled(names[..i])
      invariant rows == ParamSeedRows(names[..i], now, hours, stepMinutes, hash)
    {
      var p := names[i];
      if p !in Profiles {
        assert names[i] in names;
        return None;
      }
      var series := SeedSeries(p, now, hours, stepMinutes, hash);
      rows := rows + series;
      assert names[..i + 1][..i] == names[..i];
      assert names[..i + 1] == names[..i] + [p];
    }
    assert names[..|names|] == names;
    return Some(rows);
  }

  lemma {:induction false} SeriesAt(p: string, now: int, hours: int, stepMinutes: int, hash: Hash, k: nat, a: nat)
    requires p in Profiles && a < k
    ensures a < |SeriesThrough(p, now, hours, stepMinutes, hash, k)|
    ensures SeriesThrough(p, now, hours, stepMinutes, hash, k)[a]
         == ParamRow(p, Walk(p, now, hours, stepMinutes, hash, a), BucketTs(now, hours, stepMinutes, a))
  {
    SeriesLength(p, now, hours, stepMinutes, hash, k - 1);
    if a < k - 1 {
      SeriesAt(p, now, hours, stepMinutes, hash, k - 1, a);
    }
  }

  lemma {:induction false} ParamSeedLength(names: seq<string>, now: int, hours: int, stepMinutes: int, hash: Hash)
    requires StepOk(hours, stepMinutes) && AllProfiled(names)
    ensures |ParamSeedRows(names, now, hours, stepMinutes, hash)| == |names| * BucketCount(hours, stepMinutes)
  {
    if names != [] {
      var front := names[..|names| - 1];
      assert forall p :: p in front ==> p in names;
      var n := BucketCount(hours, stepMinutes);
      ParamSeedLength(front, now, hours, stepMinutes, hash);
      SeriesLength(names[|names| - 1], now, hours, stepMinutes, hash, n);
      MulSucc(|front|, n);
    }
  }

  lemma {:induction false} SeriesLength(p: string, now: int, hours: int, stepMinutes: int, hash: Hash, k: nat)
    requires p in Profiles
    ensures |SeriesThrough(p, now, hours, stepMinutes, hash, k)| == k
  {
    if k > 0 {
      SeriesLength(p, now, hours, stepMinutes, hash, k - 1);
    }
  }

  /** Row `i * n + k` of the parameter seed is parameter `i` at bucket `k`. */
  lemma {:induction false} ParamSeedAt(names: seq<string>, now: int, hours: int, stepMinutes: int, hash: Hash, i: nat, k: nat)
    requires StepOk(hours, stepMinutes) && AllProfiled(names)
    requires i < |names| && k < BucketCount(hours, stepMinutes)
    ensures i * BucketCount(hours, stepMinutes) + k < |ParamSeedRows(names, now, hours, stepMinutes, hash)|
    ensures ParamSeedRows(names, now, hours, stepMinutes, hash)[i * BucketCount(hours, stepMinutes) + k]
         == ParamRow(names[i], Walk(names[i], now, hours, stepMinutes, hash, k), BucketTs(now, hours, stepMinutes, k))
  {
    var n := BucketCount(hours, stepMinutes);
    var m := |names| - 1;
    var front := names[..m];
    assert AllProfiled(front) by {
      assert forall p :: p in front ==> p in names;
    }
    var head := ParamSeedRows(front, now, hours, stepMinutes, hash);
    var series := SeriesThrough(names[m], now, hours, stepMinutes, hash, n);
    ParamSeedLength(front, now, hours, stepMinutes, hash);
    SeriesLength(names[m], now, hours, stepMinutes, hash, n);
    assert ParamSeedRows(names, now, hours, stepMinutes, hash) == head + series;
    BlockAt(head, series, m, n, i, k);
    if i < m {
      assert front[i] == names[i];
      ParamSeedAt(front, now, hours, stepMinutes, hash, i, k);
    } else {
      SeriesAt(names[m], now, hours, stepMinutes, hash, n, k);
    }
  }

  /** Within one parameter's block the timestamps strictly increase. */
  lemma ParamSeedIncreasing(names: seq<string>, now: int, hours: int, stepMinutes: int, hash: Hash, i: nat, k1: nat, k2: nat)
    requires StepOk(hours, stepMinutes) && AllProfiled(names)
    requires i < |names| && k1 < k2 < BucketCount(hours, stepMinutes)
    ensures var rows := ParamSeedRows(names, now, hours, stepMinutes, hash);
            var n := BucketCount(hours, stepMinutes);
            i * n + k2 < |rows| && rows[i * n + k1].name == rows[i * n + k2].name == names[i]
            && rows[i * n + k1].ts < rows[i * n + k2].ts
  {
    ParamSeedAt(names, now, hours, stepMinutes, hash, i, k1);
    ParamSeedAt(names, now, hours, stepMinutes, hash, i, k2);
    BucketTsIncreasing(now, hours, stepMinutes, k1, k2);
  }

  /** In `m` blocks of `n` followed by one more block, element `k` of block `i` sits at `i * n + k`. */
  lemma BlockAt<T>(head: seq<T>, last: seq<T>, m: nat, n: nat, i: nat, k: nat)
    requires |head| == m * n && |last| == n && i <= m && k < n
    ensures i * n + k < |head + last|
    ensures i < m ==> i * n + k < |head| && (head + last)[i * n + k] == head[i * n + k]
    ensures i == m ==> i * n == |head| && (head + last)[i * n + k] == last[k]
  {
    MulSucc(i, n);
    MulMono(i, m, n);
    if i < m {
      MulMono(i + 1, m, n);
    }
  }

  lemma {:induction false} SeriesBounds(p: string, now: int, hours: int, stepMinutes: int, hash: Hash, k: nat)
    requires StepOk(hours, stepMinutes) && p in Profiles && k <= BucketCount(hours, stepMinutes)
    ensures forall r :: r in SeriesThrough(p, now, hours, stepMinutes, hash, k) ==>
              r.name == p && Oldest(now, hours) <= r.ts <= now
  {
    if k > 0 {
      SeriesBounds(p, now, hours, stepMinutes, hash, k - 1);
      BucketBounds(now, hours, stepMinutes, k - 1);
    }
  }

  /** Every generated parameter row names a configured parameter and lies in the window `[now - H hours, now]`. */
  lemma {:induction false} ParamSeedBounds(names: seq<string>, now: int, hours: int, stepMinutes: int, hash: Hash)
    requires StepOk(hours, stepMinutes) && AllProfiled(names)
    ensures forall r :: r in ParamSeedRows(names, now, hours, stepMinutes, hash) ==>
              r.name in names && Oldest(now, hours) <= r.ts <= now
  {
    if names != [] {
      var front := names[..|names| - 1];
      assert forall p :: p in front ==> p in names;
      ParamSeedBounds(front, now, hours, stepMinutes, hash);
      SeriesBounds(names[|names| - 1], now, hours, stepMinutes, hash, BucketCount(hours, stepMinutes));
    }
  }

  /**
   * The walk moves at most half a drift scale per bucket: after bucket `k`
   * the value is within `(k + 1) * drift / 2` of the baseline.
   */
  lemma {:induction false} WalkBounds(p: string, now: int, hours: int, stepMinutes: int, hash: Hash, k: nat)
    requires p in Profiles
    ensures var pr := Profiles[p];
            pr.base - (k + 1) as real * pr.drift / 2.0 <= Walk(p, now, hours, stepMinutes, hash, k)
            <= pr.base + (k + 1) as real * pr.drift / 2.0
  {
    var pr := Profiles[p];
    assert pr.drift >= 0.0;
    var h := hash(p, BucketTs(now, hours, stepMinutes, k)) % 100;
    var f := h as real / 100.0 - 0.5;
    assert -0.5 <= f <= 0.5;
    assert (f + 0.5) * pr.drift >= 0.0;
    assert (0.5 - f) * pr.drift >= 0.0;
    assert -pr.drift / 2.0 <= Increment(p, BucketTs(now, hours, stepMinutes, k), hash) <= pr.drift / 2.0;
    if k > 0 {
      WalkBounds(p, now, hours, stepMinutes, hash, k - 1);
    }
  }
}
