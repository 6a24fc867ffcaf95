/**
 * The two append-only tables of the store and the device catalog.
 *
 * Timestamps are whole seconds counted from 0001-01-01 00:00:00, the
 * earliest instant Python's `datetime` can hold; the row id column is left
 * implicit in the position of a row in its table.
 */
module Tables {

  /** A row of `device_states`: a device of a group was ON (1) or OFF (0) at `ts`. */
  datatype StateRow = StateRow(group: string, device: string, status: int, ts: int)

  /** A row of `important_params`: parameter `name` read `value` at `ts`. */
  datatype ParamRow = ParamRow(name: string, value: real, ts: int)

  /** One entry of the `groups` catalog: a group name and its ordered device names. */
  datatype Group = Group(name: string, devices: seq<string>)

  /** One element of the flattened catalog, as `/api/list/devices` returns it. */
  datatype Device = Device(group: string, device: string)

  /** The devices of one group, in catalog order. */
  function Expand(g: Group): (r: seq<Device>)
    ensures |r| == |g.devices|
    ensures forall k :: 0 <= k < |r| ==> r[k] == Device(g.name, g.devices[k])
  {
    seq(|g.devices|, k requires 0 <= k < |g.devices| => Device(g.name, g.devices[k]))
  }

  /** The catalog flattened group by group, each group's devices in order. */
  function Flatten(groups: seq<Group>): seq<Device>
  {
    if groups == [] then []
    else Flatten(groups[..|groups| - 1]) + Expand(groups[|groups| - 1])
  }

  /** Number of devices the catalog lists, over all groups. */
  function DeviceCount(groups: seq<Group>): nat
  {
    if groups == [] then 0
    else DeviceCount(groups[..|groups| - 1]) + |groups[|groups| - 1].devices|
  }

  /** Position in the flattened catalog at which the devices of group `i` start. */
  function Offset(groups: seq<Group>, i: nat): nat
    requires i <= |groups|
  {
    |Flatten(groups[..i])|
  }

  /** `api_list_devices`: one entry per (group, device) pair of the catalog. */
  method ListDevices(groups: seq<Group>) returns (out: seq<Device>)
    ensures out == Flatten(groups)
  {
    out := [];
    for gi := 0 to |groups|
      invariant out == Flatten(groups[..gi])
    {
      var g := groups[gi];
      for di := 0 to |g.devices|
        invariant out == Flatten(groups[..gi]) + Expand(g)[..di]
      {
        assert Expand(g)[..di + 1] == Expand(g)[..di] + [Device(g.name, g.devices[di])];
        out := out + [Device(g.name, g.devices[di])];
      }
      assert Expand(g)[..|g.devices|] == Expand(g);
      assert groups[..gi + 1][..gi] == groups[..gi];
    }
    assert groups[..|groups|] == groups;
  }

  lemma {:induction false} FlattenLength(groups: seq<Group>)
    ensures |Flatten(groups)| == DeviceCount(groups)
  {
    if groups != [] {
      FlattenLength(groups[..|groups| - 1]);
    }
  }

  /** A (group, device) pair is listed exactly when some catalog group of that name lists the device. */
  lemma {:induction false} FlattenMembership(groups: seq<Group>, d: Device)
    ensures d in Flatten(groups) <==>
            exists i :: 0 <= i < |groups| && groups[i].name == d.group && d.device in groups[i].devices
  {
    if groups != [] {
      var n := |groups| - 1;
      var front := groups[..n];
      FlattenMembership(front, d);
      ExpandMembership(groups[n], d);
      assert forall i :: 0 <= i < n ==> front[i] == groups[i];
      assert Flatten(groups) == Flatten(front) + Expand(groups[n]);
    }
  }

  /** A group lists exactly its own devices under its own name. */
  lemma ExpandMembership(g: Group, d: Device)
    ensures d in Expand(g) <==> g.name == d.group && d.device in g.devices
  {
    if d in Expand(g) {
      var k :| 0 <= k < |Expand(g)| && Expand(g)[k] == d;
      assert g.devices[k] == d.device;
    }
    if g.name == d.group && d.device in g.devices {
      var k :| 0 <= k < |g.devices| && g.devices[k] == d.device;
      assert Expand(g)[k] == d;
    }
  }

  /** Flattening a prefix of the catalog yields a prefix of the flattened catalog. */
  lemma {:induction false} FlattenPrefix(groups: seq<Group>, i: nat)
    requires i <= |groups|
    ensures Flatten(groups[..i]) <= Flatten(groups)
    decreases |groups| - i
  {
    if i < |groups| {
      FlattenPrefix(groups, i + 1);
      assert groups[..i + 1][..i] == groups[..i];
    } else {
      assert groups[..i] == groups;
    }
  }

  /**
   * Catalog order: device `k` of group `i` sits at position `Offset(groups, i) + k`,
   * and the devices of an earlier group all come before those of a later one.
   */
  lemma FlattenAt(groups: seq<Group>, i: nat, k: nat)
    requires i < |groups| && k < |groups[i].devices|
    ensures Offset(groups, i) + k < Offset(groups, i + 1) <= |Flatten(groups)|
    ensures Flatten(groups)[Offset(groups, i) + k] == Device(groups[i].name, groups[i].devices[k])
  {
    FlattenPrefix(groups, i + 1);
    FlattenStep(groups, i);
    PartAt(Flatten(groups[..i]), Expand(groups[i]), Flatten(groups[..i + 1]), Flatten(groups), k);
  }

  /** Element `k` of a part appended to `before`, inside a prefix of `all`, sits at `|before| + k` of `all`. */
  lemma PartAt<T>(before: seq<T>, part: seq<T>, through: seq<T>, all: seq<T>, k: nat)
    requires through == before + part && through <= all && k < |part|
    ensures |before| + k < |through| <= |all| && all[|before| + k] == part[k]
  {
    assert through == all[..|through|];
  }

  /** Adding group `i` to the first `i` groups appends its devices to their listing. */
  lemma FlattenStep(groups: seq<Group>, i: nat)
    requires i < |groups|
    ensures Flatten(groups[..i + 1]) == Flatten(groups[..i]) + Expand(groups[i])
  {
    var pre := groups[..i + 1];
    assert pre[..|pre| - 1] == groups[..i] && pre[|pre| - 1] == groups[i];
  }

  /** Offsets grow with the group index: group `i` ends no later than group `j > i` starts. */
  lemma {:induction false} OffsetMono(groups: seq<Group>, i: nat, j: nat)
    requires i < j <= |groups|
    ensures Offset(groups, i) + |groups[i].devices| <= Offset(groups, j)
    decreases j - i
  {
    assert groups[..i + 1][..i] == groups[..i];
    assert Offset(groups, i + 1) == Offset(groups, i) + |groups[i].devices|;
    if i + 1 < j {
      OffsetMono(groups, i + 1, j);
      assert groups[..j][..j - 1] == groups[..j - 1];
    }
  }
}
