/**
 * The store the three commissioning hooks update in place: the nodes with their hardware
 * facts, block devices and boot disk, and the store-wide set of physical interfaces.
 * `update_hardware_details`, `update_node_physical_block_devices` and
 * `update_node_network_information` are methods here; each leaves everything as it was
 * when the probe exited with a non-zero status or the node opts out.
 */
module Commissioning {
  import opened Wrappers
  import opened BlockDevices
  import opened Interfaces
  import opened Hardware

  /** What the store records for one node. */
  datatype Machine = Machine(
    skipStorage: bool, skipNetworking: bool, cpuCount: nat, memory: nat,
    devices: seq<BlockDevice>, bootDisk: Option<nat>)

  /** A node's storage as the block-device reconciliation sees it. */
  function StorageOf(m: Machine, nextId: nat): Storage {
    Storage(m.devices, m.bootDisk, nextId)
  }

  /** Store invariant: each node's storage is valid, no device id is on two nodes, and the
      interfaces are valid. */
  predicate StoreValid(machines: map<nat, Machine>, nextDeviceId: nat, net: Network) {
    && (forall k :: k in machines ==> BlockDevices.Valid(StorageOf(machines[k], nextDeviceId)))
    && (forall a, b :: a in machines && b in machines && a != b ==>
          IdsOf(machines[a].devices) !! IdsOf(machines[b].devices))
    && Interfaces.Valid(net)
  }

  /** The node after its storage is reconciled with `r`. */
  function WithStorage(m: Machine, r: Storage): Machine {
    m.(devices := r.devices, bootDisk := r.bootDisk)
  }

  lemma BelowMonotone(devs: seq<BlockDevice>, n: nat, n': nat)
    requires Below(devs, n) && n <= n'
    ensures Below(devs, n')
  {
  }

  /** Reconciling one node's storage keeps the store's invariant: the node's new ids are its
      own old ones or newly allocated, so no other node shares them. */
  lemma ReconcileKeepsStoreValid(machines: map<nat, Machine>, nextDeviceId: nat, net: Network,
                                 node: nat, report: seq<BlockInfo>)
    requires StoreValid(machines, nextDeviceId, net) && node in machines
    ensures var r := Reconcile(StorageOf(machines[node], nextDeviceId), report);
            StoreValid(machines[node := WithStorage(machines[node], r)], r.nextId, net)
  {
    var s := StorageOf(machines[node], nextDeviceId);
    var r := Reconcile(s, report);
    var ms := machines[node := WithStorage(machines[node], r)];
    ReconcileValid(s, report);
    forall k | k in ms ensures BlockDevices.Valid(StorageOf(ms[k], r.nextId)) {
      if k != node {
        BelowMonotone(machines[k].devices, nextDeviceId, r.nextId);
      }
    }
    forall a, b | a in ms && b in ms && a != b ensures IdsOf(ms[a].devices) !! IdsOf(ms[b].devices) {
      if a == node {
        NewIdsAvoid(s, report, machines[b].devices, nextDeviceId);
      } else if b == node {
        NewIdsAvoid(s, report, machines[a].devices, nextDeviceId);
      }
    }
  }

  lemma NewIdsAvoid(s: Storage, report: seq<BlockInfo>, other: seq<BlockDevice>, n: nat)
    requires BlockDevices.Valid(s) && s.nextId == n && Below(other, n)
    requires IdsOf(s.devices) !! IdsOf(other)
    ensures IdsOf(Reconcile(s, report).devices) !! IdsOf(other)
  {
    ReconcileValid(s, report);
    forall x | x in IdsOf(other) ensures x !in IdsOf(Reconcile(s, report).devices) {
      IdsBelow(other, n, x);
    }
  }

  /** The block-device pass as a loop: each entry in turn refreshes the first matching
      device not matched yet, or appends a new device with the next free id. */
  method RunPass(start: Pass, entries: seq<BlockInfo>) returns (p: Pass)
    ensures p == Fold(start, entries)
  {
    var devices, unmatched, next := start.devices, start.unmatched, start.nextId;
    var i := 0;
    while i < |entries|
      invariant 0 <= i <= |entries|
      invariant Pass(devices, unmatched, next) == Fold(start, entries[..i])
    {
      var f := entries[i];
      ghost var before := Pass(devices, unmatched, next);
      var k := MatchIndex(devices, unmatched, KeyOf(f));
      if k < |devices| {
        unmatched := unmatched - {devices[k].id};
        devices := devices[k := Describe(devices[k].id, f)];
      } else {
        devices := devices + [Describe(next, f)];
        next := next + 1;
      }
      assert Pass(devices, unmatched, next) == Step(before, f);
      FoldPrefix(start, entries, i);
      i := i + 1;
    }
    assert entries[..i] == entries;
    p := Pass(devices, unmatched, next);
  }

  /** The reconciliation of a node's storage: the pass over the admitted entries, then the
      unmatched devices deleted and the boot disk cleared if it was one of them. */
  method ReconcileStorage(s: Storage, report: seq<BlockInfo>) returns (r: Storage)
    ensures r == Reconcile(s, report)
  {
    var p := RunPass(Pass(s.devices, IdsOf(s.devices), s.nextId), Admitted(report));
    var bootDisk := if s.bootDisk.Some? && s.bootDisk.value in p.unmatched then None else s.bootDisk;
    r := Storage(Keep(p.devices, p.unmatched), bootDisk, p.nextId);
  }

  class Store {
    var machines: map<nat, Machine>
    var nextDeviceId: nat
    var interfaces: map<Mac, Interface>
    var nextInterfaceId: nat

    ghost predicate Valid()
      reads this
    {
      StoreValid(machines, nextDeviceId, Network(interfaces, nextInterfaceId))
    }

    constructor (machines: map<nat, Machine>, nextDeviceId: nat, interfaces: map<Mac, Interface>, nextInterfaceId: nat)
      requires StoreValid(machines, nextDeviceId, Network(interfaces, nextInterfaceId))
      ensures Valid()
      ensures this.machines == machines && this.nextDeviceId == nextDeviceId
      ensures this.interfaces == interfaces && this.nextInterfaceId == nextInterfaceId
    {
      this.machines := machines;
      this.nextDeviceId := nextDeviceId;
      this.interfaces := interfaces;
      this.nextInterfaceId := nextInterfaceId;
    }

    /** Records the CPU count and memory the lshw tree gives; `tree` is None when the
        document does not parse. */
    method UpdateHardwareDetails(node: nat, tree: Option<HwNode>, exitStatus: int)
      requires Valid() && node in machines
      modifies this
      ensures Valid()
      ensures exitStatus != 0 || tree.None? ==> machines == old(machines)
      ensures exitStatus == 0 && tree.Some? ==>
                machines == old(machines)[node := old(machines)[node].(cpuCount := CpuCount(tree.value),
                                                                       memory := MemoryMiB(tree.value))]
      ensures nextDeviceId == old(nextDeviceId)
      ensures interfaces == old(interfaces) && nextInterfaceId == old(nextInterfaceId)
    {
      if exitStatus != 0 || tree.None? {
        return;
      }
      var m := machines[node];
      machines := machines[node := m.(cpuCount := CpuCount(tree.value), memory := MemoryMiB(tree.value))];
      assert forall k :: k in machines ==>
        (machines[k].devices == old(machines)[k].devices && machines[k].bootDisk == old(machines)[k].bootDisk);
    }

    /** Reconciles the node's physical block devices with the parsed report, one admitted
        entry at a time. */
    method UpdateNodePhysicalBlockDevices(node: nat, report: seq<BlockInfo>, exitStatus: int)
      requires Valid() && node in machines
      modifies this
      ensures Valid()
      ensures exitStatus != 0 || old(machines)[node].skipStorage ==>
                machines == old(machines) && nextDeviceId == old(nextDeviceId)
      ensures exitStatus == 0 && !old(machines)[node].skipStorage ==>
                var r := Reconcile(StorageOf(old(machines)[node], old(nextDeviceId)), report);
                machines == old(machines)[node := WithStorage(old(machines)[node], r)] && nextDeviceId == r.nextId
      ensures interfaces == old(interfaces) && nextInterfaceId == old(nextInterfaceId)
    {
      var m := machines[node];
      if exitStatus != 0 || m.skipStorage {
        return;
      }
      var r := ReconcileStorage(StorageOf(m, nextDeviceId), report);
      ReconcileKeepsStoreValid(machines, nextDeviceId, Network(interfaces, nextInterfaceId), node, report);
      machines := machines[node := WithStorage(m, r)];
      nextDeviceId := r.nextId;
    }

    /** Reconciles the node's physical interfaces with the parsed (name, MAC) report, pair
        by pair, then deletes the node's interfaces whose MAC was not reported. */
    method UpdateNodeNetworkInformation(node: nat, report: seq<Reported>, exitStatus: int)
      requires Valid() && node in machines
      modifies this
      ensures Valid()
      ensures exitStatus != 0 || old(machines)[node].skipNetworking ==>
                interfaces == old(interfaces) && nextInterfaceId == old(nextInterfaceId)
      ensures exitStatus == 0 && !old(machines)[node].skipNetworking ==>
                Network(interfaces, nextInterfaceId) == Update(Network(old(interfaces), old(nextInterfaceId)), node, report)
      ensures machines == old(machines) && nextDeviceId == old(nextDeviceId)
    {
      if exitStatus != 0 || machines[node].skipNetworking {
        return;
      }
      ghost var n := Network(interfaces, nextInterfaceId);
      var i := 0;
      while i < |report|
        invariant 0 <= i <= |report|
        invariant machines == old(machines) && nextDeviceId == old(nextDeviceId)
        invariant Network(interfaces, nextInterfaceId) == ClaimAll(n, node, report[..i])
      {
        var r := report[i];
        if r.mac in interfaces && interfaces[r.mac].node == node {
          interfaces := interfaces[r.mac := interfaces[r.mac].(name := r.name)];
        } else {
          interfaces := interfaces[r.mac := Interface(nextInterfaceId, node, r.name)];
          nextInterfaceId := nextInterfaceId + 1;
        }
        assert report[..i + 1][..i] == report[..i];
        i := i + 1;
      }
      assert report[..i] == report;
      var reported := MacsOf(report);
      interfaces := map mac | mac in interfaces && (interfaces[mac].node != node || mac in reported) :: interfaces[mac];
      UpdateValid(n, node, report);
    }
  }
}
