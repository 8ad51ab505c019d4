/**
 * Reconciliation of physical network interfaces with the (name, MAC) pairs a node reports
 * (`update_node_network_information`, as src/metadataserver/models/tests/
 * test_commissioningscript.py lines 801-925 pin it down).
 *
 * A MAC address names at most one physical interface in the whole store, so the store is a
 * map from MAC to interface. Each reported pair, in order, renames the node's own interface
 * with that MAC, keeping its id, or else deletes the interface another node held under that
 * MAC and creates a new one, with a fresh id, on the reporting node. Afterwards the node's
 * interfaces whose MAC was not reported are deleted.
 */
module Interfaces {

  type Mac = string

  datatype Interface = Interface(id: nat, node: nat, name: string)

  /** One interface of the parsed `ip addr` output. */
  datatype Reported = Reported(name: string, mac: Mac)

  /** The store's physical interfaces by MAC, and the next free interface id. */
  datatype Network = Network(interfaces: map<Mac, Interface>, nextId: nat)

  /** Every id is allocated and no two interfaces share one. */
  predicate Valid(n: Network) {
    && (forall mac :: mac in n.interfaces ==> n.interfaces[mac].id < n.nextId)
    && (forall a, b :: a in n.interfaces && b in n.interfaces && n.interfaces[a].id == n.interfaces[b].id ==> a == b)
  }

  /** One reported pair: rename in place on the same node; otherwise a new interface. */
  function Claim(n: Network, node: nat, r: Reported): Network {
    var m := n.interfaces;
    if r.mac in m && m[r.mac].node == node then Network(m[r.mac := m[r.mac].(name := r.name)], n.nextId)
    else Network(m[r.mac := Interface(n.nextId, node, r.name)], n.nextId + 1)
  }

  /** The pairs `rs`, in order. */
  function ClaimAll(n: Network, node: nat, rs: seq<Reported>): Network
    decreases |rs|
  {
    if rs == [] then n else Claim(ClaimAll(n, node, rs[..|rs| - 1]), node, rs[|rs| - 1])
  }

  function MacsOf(rs: seq<Reported>): set<Mac> {
    set i | 0 <= i < |rs| :: rs[i].mac
  }

  /** The name last reported for `mac`. */
  function LastName(rs: seq<Reported>, mac: Mac): string
    requires mac in MacsOf(rs)
    decreases |rs|
  {
    var init := rs[..|rs| - 1];
    if rs[|rs| - 1].mac == mac then rs[|rs| - 1].name
    else
      assert mac in MacsOf(init) by {
        var i :| 0 <= i < |rs| && rs[i].mac == mac;
        assert init[i] == rs[i];
      }
      LastName(init, mac)
  }

  /** The node's interfaces whose MAC is not in `keep` are deleted. */
  function Prune(m: map<Mac, Interface>, node: nat, keep: set<Mac>): (r: map<Mac, Interface>)
    ensures forall mac :: mac in r <==> mac in m && (m[mac].node != node || mac in keep)
    ensures forall mac :: mac in r ==> r[mac] == m[mac]
  {
    map mac | mac in m && (m[mac].node != node || mac in keep) :: m[mac]
  }

  /** The reconciliation of `node`'s interfaces with the report `rs`. */
  function Update(n: Network, node: nat, rs: seq<Reported>): Network {
    var c := ClaimAll(n, node, rs);
    Network(Prune(c.interfaces, node, MacsOf(rs)), c.nextId)
  }

  // ---------------------------------------------------------------------------
  // The pass, one property at a time

  lemma MacsOfLast(rs: seq<Reported>)
    requires rs != []
    ensures MacsOf(rs) == MacsOf(rs[..|rs| - 1]) + {rs[|rs| - 1].mac}
  {
    var init := rs[..|rs| - 1];
    forall mac | mac in MacsOf(init) ensures mac in MacsOf(rs) {
      var i :| 0 <= i < |init| && init[i].mac == mac;
      assert rs[i] == init[i];
    }
  }

  /** A MAC that was not reported is exactly as it was. */
  lemma {:induction false} ClaimAllUnreported(n: Network, node: nat, rs: seq<Reported>, mac: Mac)
    requires mac !in MacsOf(rs)
    ensures var c := ClaimAll(n, node, rs).interfaces;
            (mac in c <==> mac in n.interfaces) && (mac in c ==> c[mac] == n.interfaces[mac])
    decreases |rs|
  {
    if rs != [] {
      MacsOfLast(rs);
      ClaimAllUnreported(n, node, rs[..|rs| - 1], mac);
    }
  }

  /** A reported MAC ends on the node, under the name last reported for it. */
  lemma {:induction false} ClaimAllReported(n: Network, node: nat, rs: seq<Reported>, mac: Mac)
    requires mac in MacsOf(rs)
    ensures var c := ClaimAll(n, node, rs).interfaces;
            mac in c && c[mac].node == node && c[mac].name == LastName(rs, mac)
    decreases |rs|
  {
    MacsOfLast(rs);
    if rs[|rs| - 1].mac != mac {
      ClaimAllReported(n, node, rs[..|rs| - 1], mac);
    }
  }

  lemma {:induction false} ClaimAllGrows(n: Network, node: nat, rs: seq<Reported>)
    ensures n.nextId <= ClaimAll(n, node, rs).nextId
    decreases |rs|
  {
    if rs != [] {
      ClaimAllGrows(n, node, rs[..|rs| - 1]);
    }
  }

  /** A reported MAC keeps its id when the node already held it, and gets a fresh one,
      allocated by this pass, when it did not. */
  lemma {:induction false} ClaimAllIds(n: Network, node: nat, rs: seq<Reported>, mac: Mac)
    requires mac in MacsOf(rs)
    ensures var c := ClaimAll(n, node, rs);
            mac in c.interfaces &&
            if mac in n.interfaces && n.interfaces[mac].node == node
            then c.interfaces[mac].id == n.interfaces[mac].id
            else n.nextId <= c.interfaces[mac].id < c.nextId
    decreases |rs|
  {
    var init, last := rs[..|rs| - 1], rs[|rs| - 1];
    var p := ClaimAll(n, node, init);
    MacsOfLast(rs);
    ClaimAllGrows(n, node, init);
    ClaimAllReported(n, node, rs, mac);
    if mac in MacsOf(init) {
      ClaimAllIds(n, node, init, mac);
      ClaimAllReported(n, node, init, mac);
    } else {
      ClaimAllUnreported(n, node, init, mac);
    }
  }

  lemma ClaimValid(n: Network, node: nat, r: Reported)
    requires Valid(n)
    ensures Valid(Claim(n, node, r))
  {
  }

  lemma {:induction false} ClaimAllValid(n: Network, node: nat, rs: seq<Reported>)
    requires Valid(n)
    ensures Valid(ClaimAll(n, node, rs))
    decreases |rs|
  {
    if rs != [] {
      ClaimAllValid(n, node, rs[..|rs| - 1]);
      ClaimValid(ClaimAll(n, node, rs[..|rs| - 1]), node, rs[|rs| - 1]);
    }
  }

  /** When every reported MAC is already on the node, the pass allocates no id. */
  lemma {:induction false} ClaimAllSettled(n: Network, node: nat, rs: seq<Reported>)
    requires forall mac :: mac in MacsOf(rs) ==> mac in n.interfaces && n.interfaces[mac].node == node
    ensures ClaimAll(n, node, rs).nextId == n.nextId
    decreases |rs|
  {
    if rs != [] {
      var init, last := rs[..|rs| - 1], rs[|rs| - 1];
      MacsOfLast(rs);
      ClaimAllSettled(n, node, init);
      if last.mac in MacsOf(init) {
        ClaimAllReported(n, node, init, last.mac);
      } else {
        ClaimAllUnreported(n, node, init, last.mac);
      }
    }
  }

  // ---------------------------------------------------------------------------
  // What reconciliation guarantees

  /** The node ends up holding exactly the reported MACs, each under its last reported name;
      in particular a MAC another node held has moved to the reporting node. */
  lemma NodeHoldsReportedMacs(n: Network, node: nat, rs: seq<Reported>)
    ensures var u := Update(n, node, rs).interfaces;
            && (forall mac :: mac in MacsOf(rs) ==> mac in u && u[mac].node == node && u[mac].name == LastName(rs, mac))
            && (forall mac :: mac in u && u[mac].node == node ==> mac in MacsOf(rs))
  {
    forall mac | mac in MacsOf(rs)
      ensures var u := Update(n, node, rs).interfaces; mac in u && u[mac].node == node && u[mac].name == LastName(rs, mac)
    {
      ClaimAllReported(n, node, rs, mac);
    }
  }

  /** An unreported MAC survives exactly when another node holds it, and is then unchanged:
      the node's stale interfaces are deleted and other nodes' are left alone. */
  lemma UnreportedMacs(n: Network, node: nat, rs: seq<Reported>)
    ensures var u := Update(n, node, rs).interfaces;
            forall mac :: mac !in MacsOf(rs) ==>
              && (mac in u <==> mac in n.interfaces && n.interfaces[mac].node != node)
              && (mac in u ==> u[mac] == n.interfaces[mac])
  {
    forall mac | mac !in MacsOf(rs)
      ensures var u := Update(n, node, rs).interfaces;
              && (mac in u <==> mac in n.interfaces && n.interfaces[mac].node != node)
              && (mac in u ==> u[mac] == n.interfaces[mac])
    {
      ClaimAllUnreported(n, node, rs, mac);
    }
  }

  /** An interface of the node that is reported again keeps its id (it is renamed, not
      recreated). */
  lemma SameNodeKeepsId(n: Network, node: nat, rs: seq<Reported>, mac: Mac)
    requires mac in MacsOf(rs) && mac in n.interfaces && n.interfaces[mac].node == node
    ensures mac in Update(n, node, rs).interfaces
    ensures Update(n, node, rs).interfaces[mac].id == n.interfaces[mac].id
  {
    ClaimAllIds(n, node, rs, mac);
  }

  /** An interface another node held under a reported MAC is deleted: no interface carries
      its id any more, and the MAC's new interface has a freshly allocated one. */
  lemma MovedInterfaceIsRecreated(n: Network, node: nat, rs: seq<Reported>, mac: Mac)
    requires Valid(n)
    requires mac in MacsOf(rs) && mac in n.interfaces && n.interfaces[mac].node != node
    ensures var u := Update(n, node, rs);
            && mac in u.interfaces && n.nextId <= u.interfaces[mac].id < u.nextId
            && forall k :: k in u.interfaces ==> u.interfaces[k].id != n.interfaces[mac].id
  {
    var u := Update(n, node, rs);
    var x := n.interfaces[mac].id;
    ClaimAllIds(n, node, rs, mac);
    forall k | k in u.interfaces ensures u.interfaces[k].id != x {
      if k in MacsOf(rs) {
        ClaimAllIds(n, node, rs, k);
      } else {
        ClaimAllUnreported(n, node, rs, k);
      }
    }
  }

  lemma UpdateValid(n: Network, node: nat, rs: seq<Reported>)
    requires Valid(n)
    ensures Valid(Update(n, node, rs)) && n.nextId <= Update(n, node, rs).nextId
  {
    ClaimAllValid(n, node, rs);
    ClaimAllGrows(n, node, rs);
  }

  /** Reporting the same interfaces again changes nothing: same interfaces, same ids, no id
      allocated. */
  lemma UpdateIdempotent(n: Network, node: nat, rs: seq<Reported>)
    ensures Update(Update(n, node, rs), node, rs) == Update(n, node, rs)
  {
    var u := Update(n, node, rs);
    var v := Update(u, node, rs);
    NodeHoldsReportedMacs(n, node, rs);
    NodeHoldsReportedMacs(u, node, rs);
    UnreportedMacs(u, node, rs);
    ClaimAllSettled(u, node, rs);
    forall mac | mac in MacsOf(rs) ensures v.interfaces[mac] == u.interfaces[mac] {
      SameNodeKeepsId(u, node, rs, mac);
    }
    assert v.interfaces == u.interfaces;
  }

  /** A node that held a MAC which another node now reports keeps no interface under it;
      a node whose only MAC moves is left with none. */
  lemma ReassignedMacLeavesOldNode(n: Network, node: nat, other: nat, rs: seq<Reported>)
    requires node != other
    requires forall mac :: mac in n.interfaces && n.interfaces[mac].node == other ==> mac in MacsOf(rs)
    ensures var u := Update(n, node, rs).interfaces;
            forall mac :: mac in u ==> u[mac].node != other
  {
    NodeHoldsReportedMacs(n, node, rs);
    UnreportedMacs(n, node, rs);
  }
}
