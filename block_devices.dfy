/**
 * Reconciliation of a node's physical block devices with the storage probe's report
 * (`update_node_physical_block_devices`, as src/metadataserver/models/tests/
 * test_commissioningscript.py lines 435-704 pin it down).
 *
 * A node's devices are a sequence ordered by id. The report is the parsed list of
 * descriptors. Entries that are too small, or whose id path names a loop device, are
 * dropped. Each remaining entry, in report order, updates the first of the node's previous
 * devices that has the same identity (model and serial when both are known, the name
 * otherwise), or else becomes a new device with the next free id. Previous devices that
 * nothing matched are deleted, and the node's boot disk is cleared if it was one of them.
 */
module BlockDevices {
  import opened Wrappers

  /** Devices smaller than 4 MiB are not storage worth recording. */
  const MIN_BLOCK_DEVICE_SIZE: int := 4 * 1024 * 1024

  /** One descriptor of the report: NAME, ID_PATH, SIZE, BLOCK_SIZE, MODEL, SERIAL, RM,
      ROTA, SATA and RPM, with the sizes already read as integers. */
  datatype BlockInfo = BlockInfo(
    name: string, idPath: string, size: int, blockSize: int, model: string, serial: string,
    rm: string, rota: string, sata: string, rpm: string)

  /** A stored physical block device. */
  datatype BlockDevice = BlockDevice(
    id: nat, name: string, idPath: string, size: int, blockSize: int, model: string,
    serial: string, tags: set<string>)

  // ---------------------------------------------------------------------------
  // What a report entry turns into

  /** The id path as stored: the reported one, or "/dev/<NAME>" when it is empty. */
  function EffectiveIdPath(f: BlockInfo): (p: string)
    ensures f.idPath != "" ==> p == f.idPath
    ensures f.idPath == "" ==> p == "/dev/" + f.name
  {
    if f.idPath == "" then "/dev/" + f.name else f.idPath
  }

  predicate BeginsWith(s: string, prefix: string) {
    |prefix| <= |s| && s[..|prefix|] == prefix
  }

  predicate IsLoopPath(p: string) {
    BeginsWith(p, "/dev/loop")
  }

  /** Entries that are recorded at all: large enough and not a loop device. */
  predicate Eligible(f: BlockInfo) {
    f.size >= MIN_BLOCK_DEVICE_SIZE && !IsLoopPath(EffectiveIdPath(f))
  }

  /** The report entries that survive the filter, in report order. */
  function Admitted(report: seq<BlockInfo>): (r: seq<BlockInfo>)
    ensures forall f :: f in r <==> f in report && Eligible(f)
    ensures |r| <= |report|
  {
    if report == [] then []
    else (if Eligible(report[0]) then [report[0]] else []) + Admitted(report[1..])
  }

  /** The tags, fully recomputed from the entry. */
  function Tags(f: BlockInfo): set<string> {
    (if f.rota == "1" then {"rotary"} + (if f.rpm != "" && f.rpm != "0" then {f.rpm + "rpm"} else {})
     else {"ssd"})
    + (if f.rm == "1" then {"removable"} else {})
    + (if f.sata == "1" then {"sata"} else {})
  }

  /** Identity of a device across runs. */
  datatype Key = ByModelSerial(model: string, serial: string) | ByName(name: string)

  function KeyOf(f: BlockInfo): Key {
    if f.model != "" && f.serial != "" then ByModelSerial(f.model, f.serial) else ByName(f.name)
  }

  function DeviceKey(d: BlockDevice): Key {
    if d.model != "" && d.serial != "" then ByModelSerial(d.model, d.serial) else ByName(d.name)
  }

  /** The device with id `id` as the entry `f` describes it; used both to create a device
      and to refresh a matched one. */
  function Describe(id: nat, f: BlockInfo): (d: BlockDevice)
    ensures d.id == id && DeviceKey(d) == KeyOf(f)
    ensures d.name == f.name && d.size == f.size && d.blockSize == f.blockSize
    ensures d.model == f.model && d.serial == f.serial
  {
    BlockDevice(id, f.name, EffectiveIdPath(f), f.size, f.blockSize, f.model, f.serial, Tags(f))
  }

  /** The stored id path and tags are the entry's, recomputed: the id-path fallback and the
      tag rules. */
  lemma DescribeFields(id: nat, f: BlockInfo)
    ensures Describe(id, f).idPath == EffectiveIdPath(f) && Describe(id, f).tags == Tags(f)
  {
  }

  lemma EndsDiffer(a: string, b: string)
    requires a != [] && b != [] && a[|a| - 1] != b[|b| - 1]
    ensures a != b
  {
  }

  /** The tags follow the entry: rotary with its speed, or ssd; removable; sata. */
  lemma TagsFollowReport(f: BlockInfo)
    ensures "rotary" in Tags(f) <==> f.rota == "1"
    ensures "ssd" in Tags(f) <==> f.rota != "1"
    ensures f.rota == "1" && f.rpm != "" && f.rpm != "0" ==> f.rpm + "rpm" in Tags(f)
    ensures "removable" in Tags(f) <==> f.rm == "1"
    ensures "sata" in Tags(f) <==> f.sata == "1"
  {
    var speed := f.rpm + "rpm";
    assert speed[|speed| - 1] == 'm';
    EndsDiffer(speed, "rotary");
    EndsDiffer(speed, "ssd");
    EndsDiffer(speed, "removable");
    EndsDiffer(speed, "sata");
  }

  /** The filter drops the small and the loop devices; an empty id path is judged by the
      "/dev/<NAME>" that replaces it. */
  lemma FilterExamples(f: BlockInfo)
    ensures f.size < MIN_BLOCK_DEVICE_SIZE ==> !Eligible(f)
    ensures f.idPath == "/dev/loop0" ==> !Eligible(f)
    ensures f.idPath == "" && f.name == "loop3" ==> !Eligible(f)
    ensures f.size >= MIN_BLOCK_DEVICE_SIZE && f.idPath == "/dev/disk/by-id/deviceid" ==> Eligible(f)
  {
    assert "/dev/loop0"[..9] == "/dev/loop";
    assert ("/dev/" + "loop3")[..9] == "/dev/loop";
    assert "/dev/disk/by-id/deviceid"[5] != "/dev/loop"[5];
  }

  // ---------------------------------------------------------------------------
  // The reconciliation pass

  function IdsOf(devs: seq<BlockDevice>): set<nat> {
    set i | 0 <= i < |devs| :: devs[i].id
  }

  predicate Sorted(devs: seq<BlockDevice>) {
    forall i, j :: 0 <= i < j < |devs| ==> devs[i].id < devs[j].id
  }

  predicate Below(devs: seq<BlockDevice>, bound: nat) {
    forall i :: 0 <= i < |devs| ==> devs[i].id < bound
  }

  /** `d` is still waiting to be matched and has identity `key`. */
  predicate Candidate(d: BlockDevice, unmatched: set<nat>, key: Key) {
    d.id in unmatched && DeviceKey(d) == key
  }

  /** Index of the first unmatched device with identity `key`, or |devs|. */
  function MatchIndex(devs: seq<BlockDevice>, unmatched: set<nat>, key: Key): (k: nat)
    ensures k <= |devs|
    ensures k < |devs| ==> Candidate(devs[k], unmatched, key)
    ensures forall i :: 0 <= i < k ==> !Candidate(devs[i], unmatched, key)
  {
    if devs == [] then 0
    else if Candidate(devs[0], unmatched, key) then 0
    else 1 + MatchIndex(devs[1..], unmatched, key)
  }

  /** The state of one pass: the node's devices, the ids of previous devices not matched
      yet, and the next free id. */
  datatype Pass = Pass(devices: seq<BlockDevice>, unmatched: set<nat>, nextId: nat)

  /** One report entry: refresh the matched device in place, or append a new one. */
  function Step(p: Pass, f: BlockInfo): Pass {
    var k := MatchIndex(p.devices, p.unmatched, KeyOf(f));
    if k < |p.devices| then
      Pass(p.devices[k := Describe(p.devices[k].id, f)], p.unmatched - {p.devices[k].id}, p.nextId)
    else
      Pass(p.devices + [Describe(p.nextId, f)], p.unmatched, p.nextId + 1)
  }

  /** The id the entry ends up on. */
  function StepId(p: Pass, f: BlockInfo): nat {
    var k := MatchIndex(p.devices, p.unmatched, KeyOf(f));
    if k < |p.devices| then p.devices[k].id else p.nextId
  }

  /** The pass over entries `fs`, in order. */
  function Fold(p: Pass, fs: seq<BlockInfo>): Pass
    decreases |fs|
  {
    if fs == [] then p else Step(Fold(p, fs[..|fs| - 1]), fs[|fs| - 1])
  }

  /** The ids the entries `fs` end up on, in order. */
  function Assigned(p: Pass, fs: seq<BlockInfo>): (ids: seq<nat>)
    ensures |ids| == |fs|
    decreases |fs|
  {
    if fs == [] then []
    else Assigned(p, fs[..|fs| - 1]) + [StepId(Fold(p, fs[..|fs| - 1]), fs[|fs| - 1])]
  }

  /** The devices whose id is not in `gone`, in order. */
  function Keep(devs: seq<BlockDevice>, gone: set<nat>): (r: seq<BlockDevice>)
    ensures forall d :: d in r <==> d in devs && d.id !in gone
    ensures |r| <= |devs|
  {
    if devs == [] then []
    else (if devs[0].id in gone then [] else [devs[0]]) + Keep(devs[1..], gone)
  }

  /** One node's storage: its devices, its boot disk and the store's next free device id. */
  datatype Storage = Storage(devices: seq<BlockDevice>, bootDisk: Option<nat>, nextId: nat)

  /** The store's invariant for one node: devices in id order, all ids allocated, and the
      boot disk, if any, one of the node's devices. */
  predicate Valid(s: Storage) {
    && Sorted(s.devices)
    && Below(s.devices, s.nextId)
    && (s.bootDisk.Some? ==> s.bootDisk.value in IdsOf(s.devices))
  }

  function Start(s: Storage): Pass {
    Pass(s.devices, IdsOf(s.devices), s.nextId)
  }

  /** The reconciliation of `s` with `report`. */
  function Reconcile(s: Storage, report: seq<BlockInfo>): Storage {
    var p := Fold(Start(s), Admitted(report));
    Storage(Keep(p.devices, p.unmatched),
            if s.bootDisk.Some? && s.bootDisk.value in p.unmatched then None else s.bootDisk,
            p.nextId)
  }

  // ---------------------------------------------------------------------------
  // Facts about the pieces

  lemma KeepIds(devs: seq<BlockDevice>, gone: set<nat>)
    ensures IdsOf(Keep(devs, gone)) == IdsOf(devs) - gone
  {
    var r := Keep(devs, gone);
    forall x | x in IdsOf(devs) - gone ensures x in IdsOf(r) {
      var t :| 0 <= t < |devs| && devs[t].id == x;
      assert devs[t] in r;
      var u :| 0 <= u < |r| && r[u] == devs[t];
    }
    forall x | x in IdsOf(r) ensures x in IdsOf(devs) - gone {
      var u :| 0 <= u < |r| && r[u].id == x;
      assert r[u] in devs;
      var t :| 0 <= t < |devs| && devs[t] == r[u];
    }
  }

  lemma {:induction false} KeepSorted(devs: seq<BlockDevice>, gone: set<nat>)
    requires Sorted(devs)
    ensures Sorted(Keep(devs, gone))
  {
    if devs != [] {
      var rest := Keep(devs[1..], gone);
      KeepSorted(devs[1..], gone);
      forall u | 0 <= u < |rest| ensures devs[0].id < rest[u].id {
        assert rest[u] in devs[1..];
      }
    }
  }

  /** Distinct ids: a sorted sequence has at most one device with a given id. */
  lemma SortedUnique(devs: seq<BlockDevice>, t: int, u: int)
    requires Sorted(devs) && 0 <= t < |devs| && 0 <= u < |devs| && devs[t].id == devs[u].id
    ensures t == u
  {
  }

  function SetOf(ids: seq<nat>): set<nat> {
    set x | x in ids
  }

  predicate Distinct(ids: seq<nat>) {
    forall i, j :: 0 <= i < j < |ids| ==> ids[i] != ids[j]
  }

  /** A device with id `x` is present, and every device with that id is what `f` describes. */
  predicate Describes(devs: seq<BlockDevice>, x: nat, f: BlockInfo) {
    && x in IdsOf(devs)
    && forall t :: 0 <= t < |devs| && devs[t].id == x ==> devs[t] == Describe(x, f)
  }

  /** Entry `i` of `fs` sits on the device with id `ids[i]`: distinct devices, each what its
      entry describes, and entries with the same identity on devices in id order. */
  predicate Synced(devs: seq<BlockDevice>, fs: seq<BlockInfo>, ids: seq<nat>) {
    && |ids| == |fs|
    && Distinct(ids)
    && (forall i :: 0 <= i < |ids| ==> Describes(devs, ids[i], fs[i]))
    && (forall i, j :: 0 <= i < j < |ids| && KeyOf(fs[i]) == KeyOf(fs[j]) ==> ids[i] < ids[j])
  }

  /** Every device still unmatched that an entry's identity could reach has a higher id than
      the device that entry took: the pass always takes the first candidate. */
  predicate Guarded(devs: seq<BlockDevice>, unmatched: set<nat>, fs: seq<BlockInfo>, ids: seq<nat>) {
    forall i, t ::
      (0 <= i < |ids| && i < |fs| && 0 <= t < |devs| && Candidate(devs[t], unmatched, KeyOf(fs[i])))
      ==> ids[i] < devs[t].id
  }

  /** Invariant of the pass after the entries `fs`, which took the devices `ids`. */
  predicate Progress(p: Pass, fs: seq<BlockInfo>, ids: seq<nat>) {
    && Sorted(p.devices)
    && Below(p.devices, p.nextId)
    && Synced(p.devices, fs, ids)
    && (forall i :: 0 <= i < |ids| ==> ids[i] !in p.unmatched)
    && IdsOf(p.devices) == SetOf(ids) + p.unmatched
    && Guarded(p.devices, p.unmatched, fs, ids)
  }

  lemma ReplaceKeepsIds(devs: seq<BlockDevice>, k: nat, v: BlockDevice)
    requires k < |devs| && v.id == devs[k].id
    ensures IdsOf(devs[k := v]) == IdsOf(devs)
  {
    var d := devs[k := v];
    forall y | y in IdsOf(devs) ensures y in IdsOf(d) {
      var t :| 0 <= t < |devs| && devs[t].id == y;
      assert d[t].id == y;
    }
    forall y | y in IdsOf(d) ensures y in IdsOf(devs) {
      var t :| 0 <= t < |d| && d[t].id == y;
      assert devs[t].id == y;
    }
  }

  lemma AppendIds(devs: seq<BlockDevice>, v: BlockDevice)
    ensures IdsOf(devs + [v]) == IdsOf(devs) + {v.id}
  {
    var d := devs + [v];
    assert d[|devs|].id == v.id;
    forall y | y in IdsOf(devs) ensures y in IdsOf(d) {
      var t :| 0 <= t < |devs| && devs[t].id == y;
      assert d[t].id == y;
    }
  }

  lemma ReplaceDescribes(devs: seq<BlockDevice>, k: nat, fs: seq<BlockInfo>, ids: seq<nat>, f: BlockInfo)
    requires Sorted(devs) && k < |devs| && |ids| == |fs|
    requires forall i :: 0 <= i < |ids| ==> Describes(devs, ids[i], fs[i])
    requires devs[k].id !in ids
    ensures var d := devs[k := Describe(devs[k].id, f)];
            forall i :: 0 <= i < |ids| + 1 ==> Describes(d, (ids + [devs[k].id])[i], (fs + [f])[i])
  {
    var x := devs[k].id;
    var d := devs[k := Describe(x, f)];
    var fs', ids' := fs + [f], ids + [x];
    ReplaceKeepsIds(devs, k, Describe(x, f));
    forall i | 0 <= i < |ids'| ensures Describes(d, ids'[i], fs'[i]) {
      if i < |ids| {
        assert ids'[i] == ids[i] && fs'[i] == fs[i];
        assert ids[i] != x;
        forall t | 0 <= t < |d| && d[t].id == ids[i] ensures d[t] == Describe(ids[i], fs[i]) {
          assert t != k;
        }
      } else {
        forall t | 0 <= t < |d| && d[t].id == x ensures d[t] == Describe(x, f) {
          if t != k {
            SortedUnique(devs, t, k);
          }
        }
      }
    }
  }

  lemma AppendDescribes(devs: seq<BlockDevice>, n: nat, fs: seq<BlockInfo>, ids: seq<nat>, f: BlockInfo)
    requires Below(devs, n) && |ids| == |fs|
    requires forall i :: 0 <= i < |ids| ==> Describes(devs, ids[i], fs[i])
    ensures var d := devs + [Describe(n, f)];
            forall i :: 0 <= i < |ids| + 1 ==> Describes(d, (ids + [n])[i], (fs + [f])[i])
  {
    var d := devs + [Describe(n, f)];
    var fs', ids' := fs + [f], ids + [n];
    AppendIds(devs, Describe(n, f));
    forall i | 0 <= i < |ids'| ensures Describes(d, ids'[i], fs'[i]) {
      if i < |ids| {
        assert ids'[i] == ids[i] && fs'[i] == fs[i];
        IdsBelow(devs, n, ids[i]);
      }
    }
  }

  lemma DistinctAppend(ids: seq<nat>, x: nat)
    requires Distinct(ids) && x !in ids
    ensures Distinct(ids + [x]) && SetOf(ids + [x]) == SetOf(ids) + {x}
  {
  }

  lemma IdsBelow(devs: seq<BlockDevice>, n: nat, x: nat)
    requires Below(devs, n) && x in IdsOf(devs)
    ensures x < n
  {
  }

  lemma MatchedGuard(devs: seq<BlockDevice>, unmatched: set<nat>, k: nat, fs: seq<BlockInfo>, ids: seq<nat>, f: BlockInfo)
    requires Sorted(devs) && |ids| == |fs|
    requires Guarded(devs, unmatched, fs, ids)
    requires k == MatchIndex(devs, unmatched, KeyOf(f)) && k < |devs|
    ensures var x := devs[k].id;
            Guarded(devs[k := Describe(x, f)], unmatched - {x}, fs + [f], ids + [x])
  {
    var x := devs[k].id;
    var d := devs[k := Describe(x, f)];
    var fs', ids' := fs + [f], ids + [x];
    forall i, t | 0 <= i < |ids'| && 0 <= t < |d| && Candidate(d[t], unmatched - {x}, KeyOf(fs'[i]))
      ensures ids'[i] < d[t].id
    {
      assert t != k && d[t] == devs[t];
      if i == |ids| {
        assert !(t < k);
      } else {
        assert fs'[i] == fs[i] && ids'[i] == ids[i];
        assert Candidate(devs[t], unmatched, KeyOf(fs[i]));
      }
    }
  }

  lemma MatchedOrder(devs: seq<BlockDevice>, unmatched: set<nat>, k: nat, fs: seq<BlockInfo>, ids: seq<nat>, f: BlockInfo)
    requires |ids| == |fs|
    requires Guarded(devs, unmatched, fs, ids)
    requires forall i, j :: 0 <= i < j < |ids| && KeyOf(fs[i]) == KeyOf(fs[j]) ==> ids[i] < ids[j]
    requires k == MatchIndex(devs, unmatched, KeyOf(f)) && k < |devs|
    ensures var ids', fs' := ids + [devs[k].id], fs + [f];
            forall i, j :: 0 <= i < j < |ids'| && KeyOf(fs'[i]) == KeyOf(fs'[j]) ==> ids'[i] < ids'[j]
  {
    var ids', fs' := ids + [devs[k].id], fs + [f];
    forall i, j | 0 <= i < j < |ids'| && KeyOf(fs'[i]) == KeyOf(fs'[j]) ensures ids'[i] < ids'[j] {
      if j == |ids| {
        assert fs'[i] == fs[i];
        assert Candidate(devs[k], unmatched, KeyOf(fs[i]));
      } else {
        assert fs'[i] == fs[i] && fs'[j] == fs[j];
      }
    }
  }

  lemma MatchedSynced(devs: seq<BlockDevice>, unmatched: set<nat>, k: nat, fs: seq<BlockInfo>, ids: seq<nat>, f: BlockInfo)
    requires Sorted(devs) && Synced(devs, fs, ids)
    requires Guarded(devs, unmatched, fs, ids)
    requires k == MatchIndex(devs, unmatched, KeyOf(f)) && k < |devs| && devs[k].id !in ids
    ensures var x := devs[k].id;
            Synced(devs[k := Describe(x, f)], fs + [f], ids + [x])
  {
    var x := devs[k].id;
    ReplaceDescribes(devs, k, fs, ids, f);
    MatchedOrder(devs, unmatched, k, fs, ids, f);
    DistinctAppend(ids, x);
  }

  /** Replacing one device by another with the same id keeps the list sorted, below its bound
      and with the same ids. */
  lemma ReplaceShape(devs: seq<BlockDevice>, n: nat, k: nat, v: BlockDevice)
    requires Sorted(devs) && Below(devs, n) && k < |devs| && v.id == devs[k].id
    ensures Sorted(devs[k := v]) && Below(devs[k := v], n) && IdsOf(devs[k := v]) == IdsOf(devs)
  {
    assert forall t :: 0 <= t < |devs| ==> devs[k := v][t].id == devs[t].id;
    ReplaceKeepsIds(devs, k, v);
  }

  lemma StepMatched(p: Pass, fs: seq<BlockInfo>, ids: seq<nat>, f: BlockInfo)
    requires Progress(p, fs, ids)
    requires MatchIndex(p.devices, p.unmatched, KeyOf(f)) < |p.devices|
    ensures Progress(Step(p, f), fs + [f], ids + [StepId(p, f)])
    ensures IdsOf(Step(p, f).devices) == IdsOf(p.devices) && Step(p, f).nextId == p.nextId
    ensures Step(p, f).unmatched <= p.unmatched
  {
    var k := MatchIndex(p.devices, p.unmatched, KeyOf(f));
    var x := p.devices[k].id;
    var d := p.devices[k := Describe(x, f)];
    var q := Pass(d, p.unmatched - {x}, p.nextId);
    assert Step(p, f) == q && StepId(p, f) == x;
    var fs', ids' := fs + [f], ids + [x];
    ReplaceShape(p.devices, p.nextId, k, Describe(x, f));
    assert x !in ids;
    assert IdsOf(d) == SetOf(ids') + q.unmatched by {
      DistinctAppend(ids, x);
    }
    MatchedSynced(p.devices, p.unmatched, k, fs, ids, f);
    MatchedGuard(p.devices, p.unmatched, k, fs, ids, f);
    DistinctAppend(ids, x);
    assert forall i :: 0 <= i < |ids'| ==> ids'[i] !in q.unmatched;
  }

  lemma CreatedGuard(devs: seq<BlockDevice>, unmatched: set<nat>, n: nat, fs: seq<BlockInfo>, ids: seq<nat>, f: BlockInfo)
    requires |ids| == |fs| && unmatched <= IdsOf(devs) && Below(devs, n)
    requires Guarded(devs, unmatched, fs, ids)
    requires MatchIndex(devs, unmatched, KeyOf(f)) == |devs|
    ensures Guarded(devs + [Describe(n, f)], unmatched, fs + [f], ids + [n])
  {
    var d := devs + [Describe(n, f)];
    var fs', ids' := fs + [f], ids + [n];
    forall i, t | 0 <= i < |ids'| && 0 <= t < |d| && Candidate(d[t], unmatched, KeyOf(fs'[i]))
      ensures ids'[i] < d[t].id
    {
      if t == |devs| {
        IdsBelow(devs, n, n);
      }
      assert d[t] == devs[t];
      if i < |ids| {
        assert fs'[i] == fs[i] && ids'[i] == ids[i];
      }
    }
  }

  lemma CreatedSynced(devs: seq<BlockDevice>, n: nat, fs: seq<BlockInfo>, ids: seq<nat>, f: BlockInfo)
    requires Below(devs, n) && Synced(devs, fs, ids)
    ensures Synced(devs + [Describe(n, f)], fs + [f], ids + [n])
  {
    forall i | 0 <= i < |ids| ensures ids[i] < n {
      assert Describes(devs, ids[i], fs[i]);
      IdsBelow(devs, n, ids[i]);
    }
    AppendDescribes(devs, n, fs, ids, f);
    DistinctAppend(ids, n);
    var fs', ids' := fs + [f], ids + [n];
    forall i, j | 0 <= i < j < |ids'| && KeyOf(fs'[i]) == KeyOf(fs'[j]) ensures ids'[i] < ids'[j] {
      assert ids'[i] == ids[i];
      if j < |ids| {
        assert fs'[i] == fs[i] && fs'[j] == fs[j] && ids'[j] == ids[j];
      }
    }
  }

  /** Appending a device whose id is the bound keeps the list sorted and below the next
      bound, and adds that id. */
  lemma AppendShape(devs: seq<BlockDevice>, n: nat, v: BlockDevice)
    requires Sorted(devs) && Below(devs, n) && v.id == n
    ensures Sorted(devs + [v]) && Below(devs + [v], n + 1) && IdsOf(devs + [v]) == IdsOf(devs) + {n}
  {
    assert forall t :: 0 <= t < |devs| ==> (devs + [v])[t] == devs[t];
    AppendIds(devs, v);
  }

  lemma StepCreated(p: Pass, fs: seq<BlockInfo>, ids: seq<nat>, f: BlockInfo)
    requires Progress(p, fs, ids)
    requires MatchIndex(p.devices, p.unmatched, KeyOf(f)) == |p.devices|
    ensures Progress(Step(p, f), fs + [f], ids + [StepId(p, f)])
    ensures IdsOf(Step(p, f).devices) == IdsOf(p.devices) + {p.nextId}
    ensures Step(p, f).nextId == p.nextId + 1 && Step(p, f).unmatched == p.unmatched
  {
    var n := p.nextId;
    var d := p.devices + [Describe(n, f)];
    var q := Pass(d, p.unmatched, n + 1);
    assert Step(p, f) == q && StepId(p, f) == n;
    var fs', ids' := fs + [f], ids + [n];
    AppendShape(p.devices, n, Describe(n, f));
    assert n !in p.unmatched by {
      if n in p.unmatched {
        IdsBelow(p.devices, n, n);
      }
    }
    assert IdsOf(d) == SetOf(ids') + q.unmatched by {
      DistinctAppend(ids, n);
    }
    CreatedSynced(p.devices, n, fs, ids, f);
    CreatedGuard(p.devices, p.unmatched, n, fs, ids, f);
    DistinctAppend(ids, n);
    assert forall i :: 0 <= i < |ids'| ==> ids'[i] !in q.unmatched;
  }

  lemma StepProgress(p: Pass, fs: seq<BlockInfo>, ids: seq<nat>, f: BlockInfo)
    requires Progress(p, fs, ids)
    ensures Progress(Step(p, f), fs + [f], ids + [StepId(p, f)])
    ensures IdsOf(p.devices) <= IdsOf(Step(p, f).devices)
    ensures p.nextId <= Step(p, f).nextId && Step(p, f).unmatched <= p.unmatched
  {
    if MatchIndex(p.devices, p.unmatched, KeyOf(f)) < |p.devices| {
      StepMatched(p, fs, ids, f);
    } else {
      StepCreated(p, fs, ids, f);
    }
  }

  lemma ProgressAtStart(s: Storage)
    requires Sorted(s.devices) && Below(s.devices, s.nextId)
    ensures Progress(Start(s), [], [])
  {
    assert SetOf([]) == {};
  }

  lemma {:induction false} FoldProgress(s: Storage, fs: seq<BlockInfo>)
    requires Sorted(s.devices) && Below(s.devices, s.nextId)
    ensures var p := Fold(Start(s), fs);
            && Progress(p, fs, Assigned(Start(s), fs))
            && IdsOf(s.devices) <= IdsOf(p.devices)
            && s.nextId <= p.nextId
            && p.unmatched <= IdsOf(s.devices)
    decreases |fs|
  {
    if fs == [] {
      ProgressAtStart(s);
    } else {
      var init, last := fs[..|fs| - 1], fs[|fs| - 1];
      var p := Fold(Start(s), init);
      var ids := Assigned(Start(s), init);
      FoldProgress(s, init);
      StepProgress(p, init, ids, last);
      FoldStep(Start(s), fs);
    }
  }

  lemma FoldStep(p0: Pass, fs: seq<BlockInfo>)
    requires fs != []
    ensures var init, last := fs[..|fs| - 1], fs[|fs| - 1];
            && fs == init + [last]
            && Fold(p0, fs) == Step(Fold(p0, init), last)
            && Assigned(p0, fs) == Assigned(p0, init) + [StepId(Fold(p0, init), last)]
  {
  }

  /** One more entry of the same list is one more step of the pass. */
  lemma FoldPrefix(p0: Pass, fs: seq<BlockInfo>, i: nat)
    requires i < |fs|
    ensures Fold(p0, fs[..i + 1]) == Step(Fold(p0, fs[..i]), fs[i])
  {
    var pre := fs[..i + 1];
    assert pre[..i] == fs[..i];
    assert pre[i] == fs[i];
  }

  lemma InIds(devs: seq<BlockDevice>, d: BlockDevice)
    requires d in devs
    ensures d.id in IdsOf(devs)
  {
    var t :| 0 <= t < |devs| && devs[t] == d;
  }

  lemma KeepDescribes(devs: seq<BlockDevice>, gone: set<nat>, x: nat, f: BlockInfo)
    requires Describes(devs, x, f) && x !in gone
    ensures Describes(Keep(devs, gone), x, f)
  {
    var r := Keep(devs, gone);
    KeepIds(devs, gone);
    forall t | 0 <= t < |r| && r[t].id == x ensures r[t] == Describe(x, f) {
      assert r[t] in devs;
      var u :| 0 <= u < |devs| && devs[u] == r[t];
    }
  }

  lemma {:induction false} KeepNothing(devs: seq<BlockDevice>)
    ensures Keep(devs, {}) == devs
  {
    if devs != [] {
      KeepNothing(devs[1..]);
      assert devs == [devs[0]] + devs[1..];
    }
  }

  /** Deleting the devices left unmatched keeps exactly the devices the entries took. */
  lemma KeepSynced(p: Pass, fs: seq<BlockInfo>, ids: seq<nat>)
    requires Progress(p, fs, ids)
    ensures var d := Keep(p.devices, p.unmatched);
            Sorted(d) && Below(d, p.nextId) && Synced(d, fs, ids) && IdsOf(d) == SetOf(ids)
  {
    var d := Keep(p.devices, p.unmatched);
    KeepSorted(p.devices, p.unmatched);
    KeepIds(p.devices, p.unmatched);
    forall t | 0 <= t < |d| ensures d[t].id < p.nextId {
      assert d[t] in p.devices;
    }
    forall i | 0 <= i < |ids| ensures Describes(d, ids[i], fs[i]) {
      KeepDescribes(p.devices, p.unmatched, ids[i], fs[i]);
    }
  }

  /** After a reconciliation the node is in step with the admitted report: entry `i` sits on
      the device with id `Assigned(..)[i]`, and the node has no other device. */
  lemma ReconcileSynced(s: Storage, report: seq<BlockInfo>)
    requires Valid(s)
    ensures var r := Reconcile(s, report);
            var fs := Admitted(report);
            var ids := Assigned(Start(s), fs);
            && Valid(r) && s.nextId <= r.nextId
            && Synced(r.devices, fs, ids)
            && IdsOf(r.devices) == SetOf(ids)
            && (forall x :: x in IdsOf(r.devices) ==> x in IdsOf(s.devices) || s.nextId <= x)
  {
    var fs := Admitted(report);
    var p := Fold(Start(s), fs);
    var ids := Assigned(Start(s), fs);
    var r := Reconcile(s, report);
    FoldProgress(s, fs);
    KeepSynced(p, fs, ids);
    assert r.devices == Keep(p.devices, p.unmatched) && r.nextId == p.nextId;
    forall x | x in IdsOf(r.devices) ensures x in IdsOf(s.devices) || s.nextId <= x {
      FreshOrOld(s, fs, x);
    }
  }

  /** Ids on the node after a pass are previous ones or newly allocated ones. */
  lemma {:induction false} FreshOrOld(s: Storage, fs: seq<BlockInfo>, x: nat)
    requires Sorted(s.devices) && Below(s.devices, s.nextId)
    requires x in IdsOf(Fold(Start(s), fs).devices)
    ensures x in IdsOf(s.devices) || s.nextId <= x
    decreases |fs|
  {
    if fs != [] {
      var init, last := fs[..|fs| - 1], fs[|fs| - 1];
      var p := Fold(Start(s), init);
      FoldProgress(s, init);
      var k := MatchIndex(p.devices, p.unmatched, KeyOf(last));
      if k < |p.devices| {
        ReplaceKeepsIds(p.devices, k, Describe(p.devices[k].id, last));
      } else {
        AppendIds(p.devices, Describe(p.nextId, last));
      }
      if x in IdsOf(p.devices) {
        FreshOrOld(s, init, x);
      }
    }
  }

  /** In a node in step with the report, the first candidate for entry `j`, among the
      devices of entries `j` onwards, is entry `j`'s own device. */
  lemma SyncedMatch(devs: seq<BlockDevice>, fs: seq<BlockInfo>, ids: seq<nat>, j: nat, t: nat)
    requires Sorted(devs) && Synced(devs, fs, ids) && j < |fs|
    requires t < |devs| && devs[t].id == ids[j]
    ensures MatchIndex(devs, SetOf(ids[j..]), KeyOf(fs[j])) == t
  {
    var u := SetOf(ids[j..]);
    var x, f := ids[j], fs[j];
    assert Describes(devs, x, f);
    assert devs[t] == Describe(x, f);
    assert x in ids[j..];
    assert Candidate(devs[t], u, KeyOf(f));
    forall i | 0 <= i < t && devs[i].id in u ensures !Candidate(devs[i], u, KeyOf(f)) {
      EarlierKeyDiffers(devs, fs, ids, j, t, i);
    }
  }

  /** A device before entry `j`'s own one that belongs to a later entry has another identity. */
  lemma EarlierKeyDiffers(devs: seq<BlockDevice>, fs: seq<BlockInfo>, ids: seq<nat>, j: nat, t: nat, i: nat)
    requires Sorted(devs) && Synced(devs, fs, ids) && j < |fs|
    requires t < |devs| && devs[t].id == ids[j]
    requires i < t && devs[i].id in SetOf(ids[j..])
    ensures DeviceKey(devs[i]) != KeyOf(fs[j])
  {
    var m :| 0 <= m < |ids[j..]| && ids[j..][m] == devs[i].id;
    var jj := j + m;
    assert ids[jj] == devs[i].id;
    assert Describes(devs, ids[jj], fs[jj]);
    assert devs[i] == Describe(ids[jj], fs[jj]);
    assert ids[jj] < ids[j] && j <= jj;
  }

  lemma SyncedStep(devs: seq<BlockDevice>, n: nat, fs: seq<BlockInfo>, ids: seq<nat>, j: nat)
    requires Sorted(devs) && Synced(devs, fs, ids) && j < |fs|
    ensures Step(Pass(devs, SetOf(ids[j..]), n), fs[j]) == Pass(devs, SetOf(ids[j + 1..]), n)
  {
    var x, f := ids[j], fs[j];
    assert Describes(devs, x, f);
    var t :| 0 <= t < |devs| && devs[t].id == x;
    SyncedMatch(devs, fs, ids, j, t);
    assert devs[t] == Describe(x, f);
    assert devs[t := Describe(x, f)] == devs;
    SetOfDrop(ids, j);
  }

  lemma SetOfDrop(ids: seq<nat>, j: nat)
    requires Distinct(ids) && j < |ids|
    ensures SetOf(ids[j..]) - {ids[j]} == SetOf(ids[j + 1..])
  {
    assert ids[j..] == [ids[j]] + ids[j + 1..];
    assert ids[j] !in ids[j + 1..];
  }

  /** A node in step with the report: the pass over entries `fs[..j]` matches each entry to
      its own device, changing nothing. */
  lemma {:induction false} SyncedFold(devs: seq<BlockDevice>, n: nat, fs: seq<BlockInfo>, ids: seq<nat>, j: nat)
    requires Sorted(devs) && Synced(devs, fs, ids) && IdsOf(devs) == SetOf(ids) && j <= |fs|
    ensures Fold(Pass(devs, IdsOf(devs), n), fs[..j]) == Pass(devs, SetOf(ids[j..]), n)
    decreases j
  {
    if j == 0 {
      assert fs[..0] == [];
      assert ids[0..] == ids;
    } else {
      SyncedFold(devs, n, fs, ids, j - 1);
      assert fs[..j][..j - 1] == fs[..j - 1];
      assert fs[..j][j - 1] == fs[j - 1];
      SyncedStep(devs, n, fs, ids, j - 1);
    }
  }

  // ---------------------------------------------------------------------------
  // What reconciliation guarantees

  /** Applying the same report again changes nothing: the same devices with the same ids,
      the same boot disk, no id allocated. */
  lemma ReconcileIdempotent(s: Storage, report: seq<BlockInfo>)
    requires Valid(s)
    ensures Reconcile(Reconcile(s, report), report) == Reconcile(s, report)
  {
    var r := Reconcile(s, report);
    var fs := Admitted(report);
    ReconcileSynced(s, report);
    SyncedFixpoint(r, fs, Assigned(Start(s), fs));
    KeepNothing(r.devices);
  }

  /** A node in step with the entries is a fixpoint of the pass over them. */
  lemma SyncedFixpoint(r: Storage, fs: seq<BlockInfo>, ids: seq<nat>)
    requires Sorted(r.devices) && Synced(r.devices, fs, ids) && IdsOf(r.devices) == SetOf(ids)
    ensures Fold(Start(r), fs) == Pass(r.devices, {}, r.nextId)
  {
    SyncedFold(r.devices, r.nextId, fs, ids, |fs|);
    assert fs[..|fs|] == fs;
    assert ids[|fs|..] == [];
  }

  /** Reconciliation keeps the store's invariant, allocates ids upwards, and keeps every
      surviving previous device under its id. */
  lemma ReconcileValid(s: Storage, report: seq<BlockInfo>)
    requires Valid(s)
    ensures var r := Reconcile(s, report);
            && Valid(r) && s.nextId <= r.nextId
            && (forall x :: x in IdsOf(r.devices) ==> x in IdsOf(s.devices) || s.nextId <= x)
  {
    ReconcileSynced(s, report);
  }

  /** Only admitted entries become devices, and each one carries its entry's fields, the
      fallback id path and the recomputed tags. */
  lemma StoredDevicesAreAdmitted(s: Storage, report: seq<BlockInfo>)
    requires Valid(s)
    ensures forall d :: d in Reconcile(s, report).devices ==>
              && d.size >= MIN_BLOCK_DEVICE_SIZE && !IsLoopPath(d.idPath)
              && exists f :: f in report && Eligible(f) && d == Describe(d.id, f)
  {
    var r := Reconcile(s, report);
    var fs := Admitted(report);
    var ids := Assigned(Start(s), fs);
    ReconcileSynced(s, report);
    forall d | d in r.devices
      ensures d.size >= MIN_BLOCK_DEVICE_SIZE && !IsLoopPath(d.idPath)
      ensures exists f :: f in report && Eligible(f) && d == Describe(d.id, f)
    {
      InIds(r.devices, d);
      assert d.id in SetOf(ids);
      var i :| 0 <= i < |ids| && ids[i] == d.id;
      assert Describes(r.devices, ids[i], fs[i]);
      var t :| 0 <= t < |r.devices| && r.devices[t] == d;
      assert d == Describe(d.id, fs[i]);
      assert fs[i] in fs;
    }
  }

  /** Every admitted entry is stored, as one device that it describes. */
  /** Every stored device has the id path and tags of an admitted entry, by the fallback
      and tag rules. */
  lemma StoredPathsAndTags(s: Storage, report: seq<BlockInfo>)
    requires Valid(s)
    ensures forall d :: d in Reconcile(s, report).devices ==>
              exists f :: f in report && Eligible(f) && d.name == f.name
                          && d.idPath == EffectiveIdPath(f) && d.tags == Tags(f)
  {
    StoredDevicesAreAdmitted(s, report);
    forall d | d in Reconcile(s, report).devices
      ensures exists f :: f in report && Eligible(f) && d.name == f.name
                          && d.idPath == EffectiveIdPath(f) && d.tags == Tags(f)
    {
      var f :| f in report && Eligible(f) && d == Describe(d.id, f);
      DescribeFields(d.id, f);
    }
  }

  /** An admitted entry with an empty id path is stored under "/dev/<NAME>"; one with an id
      path is stored under that path. */
  lemma StoredIdPaths(s: Storage, report: seq<BlockInfo>)
    requires Valid(s)
    ensures forall f :: f in Admitted(report) && f.idPath == "" ==>
              exists d :: d in Reconcile(s, report).devices && d.name == f.name
                          && d.idPath == "/dev/" + f.name
    ensures forall f :: f in Admitted(report) && f.idPath != "" ==>
              exists d :: d in Reconcile(s, report).devices && d.name == f.name
                          && d.idPath == f.idPath
  {
    AdmittedEntriesAreStored(s, report);
    forall f | f in Admitted(report)
      ensures exists d :: d in Reconcile(s, report).devices && d.name == f.name
                          && d.idPath == EffectiveIdPath(f)
    {
      var d :| d in Reconcile(s, report).devices && d == Describe(d.id, f);
      DescribeFields(d.id, f);
    }
  }

  lemma AdmittedEntriesAreStored(s: Storage, report: seq<BlockInfo>)
    requires Valid(s)
    ensures forall f :: f in report && Eligible(f) ==>
              exists d :: d in Reconcile(s, report).devices && d == Describe(d.id, f)
  {
    var r := Reconcile(s, report);
    var fs := Admitted(report);
    var ids := Assigned(Start(s), fs);
    ReconcileSynced(s, report);
    forall f | f in report && Eligible(f)
      ensures exists d :: d in r.devices && d == Describe(d.id, f)
    {
      assert f in fs;
      var i :| 0 <= i < |fs| && fs[i] == f;
      assert Describes(r.devices, ids[i], f);
      var t :| 0 <= t < |r.devices| && r.devices[t].id == ids[i];
      assert r.devices[t] in r.devices;
    }
  }

  /** The boot disk stays exactly when its device survives, and is cleared otherwise. */
  lemma BootDiskFollowsItsDevice(s: Storage, report: seq<BlockInfo>)
    requires Valid(s) && s.bootDisk.Some?
    ensures var r := Reconcile(s, report);
            && (r.bootDisk == s.bootDisk <==> s.bootDisk.value in IdsOf(r.devices))
            && (r.bootDisk == None <==> s.bootDisk.value !in IdsOf(r.devices))
  {
    var fs := Admitted(report);
    var p := Fold(Start(s), fs);
    FoldProgress(s, fs);
    KeepIds(p.devices, p.unmatched);
  }

  lemma NoIdsNoDevices(devs: seq<BlockDevice>)
    ensures IdsOf(devs) == {} ==> devs == []
  {
    if devs != [] {
      assert devs[0].id in IdsOf(devs);
    }
  }

  /** An empty report deletes all of the node's devices and clears its boot disk. */
  lemma EmptyReportRemovesAll(s: Storage)
    requires Valid(s)
    ensures Reconcile(s, []) == Storage([], None, s.nextId)
  {
    var r := Keep(s.devices, IdsOf(s.devices));
    KeepIds(s.devices, IdsOf(s.devices));
    NoIdsNoDevices(r);
  }

  /** The devices a node without any gets: entry `i` becomes device `n + i`. */
  function Fresh(n: nat, fs: seq<BlockInfo>): (r: seq<BlockDevice>)
    ensures |r| == |fs|
    decreases |fs|
  {
    if fs == [] then [] else Fresh(n, fs[..|fs| - 1]) + [Describe(n + |fs| - 1, fs[|fs| - 1])]
  }

  /** Entry i becomes device n + i. */
  lemma {:induction false} FreshAt(n: nat, fs: seq<BlockInfo>)
    ensures forall i :: 0 <= i < |fs| ==> Fresh(n, fs)[i] == Describe(n + i, fs[i])
    decreases |fs|
  {
    if fs != [] {
      var init := fs[..|fs| - 1];
      FreshAt(n, init);
      assert forall i :: 0 <= i < |init| ==> Fresh(n, fs)[i] == Fresh(n, init)[i];
    }
  }

  lemma {:induction false} FoldFresh(n: nat, fs: seq<BlockInfo>)
    ensures Fold(Pass([], {}, n), fs) == Pass(Fresh(n, fs), {}, n + |fs|)
    decreases |fs|
  {
    if fs != [] {
      FoldFresh(n, fs[..|fs| - 1]);
    }
  }

  /** A node with no devices gets one per admitted entry, in report order, with consecutive
      new ids: listing by id gives the report order. */
  lemma NewDevicesInReportOrder(s: Storage, report: seq<BlockInfo>)
    requires s.devices == []
    ensures var r := Reconcile(s, report);
            var fs := Admitted(report);
            && |r.devices| == |fs| && r.nextId == s.nextId + |fs| && r.bootDisk == s.bootDisk
            && forall i :: 0 <= i < |fs| ==> r.devices[i] == Describe(s.nextId + i, fs[i])
  {
    ReconcileFresh(s, report);
    FreshAt(s.nextId, Admitted(report));
  }

  /** On a node with no devices the reconciliation only creates. */
  lemma ReconcileFresh(s: Storage, report: seq<BlockInfo>)
    requires s.devices == []
    ensures Reconcile(s, report) ==
            Storage(Fresh(s.nextId, Admitted(report)), s.bootDisk, s.nextId + |Admitted(report)|)
  {
    var fs := Admitted(report);
    assert IdsOf([]) == {};
    assert Start(s) == Pass([], {}, s.nextId);
    FoldFresh(s.nextId, fs);
    KeepNothing(Fresh(s.nextId, fs));
  }

  // ---------------------------------------------------------------------------
  // A matched device keeps its id

  /** So far the pass has left the previous devices of identity `key` alone: ids keep their
      positions, and the candidates for `key` are exactly those previous devices. */
  predicate Untouched(s: Storage, p: Pass, key: Key) {
    && |s.devices| <= |p.devices|
    && (forall t :: 0 <= t < |s.devices| ==> p.devices[t].id == s.devices[t].id)
    && (forall t :: 0 <= t < |p.devices| ==>
          (Candidate(p.devices[t], p.unmatched, key) <==> t < |s.devices| && DeviceKey(s.devices[t]) == key))
  }

  /** An entry of another identity leaves the devices of identity `key` alone. */
  lemma UntouchedStep(s: Storage, p: Pass, key: Key, f: BlockInfo)
    requires Untouched(s, p, key) && Sorted(p.devices) && KeyOf(f) != key
    ensures Untouched(s, Step(p, f), key)
  {
    var k := MatchIndex(p.devices, p.unmatched, KeyOf(f));
    var q := Step(p, f);
    if k < |p.devices| {
      var x := p.devices[k].id;
      assert q.devices == p.devices[k := Describe(x, f)] && q.unmatched == p.unmatched - {x};
      forall t | 0 <= t < |q.devices|
        ensures Candidate(q.devices[t], q.unmatched, key) <==> Candidate(p.devices[t], p.unmatched, key)
      {
        if t != k {
          assert p.devices[t].id != x;
        }
      }
    } else {
      assert q.devices == p.devices + [Describe(p.nextId, f)] && q.unmatched == p.unmatched;
    }
  }

  /** Before the first entry of identity `key`, the pass has left those devices alone. */
  lemma {:induction false} UntouchedFold(s: Storage, fs: seq<BlockInfo>, i: nat, key: Key)
    requires Valid(s) && i <= |fs|
    requires forall m :: 0 <= m < i ==> KeyOf(fs[m]) != key
    ensures Untouched(s, Fold(Start(s), fs[..i]), key)
    decreases i
  {
    if i == 0 {
      assert fs[..0] == [];
      forall t | 0 <= t < |s.devices| ensures s.devices[t].id in IdsOf(s.devices) { }
    } else {
      UntouchedFold(s, fs, i - 1, key);
      FoldPrefix(Start(s), fs, i - 1);
      FoldProgress(s, fs[..i - 1]);
      UntouchedStep(s, Fold(Start(s), fs[..i - 1]), key, fs[i - 1]);
    }
  }

  /** The id entry `j` takes is the one its own step picks. */
  lemma {:induction false} AssignedAt(p: Pass, fs: seq<BlockInfo>, j: nat)
    requires j < |fs|
    ensures Assigned(p, fs)[j] == StepId(Fold(p, fs[..j]), fs[j])
    decreases |fs|
  {
    var init := fs[..|fs| - 1];
    if j < |fs| - 1 {
      AssignedAt(p, init, j);
      assert init[..j] == fs[..j];
    } else {
      assert init == fs[..j];
    }
  }

  /** A previous device keeps its id: when it is the first previous device with the
      identity of an admitted entry, and no earlier admitted entry has that identity, the
      entry is stored on that device, under its old id. */
  lemma MatchedDeviceKeepsId(s: Storage, report: seq<BlockInfo>, j: nat, td: nat)
    requires Valid(s)
    requires j < |Admitted(report)| && td < |s.devices|
    requires DeviceKey(s.devices[td]) == KeyOf(Admitted(report)[j])
    requires forall t :: 0 <= t < td ==> DeviceKey(s.devices[t]) != KeyOf(Admitted(report)[j])
    requires forall m :: 0 <= m < j ==> KeyOf(Admitted(report)[m]) != KeyOf(Admitted(report)[j])
    ensures Describe(s.devices[td].id, Admitted(report)[j]) in Reconcile(s, report).devices
  {
    var fs := Admitted(report);
    var key := KeyOf(fs[j]);
    var x := s.devices[td].id;
    var p := Fold(Start(s), fs[..j]);
    UntouchedFold(s, fs, j, key);
    var k := MatchIndex(p.devices, p.unmatched, key);
    assert Candidate(p.devices[td], p.unmatched, key);
    assert k == td;
    AssignedAt(Start(s), fs, j);
    assert Assigned(Start(s), fs)[j] == x;
    ReconcileSynced(s, report);
    var r := Reconcile(s, report);
    assert Describes(r.devices, x, fs[j]);
    var u :| 0 <= u < |r.devices| && r.devices[u].id == x;
    assert r.devices[u] == Describe(x, fs[j]);
  }
}
