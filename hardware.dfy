/**
 * The hardware facts `update_hardware_details` derives from the lshw tree, as
 * src/metadataserver/models/tests/test_commissioningscript.py lines 302-384 pin them down:
 * the logical CPU count and the memory size in mebibytes. The XML is taken as already
 * parsed into a tree of elements.
 */
module Hardware {
  import opened Wrappers

  /** A `<setting id=".." value=".."/>` of an element's `<configuration>` block, with a
      numeric value. */
  datatype Setting = Setting(id: string, value: nat)

  /** A `<size units="..">N</size>` child. */
  datatype Size = Size(units: string, value: nat)

  /** An lshw `<node>` element: its attributes, its direct size child, its configuration
      settings and its child nodes. */
  datatype HwNode = HwNode(attrs: map<string, string>, size: Option<Size>, settings: seq<Setting>,
                           children: seq<HwNode>)

  /** An attribute's value, or "" when it is absent. */
  function Attr(n: HwNode, key: string): (v: string)
    ensures key in n.attrs ==> v == n.attrs[key]
    ensures key !in n.attrs ==> v == ""
  {
    if key in n.attrs then n.attrs[key] else ""
  }

  predicate IsProcessor(n: HwNode) {
    Attr(n, "class") == "processor"
  }

  /** A processor marked `disabled="true"` is switched off. Any other value of the attribute,
      or none, is read as enabled. */
  predicate IsEnabled(n: HwNode) {
    Attr(n, "disabled") != "true"
  }

  /** The value of the first "threads" setting, if there is one. */
  function Threads(settings: seq<Setting>): (r: Option<nat>)
    ensures r.None? <==> forall i :: 0 <= i < |settings| ==> settings[i].id != "threads"
    ensures r.Some? ==> exists i :: 0 <= i < |settings| && settings[i] == Setting("threads", r.value)
  {
    if settings == [] then None
    else if settings[0].id == "threads" then Some(settings[0].value)
    else
      var r := Threads(settings[1..]);
      assert r.Some? ==> exists i :: 0 <= i < |settings| - 1 && settings[1..][i] == Setting("threads", r.value);
      r
  }

  /** A memory element: class "memory", or the id "memory" that older lshw gives the
      single memory node. */
  predicate IsMemory(n: HwNode) {
    Attr(n, "class") == "memory" || Attr(n, "id") == "memory"
  }

  /** What is being totalled over the tree. */
  datatype Measure = LogicalCpus | MemoryBytes

  /** One element's own share: an enabled processor counts its threads, or 1 when it
      reports none; a memory element counts its direct size in bytes, if it has one. */
  function Weight(m: Measure, n: HwNode): nat {
    match m
    case LogicalCpus =>
      if IsProcessor(n) && IsEnabled(n) then Threads(n.settings).GetOr(1) else 0
    case MemoryBytes =>
      if IsMemory(n) && n.size.Some? && n.size.value.units == "bytes" then n.size.value.value else 0
  }

  /** The measure summed over an element and all its descendants. */
  function Total(m: Measure, t: HwNode): nat
    decreases t
  {
    Weight(m, t) + TotalOf(m, t.children)
  }

  function TotalOf(m: Measure, ts: seq<HwNode>): nat
    decreases ts
  {
    if ts == [] then 0 else Total(m, ts[0]) + TotalOf(m, ts[1..])
  }

  function CpuCount(t: HwNode): nat {
    Total(LogicalCpus, t)
  }

  const MEBIBYTE: nat := 1048576

  /** The memory in whole mebibytes, rounded down. */
  function MemoryMiB(t: HwNode): nat {
    Total(MemoryBytes, t) / MEBIBYTE
  }

  // ---------------------------------------------------------------------------
  // A reference definition: every element of the tree, listed

  /** The elements of the tree in document order. */
  function Elements(t: HwNode): (r: seq<HwNode>)
    ensures r != [] && r[0] == t
    decreases t
  {
    [t] + ElementsOf(t.children)
  }

  function ElementsOf(ts: seq<HwNode>): seq<HwNode>
    decreases ts
  {
    if ts == [] then [] else Elements(ts[0]) + ElementsOf(ts[1..])
  }

  function SumWeights(m: Measure, ns: seq<HwNode>): nat {
    if ns == [] then 0 else Weight(m, ns[0]) + SumWeights(m, ns[1..])
  }

  lemma {:induction false} SumWeightsAppend(m: Measure, a: seq<HwNode>, b: seq<HwNode>)
    ensures SumWeights(m, a + b) == SumWeights(m, a) + SumWeights(m, b)
  {
    if a != [] {
      assert (a + b)[1..] == a[1..] + b;
      SumWeightsAppend(m, a[1..], b);
    } else {
      assert a + b == b;
    }
  }

  /** The tree fold totals exactly the shares of the listed elements: every element counts
      once, nested or not (a grouping memory node without a size adds only its banks). */
  lemma {:induction false} TotalIsSumOverElements(m: Measure, t: HwNode)
    ensures Total(m, t) == SumWeights(m, Elements(t))
    decreases t
  {
    TotalOfIsSumOverElements(m, t.children);
    assert ([t] + ElementsOf(t.children))[1..] == ElementsOf(t.children);
  }

  lemma {:induction false} TotalOfIsSumOverElements(m: Measure, ts: seq<HwNode>)
    ensures TotalOf(m, ts) == SumWeights(m, ElementsOf(ts))
    decreases ts
  {
    if ts != [] {
      TotalIsSumOverElements(m, ts[0]);
      TotalOfIsSumOverElements(m, ts[1..]);
      SumWeightsAppend(m, Elements(ts[0]), ElementsOf(ts[1..]));
    }
  }

  lemma {:induction false} TotalOfAppend(m: Measure, a: seq<HwNode>, b: seq<HwNode>)
    ensures TotalOf(m, a + b) == TotalOf(m, a) + TotalOf(m, b)
  {
    if a != [] {
      assert (a + b)[1..] == a[1..] + b;
      TotalOfAppend(m, a[1..], b);
    } else {
      assert a + b == b;
    }
  }

  /** Adding a child subtree adds exactly that subtree's total; in particular a disabled
      processor with no children leaves the CPU count as it was. */
  lemma AddChild(m: Measure, t: HwNode, c: HwNode)
    ensures Total(m, t.(children := t.children + [c])) == Total(m, t) + Total(m, c)
    ensures IsProcessor(c) && !IsEnabled(c) && c.children == [] ==>
              CpuCount(t.(children := t.children + [c])) == CpuCount(t)
  {
    TotalOfAppend(m, t.children, [c]);
    TotalOfAppend(LogicalCpus, t.children, [c]);
    assert [c][1..] == [];
  }

  /** The enabled processors among `ns`. */
  function EnabledProcessors(ns: seq<HwNode>): (r: seq<HwNode>)
    ensures forall n :: n in r <==> n in ns && IsProcessor(n) && IsEnabled(n)
  {
    if ns == [] then []
    else (if IsProcessor(ns[0]) && IsEnabled(ns[0]) then [ns[0]] else []) + EnabledProcessors(ns[1..])
  }

  lemma {:induction false} UnitsCountProcessors(ns: seq<HwNode>)
    requires forall i :: 0 <= i < |ns| ==> Threads(ns[i].settings).None?
    ensures SumWeights(LogicalCpus, ns) == |EnabledProcessors(ns)|
  {
    if ns != [] {
      UnitsCountProcessors(ns[1..]);
    }
  }

  /** Without thread settings the CPU count is the number of enabled processor elements. */
  lemma CpuCountWithoutThreads(t: HwNode)
    requires forall n :: n in Elements(t) ==> Threads(n.settings).None?
    ensures CpuCount(t) == |EnabledProcessors(Elements(t))|
  {
    TotalIsSumOverElements(LogicalCpus, t);
    var ns := Elements(t);
    assert forall i :: 0 <= i < |ns| ==> ns[i] in ns;
    UnitsCountProcessors(ns);
  }

  // ---------------------------------------------------------------------------
  // The documented scenarios

  function Cpu(id: string): HwNode {
    HwNode(map["id" := id, "class" := "processor"], None, [], [])
  }

  function DisabledCpu(id: string): HwNode {
    HwNode(map["id" := id, "disabled" := "true", "class" := "processor"], None, [], [])
  }

  function Core(children: seq<HwNode>): HwNode {
    HwNode(map["id" := "core"], None, [], children)
  }

  function Bank(id: string, bytes: nat): HwNode {
    HwNode(map["id" := id, "class" := "memory"], Some(Size("bytes", bytes)), [], [])
  }

  lemma CoreCpus(cs: seq<HwNode>)
    requires forall i :: 0 <= i < |cs| ==> cs[i].children == []
    ensures CpuCount(Core(cs)) == SumWeights(LogicalCpus, cs)
  {
    TotalIsSumOverElements(LogicalCpus, Core(cs));
    LeafElements(cs);
    assert Elements(Core(cs)) == [Core(cs)] + cs;
  }

  lemma {:induction false} LeafElements(cs: seq<HwNode>)
    requires forall i :: 0 <= i < |cs| ==> cs[i].children == []
    ensures ElementsOf(cs) == cs
  {
    if cs != [] {
      LeafElements(cs[1..]);
      assert Elements(cs[0]) == [cs[0]];
    }
  }

  /** Two plain processors count 2. */
  lemma PlainCpusCount()
    ensures CpuCount(Core([Cpu("cpu:0"), Cpu("cpu:1")])) == 2
  {
    var c0, c1 := Cpu("cpu:0"), Cpu("cpu:1");
    assert Weight(LogicalCpus, c0) == 1 && Weight(LogicalCpus, c1) == 1;
    CoreCpus([c0, c1]);
  }

  /** One enabled and two disabled processors count 1. */
  lemma DisabledCpusNotCounted()
    ensures CpuCount(Core([Cpu("cpu:0"), DisabledCpu("cpu:1"), DisabledCpu("cpu:2")])) == 1
  {
    var c0, d1, d2 := Cpu("cpu:0"), DisabledCpu("cpu:1"), DisabledCpu("cpu:2");
    assert Weight(LogicalCpus, c0) == 1;
    assert Attr(d1, "disabled") == "true" && Attr(d2, "disabled") == "true";
    CoreCpus([c0, d1, d2]);
  }

  /** A processor reporting 2 cores, 2 enabled cores and 4 threads. */
  function ThreadedCpu(): HwNode {
    Cpu("cpu:0").(settings := [Setting("cores", 2), Setting("enabledcores", 2), Setting("threads", 4)])
  }

  /** Such a processor weighs its thread count, not its core count. */
  lemma ThreadedCpuWeight()
    ensures Weight(LogicalCpus, ThreadedCpu()) == 4
  {
    var t := ThreadedCpu();
    assert Attr(t, "class") == "processor" && Attr(t, "disabled") == "";
    assert t.settings[2] == Setting("threads", 4);
    assert Threads(t.settings) == Some(4);
  }

  /** A processor with 4 threads beside a plain one counts 5. */
  lemma ThreadsCounted()
    ensures CpuCount(Core([ThreadedCpu(), Cpu("cpu:1")])) == 5
  {
    var c1 := Cpu("cpu:1");
    ThreadedCpuWeight();
    assert Weight(LogicalCpus, c1) == 1;
    assert [ThreadedCpu(), c1][1..] == [c1];
    assert SumWeights(LogicalCpus, [c1]) == 1;
    CoreCpus([ThreadedCpu(), c1]);
  }

  /** A single memory node of 4294967296 bytes gives 4096 MiB; two grouping nodes holding
      banks of 4294967296, 3221225472 and 536870912 bytes, plus an empty one, give 7680. */
  lemma MemoryExamples()
    ensures MemoryMiB(HwNode(map["id" := "memory"], Some(Size("bytes", 4294967296)), [], [])) == 4096
    ensures var group0 := HwNode(map["id" := "memory:0", "class" := "memory"], None, [],
                                 [Bank("bank:0", 4294967296), Bank("bank:1", 3221225472)]);
            var group1 := HwNode(map["id" := "memory:1", "class" := "memory"], None, [],
                                 [Bank("bank:0", 536870912)]);
            var group2 := HwNode(map["id" := "memory:2", "class" := "memory"], None, [], []);
            MemoryMiB(HwNode(map[], None, [], [group0, group1, group2])) == 7680
  {
    var b0, b1, b2 := Bank("bank:0", 4294967296), Bank("bank:1", 3221225472), Bank("bank:0", 536870912);
    assert Total(MemoryBytes, b0) == 4294967296 && Total(MemoryBytes, b1) == 3221225472;
    assert Total(MemoryBytes, b2) == 536870912;
    var group0 := HwNode(map["id" := "memory:0", "class" := "memory"], None, [], [b0, b1]);
    var group1 := HwNode(map["id" := "memory:1", "class" := "memory"], None, [], [b2]);
    var group2 := HwNode(map["id" := "memory:2", "class" := "memory"], None, [], []);
    assert TotalOf(MemoryBytes, [b1]) == 3221225472;
    assert Total(MemoryBytes, group0) == 4294967296 + 3221225472;
    assert TotalOf(MemoryBytes, [b2]) == 536870912;
    assert Total(MemoryBytes, group1) == 536870912;
    assert Total(MemoryBytes, group2) == 0;
    var top := HwNode(map[], None, [], [group0, group1, group2]);
    assert TotalOf(MemoryBytes, [group2]) == 0;
    assert TotalOf(MemoryBytes, [group1, group2]) == 536870912;
    assert Total(MemoryBytes, top) == 8053063680;
  }
}
