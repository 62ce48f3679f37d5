/** Which pods the database says use which port: `getPortsMapping` of pkg/daemon/daemon.go. */
module Recovery {
  import opened PoolTypes

  const RESOURCE_TYPE_MULTIPLE_IP := "PortMultipleIp"

  datatype ResourceItem = ResourceItem(kind: string, id: string)

  /** What is stored for one pod. `pod` is the key of its PodInfo, or None where the stored PodInfo is nil. */
  datatype PodResources = PodResources(pod: Option<string>, resources: seq<ResourceItem>)

  /** The record AllocateIP writes for a pod that was given a port. */
  function RecordFor(pod: string, id: string): (r: PodResources) {
    PodResources(Some(pod), [ResourceItem(RESOURCE_TYPE_MULTIPLE_IP, id)])
  }

  /** The id allocatePortIP passes on: that of the record's only port, if it has exactly one. */
  function OldId(record: Option<PodResources>): (id: string) {
    if record.None? || record.value.pod.None? then ""
    else
      var ports := OfKind(record.value.resources, RESOURCE_TYPE_MULTIPLE_IP);
      if |ports| == 1 then ports[0].id else ""
  }

  lemma OldIdOfWritten(pod: string, id: string)
    ensures OldId(Some(RecordFor(pod, id))) == id
  {
    var x := ResourceItem(RESOURCE_TYPE_MULTIPLE_IP, id);
    OfKindAppend([], x, RESOURCE_TYPE_MULTIPLE_IP);
    assert [] + [x] == [x];
  }

  // ----- resources of one kind -----

  function OfKind(resources: seq<ResourceItem>, kind: string): (r: seq<ResourceItem>) {
    if resources == [] then []
    else
      var n := |resources| - 1;
      OfKind(resources[..n], kind) + (if resources[n].kind == kind then [resources[n]] else [])
  }

  lemma OfKindAppend(resources: seq<ResourceItem>, x: ResourceItem, kind: string)
    ensures OfKind(resources + [x], kind) == OfKind(resources, kind) + (if x.kind == kind then [x] else [])
  {
    assert (resources + [x])[..|resources|] == resources;
  }

  /** Exactly the resources of the kind, each as often as it occurs. */
  lemma {:induction false} OfKindFilters(resources: seq<ResourceItem>, kind: string, x: ResourceItem)
    ensures multiset(OfKind(resources, kind))[x] == if x.kind == kind then multiset(resources)[x] else 0
  {
    if resources != [] {
      var n := |resources| - 1;
      OfKindFilters(resources[..n], kind, x);
      assert resources == resources[..n] + [resources[n]];
    }
  }

  /** The resource at i is the only one of its kind. */
  ghost predicate OnlyAt(resources: seq<ResourceItem>, i: nat, kind: string)
    requires i < |resources|
  {
    resources[i].kind == kind && forall j | 0 <= j < |resources| && j != i :: resources[j].kind != kind
  }

  lemma {:induction false} NoneOfKind(resources: seq<ResourceItem>, kind: string)
    ensures OfKind(resources, kind) == [] <==> forall j | 0 <= j < |resources| :: resources[j].kind != kind
  {
    if resources != [] {
      var n := |resources| - 1;
      NoneOfKind(resources[..n], kind);
      assert forall j | 0 <= j < n :: resources[..n][j] == resources[j];
    }
  }

  lemma {:induction false} OnlyOfKind(resources: seq<ResourceItem>, kind: string, i: nat)
    requires i < |resources| && OnlyAt(resources, i, kind)
    ensures OfKind(resources, kind) == [resources[i]]
  {
    var n := |resources| - 1;
    if i == n {
      NoneOfKind(resources[..n], kind);
    } else {
      assert OnlyAt(resources[..n], i, kind);
      OnlyOfKind(resources[..n], kind, i);
    }
  }

  lemma {:induction false} OneOfKind(resources: seq<ResourceItem>, kind: string) returns (i: nat)
    requires |OfKind(resources, kind)| == 1
    ensures i < |resources| && OnlyAt(resources, i, kind)
  {
    var n := |resources| - 1;
    if resources[n].kind == kind {
      NoneOfKind(resources[..n], kind);
      i := n;
    } else {
      i := OneOfKind(resources[..n], kind);
    }
  }

  /** The record has one port of the kind the daemon allocates, and this is it. */
  ghost predicate OnlyPort(record: PodResources, id: string) {
    record.pod.Some?
    && exists i | 0 <= i < |record.resources| ::
      OnlyAt(record.resources, i, RESOURCE_TYPE_MULTIPLE_IP) && record.resources[i].id == id
  }

  /** allocatePortIP passes on that port, and nothing where there is no such port. */
  lemma OldIdIsOnlyPort(record: PodResources, id: string)
    ensures OnlyPort(record, id) ==> OldId(Some(record)) == id
    ensures id != "" && OldId(Some(record)) == id ==> OnlyPort(record, id)
  {
    if OnlyPort(record, id) {
      var i :| 0 <= i < |record.resources| && OnlyAt(record.resources, i, RESOURCE_TYPE_MULTIPLE_IP)
               && record.resources[i].id == id;
      OnlyOfKind(record.resources, RESOURCE_TYPE_MULTIPLE_IP, i);
    } else if id != "" && OldId(Some(record)) == id {
      var i := OneOfKind(record.resources, RESOURCE_TYPE_MULTIPLE_IP);
      OnlyOfKind(record.resources, RESOURCE_TYPE_MULTIPLE_IP, i);
    }
  }

  lemma OnlyPortOfWritten(pod: string, id: string)
    ensures OnlyPort(RecordFor(pod, id), id)
  {
    assert OnlyAt(RecordFor(pod, id).resources, 0, RESOURCE_TYPE_MULTIPLE_IP);
  }

  /** Their order is kept: what comes from a first part comes first. */
  lemma {:induction false} OfKindInOrder(a: seq<ResourceItem>, b: seq<ResourceItem>, kind: string)
    ensures OfKind(a + b, kind) == OfKind(a, kind) + OfKind(b, kind)
  {
    if b == [] {
      assert a + b == a;
    } else {
      var n := |b| - 1;
      OfKindInOrder(a, b[..n], kind);
      OfKindAppend(a + b[..n], b[n], kind);
      assert a + b == a + b[..n] + [b[n]];
    }
  }

  method GetResourceItemByType(resources: seq<ResourceItem>, kind: string) returns (ret: seq<ResourceItem>)
    ensures ret == OfKind(resources, kind)
  {
    ret := [];
    for i := 0 to |resources|
      invariant ret == OfKind(resources[..i], kind)
    {
      assert resources[..i + 1][..i] == resources[..i];
      if resources[i].kind == kind {
        ret := ret + [resources[i]];
      }
    }
    assert resources[..|resources|] == resources;
  }

  // ----- the inverse -----

  /** The pod as the mapping names it; a record without one never gets this far. */
  function PodKey(record: PodResources): (key: string) {
    if record.pod.Some? then record.pod.value else ""
  }

  /** One entry per resource with the id. */
  function NamedBy(resources: seq<ResourceItem>, pod: string, id: string): (r: seq<string>) {
    if resources == [] then []
    else
      var n := |resources| - 1;
      NamedBy(resources[..n], pod, id) + (if resources[n].id == id then [pod] else [])
  }

  /** The pods whose records name the port, in the order of the records. */
  function Namers(records: seq<PodResources>, id: string): (r: seq<string>) {
    if records == [] then []
    else
      var n := |records| - 1;
      Namers(records[..n], id) + NamedBy(records[n].resources, PodKey(records[n]), id)
  }

  /** The mapping holds exactly the named ports, each with all who name it. */
  ghost predicate Inverts(m: map<string, seq<string>>, records: seq<PodResources>) {
    && (forall id :: id in m <==> Namers(records, id) != [])
    && (forall id | id in m :: m[id] == Namers(records, id))
  }

  ghost predicate InvertsPart(m: map<string, seq<string>>, records: seq<PodResources>,
                              pod: string, part: seq<ResourceItem>) {
    && (forall id :: id in m <==> Namers(records, id) + NamedBy(part, pod, id) != [])
    && (forall id | id in m :: m[id] == Namers(records, id) + NamedBy(part, pod, id))
  }

  /** Logging a record reads through its PodInfo and, for a pod that is gone, its first resource. */
  predicate LogPanics(record: PodResources, podsUsage: set<string>) {
    record.pod.None? || (record.pod.value !in podsUsage && record.resources == [])
  }

  method AddRecord(m0: map<string, seq<string>>, record: PodResources, ghost records: seq<PodResources>)
    returns (m: map<string, seq<string>>)
    requires Inverts(m0, records) && record.pod.Some?
    ensures Inverts(m, records + [record])
  {
    m := m0;
    var pod := record.pod.value;
    NoneAdded(m0, records, pod);
    assert record.resources[..0] == [];
    hide Inverts, InvertsPart;
    for j := 0 to |record.resources|
      invariant InvertsPart(m, records, pod, record.resources[..j])
    {
      var port := record.resources[j];
      var before := if port.id in m then m[port.id] else [];
      OneAdded(m, records, pod, record.resources[..j], port);
      assert record.resources[..j + 1] == record.resources[..j] + [port];
      m := m[port.id := before + [pod]];
    }
    assert record.resources[..|record.resources|] == record.resources;
    AllAdded(m, records, record);
  }

  lemma NoneAdded(m: map<string, seq<string>>, records: seq<PodResources>, pod: string)
    requires Inverts(m, records)
    ensures InvertsPart(m, records, pod, [])
  {
    assert forall id :: Namers(records, id) + NamedBy([], pod, id) == Namers(records, id);
  }

  lemma OneAdded(m: map<string, seq<string>>, records: seq<PodResources>, pod: string, part: seq<ResourceItem>,
                 x: ResourceItem)
    requires InvertsPart(m, records, pod, part)
    ensures InvertsPart(m[x.id := (if x.id in m then m[x.id] else []) + [pod]], records, pod, part + [x])
  {
    forall id
      ensures NamedBy(part + [x], pod, id) == NamedBy(part, pod, id) + (if x.id == id then [pod] else [])
    {
      assert (part + [x])[..|part|] == part;
    }
    hide NamedBy, Namers;
  }

  lemma AllAdded(m: map<string, seq<string>>, records: seq<PodResources>, record: PodResources)
    requires record.pod.Some? && InvertsPart(m, records, record.pod.value, record.resources)
    ensures Inverts(m, records + [record])
  {
    assert (records + [record])[..|records|] == records;
    assert forall id ::
        Namers(records + [record], id) == Namers(records, id) + NamedBy(record.resources, PodKey(record), id);
  }

  /** The nested loops of getPortsMapping, over the records in the order List returns them. */
  method GetPortsMapping(podsUsage: set<string>, resObjList: seq<PodResources>)
    returns (r: Result<map<string, seq<string>>>)
    ensures r.Ok? ==> Inverts(r.value, resObjList)
    ensures r.Ok? <==> forall i | 0 <= i < |resObjList| :: !LogPanics(resObjList[i], podsUsage)
    ensures r.Err? ==> r.error == Panic
  {
    var portPodMapping := map[];
    assert Inverts(portPodMapping, []) && resObjList[..0] == [];
    hide Inverts;
    for i := 0 to |resObjList|
      invariant Inverts(portPodMapping, resObjList[..i])
      invariant forall k | 0 <= k < i :: !LogPanics(resObjList[k], podsUsage)
    {
      var mapping := resObjList[i];
      if mapping.pod.None? {
        return Err(Panic);
      }
      if mapping.pod.value !in podsUsage && |mapping.resources| == 0 {
        return Err(Panic);
      }
      portPodMapping := AddRecord(portPodMapping, mapping, resObjList[..i]);
      assert resObjList[..i] + [mapping] == resObjList[..i + 1];
    }
    assert resObjList[..|resObjList|] == resObjList;
    return Ok(portPodMapping);
  }

  // ----- with multiplicity -----

  function Mentions(resources: seq<ResourceItem>, id: string): (r: nat) {
    if resources == [] then 0
    else Mentions(resources[..|resources| - 1], id) + (if resources[|resources| - 1].id == id then 1 else 0)
  }

  /** How often the records of the pod name the port. */
  function Uses(records: seq<PodResources>, pod: string, id: string): (r: nat) {
    if records == [] then 0
    else
      var n := |records| - 1;
      Uses(records[..n], pod, id) + (if PodKey(records[n]) == pod then Mentions(records[n].resources, id) else 0)
  }

  lemma {:induction false} NamedByCounts(resources: seq<ResourceItem>, pod: string, id: string, p: string)
    ensures multiset(NamedBy(resources, pod, id))[p] == if p == pod then Mentions(resources, id) else 0
  {
    if resources != [] {
      NamedByCounts(resources[..|resources| - 1], pod, id, p);
    }
  }

  /** The port lists each pod exactly as often as the records of the pod name the port. */
  lemma {:induction false} NamersCount(records: seq<PodResources>, id: string, p: string)
    ensures multiset(Namers(records, id))[p] == Uses(records, p, id)
  {
    if records != [] {
      var n := |records| - 1;
      NamersCount(records[..n], id, p);
      NamedByCounts(records[n].resources, PodKey(records[n]), id, p);
    }
  }

  predicate Names(record: PodResources, id: string) {
    NamedBy(record.resources, PodKey(record), id) != []
  }

  lemma {:induction false} NamesItsPorts(resources: seq<ResourceItem>, pod: string, id: string)
    ensures NamedBy(resources, pod, id) != [] <==> exists x :: x in resources && x.id == id
  {
    if resources != [] {
      var n := |resources| - 1;
      NamesItsPorts(resources[..n], pod, id);
      assert resources == resources[..n] + [resources[n]];
    }
  }

  /** A port is in the mapping exactly when some record names it. */
  lemma {:induction false} NamedExactly(records: seq<PodResources>, id: string)
    ensures Namers(records, id) != [] <==> exists r :: r in records && Names(r, id)
  {
    if records != [] {
      var n := |records| - 1;
      NamedExactly(records[..n], id);
      assert records == records[..n] + [records[n]];
      assert Namers(records, id) != [] <==> Namers(records[..n], id) != [] || Names(records[n], id);
    }
  }
}
