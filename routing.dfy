/**
 * The routing-table contract of a circuit: the value types `Circuit`, `CircuitNode`,
 * `Service` and the composite key `ServiceId`, and an in-memory routing table that keeps
 * three directories (nodes by node id, circuits by circuit id, services by `ServiceId`)
 * behind the writer operations (add/remove) and the reader operations (fetch/list).
 */
module Routing {
  import opened Types

  /** The routing-table view of a service of a circuit. */
  datatype Service = Service(
    serviceId: string,
    serviceType: string,
    allowedNodes: seq<string>,
    arguments: seq<(string, string)>)

  /** The routing-table view of a circuit: its id, its roster of services and its member node ids. */
  datatype Circuit = Circuit(circuitId: string, roster: seq<Service>, members: seq<string>)

  /** The routing-table view of a node: its id and the endpoints it can be reached at. */
  datatype CircuitNode = CircuitNode(nodeId: string, endpoints: seq<string>)

  /**
   * The key of the service directory. Equality is structural, on the pair
   * (circuit id, service id); the accessors `circuit()` and `service_id()` are the
   * destructors `circuitId` and `serviceId`.
   */
  datatype ServiceId = ServiceId(circuitId: string, serviceId: string) {

    /** `into_parts`: the pair (circuit id, service id), from which `new` rebuilds the key. */
    function IntoParts(): (parts: (string, string))
      ensures ServiceId(parts.0, parts.1) == this
    {
      (circuitId, serviceId)
    }

    /** The display form `<circuit>::<service>`. */
    function Display(): (s: string)
      ensures |s| == |circuitId| + 2 + |serviceId|
      ensures s[..|circuitId|] == circuitId && s[|circuitId|..|circuitId| + 2] == "::"
      ensures s[|circuitId| + 2..] == serviceId
    {
      circuitId + "::" + serviceId
    }
  }

  /** Keys built by `new` are equal exactly when both of their components are. */
  lemma ServiceIdEquality(c1: string, s1: string, c2: string, s2: string)
    ensures ServiceId(c1, s1) == ServiceId(c2, s2) <==> c1 == c2 && s1 == s2
  {
  }

  /** The display form identifies the key as long as circuit ids contain no colon. */
  lemma DisplayInjective(a: ServiceId, b: ServiceId)
    requires ':' !in a.circuitId && ':' !in b.circuitId
    requires a.Display() == b.Display()
    ensures a == b
  {
    var da, db := a.Display(), b.Display();
    var la, lb := |a.circuitId|, |b.circuitId|;
    // the first colon of the display form sits right after the circuit id
    assert forall i :: 0 <= i < la ==> da[i] == a.circuitId[i] != ':';
    assert forall i :: 0 <= i < lb ==> db[i] == b.circuitId[i] != ':';
    assert da[la] == ':' && db[lb] == ':';
    assert la == lb;
    assert a.circuitId == da[..la] == db[..lb] == b.circuitId;
    assert a.serviceId == da[la + 2..] == db[lb + 2..] == b.serviceId;
  }

  /** With colons inside the components, two different keys share one display form. */
  lemma DisplayAmbiguousWithColons()
    ensures ServiceId("a::b", "c") != ServiceId("a", "b::c")
    ensures ServiceId("a::b", "c").Display() == ServiceId("a", "b::c").Display()
  {
    assert ServiceId("a::b", "c").Display() == "a::b::c";
    assert ServiceId("a", "b::c").Display() == "a::b::c";
  }

  // ---------- ordering of nodes ----------

  /** The result of a three-way comparison. */
  datatype Ordering = Less | Equal | Greater

  function Reverse(o: Ordering): Ordering {
    match o
    case Less => Greater
    case Equal => Equal
    case Greater => Less
  }

  /**
   * Lexicographic comparison of strings, character by character (on Unicode scalar values,
   * which orders like the UTF-8 bytes that a Rust `str` comparison looks at).
   */
  function CompareStrings(a: string, b: string): Ordering
    decreases |a|
  {
    if |a| == 0 then (if |b| == 0 then Equal else Less)
    else if |b| == 0 then Greater
    else if a[0] < b[0] then Less
    else if a[0] > b[0] then Greater
    else CompareStrings(a[1..], b[1..])
  }

  lemma {:induction false} CompareStringsEqual(a: string, b: string)
    ensures CompareStrings(a, b) == Equal <==> a == b
    decreases |a|
  {
    if |a| > 0 && |b| > 0 && a[0] == b[0] {
      CompareStringsEqual(a[1..], b[1..]);
      assert a == [a[0]] + a[1..] && b == [b[0]] + b[1..];
    }
  }

  lemma {:induction false} CompareStringsReverse(a: string, b: string)
    ensures CompareStrings(b, a) == Reverse(CompareStrings(a, b))
    decreases |a|
  {
    if |a| > 0 && |b| > 0 && a[0] == b[0] {
      CompareStringsReverse(a[1..], b[1..]);
    }
  }

  lemma {:induction false} CompareStringsTransitive(a: string, b: string, c: string)
    requires CompareStrings(a, b) == Less && CompareStrings(b, c) == Less
    ensures CompareStrings(a, c) == Less
    decreases |a|
  {
    if |a| > 0 && a[0] == b[0] && b[0] == c[0] {
      CompareStringsTransitive(a[1..], b[1..], c[1..]);
    }
  }

  /** `Ord::cmp` of `CircuitNode`: compares the node ids only. */
  function Cmp(a: CircuitNode, b: CircuitNode): Ordering {
    CompareStrings(a.nodeId, b.nodeId)
  }

  /** `PartialOrd::partial_cmp` of `CircuitNode`: never undefined, and `Equal` exactly for equal ids. */
  function PartialCmp(a: CircuitNode, b: CircuitNode): (o: Option<Ordering>)
    ensures o.Some?
    ensures o.value == Equal <==> a.nodeId == b.nodeId
  {
    CmpEqualIffSameId(a, b);
    Some(Cmp(a, b))
  }

  lemma CmpEqualIffSameId(a: CircuitNode, b: CircuitNode)
    ensures Cmp(a, b) == Equal <==> a.nodeId == b.nodeId
  {
    CompareStringsEqual(a.nodeId, b.nodeId);
  }

  lemma CmpAntisymmetric(a: CircuitNode, b: CircuitNode)
    ensures Cmp(a, b) == Less <==> Cmp(b, a) == Greater
  {
    CompareStringsReverse(a.nodeId, b.nodeId);
  }

  lemma CmpTransitive(a: CircuitNode, b: CircuitNode, c: CircuitNode)
    requires Cmp(a, b) == Less && Cmp(b, c) == Less
    ensures Cmp(a, c) == Less
  {
    CompareStringsTransitive(a.nodeId, b.nodeId, c.nodeId);
  }

  /**
   * The ordering and the derived equality disagree: two nodes with one id and different
   * endpoints compare `Equal` although they are not `==`.
   */
  lemma CmpEqualForUnequalNodes(id: string, e1: seq<string>, e2: seq<string>)
    requires e1 != e2
    ensures Cmp(CircuitNode(id, e1), CircuitNode(id, e2)) == Equal
    ensures CircuitNode(id, e1) != CircuitNode(id, e2)
  {
    CompareStringsEqual(id, id);
  }

  // ---------- specification of the directory updates ----------

  /** The set of keys of a list of (key, value) entries. */
  function EntryKeys<K, V>(entries: seq<(K, V)>): set<K> {
    set i | 0 <= i < |entries| :: entries[i].0
  }

  /** Map insertion of each entry in turn: a later entry for a key replaces an earlier one. */
  function InsertAll<K, V>(m: map<K, V>, entries: seq<(K, V)>): map<K, V>
    decreases |entries|
  {
    if |entries| == 0 then m
    else
      var last := entries[|entries| - 1];
      InsertAll(m, entries[..|entries| - 1])[last.0 := last.1]
  }

  /** Insertion of each entry whose key is not present yet: the first entry for a key wins. */
  function InsertAbsent<K, V>(m: map<K, V>, entries: seq<(K, V)>): map<K, V>
    decreases |entries|
  {
    if |entries| == 0 then m
    else
      var prev := InsertAbsent(m, entries[..|entries| - 1]);
      var last := entries[|entries| - 1];
      if last.0 in prev then prev else prev[last.0 := last.1]
  }

  lemma {:induction false} EntryKeysSnoc<K, V>(entries: seq<(K, V)>)
    requires |entries| > 0
    ensures EntryKeys(entries) == EntryKeys(entries[..|entries| - 1]) + {entries[|entries| - 1].0}
  {
    var init := entries[..|entries| - 1];
    assert entries == init + [entries[|entries| - 1]];
    forall k | k in EntryKeys(entries)
      ensures k in EntryKeys(init) + {entries[|entries| - 1].0}
    {
      var i :| 0 <= i < |entries| && entries[i].0 == k;
      if i < |init| {
        assert init[i] == entries[i];
      }
    }
    forall k | k in EntryKeys(init) ensures k in EntryKeys(entries) {
      var i :| 0 <= i < |init| && init[i].0 == k;
      assert entries[i] == init[i];
    }
  }

  lemma {:induction false} InsertAllKeys<K, V>(m: map<K, V>, entries: seq<(K, V)>)
    ensures InsertAll(m, entries).Keys == m.Keys + EntryKeys(entries)
    decreases |entries|
  {
    if |entries| > 0 {
      InsertAllKeys(m, entries[..|entries| - 1]);
      EntryKeysSnoc(entries);
    }
  }

  /** Keys that no entry mentions keep their old value. */
  lemma {:induction false} InsertAllKeeps<K, V>(m: map<K, V>, entries: seq<(K, V)>, k: K)
    requires k in m && k !in EntryKeys(entries)
    ensures k in InsertAll(m, entries) && InsertAll(m, entries)[k] == m[k]
    decreases |entries|
  {
    if |entries| > 0 {
      EntryKeysSnoc(entries);
      InsertAllKeeps(m, entries[..|entries| - 1], k);
    }
  }

  /** The value stored for a key is that of the last entry with this key. */
  lemma {:induction false} InsertAllLastWins<K, V>(m: map<K, V>, entries: seq<(K, V)>, i: nat)
    requires i < |entries|
    requires forall j :: i < j < |entries| ==> entries[j].0 != entries[i].0
    ensures entries[i].0 in InsertAll(m, entries) && InsertAll(m, entries)[entries[i].0] == entries[i].1
    decreases |entries|
  {
    if i < |entries| - 1 {
      var init := entries[..|entries| - 1];
      assert init[i] == entries[i];
      InsertAllLastWins(m, init, i);
    }
  }

  lemma {:induction false} InsertAbsentKeys<K, V>(m: map<K, V>, entries: seq<(K, V)>)
    ensures InsertAbsent(m, entries).Keys == m.Keys + EntryKeys(entries)
    decreases |entries|
  {
    if |entries| > 0 {
      InsertAbsentKeys(m, entries[..|entries| - 1]);
      EntryKeysSnoc(entries);
    }
  }

  /** Entries already present are never replaced. */
  lemma {:induction false} InsertAbsentKeeps<K, V>(m: map<K, V>, entries: seq<(K, V)>, k: K)
    requires k in m
    ensures k in InsertAbsent(m, entries) && InsertAbsent(m, entries)[k] == m[k]
    decreases |entries|
  {
    if |entries| > 0 {
      InsertAbsentKeeps(m, entries[..|entries| - 1], k);
    }
  }

  /** A key that was absent gets the value of the first entry with this key. */
  lemma {:induction false} InsertAbsentFirstWins<K, V>(m: map<K, V>, entries: seq<(K, V)>, i: nat)
    requires i < |entries| && entries[i].0 !in m
    requires forall j :: 0 <= j < i ==> entries[j].0 != entries[i].0
    ensures entries[i].0 in InsertAbsent(m, entries)
    ensures InsertAbsent(m, entries)[entries[i].0] == entries[i].1
    decreases |entries|
  {
    var init := entries[..|entries| - 1];
    InsertAbsentKeys(m, init);
    if i == |entries| - 1 {
      assert forall j :: 0 <= j < |init| ==> init[j].0 != entries[i].0;
    } else {
      assert init[i] == entries[i];
      InsertAbsentFirstWins(m, init, i);
    }
  }

  /** The service-directory entries of a roster: each service under (circuit id, its service id). */
  function RosterEntries(circuitId: string, roster: seq<Service>): (es: seq<(ServiceId, Service)>)
    ensures |es| == |roster|
    ensures forall i :: 0 <= i < |roster| ==> es[i] == (ServiceId(circuitId, roster[i].serviceId), roster[i])
  {
    seq(|roster|, i requires 0 <= i < |roster| => (ServiceId(circuitId, roster[i].serviceId), roster[i]))
  }

  /** The keys under which a circuit's roster is stored. */
  function RosterKeys(circuitId: string, roster: seq<Service>): set<ServiceId> {
    set s | s in roster :: ServiceId(circuitId, s.serviceId)
  }

  lemma RosterEntryKeys(circuitId: string, roster: seq<Service>)
    ensures EntryKeys(RosterEntries(circuitId, roster)) == RosterKeys(circuitId, roster)
  {
    var es := RosterEntries(circuitId, roster);
    forall k | k in RosterKeys(circuitId, roster) ensures k in EntryKeys(es) {
      var s :| s in roster && k == ServiceId(circuitId, s.serviceId);
      var i :| 0 <= i < |roster| && roster[i] == s;
      assert es[i].0 == k;
    }
    forall k | k in EntryKeys(es) ensures k in RosterKeys(circuitId, roster) {
      var i :| 0 <= i < |es| && es[i].0 == k;
      assert roster[i] in roster;
    }
  }

  /** The node-directory entries of a list of nodes: each node under its own id. */
  function NodeEntries(nodes: seq<CircuitNode>): (es: seq<(string, CircuitNode)>)
    ensures |es| == |nodes|
    ensures forall i :: 0 <= i < |nodes| ==> es[i] == (nodes[i].nodeId, nodes[i])
  {
    seq(|nodes|, i requires 0 <= i < |nodes| => (nodes[i].nodeId, nodes[i]))
  }

  /** The circuit-directory entries of a batch of circuits: each circuit under its own id. */
  function CircuitEntries(circuits: seq<Circuit>): (es: seq<(string, Circuit)>)
    ensures |es| == |circuits|
    ensures forall i :: 0 <= i < |circuits| ==> es[i] == (circuits[i].circuitId, circuits[i])
  {
    seq(|circuits|, i requires 0 <= i < |circuits| => (circuits[i].circuitId, circuits[i]))
  }

  /** The service directory after the rosters of a batch of circuits are inserted, in order. */
  function InsertRosters(services: map<ServiceId, Service>, circuits: seq<Circuit>): map<ServiceId, Service>
    decreases |circuits|
  {
    if |circuits| == 0 then services
    else
      var last := circuits[|circuits| - 1];
      InsertAll(InsertRosters(services, circuits[..|circuits| - 1]), RosterEntries(last.circuitId, last.roster))
  }

  /** After a batch, every roster service of every circuit of the batch has an entry. */
  lemma {:induction false} InsertRostersContains(services: map<ServiceId, Service>, circuits: seq<Circuit>, i: nat, s: Service)
    requires i < |circuits| && s in circuits[i].roster
    ensures ServiceId(circuits[i].circuitId, s.serviceId) in InsertRosters(services, circuits)
    decreases |circuits|
  {
    var init := circuits[..|circuits| - 1];
    var last := circuits[|circuits| - 1];
    InsertAllKeys(InsertRosters(services, init), RosterEntries(last.circuitId, last.roster));
    RosterEntryKeys(last.circuitId, last.roster);
    if i < |circuits| - 1 {
      assert init[i] == circuits[i];
      InsertRostersContains(services, init, i, s);
    }
  }

  /** The service directory outside the given keys is left as it was by inserting a roster. */
  lemma RemoveRosterUndoesInsert(services: map<ServiceId, Service>, circuitId: string, roster: seq<Service>)
    ensures InsertAll(services, RosterEntries(circuitId, roster)) - RosterKeys(circuitId, roster)
         == services - RosterKeys(circuitId, roster)
  {
    var es := RosterEntries(circuitId, roster);
    var keys := RosterKeys(circuitId, roster);
    var after := InsertAll(services, es) - keys;
    InsertAllKeys(services, es);
    RosterEntryKeys(circuitId, roster);
    forall k | k in after ensures k in services - keys && after[k] == services[k] {
      InsertAllKeeps(services, es, k);
    }
  }

  /** The entries of a map, each key once, in some order. */
  method Entries<K, V>(m: map<K, V>) returns (r: seq<(K, V)>)
    ensures |r| == |m|
    ensures forall i :: 0 <= i < |r| ==> r[i].0 in m && m[r[i].0] == r[i].1
    ensures forall k :: k in m ==> (k, m[k]) in r
    ensures forall i, j :: 0 <= i < j < |r| ==> r[i].0 != r[j].0
  {
    var rest := m.Keys;
    r := [];
    while rest != {}
      invariant rest <= m.Keys
      invariant |r| + |rest| == |m.Keys|
      invariant forall i :: 0 <= i < |r| ==> r[i].0 in m && r[i].0 !in rest && m[r[i].0] == r[i].1
      invariant forall k :: k in m && k !in rest ==> (k, m[k]) in r
      invariant forall i, j :: 0 <= i < j < |r| ==> r[i].0 != r[j].0
      decreases |rest|
    {
      var k :| k in rest;
      r := r + [(k, m[k])];
      rest := rest - {k};
    }
  }

  /**
   * The in-memory routing table: the node directory, the circuit directory and the
   * service directory. Readers are functions and read-only methods; writers are methods
   * that change the directories and say which ones stay as they were.
   */
  class RoutingTable {
    var nodes: map<string, CircuitNode>
    var circuits: map<string, Circuit>
    var services: map<ServiceId, Service>

    constructor ()
      ensures nodes == map[] && circuits == map[] && services == map[]
    {
      nodes, circuits, services := map[], map[], map[];
    }

    // ---------- reader: service directory ----------

    /** `fetch_service`: the service stored under the key, or nothing (an absent key is not an error). */
    function FetchService(serviceId: ServiceId): (r: Option<Service>)
      reads this
      ensures r.Some? <==> serviceId in services
      ensures r.Some? ==> r.value == services[serviceId]
    {
      if serviceId in services then Some(services[serviceId]) else None
    }

    /** The keys of the services of one circuit. */
    function CircuitServiceKeys(circuitId: string): set<ServiceId>
      reads this
    {
      set k | k in services && k.circuitId == circuitId
    }

    /**
     * `list_service`: every service whose key names the circuit, once per key. The ghost
     * `keys` tells which key each listed service was read from.
     */
    method ListService(circuitId: string) returns (r: seq<Service>, ghost keys: seq<ServiceId>)
      ensures |r| == |keys| == |CircuitServiceKeys(circuitId)|
      ensures forall i :: 0 <= i < |r| ==> keys[i] in CircuitServiceKeys(circuitId) && r[i] == services[keys[i]]
      ensures forall i, j :: 0 <= i < j < |keys| ==> keys[i] != keys[j]
      ensures forall k :: k in CircuitServiceKeys(circuitId) ==> k in keys
    {
      var rest := set k | k in services.Keys && k.circuitId == circuitId;
      ghost var all := rest;
      r, keys := [], [];
      while rest != {}
        invariant rest <= all
        invariant |r| == |keys| && |r| + |rest| == |all|
        invariant forall i :: 0 <= i < |r| ==> keys[i] in all && keys[i] !in rest && r[i] == services[keys[i]]
        invariant forall i, j :: 0 <= i < j < |keys| ==> keys[i] != keys[j]
        invariant forall k :: k in all && k !in rest ==> k in keys
        decreases |rest|
      {
        var k :| k in rest;
        r, keys := r + [services[k]], keys + [k];
        rest := rest - {k};
      }
    }

    // ---------- reader: node and circuit directories ----------

    /** `list_nodes`: every (node id, node) entry once; the length is the directory's size. */
    method ListNodes() returns (r: seq<(string, CircuitNode)>)
      ensures |r| == |nodes|
      ensures forall i :: 0 <= i < |r| ==> r[i].0 in nodes && nodes[r[i].0] == r[i].1
      ensures forall id :: id in nodes ==> (id, nodes[id]) in r
      ensures forall i, j :: 0 <= i < j < |r| ==> r[i].0 != r[j].0
    {
      r := Entries(nodes);
    }

    /** `fetch_node`: the node stored under the id, or nothing. */
    function FetchNode(nodeId: string): (r: Option<CircuitNode>)
      reads this
      ensures r.Some? <==> nodeId in nodes
      ensures r.Some? ==> r.value == nodes[nodeId]
    {
      if nodeId in nodes then Some(nodes[nodeId]) else None
    }

    /** `list_circuits`: every (circuit id, circuit) entry once; the length is the directory's size. */
    method ListCircuits() returns (r: seq<(string, Circuit)>)
      ensures |r| == |circuits|
      ensures forall i :: 0 <= i < |r| ==> r[i].0 in circuits && circuits[r[i].0] == r[i].1
      ensures forall id :: id in circuits ==> (id, circuits[id]) in r
      ensures forall i, j :: 0 <= i < j < |r| ==> r[i].0 != r[j].0
    {
      r := Entries(circuits);
    }

    /** `fetch_circuit`: the circuit stored under the id, or nothing. */
    function FetchCircuit(circuitId: string): (r: Option<Circuit>)
      reads this
      ensures r.Some? <==> circuitId in circuits
      ensures r.Some? ==> r.value == circuits[circuitId]
    {
      if circuitId in circuits then Some(circuits[circuitId]) else None
    }

    // ---------- writer ----------

    /** `add_service`: stores the service under the key (replacing an earlier one); nothing else changes. */
    method AddService(serviceId: ServiceId, service: Service)
      modifies this
      ensures services == old(services)[serviceId := service]
      ensures nodes == old(nodes) && circuits == old(circuits)
      ensures FetchService(serviceId) == Some(service)
    {
      services := services[serviceId := service];
    }

    /** `remove_service`: drops the key if it is there; an absent key leaves the table as it was. */
    method RemoveService(serviceId: ServiceId)
      modifies this
      ensures services == old(services) - {serviceId}
      ensures serviceId !in old(services) ==> services == old(services)
      ensures nodes == old(nodes) && circuits == old(circuits)
      ensures FetchService(serviceId) == None
    {
      services := services - {serviceId};
    }

    /** Inserts the roster's services under the circuit id, in roster order. */
    method InsertRoster(circuitId: string, roster: seq<Service>)
      modifies this
      ensures services == InsertAll(old(services), RosterEntries(circuitId, roster))
      ensures nodes == old(nodes) && circuits == old(circuits)
    {
      ghost var es := RosterEntries(circuitId, roster);
      var i := 0;
      while i < |roster|
        invariant 0 <= i <= |roster|
        invariant services == InsertAll(old(services), es[..i])
        invariant nodes == old(nodes) && circuits == old(circuits)
      {
        assert es[..i + 1][..i] == es[..i];
        services := services[ServiceId(circuitId, roster[i].serviceId) := roster[i]];
        i := i + 1;
      }
      assert es[..|roster|] == es;
    }

    /**
     * `add_circuit`: stores the circuit under the given id, its roster's services under
     * (that id, service id), and each node whose id is not in the node directory yet.
     */
    method AddCircuit(circuitId: string, circuit: Circuit, newNodes: seq<CircuitNode>)
      modifies this
      ensures circuits == old(circuits)[circuitId := circuit]
      ensures services == InsertAll(old(services), RosterEntries(circuitId, circuit.roster))
      ensures nodes == InsertAbsent(old(nodes), NodeEntries(newNodes))
      ensures FetchCircuit(circuitId) == Some(circuit)
      ensures forall s :: s in circuit.roster ==> FetchService(ServiceId(circuitId, s.serviceId)).Some?
      ensures forall i ::
                (0 <= i < |circuit.roster| &&
                 forall j :: i < j < |circuit.roster| ==> circuit.roster[j].serviceId != circuit.roster[i].serviceId)
                ==> FetchService(ServiceId(circuitId, circuit.roster[i].serviceId)) == Some(circuit.roster[i])
      ensures forall n :: n in newNodes ==> FetchNode(n.nodeId).Some?
      ensures forall id :: id in old(nodes) ==> FetchNode(id) == Some(old(nodes)[id])
    {
      InsertRoster(circuitId, circuit.roster);
      circuits := circuits[circuitId := circuit];
      ghost var es := NodeEntries(newNodes);
      var i := 0;
      while i < |newNodes|
        invariant 0 <= i <= |newNodes|
        invariant nodes == InsertAbsent(old(nodes), es[..i])
        invariant services == InsertAll(old(services), RosterEntries(circuitId, circuit.roster))
        invariant circuits == old(circuits)[circuitId := circuit]
      {
        assert es[..i + 1][..i] == es[..i];
        if newNodes[i].nodeId !in nodes {
          nodes := nodes[newNodes[i].nodeId := newNodes[i]];
        }
        i := i + 1;
      }
      assert es[..|newNodes|] == es;
      ghost var rs := RosterEntries(circuitId, circuit.roster);
      InsertAllKeys(old(services), rs);
      RosterEntryKeys(circuitId, circuit.roster);
      forall i | 0 <= i < |circuit.roster| &&
          (forall j :: i < j < |circuit.roster| ==> circuit.roster[j].serviceId != circuit.roster[i].serviceId)
        ensures FetchService(ServiceId(circuitId, circuit.roster[i].serviceId)) == Some(circuit.roster[i])
      {
        assert forall j :: i < j < |rs| ==> rs[j].0 != rs[i].0;
        InsertAllLastWins(old(services), rs, i);
        assert rs[i] == (ServiceId(circuitId, circuit.roster[i].serviceId), circuit.roster[i]);
      }
      InsertAbsentKeys(old(nodes), es);
      forall n | n in newNodes ensures n.nodeId in nodes {
        var k :| 0 <= k < |newNodes| && newNodes[k] == n;
        assert es[k].0 == n.nodeId;
      }
      forall id | id in old(nodes) ensures FetchNode(id) == Some(old(nodes)[id]) {
        InsertAbsentKeeps(old(nodes), es, id);
      }
    }

    /**
     * `add_circuits`: stores each circuit of the batch under its own id together with its
     * roster's services, in batch order; no node is added.
     */
    method AddCircuits(batch: seq<Circuit>)
      modifies this
      ensures circuits == InsertAll(old(circuits), CircuitEntries(batch))
      ensures services == InsertRosters(old(services), batch)
      ensures nodes == old(nodes)
      ensures forall c :: c in batch ==> FetchCircuit(c.circuitId).Some?
      ensures forall c, s :: c in batch && s in c.roster ==> FetchService(ServiceId(c.circuitId, s.serviceId)).Some?
    {
      ghost var es := CircuitEntries(batch);
      var i := 0;
      while i < |batch|
        invariant 0 <= i <= |batch|
        invariant circuits == InsertAll(old(circuits), es[..i])
        invariant services == InsertRosters(old(services), batch[..i])
        invariant nodes == old(nodes)
      {
        assert es[..i + 1][..i] == es[..i];
        assert batch[..i + 1][..i] == batch[..i];
        InsertRoster(batch[i].circuitId, batch[i].roster);
        circuits := circuits[batch[i].circuitId := batch[i]];
        i := i + 1;
      }
      assert es[..|batch|] == es;
      assert batch[..|batch|] == batch;
      InsertAllKeys(old(circuits), es);
      forall c | c in batch ensures c.circuitId in circuits {
        var k :| 0 <= k < |batch| && batch[k] == c;
        assert es[k].0 == c.circuitId;
      }
      forall c, s | c in batch && s in c.roster ensures ServiceId(c.circuitId, s.serviceId) in services {
        var k :| 0 <= k < |batch| && batch[k] == c;
        InsertRostersContains(old(services), batch, k, s);
      }
    }

    /**
     * `remove_circuit`: if the circuit is stored, drops it and the keys of its roster's
     * services; nodes stay. An absent id leaves the table as it was.
     */
    method RemoveCircuit(circuitId: string)
      modifies this
      ensures circuitId in old(circuits) ==>
                services == old(services) - RosterKeys(circuitId, old(circuits)[circuitId].roster)
      ensures circuitId !in old(circuits) ==> services == old(services) && circuits == old(circuits)
      ensures circuits == old(circuits) - {circuitId}
      ensures nodes == old(nodes)
      ensures FetchCircuit(circuitId) == None
      ensures circuitId in old(circuits) ==>
                forall s :: s in old(circuits)[circuitId].roster ==> FetchService(ServiceId(circuitId, s.serviceId)) == None
    {
      if circuitId in circuits {
        var roster := circuits[circuitId].roster;
        circuits := circuits - {circuitId};
        var i := 0;
        while i < |roster|
          invariant 0 <= i <= |roster|
          invariant services == old(services) - RosterKeys(circuitId, roster[..i])
          invariant circuits == old(circuits) - {circuitId} && nodes == old(nodes)
        {
          assert RosterKeys(circuitId, roster[..i + 1])
              == RosterKeys(circuitId, roster[..i]) + {ServiceId(circuitId, roster[i].serviceId)} by {
            assert roster[..i + 1] == roster[..i] + [roster[i]];
          }
          services := services - {ServiceId(circuitId, roster[i].serviceId)};
          i := i + 1;
        }
        assert roster[..|roster|] == roster;
      }
    }

    /** `add_node`: stores the node under the given id (replacing an earlier one). */
    method AddNode(nodeId: string, node: CircuitNode)
      modifies this
      ensures nodes == old(nodes)[nodeId := node]
      ensures circuits == old(circuits) && services == old(services)
      ensures FetchNode(nodeId) == Some(node)
    {
      nodes := nodes[nodeId := node];
    }

    /** `add_nodes`: stores each node under its own id, in list order. */
    method AddNodes(newNodes: seq<CircuitNode>)
      modifies this
      ensures nodes == InsertAll(old(nodes), NodeEntries(newNodes))
      ensures circuits == old(circuits) && services == old(services)
      ensures forall n :: n in newNodes ==> FetchNode(n.nodeId).Some?
      ensures forall i ::
                (0 <= i < |newNodes| && forall j :: i < j < |newNodes| ==> newNodes[j].nodeId != newNodes[i].nodeId)
                ==> FetchNode(newNodes[i].nodeId) == Some(newNodes[i])
    {
      ghost var es := NodeEntries(newNodes);
      var i := 0;
      while i < |newNodes|
        invariant 0 <= i <= |newNodes|
        invariant nodes == InsertAll(old(nodes), es[..i])
        invariant circuits == old(circuits) && services == old(services)
      {
        assert es[..i + 1][..i] == es[..i];
        nodes := nodes[newNodes[i].nodeId := newNodes[i]];
        i := i + 1;
      }
      assert es[..|newNodes|] == es;
      InsertAllKeys(old(nodes), es);
      forall n | n in newNodes ensures n.nodeId in nodes {
        var k :| 0 <= k < |newNodes| && newNodes[k] == n;
        assert es[k].0 == n.nodeId;
      }
      forall i | 0 <= i < |newNodes| &&
          (forall j :: i < j < |newNodes| ==> newNodes[j].nodeId != newNodes[i].nodeId)
        ensures FetchNode(newNodes[i].nodeId) == Some(newNodes[i])
      {
        InsertAllLastWins(old(nodes), es, i);
      }
    }

    /** `remove_node`: drops the id if it is there; an absent id leaves the table as it was. */
    method RemoveNode(nodeId: string)
      modifies this
      ensures nodes == old(nodes) - {nodeId}
      ensures nodeId !in old(nodes) ==> nodes == old(nodes)
      ensures circuits == old(circuits) && services == old(services)
      ensures FetchNode(nodeId) == None
    {
      nodes := nodes - {nodeId};
    }
  }
}
