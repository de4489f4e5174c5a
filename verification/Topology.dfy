/** LLDP observations become adjacency proposals: one per pair of ports, seen from one side or both. */
module Topology {
  import opened Options
  import opened Text
  import opened Grouping

  datatype Source = LLDP_SNMP | LLDP_SSH

  datatype Neighbor = Neighbor(
    id: string, localDevice: string, localPort: string,
    localIfIndex: Option<int>, localPortSubtype: Option<int>, localMac: Option<string>,
    remoteName: string, remoteChassis: Option<string>, remoteAddress: Option<string>,
    remotePort: string, remotePortDescription: Option<string>, systemDescription: Option<string>,
    source: Source)

  datatype Signal = MANAGEMENT_IP | CHASSIS_ID | SYSTEM_NAME

  /** A neighbour correlated with the inventory; hosts and interfaces are given by their ids. */
  datatype Observation = Observation(
    neighbor: Neighbor, sourceInterface: Option<string>, targetHost: Option<string>, candidates: nat,
    targetInterface: Option<string>, matchedBy: Option<Signal>)

  /** What the grouping takes from elsewhere: port names, useful values, correlation with the hosts. */
  datatype Inventory = Inventory(portKey: string -> string, useful: string -> bool, observe: Neighbor -> Observation)

  datatype Confidence = CONFIRMED | PROBABLE | AMBIGUOUS | UNKNOWN_NEIGHBOR

  datatype Link = Link(id: string, sourceInterface: string, targetInterface: string)

  datatype Proposal = Proposal(
    sourceHost: string, sourcePort: string, sourceInterface: Option<string>,
    targetHost: Option<string>, targetPort: string, targetInterface: Option<string>,
    confidence: Confidence, duplicate: bool, existingLinkId: Option<string>, source: Source)

  const SEPARATOR: char := '|'

  // ----- keys

  function Endpoint(device: string, port: string): string {
    device + [SEPARATOR] + port
  }

  function SourceEndpoint(inv: Inventory, o: Observation): string {
    Endpoint(o.neighbor.localDevice, inv.portKey(o.neighbor.localPort))
  }

  function TargetDevice(o: Observation): string {
    if o.targetHost.Some? then o.targetHost.value else "unk:" + o.neighbor.remoteName
  }

  function TargetEndpoint(inv: Inventory, o: Observation): string {
    Endpoint(TargetDevice(o), inv.portKey(o.neighbor.remotePort))
  }

  function DirectionKey(inv: Inventory): Observation -> string {
    (o: Observation) => SourceEndpoint(inv, o)
  }

  function SortedPair(a: string, b: string): string {
    if Less(b, a) then b + [SEPARATOR] + a else a + [SEPARATOR] + b
  }

  function ObservationKey(inv: Inventory): Observation -> string {
    (o: Observation) => "adj:" + SortedPair(SourceEndpoint(inv, o), TargetEndpoint(inv, o))
  }

  // ----- merging one direction

  function OrElse<T>(a: Option<T>, b: Option<T>): Option<T> {
    if a.Some? then a else b
  }

  function MergeNeighbor(inv: Inventory, base: Neighbor, extra: Neighbor): Neighbor {
    base.(remoteName := if inv.useful(base.remoteName) then base.remoteName else extra.remoteName,
          remoteChassis := OrElse(base.remoteChassis, extra.remoteChassis),
          remoteAddress := OrElse(base.remoteAddress, extra.remoteAddress),
          remotePort := if inv.useful(base.remotePort) then base.remotePort else extra.remotePort,
          remotePortDescription := OrElse(base.remotePortDescription, extra.remotePortDescription),
          systemDescription := OrElse(base.systemDescription, extra.systemDescription),
          localPort := if inv.useful(base.localPort) then base.localPort else extra.localPort,
          localIfIndex := OrElse(base.localIfIndex, extra.localIfIndex),
          localPortSubtype := OrElse(base.localPortSubtype, extra.localPortSubtype),
          localMac := OrElse(base.localMac, extra.localMac))
  }

  function MergeAll(inv: Inventory, base: Neighbor, items: seq<Observation>): Neighbor {
    if items == [] then base
    else MergeNeighbor(inv, MergeAll(inv, base, items[..|items| - 1]), items[|items| - 1].neighbor)
  }

  function Find(items: seq<Observation>, p: Observation -> bool): (found: Option<Observation>)
    ensures found.Some? ==> found.value in items && p(found.value)
    ensures found.None? ==> forall o :: o in items ==> !p(o)
  {
    if items == [] then None
    else if p(items[0]) then Some(items[0])
    else Find(items[1..], p)
  }

  predicate FromSnmp(o: Observation) {
    o.neighbor.source == LLDP_SNMP
  }

  predicate Resolved(o: Observation) {
    o.sourceInterface.Some? && o.targetInterface.Some? && o.targetHost.Some?
  }

  predicate ResolvedFromSnmp(o: Observation) {
    FromSnmp(o) && Resolved(o)
  }

  function DirectionPrimary(items: seq<Observation>): (o: Observation)
    requires items != []
    ensures o in items
  {
    var snmp := Find(items, FromSnmp);
    if snmp.Some? then snmp.value else items[0]
  }

  /** What the merge of a direction is correlated with. */
  function MergedNeighbor(inv: Inventory, items: seq<Observation>): Neighbor
    requires items != []
  {
    var primary := DirectionPrimary(items).neighbor;
    MergeAll(inv, primary, items).(source := primary.source, id := primary.id)
  }

  function MergeDirection(inv: Inventory, items: seq<Observation>): Observation
    requires items != []
  {
    inv.observe(MergedNeighbor(inv, items))
  }

  // ----- one adjacency

  function PickPrimary(group: seq<Observation>): (o: Observation)
    requires group != []
    ensures o in group
  {
    var resolvedSnmp := Find(group, ResolvedFromSnmp);
    if resolvedSnmp.Some? then resolvedSnmp.value
    else
      var snmp := Find(group, FromSnmp);
      if snmp.Some? then snmp.value
      else
        var resolved := Find(group, Resolved);
        if resolved.Some? then resolved.value else group[0]
  }

  predicate PortsCompatible(inv: Inventory, a: Neighbor, b: Neighbor) {
    inv.portKey(a.localPort) == inv.portKey(b.remotePort) && inv.portKey(a.remotePort) == inv.portKey(b.localPort)
  }

  function LocalDevice(): Observation -> string {
    (o: Observation) => o.neighbor.localDevice
  }

  /** The group's observations made by the primary's target. */
  function Reverse(group: seq<Observation>, primary: Observation): seq<Observation> {
    if primary.targetHost.Some? then Select(group, LocalDevice(), primary.targetHost.value) else []
  }

  predicate Confirms(primary: Observation, item: Observation) {
    item.targetHost == Some(primary.neighbor.localDevice)
  }

  predicate ReverseConfirmed(group: seq<Observation>, primary: Observation) {
    exists item :: item in Reverse(group, primary) && Confirms(primary, item)
  }

  predicate ReverseCompatible(inv: Inventory, group: seq<Observation>, primary: Observation) {
    exists item ::
      item in Reverse(group, primary) && Confirms(primary, item)
      && PortsCompatible(inv, primary.neighbor, item.neighbor)
  }

  function Classify(o: Observation, confirmed: bool, compatible: bool): Confidence {
    if o.candidates > 1 then AMBIGUOUS
    else if o.targetHost.None? then UNKNOWN_NEIGHBOR
    else if confirmed && compatible && o.sourceInterface.Some? && o.targetInterface.Some? then CONFIRMED
    else if (o.matchedBy == Some(MANAGEMENT_IP) || o.matchedBy == Some(CHASSIS_ID)) && o.sourceInterface.Some?
    then PROBABLE
    else if o.matchedBy == Some(SYSTEM_NAME) && o.sourceInterface.Some? then PROBABLE
    else AMBIGUOUS
  }

  function LinkKey(a: string, b: string): string {
    SortedPair(a, b)
  }

  function LinkIds(links: seq<Link>): map<string, string> {
    if links == [] then map[]
    else
      var last := links[|links| - 1];
      LinkIds(links[..|links| - 1])[LinkKey(last.sourceInterface, last.targetInterface) := last.id]
  }

  function AdjacencyLinkKey(o: Observation): Option<string> {
    if o.sourceInterface.Some? && o.targetInterface.Some?
    then Some(LinkKey(o.sourceInterface.value, o.targetInterface.value))
    else None
  }

  function AdjacencyOf(inv: Inventory, group: seq<Observation>, links: seq<Link>): Proposal
    requires group != []
  {
    var o := PickPrimary(group);
    var key, ids := AdjacencyLinkKey(o), LinkIds(links);
    var duplicate := key.Some? && key.value in ids;
    Proposal(o.neighbor.localDevice, o.neighbor.localPort, o.sourceInterface, o.targetHost, o.neighbor.remotePort,
             o.targetInterface,
             Classify(o, ReverseConfirmed(group, o), ReverseCompatible(inv, group, o)),
             duplicate, if duplicate then Some(ids[key.value]) else None, o.neighbor.source)
  }

  // ----- all adjacencies

  predicate SelfReflection(o: Observation) {
    o.targetHost == Some(o.neighbor.localDevice)
  }

  function Scoped(observations: seq<Observation>): (r: seq<Observation>)
    ensures forall o :: o in r <==> o in observations && !SelfReflection(o)
  {
    if observations == [] then []
    else
      var last := observations[|observations| - 1];
      assert observations == observations[..|observations| - 1] + [last];
      Scoped(observations[..|observations| - 1]) + if SelfReflection(last) then [] else [last]
  }

  predicate NoneEmpty(groups: seq<seq<Observation>>) {
    forall i :: 0 <= i < |groups| ==> groups[i] != []
  }

  function MergeEach(inv: Inventory, directions: seq<seq<Observation>>): seq<Observation>
    requires NoneEmpty(directions)
  {
    seq(|directions|, i requires 0 <= i < |directions| => MergeDirection(inv, directions[i]))
  }

  lemma GroupsAreNotEmpty<K(!new)>(items: seq<Observation>, key: Observation -> K)
    ensures NoneEmpty(Groups(items, key))
  {
    KeysAreTheKeys(items, key);
    var keys := Keys(items, key);
    forall i | 0 <= i < |keys| ensures Groups(items, key)[i] != [] {
      assert keys[i] in keys;
      var x :| x in items && key(x) == keys[i];
      SelectIsExact(items, key, keys[i]);
      assert x in Groups(items, key)[i];
    }
  }

  /** One observation for each direction, in order of first appearance. */
  ghost function Merged(inv: Inventory, observations: seq<Observation>): seq<Observation> {
    GroupsAreNotEmpty(Scoped(observations), DirectionKey(inv));
    MergeEach(inv, Groups(Scoped(observations), DirectionKey(inv)))
  }

  ghost function AdjacencyGroups(inv: Inventory, observations: seq<Observation>): (groups: seq<seq<Observation>>)
    ensures NoneEmpty(groups)
  {
    GroupsAreNotEmpty(Merged(inv, observations), ObservationKey(inv));
    Groups(Merged(inv, observations), ObservationKey(inv))
  }

  method BuildAdjacency(inv: Inventory, group: seq<Observation>, links: seq<Link>) returns (proposal: Proposal)
    requires group != []
    ensures proposal == AdjacencyOf(inv, group, links)
  {
    var primary := PickPrimary(group);
    var order, bySourceHost := IndexBy(group, LocalDevice());
    var reverse := [];
    if primary.targetHost.Some? && primary.targetHost.value in bySourceHost {
      reverse := bySourceHost[primary.targetHost.value];
    }
    if primary.targetHost.Some? && primary.targetHost.value !in bySourceHost {
      SelectAbsent(group, LocalDevice(), primary.targetHost.value);
    }
    assert reverse == Reverse(group, primary);
    var confirmed := exists item :: item in reverse && Confirms(primary, item);
    var compatible := exists item ::
      item in reverse && Confirms(primary, item) && PortsCompatible(inv, primary.neighbor, item.neighbor);
    var ids := ExistingLinkIds(links);
    var key := AdjacencyLinkKey(primary);
    var duplicate := key.Some? && key.value in ids;
    proposal := Proposal(
      primary.neighbor.localDevice, primary.neighbor.localPort, primary.sourceInterface,
      primary.targetHost, primary.neighbor.remotePort, primary.targetInterface,
      Classify(primary, confirmed, compatible), duplicate,
      if duplicate then Some(ids[key.value]) else None, primary.neighbor.source);
  }

  method ExistingLinkIds(links: seq<Link>) returns (ids: map<string, string>)
    ensures ids == LinkIds(links)
  {
    ids := map[];
    for n := 0 to |links|
      invariant ids == LinkIds(links[..n])
    {
      assert links[..n + 1][..n] == links[..n];
      ids := ids[LinkKey(links[n].sourceInterface, links[n].targetInterface) := links[n].id];
    }
    assert links[..|links|] == links;
  }

  method ScopeObservations(observations: seq<Observation>) returns (scoped: seq<Observation>, ignored: nat)
    ensures scoped == Scoped(observations) && ignored == Count(observations, SelfReflection)
  {
    scoped, ignored := [], 0;
    for n := 0 to |observations|
      invariant scoped == Scoped(observations[..n]) && ignored == Count(observations[..n], SelfReflection)
    {
      assert observations[..n + 1][..n] == observations[..n];
      if SelfReflection(observations[n]) {
        ignored := ignored + 1;
      } else {
        scoped := scoped + [observations[n]];
      }
    }
    assert observations[..|observations|] == observations;
  }

  method MergeDirections(inv: Inventory, observations: seq<Observation>)
    returns (groups: seq<seq<Observation>>, ignored: nat)
    ensures groups == AdjacencyGroups(inv, observations) && ignored == Count(observations, SelfReflection)
  {
    var scoped;
    scoped, ignored := ScopeObservations(observations);
    var directions := GroupBy(scoped, DirectionKey(inv));
    GroupsAreNotEmpty(scoped, DirectionKey(inv));
    groups := GroupBy(MergeEach(inv, directions), ObservationKey(inv));
  }

  function Proposals(inv: Inventory, groups: seq<seq<Observation>>, links: seq<Link>): (r: seq<Proposal>)
    requires NoneEmpty(groups)
    ensures |r| == |groups|
  {
    if groups == [] then []
    else Proposals(inv, groups[..|groups| - 1], links) + [AdjacencyOf(inv, groups[|groups| - 1], links)]
  }

  lemma ProposalsOneMore(inv: Inventory, groups: seq<seq<Observation>>, n: nat, links: seq<Link>)
    requires NoneEmpty(groups) && n < |groups|
    ensures NoneEmpty(groups[..n]) && NoneEmpty(groups[..n + 1])
    ensures Proposals(inv, groups[..n + 1], links)
            == Proposals(inv, groups[..n], links) + [AdjacencyOf(inv, groups[n], links)]
  {
    assert groups[..n + 1][..n] == groups[..n];
  }

  method BuildAdjacencies(inv: Inventory, observations: seq<Observation>, links: seq<Link>)
    returns (proposals: seq<Proposal>, ignored: nat)
    ensures proposals == Proposals(inv, AdjacencyGroups(inv, observations), links)
    ensures ignored == Count(observations, SelfReflection)
  {
    var groups;
    groups, ignored := MergeDirections(inv, observations);
    proposals := [];
    for n := 0 to |groups|
      invariant NoneEmpty(groups[..n]) && proposals == Proposals(inv, groups[..n], links)
    {
      ProposalsOneMore(inv, groups, n, links);
      var proposal := BuildAdjacency(inv, groups[n], links);
      proposals := proposals + [proposal];
    }
    assert groups[..|groups|] == groups;
  }
}
