/** What the grouping of LLDP observations guarantees. */
module TopologyLaws {
  import opened Options
  import opened Text
  import opened Grouping
  import opened Topology

  /** Port keys hold no separator; correlation keeps the neighbour and has a target exactly when one host fits. */
  ghost predicate Sound(inv: Inventory) {
    && (forall port :: SEPARATOR !in inv.portKey(port))
    && (forall n :: var o := inv.observe(n);
          o.neighbor == n && (o.targetHost.Some? <==> o.candidates == 1)
          && (o.targetInterface.Some? ==> o.targetHost.Some?))
  }

  /** Device names without separators, as the pair of endpoints needs them. */
  ghost predicate Plain(o: Observation) {
    SEPARATOR !in o.neighbor.localDevice && SEPARATOR !in TargetDevice(o)
  }

  // ----- keys are exact

  lemma LastSeparator(a: string, p: string, b: string, q: string)
    requires SEPARATOR !in p && SEPARATOR !in q && Endpoint(a, p) == Endpoint(b, q)
    ensures a == b && p == q
  {
    NotLonger(a, p, b, q);
    NotLonger(b, q, a, p);
    var s := Endpoint(a, p);
    assert a == s[..|a|] && b == s[..|b|] && p == s[|a| + 1..] && q == s[|b| + 1..];
  }

  lemma NotLonger(a: string, p: string, b: string, q: string)
    requires SEPARATOR !in p && Endpoint(a, p) == Endpoint(b, q)
    ensures |b| <= |a|
  {
    var s := Endpoint(a, p);
    assert s[|b|] == SEPARATOR;
    assert forall i | |a| < i < |s| :: s[i] == p[i - |a| - 1] != SEPARATOR;
  }

  /** A direction is a device and a port of it, whatever characters the device id holds. */
  lemma DirectionKeyIsExact(inv: Inventory, o: Observation, p: Observation)
    requires Sound(inv)
    ensures DirectionKey(inv)(o) == DirectionKey(inv)(p) <==>
            o.neighbor.localDevice == p.neighbor.localDevice
            && inv.portKey(o.neighbor.localPort) == inv.portKey(p.neighbor.localPort)
  {
    if SourceEndpoint(inv, o) == SourceEndpoint(inv, p) {
      LastSeparator(o.neighbor.localDevice, inv.portKey(o.neighbor.localPort), p.neighbor.localDevice,
                    inv.portKey(p.neighbor.localPort));
    }
  }

  lemma SortedPairIsSymmetric(a: string, b: string)
    ensures SortedPair(a, b) == SortedPair(b, a)
  {
    LessIsTotal(a, b);
  }

  /** Two endpoints joined: four parts between separators. */
  lemma JoinIsExact(d: string, p: string, e: string, q: string, d': string, p': string, e': string, q': string)
    requires SEPARATOR !in d && SEPARATOR !in p && SEPARATOR !in e && SEPARATOR !in d' && SEPARATOR !in p'
             && SEPARATOR !in e'
    requires Endpoint(d, p) + [SEPARATOR] + Endpoint(e, q) == Endpoint(d', p') + [SEPARATOR] + Endpoint(e', q')
    ensures d == d' && p == p' && e == e' && q == q'
  {
    var rest, rest' := p + [SEPARATOR] + Endpoint(e, q), p' + [SEPARATOR] + Endpoint(e', q');
    assert Endpoint(d, p) + [SEPARATOR] + Endpoint(e, q) == d + [SEPARATOR] + rest;
    assert Endpoint(d', p') + [SEPARATOR] + Endpoint(e', q') == d' + [SEPARATOR] + rest';
    SplitIsUnique(d, rest, d', rest', SEPARATOR);
    SplitIsUnique(p, Endpoint(e, q), p', Endpoint(e', q'), SEPARATOR);
    SplitIsUnique(e, q, e', q', SEPARATOR);
  }

  datatype End = End(device: string, port: string)

  function SourceEnd(inv: Inventory, o: Observation): End {
    End(o.neighbor.localDevice, inv.portKey(o.neighbor.localPort))
  }

  function TargetEnd(inv: Inventory, o: Observation): End {
    End(TargetDevice(o), inv.portKey(o.neighbor.remotePort))
  }

  ghost predicate SameEnds(inv: Inventory, o: Observation, p: Observation) {
    || (SourceEnd(inv, o) == SourceEnd(inv, p) && TargetEnd(inv, o) == TargetEnd(inv, p))
    || (SourceEnd(inv, o) == TargetEnd(inv, p) && TargetEnd(inv, o) == SourceEnd(inv, p))
  }

  function EndText(e: End): string {
    Endpoint(e.device, e.port)
  }

  ghost predicate PlainEnd(e: End) {
    SEPARATOR !in e.device && SEPARATOR !in e.port
  }

  lemma SortedEndsAreExact(a: End, b: End, c: End, d: End)
    requires PlainEnd(a) && PlainEnd(b) && PlainEnd(c) && PlainEnd(d)
    ensures SortedPair(EndText(a), EndText(b)) == SortedPair(EndText(c), EndText(d)) <==>
            (a == c && b == d) || (a == d && b == c)
  {
    SortedPairIsSymmetric(EndText(a), EndText(b));
    if SortedPair(EndText(a), EndText(b)) == SortedPair(EndText(c), EndText(d)) {
      var (l, r) := if Less(EndText(b), EndText(a)) then (b, a) else (a, b);
      var (l', r') := if Less(EndText(d), EndText(c)) then (d, c) else (c, d);
      JoinIsExact(l.device, l.port, r.device, r.port, l'.device, l'.port, r'.device, r'.port);
    }
  }

  /** The key of an adjacency is its unordered pair of device and port ends. */
  lemma ObservationKeyIsExact(inv: Inventory, o: Observation, p: Observation)
    requires Sound(inv) && Plain(o) && Plain(p)
    ensures ObservationKey(inv)(o) == ObservationKey(inv)(p) <==> SameEnds(inv, o, p)
  {
    SortedEndsAreExact(SourceEnd(inv, o), TargetEnd(inv, o), SourceEnd(inv, p), TargetEnd(inv, p));
    assert |"adj:"| == 4;
    assert ObservationKey(inv)(o)[4..] == SortedPair(EndText(SourceEnd(inv, o)), EndText(TargetEnd(inv, o)));
    assert ObservationKey(inv)(p)[4..] == SortedPair(EndText(SourceEnd(inv, p)), EndText(TargetEnd(inv, p)));
  }

  // ----- merging keeps the direction

  lemma {:induction false} MergeAllKeepsDirection(inv: Inventory, base: Neighbor, items: seq<Observation>,
                                                  device: string, port: string)
    requires base.localDevice == device && inv.portKey(base.localPort) == port
    requires forall o :: o in items ==> inv.portKey(o.neighbor.localPort) == port
    ensures var n := MergeAll(inv, base, items); n.localDevice == device && inv.portKey(n.localPort) == port
  {
    if items == [] {
    } else {
      var last := |items| - 1;
      MergeAllKeepsDirection(inv, base, items[..last], device, port);
      assert items[last] in items;
    }
  }

  lemma MergeKeepsDirection(inv: Inventory, items: seq<Observation>, key: string)
    requires Sound(inv) && items != [] && forall o :: o in items ==> DirectionKey(inv)(o) == key
    ensures DirectionKey(inv)(MergeDirection(inv, items)) == key
  {
    var primary := DirectionPrimary(items);
    forall o | o in items
      ensures o.neighbor.localDevice == primary.neighbor.localDevice
              && inv.portKey(o.neighbor.localPort) == inv.portKey(primary.neighbor.localPort)
    {
      DirectionKeyIsExact(inv, o, primary);
    }
    MergeAllKeepsDirection(inv, primary.neighbor, items, primary.neighbor.localDevice,
                           inv.portKey(primary.neighbor.localPort));
    DirectionKeyIsExact(inv, MergeDirection(inv, items), primary);
  }

  /** After merging, no two observations share a direction. */
  lemma MergedDirectionsAreDistinct(inv: Inventory, observations: seq<Observation>)
    requires Sound(inv)
    ensures var merged, keys := Merged(inv, observations), Keys(Scoped(observations), DirectionKey(inv));
            |merged| == |keys| && forall i :: 0 <= i < |merged| ==> DirectionKey(inv)(merged[i]) == keys[i]
    ensures var merged := Merged(inv, observations);
            forall i, j :: 0 <= i < j < |merged| ==> DirectionKey(inv)(merged[i]) != DirectionKey(inv)(merged[j])
  {
    var scoped, key := Scoped(observations), DirectionKey(inv);
    var merged, keys := Merged(inv, observations), Keys(scoped, key);
    GroupsAreNotEmpty(scoped, key);
    forall i | 0 <= i < |merged| ensures key(merged[i]) == keys[i] {
      SelectIsExact(scoped, key, keys[i]);
      assert Groups(scoped, key)[i] == Select(scoped, key, keys[i]);
      MergeKeepsDirection(inv, Groups(scoped, key)[i], keys[i]);
    }
    KeysAreDistinct(scoped, key);
  }

  /** The primary's own values are never overwritten. */
  lemma {:induction false} PrimaryIsNotOverwritten(inv: Inventory, base: Neighbor, items: seq<Observation>)
    ensures var n := MergeAll(inv, base, items);
            && n.id == base.id && n.localDevice == base.localDevice && n.source == base.source
            && (inv.useful(base.remoteName) ==> n.remoteName == base.remoteName)
            && (inv.useful(base.remotePort) ==> n.remotePort == base.remotePort)
            && (inv.useful(base.localPort) ==> n.localPort == base.localPort)
            && (base.remoteChassis.Some? ==> n.remoteChassis == base.remoteChassis)
            && (base.remoteAddress.Some? ==> n.remoteAddress == base.remoteAddress)
            && (base.localIfIndex.Some? ==> n.localIfIndex == base.localIfIndex)
            && (base.localMac.Some? ==> n.localMac == base.localMac)
  {
    if items == [] {
    } else {
      PrimaryIsNotOverwritten(inv, base, items[..|items| - 1]);
    }
  }

  ghost predicate SomeHas(items: seq<Observation>, has: Neighbor -> bool) {
    exists o :: o in items && has(o.neighbor)
  }

  lemma SomeHasOneMore(before: seq<Observation>, o: Observation, has: Neighbor -> bool)
    ensures SomeHas(before + [o], has) <==> SomeHas(before, has) || has(o.neighbor)
  {
    assert o in before + [o];
    forall x | x in before && has(x.neighbor) ensures SomeHas(before + [o], has) {
      assert x in before + [o];
    }
  }

  function HasName(inv: Inventory): Neighbor -> bool {
    (n: Neighbor) => inv.useful(n.remoteName)
  }

  function HasPort(inv: Inventory): Neighbor -> bool {
    (n: Neighbor) => inv.useful(n.remotePort)
  }

  predicate HasChassis(n: Neighbor) {
    n.remoteChassis.Some?
  }

  predicate HasAddress(n: Neighbor) {
    n.remoteAddress.Some?
  }

  /** What the primary lacks is filled exactly when another source of the direction has it. */
  lemma {:induction false} MissingIsFilled(inv: Inventory, base: Neighbor, items: seq<Observation>)
    ensures var n := MergeAll(inv, base, items);
            && (HasName(inv)(n) <==> HasName(inv)(base) || SomeHas(items, HasName(inv)))
            && (HasPort(inv)(n) <==> HasPort(inv)(base) || SomeHas(items, HasPort(inv)))
            && (HasChassis(n) <==> HasChassis(base) || SomeHas(items, HasChassis))
            && (HasAddress(n) <==> HasAddress(base) || SomeHas(items, HasAddress))
  {
    if items == [] {
    } else {
      var last := |items| - 1;
      var before, o := items[..last], items[last];
      assert items == before + [o];
      MissingIsFilled(inv, base, before);
      SomeHasOneMore(before, o, HasName(inv));
      SomeHasOneMore(before, o, HasPort(inv));
      SomeHasOneMore(before, o, HasChassis);
      SomeHasOneMore(before, o, HasAddress);
    }
  }

  /** How good an observation is as the face of its adjacency: SNMP first, then with host and both interfaces known. */
  function Standing(o: Observation): nat {
    (if o.neighbor.source == LLDP_SNMP then 2 else 0)
    + if o.sourceInterface.Some? && o.targetInterface.Some? && o.targetHost.Some? then 1 else 0
  }

  /** What a proposal says of its two ends. */
  ghost predicate Shows(p: Proposal, o: Observation) {
    && p.sourceHost == o.neighbor.localDevice && p.sourcePort == o.neighbor.localPort
    && p.sourceInterface == o.sourceInterface
    && p.targetHost == o.targetHost && p.targetPort == o.neighbor.remotePort && p.targetInterface == o.targetInterface
    && p.source == o.neighbor.source
  }

  /** A proposal shows one of the best observations of its group. */
  lemma PrimaryIsBest(inv: Inventory, group: seq<Observation>, links: seq<Link>) returns (primary: Observation)
    requires group != []
    ensures primary in group && Shows(AdjacencyOf(inv, group, links), primary)
    ensures forall o :: o in group ==> Standing(o) <= Standing(primary)
  {
    primary := PickPrimary(group);
    forall o | o in group ensures Standing(o) <= Standing(primary) {
      assert ResolvedFromSnmp(o) ==> Find(group, ResolvedFromSnmp).Some?;
      assert FromSnmp(o) ==> Find(group, FromSnmp).Some?;
      assert Resolved(o) ==> Find(group, Resolved).Some?;
    }
  }

  // ----- every observation, one proposal

  /** The merged observation that an observation went into. */
  ghost predicate WentInto(inv: Inventory, observations: seq<Observation>, o: Observation, m: Observation) {
    m in Merged(inv, observations) && DirectionKey(inv)(m) == DirectionKey(inv)(o)
  }

  /** A merged observation is part of the k-th proposal. */
  ghost predicate PartOf(inv: Inventory, observations: seq<Observation>, m: Observation, k: nat) {
    k < |AdjacencyGroups(inv, observations)| && m in AdjacencyGroups(inv, observations)[k]
  }

  ghost predicate ContributesTo(inv: Inventory, observations: seq<Observation>, o: Observation, k: nat) {
    exists m :: WentInto(inv, observations, o, m) && PartOf(inv, observations, m, k)
  }

  lemma WentIntoOne(inv: Inventory, observations: seq<Observation>, o: Observation) returns (m: Observation)
    requires Sound(inv) && o in observations && !SelfReflection(o)
    ensures WentInto(inv, observations, o, m)
    ensures forall m' :: WentInto(inv, observations, o, m') ==> m' == m
  {
    var scoped, key := Scoped(observations), DirectionKey(inv);
    MergedDirectionsAreDistinct(inv, observations);
    KeysAreTheKeys(scoped, key);
    var merged, keys := Merged(inv, observations), Keys(scoped, key);
    var i :| 0 <= i < |keys| && keys[i] == key(o);
    m := merged[i];
    assert m in merged;
    forall m' | WentInto(inv, observations, o, m') ensures m' == m {
      var j :| 0 <= j < |merged| && merged[j] == m';
      assert key(merged[i]) == key(merged[j]);
    }
  }

  lemma GroupOf(items: seq<Observation>, key: Observation -> string, m: Observation) returns (k: nat)
    requires m in items
    ensures k < |Groups(items, key)| && m in Groups(items, key)[k]
    ensures forall j: nat :: j < |Groups(items, key)| && m in Groups(items, key)[j] ==> j == k
  {
    KeysAreTheKeys(items, key);
    KeysAreDistinct(items, key);
    var keys := Keys(items, key);
    k :| 0 <= k < |keys| && keys[k] == key(m);
    SelectIsExact(items, key, keys[k]);
    forall j: nat | j < |keys| && m in Groups(items, key)[j] ensures j == k {
      SelectIsExact(items, key, keys[j]);
      assert keys[j] == keys[k];
    }
  }

  /** Every observation that is not a self reflection is part of exactly one proposal. */
  lemma EveryObservationInExactlyOneProposal(inv: Inventory, observations: seq<Observation>, o: Observation)
    requires Sound(inv) && o in observations && !SelfReflection(o)
    ensures exists k: nat :: ContributesTo(inv, observations, o, k)
    ensures forall j: nat, k: nat ::
              ContributesTo(inv, observations, o, j) && ContributesTo(inv, observations, o, k) ==> j == k
  {
    var m := WentIntoOne(inv, observations, o);
    var k := GroupOf(Merged(inv, observations), ObservationKey(inv), m);
    assert ContributesTo(inv, observations, o, k);
  }

  /** Nothing else is: the groups hold each merged observation once, and every one comes from an observation. */
  lemma ProposalsHoldNothingElse(inv: Inventory, observations: seq<Observation>)
    requires Sound(inv)
    ensures multiset(Flatten(AdjacencyGroups(inv, observations))) == multiset(Merged(inv, observations))
    ensures multiset(Flatten(Groups(Scoped(observations), DirectionKey(inv)))) == multiset(Scoped(observations))
    ensures |Merged(inv, observations)| == |Groups(Scoped(observations), DirectionKey(inv))|
  {
    GroupsPartition(Merged(inv, observations), ObservationKey(inv));
    GroupsPartition(Scoped(observations), DirectionKey(inv));
  }

  // ----- groups and ends

  ghost predicate AllPlain(inv: Inventory, observations: seq<Observation>) {
    forall m :: m in Merged(inv, observations) ==> Plain(m)
  }

  lemma PartOfIsExact(inv: Inventory, observations: seq<Observation>, m: Observation, k: nat)
    ensures PartOf(inv, observations, m, k) <==>
            m in Merged(inv, observations)
            && k < |Keys(Merged(inv, observations), ObservationKey(inv))|
            && ObservationKey(inv)(m) == Keys(Merged(inv, observations), ObservationKey(inv))[k]
  {
    var merged, key := Merged(inv, observations), ObservationKey(inv);
    if k < |Keys(merged, key)| {
      SelectIsExact(merged, key, Keys(merged, key)[k]);
    }
  }

  /**
   * Two merged observations are in one proposal exactly when they have the same two
   * ends, in either direction: mirrors meet, and proposals differ in their ends.
   */
  lemma OneProposalPerPairOfEnds(inv: Inventory, observations: seq<Observation>, m: Observation, n: Observation, j: nat,
                                 k: nat)
    requires Sound(inv) && AllPlain(inv, observations)
    ensures PartOf(inv, observations, m, j) && PartOf(inv, observations, n, k) ==> (j == k <==> SameEnds(inv, m, n))
  {
    if PartOf(inv, observations, m, j) && PartOf(inv, observations, n, k) {
      PartOfIsExact(inv, observations, m, j);
      PartOfIsExact(inv, observations, n, k);
      ObservationKeyIsExact(inv, m, n);
      KeysAreDistinct(Merged(inv, observations), ObservationKey(inv));
    }
  }

  // ----- confirmation

  /** The item is the primary seen from the other side. */
  ghost predicate SeenFromTheOtherSide(primary: Observation, item: Observation) {
    primary.targetHost == Some(item.neighbor.localDevice) && item.targetHost == Some(primary.neighbor.localDevice)
  }

  /** Each sighting names the port that the other one calls its own. */
  ghost predicate NameTheSamePorts(inv: Inventory, o: Observation, r: Observation) {
    && inv.portKey(r.neighbor.remotePort) == inv.portKey(o.neighbor.localPort)
    && inv.portKey(o.neighbor.remotePort) == inv.portKey(r.neighbor.localPort)
  }

  /** Between two devices a reverse sighting of the same adjacency always names the same two ports. */
  lemma ReverseIsCompatible(inv: Inventory, o: Observation, r: Observation)
    requires SameEnds(inv, o, r) && SeenFromTheOtherSide(o, r) && !SelfReflection(o)
    ensures NameTheSamePorts(inv, o, r)
  {
  }

  lemma ReverseIsExact(group: seq<Observation>, primary: Observation, item: Observation)
    ensures item in Reverse(group, primary) && Confirms(primary, item) <==>
            item in group && SeenFromTheOtherSide(primary, item)
  {
    if primary.targetHost.Some? {
      SelectIsExact(group, LocalDevice(), primary.targetHost.value);
    }
  }

  /**
   * A proposal is CONFIRMED exactly when its primary observation has a unique target,
   * the adjacency was seen from the other side, and both interfaces are known. (Ports
   * matter only for a device linked to itself.)
   */
  lemma ConfirmedExactly(inv: Inventory, observations: seq<Observation>, links: seq<Link>, k: nat)
    requires Sound(inv) && AllPlain(inv, observations)
    ensures k < |AdjacencyGroups(inv, observations)| ==>
              var group := AdjacencyGroups(inv, observations)[k];
              var o := PickPrimary(group);
              (AdjacencyOf(inv, group, links).confidence == CONFIRMED <==>
               o.candidates == 1 && o.sourceInterface.Some? && o.targetInterface.Some?
               && exists r :: r in group && SeenFromTheOtherSide(o, r)
                              && (SelfReflection(o) ==> NameTheSamePorts(inv, o, r)))
  {
    if k < |AdjacencyGroups(inv, observations)| {
      var group := AdjacencyGroups(inv, observations)[k];
      var o := PickPrimary(group);
      assert PartOf(inv, observations, o, k);
      PartOfIsExact(inv, observations, o, k);
      MergedAreObserved(inv, observations, o);
      forall r | r in group && SeenFromTheOtherSide(o, r) && !SelfReflection(o)
        ensures NameTheSamePorts(inv, o, r) {
        assert PartOf(inv, observations, r, k);
        OneProposalPerPairOfEnds(inv, observations, o, r, k, k);
        ReverseIsCompatible(inv, o, r);
      }
      forall r ensures r in Reverse(group, o) && Confirms(o, r) <==> r in group && SeenFromTheOtherSide(o, r) {
        ReverseIsExact(group, o, r);
      }
      ConfirmedByClass(inv, group, o, links);
    }
  }

  /**
   * A proposal names an unknown neighbour exactly when no host fits, is probable exactly when
   * one fits by some signal from a known interface without being confirmed, and is ambiguous
   * in every other case that is not confirmed.
   */
  lemma UnknownExactly(inv: Inventory, observations: seq<Observation>, links: seq<Link>, k: nat)
    requires Sound(inv)
    ensures k < |AdjacencyGroups(inv, observations)| ==>
              var group := AdjacencyGroups(inv, observations)[k];
              var o, p := PickPrimary(group), AdjacencyOf(inv, group, links);
              && (p.confidence == UNKNOWN_NEIGHBOR <==> o.candidates == 0)
              && (p.confidence == PROBABLE <==>
                  p.confidence != CONFIRMED && o.candidates == 1 && o.matchedBy.Some? && o.sourceInterface.Some?)
              && (p.confidence == CONFIRMED ==> o.candidates == 1 && o.sourceInterface.Some?)
  {
    if k < |AdjacencyGroups(inv, observations)| {
      var o := PickPrimary(AdjacencyGroups(inv, observations)[k]);
      assert PartOf(inv, observations, o, k);
      PartOfIsExact(inv, observations, o, k);
      MergedAreObserved(inv, observations, o);
      UnknownByClass(inv, AdjacencyGroups(inv, observations)[k], o, links);
    }
  }

  lemma UnknownByClass(inv: Inventory, group: seq<Observation>, o: Observation, links: seq<Link>)
    requires group != [] && o == PickPrimary(group)
    requires o.targetHost.Some? <==> o.candidates == 1
    ensures var p := AdjacencyOf(inv, group, links);
            && (p.confidence == UNKNOWN_NEIGHBOR <==> o.candidates == 0)
            && (p.confidence == PROBABLE <==>
                p.confidence != CONFIRMED && o.candidates == 1 && o.matchedBy.Some? && o.sourceInterface.Some?)
            && (p.confidence == CONFIRMED ==> o.candidates == 1 && o.sourceInterface.Some?)
  {
    assert o.matchedBy.Some? ==>
             o.matchedBy.value == MANAGEMENT_IP || o.matchedBy.value == CHASSIS_ID || o.matchedBy.value == SYSTEM_NAME;
  }

  lemma ConfirmedByClass(inv: Inventory, group: seq<Observation>, o: Observation, links: seq<Link>)
    requires group != [] && o == PickPrimary(group)
    requires o.targetHost.Some? <==> o.candidates == 1
    ensures AdjacencyOf(inv, group, links).confidence == CONFIRMED <==>
            o.candidates == 1 && o.sourceInterface.Some? && o.targetInterface.Some?
            && ReverseConfirmed(group, o) && ReverseCompatible(inv, group, o)
  {
  }

  lemma MergedAreObserved(inv: Inventory, observations: seq<Observation>, m: Observation)
    requires Sound(inv) && m in Merged(inv, observations)
    ensures m.targetHost.Some? <==> m.candidates == 1
    ensures m.targetInterface.Some? ==> m.targetHost.Some?
  {
    GroupsAreNotEmpty(Scoped(observations), DirectionKey(inv));
    var i :| 0 <= i < |Merged(inv, observations)| && Merged(inv, observations)[i] == m;
    var items := Groups(Scoped(observations), DirectionKey(inv))[i];
    assert m == MergeDirection(inv, items);
  }

  // ----- self reflections

  lemma MergeWithSelf(inv: Inventory, o: Observation)
    ensures MergeAll(inv, o.neighbor, [o]) == o.neighbor
  {
    assert [o][..0] == [];
  }

  /** A direction with a single observation is left as it was correlated. */
  lemma SingleObservationIsKept(inv: Inventory, o: Observation)
    requires inv.observe(o.neighbor) == o
    ensures MergeDirection(inv, [o]) == o
  {
    MergeWithSelf(inv, o);
    assert o.neighbor.(source := o.neighbor.source, id := o.neighbor.id) == o.neighbor;
  }

  /** The first neighbour lacks something the second would fill in. */
  ghost predicate Complements(inv: Inventory, base: Neighbor, extra: Neighbor) {
    || (!inv.useful(base.remoteName) && extra.remoteName != base.remoteName)
    || (!inv.useful(base.remotePort) && extra.remotePort != base.remotePort)
    || (!inv.useful(base.localPort) && extra.localPort != base.localPort)
    || (base.remoteChassis.None? && extra.remoteChassis.Some?)
    || (base.remoteAddress.None? && extra.remoteAddress.Some?)
    || (base.remotePortDescription.None? && extra.remotePortDescription.Some?)
    || (base.systemDescription.None? && extra.systemDescription.Some?)
    || (base.localIfIndex.None? && extra.localIfIndex.Some?)
    || (base.localPortSubtype.None? && extra.localPortSubtype.Some?)
    || (base.localMac.None? && extra.localMac.Some?)
  }

  lemma ComplementsIsExact(inv: Inventory, base: Neighbor, extra: Neighbor)
    ensures MergeNeighbor(inv, base, extra) != base <==> Complements(inv, base, extra)
  {
  }

  /** A primary that lacks nothing the others have is what the merge is correlated with. */
  lemma {:induction false} CompleteIsKept(inv: Inventory, base: Neighbor, items: seq<Observation>)
    requires forall o :: o in items ==> !Complements(inv, base, o.neighbor)
    ensures MergeAll(inv, base, items) == base
  {
    if items == [] {
    } else {
      var last := |items| - 1;
      CompleteIsKept(inv, base, items[..last]);
      assert items[last] in items;
      ComplementsIsExact(inv, base, items[last].neighbor);
    }
  }

  /** Sightings as discovery makes them: each correlated on its own, none a self reflection. */
  ghost predicate Sightings(observe: Neighbor -> Observation, items: seq<Observation>) {
    forall o :: o in items ==> observe(o.neighbor) == o && !SelfReflection(o)
  }

  /** A direction whose merged neighbour was sighted as such is no self reflection. */
  lemma SightedIsNoReflection(inv: Inventory, items: seq<Observation>, o: Observation)
    requires items != [] && Sightings(inv.observe, items) && o in items && o.neighbor == MergedNeighbor(inv, items)
    ensures MergeDirection(inv, items) == o
  {
  }

  /** Correlation that agrees with the sightings and takes the merged neighbour for its own device. */
  function Misled(observe: Neighbor -> Observation, merged: Neighbor): Neighbor -> Observation {
    (n: Neighbor) =>
      if n == merged then Observation(n, None, Some(n.localDevice), 1, None, Some(CHASSIS_ID)) else observe(n)
  }

  /**
   * Given what was sighted, some correlation that agrees with the sightings makes the
   * merge a self reflection exactly when the merged neighbour is none of the sighted
   * ones.
   */
  lemma MergingReflectsExactly(inv: Inventory, items: seq<Observation>)
    requires items != [] && Sound(inv) && Sightings(inv.observe, items)
    ensures (exists observe ::
               Sound(inv.(observe := observe)) && Sightings(observe, items)
               && SelfReflection(MergeDirection(inv.(observe := observe), items)))
            <==> forall o :: o in items ==> o.neighbor != MergedNeighbor(inv, items)
  {
    var merged := MergedNeighbor(inv, items);
    if forall o :: o in items ==> o.neighbor != merged {
      MisledIsSound(inv, items);
      assert Sound(inv.(observe := Misled(inv.observe, merged)));
    }
    forall observe, o | Sightings(observe, items) && o in items && o.neighbor == merged
      ensures !SelfReflection(MergeDirection(inv.(observe := observe), items))
    {
      MergingIgnoresCorrelation(inv, observe, items);
      SightedIsNoReflection(inv.(observe := observe), items, o);
    }
  }

  lemma {:induction false} MergeAllIgnoresCorrelation(inv: Inventory, observe: Neighbor -> Observation, base: Neighbor,
                                                      items: seq<Observation>)
    ensures MergeAll(inv.(observe := observe), base, items) == MergeAll(inv, base, items)
  {
    if items == [] {
    } else {
      MergeAllIgnoresCorrelation(inv, observe, base, items[..|items| - 1]);
    }
  }

  lemma MergingIgnoresCorrelation(inv: Inventory, observe: Neighbor -> Observation, items: seq<Observation>)
    requires items != []
    ensures MergedNeighbor(inv.(observe := observe), items) == MergedNeighbor(inv, items)
  {
    MergeAllIgnoresCorrelation(inv, observe, DirectionPrimary(items).neighbor, items);
  }

  lemma MisledIsSound(inv: Inventory, items: seq<Observation>)
    requires items != [] && Sound(inv) && Sightings(inv.observe, items)
    requires forall o :: o in items ==> o.neighbor != MergedNeighbor(inv, items)
    ensures var observe := Misled(inv.observe, MergedNeighbor(inv, items));
            && Sound(inv.(observe := observe)) && Sightings(observe, items)
            && SelfReflection(MergeDirection(inv.(observe := observe), items))
  {
    MergingIgnoresCorrelation(inv, Misled(inv.observe, MergedNeighbor(inv, items)), items);
  }

  /** The direction a merged observation comes from. */
  ghost predicate ComesFrom(inv: Inventory, observations: seq<Observation>, m: Observation, items: seq<Observation>) {
    && items != [] && items in Groups(Scoped(observations), DirectionKey(inv)) && m == MergeDirection(inv, items)
  }

  lemma MergedComesFrom(inv: Inventory, observations: seq<Observation>, m: Observation)
    returns (items: seq<Observation>)
    requires m in Merged(inv, observations)
    ensures ComesFrom(inv, observations, m, items)
    ensures forall o :: o in items ==> o in observations && !SelfReflection(o)
  {
    var scoped, key := Scoped(observations), DirectionKey(inv);
    GroupsAreNotEmpty(scoped, key);
    var i :| 0 <= i < |Merged(inv, observations)| && Merged(inv, observations)[i] == m;
    items := Groups(scoped, key)[i];
    SelectIsExact(scoped, key, Keys(scoped, key)[i]);
  }

  /** Some sighting of the direction has what its primary lacks. */
  ghost predicate SomeFills(inv: Inventory, items: seq<Observation>)
    requires items != []
  {
    exists o: Observation :: o in items && Complements(inv, DirectionPrimary(items).neighbor, o.neighbor)
  }

  /**
   * A merged observation that points back at its own device comes from a direction
   * sighted at least twice, whose primary lacked something another sighting filled in.
   */
  lemma OnlyAFilledGapReflects(inv: Inventory, observations: seq<Observation>, m: Observation)
    requires m in Merged(inv, observations) && SelfReflection(m)
    requires forall o :: o in observations ==> inv.observe(o.neighbor) == o
    ensures exists items ::
              ComesFrom(inv, observations, m, items) && |items| >= 2 && SomeFills(inv, items)
  {
    var items := MergedComesFrom(inv, observations, m);
    ReflectionNeedsAGap(inv, items);
  }

  lemma ReflectionNeedsAGap(inv: Inventory, items: seq<Observation>)
    requires items != [] && Sightings(inv.observe, items) && SelfReflection(MergeDirection(inv, items))
    ensures |items| >= 2 && SomeFills(inv, items)
  {
    var primary := DirectionPrimary(items);
    if !SomeFills(inv, items) {
      CompleteIsKept(inv, primary.neighbor, items);
      SightedIsNoReflection(inv, items, primary);
    }
    NothingComplementsItself(inv, primary.neighbor);
    assert primary in items;
  }

  lemma NothingComplementsItself(inv: Inventory, n: Neighbor)
    ensures !Complements(inv, n, n)
  {
  }

  /** Correlation on a small inventory: first by address, then by chassis id. */
  function Correlated(n: Neighbor): Observation {
    if n.remoteAddress == Some("10.0.0.2") then Observation(n, None, Some("core"), 1, None, Some(MANAGEMENT_IP))
    else if n.remoteChassis == Some("aa:01") then Observation(n, None, Some("edge"), 1, None, Some(CHASSIS_ID))
    else Observation(n, None, None, 0, None, None)
  }

  /**
   * Self reflections are dropped before merging only. When one direction is seen
   * twice, the merged neighbour can still point back at its own device: here by an
   * address nobody has, from one source, and the chassis id of the device itself, from
   * the other, whose own address named another host.
   */
  lemma MergingCanReflect()
    ensures var inv := Inventory(port => "p1", text => text != "", Correlated);
            var snmp := Neighbor("n1", "edge", "p1", None, None, None, "x", None, Some("10.0.0.9"), "p2", None, None,
                                 LLDP_SNMP);
            var ssh := Neighbor("n2", "edge", "p1", None, None, None, "x", Some("aa:01"), Some("10.0.0.2"), "p2", None,
                                None, LLDP_SSH);
            var observations := [Correlated(snmp), Correlated(ssh)];
            && Sound(inv) && Scoped(observations) == observations
            && |Merged(inv, observations)| == 1 && SelfReflection(Merged(inv, observations)[0])
  {
    var inv := Inventory(port => "p1", text => text != "", Correlated);
    var snmp := Neighbor("n1", "edge", "p1", None, None, None, "x", None, Some("10.0.0.9"), "p2", None, None,
                         LLDP_SNMP);
    var ssh := Neighbor("n2", "edge", "p1", None, None, None, "x", Some("aa:01"), Some("10.0.0.2"), "p2", None, None,
                        LLDP_SSH);
    assert |"10.0.0.9"| == 8 && "10.0.0.9"[7] == '9' && "10.0.0.2"[7] == '2';
    assert "core"[0] != "edge"[0];
    assert SEPARATOR !in "p1";
    TwiceSeen(inv, Correlated(snmp), Correlated(ssh));
  }

  lemma TwiceSeen(inv: Inventory, a: Observation, b: Observation)
    requires a.neighbor.source == LLDP_SNMP && !SelfReflection(a) && !SelfReflection(b)
    requires DirectionKey(inv)(a) == DirectionKey(inv)(b)
    ensures Scoped([a, b]) == [a, b]
    ensures Merged(inv, [a, b]) == [inv.observe(MergeNeighbor(inv, a.neighbor, b.neighbor))]
  {
    var key := DirectionKey(inv);
    assert [a, b][..1] == [a] && [a][..0] == [];
    assert Scoped([a]) == [a];
    assert Keys([a], key) == [key(a)] && Keys([a, b], key) == [key(a)];
    assert Select([a], key, key(a)) == [a] && Select([a, b], key, key(a)) == [a, b];
    assert Groups([a, b], key) == [[a, b]];
    assert DirectionPrimary([a, b]) == a;
    MergeWithSelf(inv, a);
    assert MergeAll(inv, a.neighbor, [a, b]) == MergeNeighbor(inv, a.neighbor, b.neighbor);
    assert MergeNeighbor(inv, a.neighbor, b.neighbor).(source := a.neighbor.source, id := a.neighbor.id)
           == MergeNeighbor(inv, a.neighbor, b.neighbor);
  }

  // ----- links already on the map

  /** A proposal is a duplicate exactly when a link joins its two interfaces, and then names the last such link. */
  lemma DuplicateIsExact(inv: Inventory, group: seq<Observation>, links: seq<Link>)
    requires group != []
    requires forall link :: link in links ==> SEPARATOR !in link.sourceInterface && SEPARATOR !in link.targetInterface
    requires var o := PickPrimary(group);
             o.sourceInterface.Some? && o.targetInterface.Some? ==>
               SEPARATOR !in o.sourceInterface.value && SEPARATOR !in o.targetInterface.value
    ensures var o, p := PickPrimary(group), AdjacencyOf(inv, group, links);
            && (p.duplicate <==>
                o.sourceInterface.Some? && o.targetInterface.Some?
                && SomeJoins(links, o.sourceInterface.value, o.targetInterface.value))
            && p.existingLinkId ==
               if p.duplicate then LastJoin(links, o.sourceInterface.value, o.targetInterface.value) else None
  {
    var o := PickPrimary(group);
    if o.sourceInterface.Some? && o.targetInterface.Some? {
      LinkIdsAreExact(links, o.sourceInterface.value, o.targetInterface.value);
    }
  }

  ghost predicate Joins(link: Link, a: string, b: string) {
    (link.sourceInterface == a && link.targetInterface == b) || (link.sourceInterface == b && link.targetInterface == a)
  }

  lemma LinkKeyIsExact(a: string, b: string, c: string, d: string)
    requires SEPARATOR !in a && SEPARATOR !in b && SEPARATOR !in c && SEPARATOR !in d
    ensures LinkKey(a, b) == LinkKey(c, d) <==> (a == c && b == d) || (a == d && b == c)
  {
    SortedPairIsSymmetric(a, b);
    if LinkKey(a, b) == LinkKey(c, d) {
      var (l, r) := if Less(b, a) then (b, a) else (a, b);
      var (l', r') := if Less(d, c) then (d, c) else (c, d);
      SplitIsUnique(l, r, l', r', SEPARATOR);
    }
  }

  ghost predicate SomeJoins(links: seq<Link>, a: string, b: string) {
    exists link :: link in links && Joins(link, a, b)
  }

  /** The last link that joins the two. */
  ghost function LastJoin(links: seq<Link>, a: string, b: string): Option<string> {
    if links == [] then None
    else
      var last := links[|links| - 1];
      if Joins(last, a, b) then Some(last.id) else LastJoin(links[..|links| - 1], a, b)
  }

  lemma SomeJoinsOneMore(before: seq<Link>, link: Link, a: string, b: string)
    ensures SomeJoins(before + [link], a, b) <==> SomeJoins(before, a, b) || Joins(link, a, b)
  {
    assert link in before + [link];
    forall x | x in before && Joins(x, a, b) ensures SomeJoins(before + [link], a, b) {
      assert x in before + [link];
    }
  }

  lemma {:induction false} LinkIdsAreExact(links: seq<Link>, a: string, b: string)
    requires SEPARATOR !in a && SEPARATOR !in b
    requires forall link :: link in links ==> SEPARATOR !in link.sourceInterface && SEPARATOR !in link.targetInterface
    ensures LinkKey(a, b) in LinkIds(links) <==> SomeJoins(links, a, b)
    ensures LinkKey(a, b) in LinkIds(links) ==> LastJoin(links, a, b) == Some(LinkIds(links)[LinkKey(a, b)])
  {
    if links == [] {
    } else {
      var last := |links| - 1;
      var link := links[last];
      assert links == links[..last] + [link];
      LinkIdsAreExact(links[..last], a, b);
      LinkKeyIsExact(link.sourceInterface, link.targetInterface, a, b);
      SomeJoinsOneMore(links[..last], link, a, b);
    }
  }
}
