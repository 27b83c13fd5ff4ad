/**
  Cluster discovery: one scan over the provider's instances, networks and subnets that
  rebuilds the map from cluster id to cluster. Instances are grouped by the "bibigrid-id"
  tag or, failing that, by the id at the end of a master/slave name; networks and subnets
  are attached by their name prefix. The map is built once per listing and then reused.
*/
module ListIntent {
  import opened Wrappers
  import opened JavaText
  import opened ClusterModel

  /** The fields of a provider instance that discovery reads. */
  datatype InstanceInfo = InstanceInfo(
    id: string,
    name: Option<string>,
    tags: map<string, string>,
    keyName: Option<string>,
    publicIp: Option<string>,
    started: string)

  /** A network or subnet as listed by the provider. */
  datatype NamedResource = NamedResource(id: string, name: Option<string>)

  /** What the provider lists; a null list is `None`. */
  datatype Snapshot = Snapshot(
    instances: Option<seq<InstanceInfo>>,
    networks: Option<seq<NamedResource>>,
    subnets: Option<seq<NamedResource>>)

  type ClusterMap = map<string, Cluster>

  function Tag(inst: InstanceInfo, key: string): Option<string> {
    if key in inst.tags then Some(inst.tags[key]) else None
  }

  predicate HasNamePrefix(name: Option<string>, prefix: string) {
    name.Some? && StartsWith(name.value, prefix)
  }

  /**
    `getClusterIdFromName`: the last '-'-separated field of a name, with Java's split
    (trailing empty fields dropped). A name made of '-' only splits into nothing and the
    array access throws (`None`).
  */
  function ClusterIdFromName(name: string): (r: Option<string>)
    ensures r.None? <==> name != "" && OnlyChar(name, '-')
    ensures r.Some? ==> '-' !in r.value
    ensures '-' !in name ==> r == Some(name)
  {
    SplitEmptyIff(name, '-');
    var parts := Split(name, '-');
    if |parts| == 0 then None else Some(parts[|parts| - 1])
  }

  /** A name built as prefix + "-" + id gives the id back. */
  lemma ClusterIdFromNameSuffix(prefix: string, id: string)
    requires '-' !in id && id != ""
    ensures ClusterIdFromName(prefix + "-" + id) == Some(id)
  {
    assert prefix + "-" + id == prefix + ['-'] + id;
    SplitLast(prefix, id, '-');
  }

  /** A name carrying a valid prefix always yields a cluster id. */
  lemma PrefixedNameHasId(name: string, prefix: string)
    requires StartsWith(name, prefix) && !OnlyChar(prefix, '-')
    ensures ClusterIdFromName(name).Some?
  {
    PrefixNotOnlyChar(name, prefix, '-');
  }

  /**
    `getClusterIdForInstance`: the "bibigrid-id" tag if present; otherwise the id at the end
    of a master- or slave-prefixed instance name; otherwise none, and the instance is skipped.
  */
  function ClusterIdForInstance(inst: InstanceInfo, nm: Naming): (r: Option<string>)
    requires nm.Valid()
    ensures Tag(inst, TagBibigridId).Some? ==> r == Tag(inst, TagBibigridId)
    ensures Tag(inst, TagBibigridId).None? ==>
      (r.Some? <==> HasNamePrefix(inst.name, nm.masterPrefix) || HasNamePrefix(inst.name, nm.slavePrefix))
    ensures Tag(inst, TagBibigridId).None? && r.Some? ==> r == ClusterIdFromName(inst.name.value)
  {
    match Tag(inst, TagBibigridId)
    case Some(id) => Some(id)
    case None =>
      if HasNamePrefix(inst.name, nm.masterPrefix) then
        PrefixedNameHasId(inst.name.value, nm.masterPrefix);
        ClusterIdFromName(inst.name.value)
      else if HasNamePrefix(inst.name, nm.slavePrefix) then
        PrefixedNameHasId(inst.name.value, nm.slavePrefix);
        ClusterIdFromName(inst.name.value)
      else None
  }

  /** The name that decides the role: the "name" tag, falling back to the instance name. */
  function RoleName(inst: InstanceInfo): Option<string> {
    match Tag(inst, TagName)
    case Some(n) => Some(n)
    case None => inst.name
  }

  predicate IsMasterNamed(inst: InstanceInfo, nm: Naming) {
    HasNamePrefix(RoleName(inst), nm.masterPrefix)
  }

  /** The cluster stored under an id, or the fresh cluster `getOrCreateCluster` would create. */
  function Lookup(m: ClusterMap, clusterId: string): Cluster {
    if clusterId in m then m[clusterId] else NewCluster(clusterId)
  }

  /**
    `getOrCreateCluster`: the stored cluster for a known id; for an unseen id exactly one
    fresh entry is inserted. No other entry changes.
  */
  function GetOrCreateCluster(m: ClusterMap, clusterId: string): (r: (Cluster, ClusterMap))
    ensures clusterId in r.1 && r.1[clusterId] == r.0
    ensures r.1.Keys == m.Keys + {clusterId}
    ensures clusterId in m ==> r.0 == m[clusterId] && r.1 == m
    ensures clusterId !in m ==> r.0 == NewCluster(clusterId) && |r.1| == |m| + 1
    ensures forall k :: k in m ==> r.1[k] == m[k]
  {
    if clusterId in m then (m[clusterId], m)
    else
      var c := NewCluster(clusterId);
      (c, m[clusterId := c])
  }

  /**
    What `checkInstance` does to the instance's cluster: the first master-named instance
    becomes master (with its public ip, key name and start time); a later master-named one
    is only reported. Any other instance is appended to the slaves. Then the key name is
    filled while it is missing and the user is taken from the first "user" tag.
  */
  function Step(c: Cluster, inst: InstanceInfo, nm: Naming): Cluster {
    var c1 :=
      if IsMasterNamed(inst, nm) then
        if c.master.None? then
          c.(master := Some(inst.id), publicIp := inst.publicIp, keyName := inst.keyName, started := Some(inst.started))
        else c
      else c.(slaves := c.slaves + [inst.id]);
    var c2 := if c1.keyName.Some? then c1 else c1.(keyName := inst.keyName);
    var user := Tag(inst, TagUser);
    if user.Some? && c2.user.None? then c2.(user := user) else c2
  }

  function CheckInstance(m: ClusterMap, inst: InstanceInfo, nm: Naming): ClusterMap
    requires nm.Valid()
  {
    match ClusterIdForInstance(inst, nm)
    case None => m
    case Some(k) => m[k := Step(Lookup(m, k), inst, nm)]
  }

  /** The instance loop of `searchClusterIfNecessary`, in scan order. */
  function ScanInstances(m: ClusterMap, insts: seq<InstanceInfo>, nm: Naming): ClusterMap
    requires nm.Valid()
  {
    if |insts| == 0 then m
    else CheckInstance(ScanInstances(m, insts[..|insts| - 1], nm), insts[|insts| - 1], nm)
  }

  /** The instances that belong to cluster k, in scan order. */
  function InstancesOf(insts: seq<InstanceInfo>, k: string, nm: Naming): (r: seq<InstanceInfo>)
    requires nm.Valid()
    ensures |r| <= |insts|
    ensures forall i :: 0 <= i < |r| ==> ClusterIdForInstance(r[i], nm) == Some(k)
    ensures |r| > 0 <==> exists i :: 0 <= i < |insts| && ClusterIdForInstance(insts[i], nm) == Some(k)
  {
    if |insts| == 0 then []
    else
      var prefix := insts[..|insts| - 1];
      var last := insts[|insts| - 1];
      var rest := InstancesOf(prefix, k, nm);
      assert forall i :: 0 <= i < |prefix| ==> prefix[i] == insts[i];
      if ClusterIdForInstance(last, nm) == Some(k) then rest + [last] else rest
  }

  /** The instance steps of one cluster, applied in order. */
  function FoldCluster(c: Cluster, s: seq<InstanceInfo>, nm: Naming): Cluster {
    if |s| == 0 then c else Step(FoldCluster(c, s[..|s| - 1], nm), s[|s| - 1], nm)
  }

  /** The scan treats clusters independently: cluster k sees exactly its own instances, in order. */
  lemma {:induction false} ScanLocal(m: ClusterMap, insts: seq<InstanceInfo>, k: string, nm: Naming)
    requires nm.Valid()
    ensures k in ScanInstances(m, insts, nm) <==> k in m || |InstancesOf(insts, k, nm)| > 0
    ensures Lookup(ScanInstances(m, insts, nm), k) == FoldCluster(Lookup(m, k), InstancesOf(insts, k, nm), nm)
  {
    if |insts| > 0 {
      var prefix := insts[..|insts| - 1];
      ScanLocal(m, prefix, k, nm);
      var s := InstancesOf(insts, k, nm);
      if ClusterIdForInstance(insts[|insts| - 1], nm) == Some(k) {
        assert s[..|s| - 1] == InstancesOf(prefix, k, nm);
      }
    }
  }

  // ---------------------------------------------------------------------------
  // Reference definitions of what the instance scan keeps per cluster
  // ---------------------------------------------------------------------------

  /** Position of the first master-named instance. */
  function MasterIndex(s: seq<InstanceInfo>, nm: Naming): (r: Option<nat>)
    ensures r.Some? ==>
      (r.value < |s| && IsMasterNamed(s[r.value], nm) && forall j :: 0 <= j < r.value ==> !IsMasterNamed(s[j], nm))
    ensures r.None? ==> forall j :: 0 <= j < |s| ==> !IsMasterNamed(s[j], nm)
  {
    if |s| == 0 then None
    else
      var earlier := MasterIndex(s[..|s| - 1], nm);
      assert forall j :: 0 <= j < |s| - 1 ==> s[..|s| - 1][j] == s[j];
      if earlier.Some? then earlier
      else if IsMasterNamed(s[|s| - 1], nm) then Some(|s| - 1)
      else None
  }

  /** The first non-null key name. */
  function FirstKeyName(s: seq<InstanceInfo>): (r: Option<string>)
    ensures r.Some? ==> exists i :: 0 <= i < |s| && s[i].keyName == r && forall j :: 0 <= j < i ==> s[j].keyName.None?
    ensures r.None? ==> forall j :: 0 <= j < |s| ==> s[j].keyName.None?
  {
    if |s| == 0 then None
    else
      var earlier := FirstKeyName(s[..|s| - 1]);
      assert forall j :: 0 <= j < |s| - 1 ==> s[..|s| - 1][j] == s[j];
      if earlier.Some? then earlier else s[|s| - 1].keyName
  }

  /** The first "user" tag. */
  function FirstUserTag(s: seq<InstanceInfo>): (r: Option<string>)
    ensures r.Some? ==>
      (exists i :: 0 <= i < |s| && Tag(s[i], TagUser) == r && forall j :: 0 <= j < i ==> Tag(s[j], TagUser).None?)
    ensures r.None? ==> forall j :: 0 <= j < |s| ==> Tag(s[j], TagUser).None?
  {
    if |s| == 0 then None
    else
      var earlier := FirstUserTag(s[..|s| - 1]);
      assert forall j :: 0 <= j < |s| - 1 ==> s[..|s| - 1][j] == s[j];
      if earlier.Some? then earlier else Tag(s[|s| - 1], TagUser)
  }

  /** Ids of the instances that are not master-named, in order. */
  function NonMasterIds(s: seq<InstanceInfo>, nm: Naming): (r: seq<string>)
    ensures |r| <= |s|
  {
    if |s| == 0 then []
    else
      var earlier := NonMasterIds(s[..|s| - 1], nm);
      if IsMasterNamed(s[|s| - 1], nm) then earlier else earlier + [s[|s| - 1].id]
  }

  function CountMasterNamed(s: seq<InstanceInfo>, nm: Naming): nat {
    if |s| == 0 then 0
    else CountMasterNamed(s[..|s| - 1], nm) + (if IsMasterNamed(s[|s| - 1], nm) then 1 else 0)
  }

  /**
    Folding one cluster's instances from a fresh cluster: the master is the first
    master-named instance, and its public ip and start time come with it; no network or
    subnet is set.
  */
  lemma {:induction false} FoldMaster(k: string, s: seq<InstanceInfo>, nm: Naming)
    ensures FoldCluster(NewCluster(k), s, nm).clusterId == k
    ensures FoldCluster(NewCluster(k), s, nm).network.None? && FoldCluster(NewCluster(k), s, nm).subnet.None?
    ensures MasterIndex(s, nm).None? ==>
      (&& FoldCluster(NewCluster(k), s, nm).master.None?
       && FoldCluster(NewCluster(k), s, nm).publicIp.None?
       && FoldCluster(NewCluster(k), s, nm).started.None?)
    ensures MasterIndex(s, nm).Some? ==>
      (&& FoldCluster(NewCluster(k), s, nm).master == Some(s[MasterIndex(s, nm).value].id)
       && FoldCluster(NewCluster(k), s, nm).publicIp == s[MasterIndex(s, nm).value].publicIp
       && FoldCluster(NewCluster(k), s, nm).started == Some(s[MasterIndex(s, nm).value].started))
  {
    if |s| > 0 {
      var t := s[..|s| - 1];
      FoldMaster(k, t, nm);
      var c := FoldCluster(NewCluster(k), t, nm);
      assert FoldCluster(NewCluster(k), s, nm) == Step(c, s[|s| - 1], nm);
      StepMaster(c, s[|s| - 1], nm);
      if MasterIndex(t, nm).Some? {
        assert s[MasterIndex(t, nm).value] == t[MasterIndex(t, nm).value];
      }
    }
  }

  /** What one instance step does to the master fields: set once, by the first master-named instance. */
  lemma StepMaster(c: Cluster, inst: InstanceInfo, nm: Naming)
    ensures var d := Step(c, inst, nm);
      && d.clusterId == c.clusterId && d.network == c.network && d.subnet == c.subnet
      && (IsMasterNamed(inst, nm) && c.master.None? ==>
           d.master == Some(inst.id) && d.publicIp == inst.publicIp && d.started == Some(inst.started))
      && (!(IsMasterNamed(inst, nm) && c.master.None?) ==>
           d.master == c.master && d.publicIp == c.publicIp && d.started == c.started)
  {
  }

  /**
    The key name is the first non-null one counted from the master on: a new master
    overwrites whatever earlier slaves filled in. Without a master it is the first non-null
    one of all instances.
  */
  lemma {:induction false} FoldKeyName(k: string, s: seq<InstanceInfo>, nm: Naming)
    ensures MasterIndex(s, nm).None? ==> FoldCluster(NewCluster(k), s, nm).keyName == FirstKeyName(s)
    ensures MasterIndex(s, nm).Some? ==>
      FoldCluster(NewCluster(k), s, nm).keyName == FirstKeyName(s[MasterIndex(s, nm).value..])
  {
    if |s| > 0 {
      FoldKeyName(k, s[..|s| - 1], nm);
      MasterSetIff(k, s[..|s| - 1], nm);
      KeyNameStep(k, s, nm);
    }
  }

  lemma MasterSetIff(k: string, s: seq<InstanceInfo>, nm: Naming)
    ensures FoldCluster(NewCluster(k), s, nm).master.None? <==> MasterIndex(s, nm).None?
  {
    FoldMaster(k, s, nm);
  }

  /** The inductive step of `FoldKeyName`: one more instance at the end. */
  lemma KeyNameStep(k: string, s: seq<InstanceInfo>, nm: Naming)
    requires |s| > 0
    requires var t := s[..|s| - 1];
      MasterIndex(t, nm).None? ==>
        FoldCluster(NewCluster(k), t, nm).keyName == FirstKeyName(t) && FoldCluster(NewCluster(k), t, nm).master.None?
    requires var t := s[..|s| - 1];
      MasterIndex(t, nm).Some? ==>
        FoldCluster(NewCluster(k), t, nm).keyName == FirstKeyName(t[MasterIndex(t, nm).value..])
        && FoldCluster(NewCluster(k), t, nm).master.Some?
    ensures MasterIndex(s, nm).None? ==> FoldCluster(NewCluster(k), s, nm).keyName == FirstKeyName(s)
    ensures MasterIndex(s, nm).Some? ==>
      FoldCluster(NewCluster(k), s, nm).keyName == FirstKeyName(s[MasterIndex(s, nm).value..])
  {
    var t := s[..|s| - 1];
    var x := s[|s| - 1];
    var c := FoldCluster(NewCluster(k), t, nm);
    assert FoldCluster(NewCluster(k), s, nm) == Step(c, x, nm);
    StepKeyName(c, x, nm);
    var mi := MasterIndex(t, nm);
    if mi.Some? {
      var p := mi.value;
      assert MasterIndex(s, nm) == mi;
      assert s[p..] == t[p..] + [x];
      FirstKeyNameSnoc(t[p..], x);
    } else if IsMasterNamed(x, nm) {
      assert MasterIndex(s, nm) == Some(|s| - 1);
      assert s[|s| - 1..] == [] + [x];
      FirstKeyNameSnoc([], x);
    } else {
      assert MasterIndex(s, nm).None?;
      assert s == t + [x];
      FirstKeyNameSnoc(t, x);
    }
  }

  lemma FirstKeyNameSnoc(t: seq<InstanceInfo>, x: InstanceInfo)
    ensures FirstKeyName(t + [x]) == if FirstKeyName(t).Some? then FirstKeyName(t) else x.keyName
  {
    assert (t + [x])[..|t|] == t;
  }

  /** What one instance step does to the key name: a new master brings its own; otherwise it is filled while missing. */
  lemma StepKeyName(c: Cluster, inst: InstanceInfo, nm: Naming)
    ensures IsMasterNamed(inst, nm) && c.master.None? ==> Step(c, inst, nm).keyName == inst.keyName
    ensures !(IsMasterNamed(inst, nm) && c.master.None?) ==>
      Step(c, inst, nm).keyName == if c.keyName.Some? then c.keyName else inst.keyName
  {
  }

  /** The user is the first "user" tag among the cluster's instances. */
  lemma {:induction false} FoldUser(k: string, s: seq<InstanceInfo>, nm: Naming)
    ensures FoldCluster(NewCluster(k), s, nm).user == FirstUserTag(s)
  {
    if |s| > 0 {
      FoldUser(k, s[..|s| - 1], nm);
    }
  }

  /** The slaves are the instances that are not master-named, in order; a second master is dropped. */
  lemma {:induction false} FoldSlaves(k: string, s: seq<InstanceInfo>, nm: Naming)
    ensures FoldCluster(NewCluster(k), s, nm).slaves == NonMasterIds(s, nm)
  {
    if |s| > 0 {
      FoldSlaves(k, s[..|s| - 1], nm);
    }
  }

  /**
    The instance count the listing shows: every instance of the cluster except the
    master-named ones beyond the first.
  */
  lemma CountSpec(k: string, s: seq<InstanceInfo>, nm: Naming)
    ensures InstanceCount(FoldCluster(NewCluster(k), s, nm))
      == |s| - CountMasterNamed(s, nm) + (if CountMasterNamed(s, nm) > 0 then 1 else 0)
  {
    FoldMaster(k, s, nm);
    FoldSlaves(k, s, nm);
    MasterCountAgrees(s, nm);
  }

  lemma {:induction false} MasterCountAgrees(s: seq<InstanceInfo>, nm: Naming)
    ensures MasterIndex(s, nm).Some? <==> CountMasterNamed(s, nm) > 0
    ensures |NonMasterIds(s, nm)| == |s| - CountMasterNamed(s, nm)
  {
    if |s| > 0 {
      MasterCountAgrees(s[..|s| - 1], nm);
    }
  }

  // ---------------------------------------------------------------------------
  // Networks and subnets
  // ---------------------------------------------------------------------------

  datatype ResourceKind = NetworkKind | SubnetKind

  function WithResource(c: Cluster, kind: ResourceKind, id: string): Cluster {
    match kind
    case NetworkKind => c.(network := Some(id))
    case SubnetKind => c.(subnet := Some(id))
  }

  /** The cluster a network or subnet belongs to: the id at the end of a prefixed name. */
  function ResourceClusterId(r: NamedResource, prefix: string): (id: Option<string>)
    requires !OnlyChar(prefix, '-')
    ensures id.Some? <==> HasNamePrefix(r.name, prefix)
  {
    if HasNamePrefix(r.name, prefix) then
      PrefixedNameHasId(r.name.value, prefix);
      ClusterIdFromName(r.name.value)
    else None
  }

  /** The network (or subnet) loop: each prefixed resource sets its id on its cluster, creating it if needed. */
  function Attach(m: ClusterMap, rs: seq<NamedResource>, prefix: string, kind: ResourceKind): ClusterMap
    requires !OnlyChar(prefix, '-')
  {
    if |rs| == 0 then m
    else
      var m' := Attach(m, rs[..|rs| - 1], prefix, kind);
      var r := rs[|rs| - 1];
      match ResourceClusterId(r, prefix)
      case None => m'
      case Some(k) => m'[k := WithResource(Lookup(m', k), kind, r.id)]
  }

  /** The id of the last resource that names cluster k. */
  function LastResourceFor(rs: seq<NamedResource>, prefix: string, k: string): Option<string>
    requires !OnlyChar(prefix, '-')
  {
    if |rs| == 0 then None
    else if ResourceClusterId(rs[|rs| - 1], prefix) == Some(k) then Some(rs[|rs| - 1].id)
    else LastResourceFor(rs[..|rs| - 1], prefix, k)
  }

  /** `LastResourceFor` finds the resource naming k that no later resource overrides. */
  lemma {:induction false} LastResourceForSpec(rs: seq<NamedResource>, prefix: string, k: string)
    requires !OnlyChar(prefix, '-')
    ensures LastResourceFor(rs, prefix, k).Some? ==>
      (exists i :: && 0 <= i < |rs| && rs[i].id == LastResourceFor(rs, prefix, k).value
                   && ResourceClusterId(rs[i], prefix) == Some(k)
                   && forall j :: i < j < |rs| ==> ResourceClusterId(rs[j], prefix) != Some(k))
    ensures LastResourceFor(rs, prefix, k).None? ==>
      forall j :: 0 <= j < |rs| ==> ResourceClusterId(rs[j], prefix) != Some(k)
  {
    if |rs| > 0 && ResourceClusterId(rs[|rs| - 1], prefix) != Some(k) {
      var t := rs[..|rs| - 1];
      LastResourceForSpec(t, prefix, k);
      assert forall j :: 0 <= j < |t| ==> t[j] == rs[j];
    }
  }

  /**
    Attaching resources only creates clusters that some resource names, sets the id of the
    last resource naming each cluster, and leaves every other field alone.
  */
  lemma {:induction false} AttachSpec(m: ClusterMap, rs: seq<NamedResource>, prefix: string, kind: ResourceKind, k: string)
    requires !OnlyChar(prefix, '-')
    ensures k in Attach(m, rs, prefix, kind) <==>
      k in m || exists i :: 0 <= i < |rs| && ResourceClusterId(rs[i], prefix) == Some(k)
    ensures Lookup(Attach(m, rs, prefix, kind), k) ==
      match LastResourceFor(rs, prefix, k)
      case None => Lookup(m, k)
      case Some(id) => WithResource(Lookup(m, k), kind, id)
  {
    if |rs| > 0 {
      var t := rs[..|rs| - 1];
      AttachSpec(m, t, prefix, kind, k);
      assert forall j :: 0 <= j < |t| ==> t[j] == rs[j];
      var last := LastResourceFor(t, prefix, k);
      if ResourceClusterId(rs[|rs| - 1], prefix) == Some(k) && last.Some? {
        assert WithResource(WithResource(Lookup(m, k), kind, last.value), kind, rs[|rs| - 1].id)
          == WithResource(Lookup(m, k), kind, rs[|rs| - 1].id);
      }
    }
  }

  lemma AttachNetwork(m: ClusterMap, rs: seq<NamedResource>, prefix: string, k: string, c: Cluster)
    requires !OnlyChar(prefix, '-')
    requires Lookup(m, k) == c && c.network.None?
    ensures Lookup(Attach(m, rs, prefix, NetworkKind), k) == c.(network := LastResourceFor(rs, prefix, k))
  {
    AttachSpec(m, rs, prefix, NetworkKind, k);
  }

  lemma AttachSubnet(m: ClusterMap, rs: seq<NamedResource>, prefix: string, k: string, c: Cluster)
    requires !OnlyChar(prefix, '-')
    requires Lookup(m, k) == c && c.subnet.None?
    ensures Lookup(Attach(m, rs, prefix, SubnetKind), k) == c.(subnet := LastResourceFor(rs, prefix, k))
  {
    AttachSpec(m, rs, prefix, SubnetKind, k);
  }

  // ---------------------------------------------------------------------------
  // The whole scan and the cached listing
  // ---------------------------------------------------------------------------

  /** `searchClusterIfNecessary` on a fresh map: instances, then networks, then subnets. */
  function Discover(snap: Snapshot, nm: Naming): ClusterMap
    requires nm.Valid()
  {
    var afterInstances := ScanInstances(map[], snap.instances.GetOr([]), nm);
    var afterNetworks := Attach(afterInstances, snap.networks.GetOr([]), nm.networkPrefix, NetworkKind);
    Attach(afterNetworks, snap.subnets.GetOr([]), nm.subnetPrefix, SubnetKind)
  }

  /** A cluster is listed exactly when an instance, a network or a subnet names it. */
  lemma DiscoverMembership(snap: Snapshot, nm: Naming, k: string)
    requires nm.Valid()
    ensures k in Discover(snap, nm) <==>
      || (exists i :: 0 <= i < |snap.instances.GetOr([])| && ClusterIdForInstance(snap.instances.GetOr([])[i], nm) == Some(k))
      || (exists i :: 0 <= i < |snap.networks.GetOr([])| && ResourceClusterId(snap.networks.GetOr([])[i], nm.networkPrefix) == Some(k))
      || (exists i :: 0 <= i < |snap.subnets.GetOr([])| && ResourceClusterId(snap.subnets.GetOr([])[i], nm.subnetPrefix) == Some(k))
  {
    var insts := snap.instances.GetOr([]);
    ScanLocal(map[], insts, k, nm);
    var m1 := ScanInstances(map[], insts, nm);
    AttachSpec(m1, snap.networks.GetOr([]), nm.networkPrefix, NetworkKind, k);
    var m2 := Attach(m1, snap.networks.GetOr([]), nm.networkPrefix, NetworkKind);
    AttachSpec(m2, snap.subnets.GetOr([]), nm.subnetPrefix, SubnetKind, k);
  }

  /**
    Every listed cluster is its own instances folded in scan order, with the id of the last
    network and the last subnet that name it.
  */
  lemma DiscoverCluster(snap: Snapshot, nm: Naming, k: string)
    requires nm.Valid()
    ensures Lookup(Discover(snap, nm), k) ==
      FoldCluster(NewCluster(k), InstancesOf(snap.instances.GetOr([]), k, nm), nm).(
        network := LastResourceFor(snap.networks.GetOr([]), nm.networkPrefix, k),
        subnet := LastResourceFor(snap.subnets.GetOr([]), nm.subnetPrefix, k))
  {
    var insts := snap.instances.GetOr([]);
    var c0 := FoldCluster(NewCluster(k), InstancesOf(insts, k, nm), nm);
    ScanLocal(map[], insts, k, nm);
    FoldMaster(k, InstancesOf(insts, k, nm), nm);
    var m1 := ScanInstances(map[], insts, nm);
    AttachNetwork(m1, snap.networks.GetOr([]), nm.networkPrefix, k, c0);
    var m2 := Attach(m1, snap.networks.GetOr([]), nm.networkPrefix, NetworkKind);
    var net := LastResourceFor(snap.networks.GetOr([]), nm.networkPrefix, k);
    AttachSubnet(m2, snap.subnets.GetOr([]), nm.subnetPrefix, k, c0.(network := net));
  }

  /** The intent's state: the cluster map, null until the first scan. */
  datatype ListState = ListState(clusterMap: Option<ClusterMap>)

  /** `getList`: scans only while no map exists; afterwards the stored map is returned as is. */
  function GetList(st: ListState, snap: Snapshot, nm: Naming): (r: (ClusterMap, ListState))
    requires nm.Valid()
    ensures r.1.clusterMap == Some(r.0)
    ensures st.clusterMap.Some? ==> r.0 == st.clusterMap.value
    ensures st.clusterMap.None? ==> r.0 == Discover(snap, nm)
  {
    match st.clusterMap
    case Some(m) => (m, st)
    case None =>
      var m := Discover(snap, nm);
      (m, ListState(Some(m)))
  }

  /** A second listing ignores the provider entirely: whatever it would now report, the first map comes back. */
  lemma ScanAtMostOnce(st: ListState, snap1: Snapshot, snap2: Snapshot, nm: Naming)
    requires nm.Valid()
    ensures GetList(GetList(st, snap1, nm).1, snap2, nm) == GetList(st, snap1, nm)
  {
  }

  // ---------------------------------------------------------------------------
  // The cluster table
  // ---------------------------------------------------------------------------

  const NoClusterMessage: string := "No BiBiGrid cluster found!\n"
  const MaxIdWidth: nat := 11

  /** `cutStringIfNecessary`: ids longer than 11 characters become their first 9 characters and "..". */
  function CutString(s: string): (r: string)
    ensures |r| <= MaxIdWidth
    ensures |s| <= MaxIdWidth ==> r == s
    ensures |s| > MaxIdWidth ==> |r| == MaxIdWidth && r[..9] == s[..9] && r[9..] == ".."
  {
    if |s| > MaxIdWidth then s[..9] + ".." else s
  }

  /** Cutting twice is cutting once. */
  lemma CutIdempotent(s: string)
    ensures CutString(CutString(s)) == CutString(s)
  {
  }

  /** One table row; null fields print as "-", the three resource ids are cut to 11 characters. */
  datatype Row = Row(
    clusterId: string,
    user: string,
    launchDate: string,
    keyName: string,
    publicIp: string,
    instanceCount: nat,
    securityGroup: string,
    subnet: string,
    network: string)

  datatype Listing = NoClusters(message: string) | Table(rows: map<string, Row>)

  function OrDash(s: Option<string>): string {
    s.GetOr("-")
  }

  function OrDashCut(s: Option<string>): string {
    match s
    case Some(v) => CutString(v)
    case None => "-"
  }

  /**
    The row of cluster `c` under key `k`: a null user, launch date, key name or public ip
    prints as "-" and a set one as itself; a null resource id prints as "-" and a set one
    cut to at most 11 characters.
  */
  function RowOf(k: string, c: Cluster): (r: Row)
    ensures r.clusterId == k
    ensures r.instanceCount == InstanceCount(c)
    ensures c.user.None? ==> r.user == "-"
    ensures c.user.Some? ==> r.user == c.user.value
    ensures c.started.None? ==> r.launchDate == "-"
    ensures c.started.Some? ==> r.launchDate == c.started.value
    ensures c.keyName.None? ==> r.keyName == "-"
    ensures c.keyName.Some? ==> r.keyName == c.keyName.value
    ensures c.publicIp.None? ==> r.publicIp == "-"
    ensures c.publicIp.Some? ==> r.publicIp == c.publicIp.value
    ensures c.securityGroup.None? ==> r.securityGroup == "-"
    ensures c.securityGroup.Some? ==> r.securityGroup == CutString(c.securityGroup.value)
    ensures c.subnet.None? ==> r.subnet == "-"
    ensures c.subnet.Some? ==> r.subnet == CutString(c.subnet.value)
    ensures c.network.None? ==> r.network == "-"
    ensures c.network.Some? ==> r.network == CutString(c.network.value)
    ensures |r.securityGroup| <= MaxIdWidth && |r.subnet| <= MaxIdWidth && |r.network| <= MaxIdWidth
  {
    Row(k, OrDash(c.user), OrDash(c.started), OrDash(c.keyName), OrDash(c.publicIp), InstanceCount(c),
      OrDashCut(c.securityGroup), OrDashCut(c.subnet), OrDashCut(c.network))
  }

  /**
    `toString`: scans if no map exists yet (the same cached map as `getList`), then reports
    the fixed message for an empty map or one row per cluster.
  */
  function Render(st: ListState, snap: Snapshot, nm: Naming): (r: (Listing, ListState))
    requires nm.Valid()
    ensures r.1 == GetList(st, snap, nm).1
    ensures r.0.NoClusters? <==> |GetList(st, snap, nm).0| == 0
    ensures r.0.NoClusters? ==> r.0.message == NoClusterMessage
    ensures r.0.Table? ==> r.0.rows.Keys == GetList(st, snap, nm).0.Keys
    ensures r.0.Table? ==>
      forall k :: k in r.0.rows ==> r.0.rows[k] == RowOf(k, GetList(st, snap, nm).0[k])
  {
    var (m, st') := GetList(st, snap, nm);
    if |m| == 0 then (NoClusters(NoClusterMessage), st')
    else (Table(map k | k in m :: RowOf(k, m[k])), st')
  }
}
