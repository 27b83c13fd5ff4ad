/**
  The entities shared by discovery, environment setup and termination: a cluster as the
  tooling reconstructs it, and the naming convention that ties provider resources to a
  cluster id.
*/
module ClusterModel {
  import opened Wrappers
  import opened JavaText

  /** Instance tag keys. */
  const TagName: string := "name"
  const TagUser: string := "user"
  const TagBibigridId: string := "bibigrid-id"

  /**
    The fixed name prefixes. Each resource is named prefix + cluster id, and instances
    carry a master or slave name prefix. Their literal values are defined in classes
    outside this model, so they are parameters here.
  */
  datatype Naming = Naming(
    masterPrefix: string,
    slavePrefix: string,
    networkPrefix: string,
    subnetPrefix: string,
    securityGroupPrefix: string)
  {
    /**
      Every prefix holds a character other than '-', so a name carrying one of them never
      splits on '-' into nothing.
    */
    predicate Valid() {
      && !OnlyChar(masterPrefix, '-') && !OnlyChar(slavePrefix, '-')
      && !OnlyChar(networkPrefix, '-') && !OnlyChar(subnetPrefix, '-')
    }
  }

  /** A cluster: identified by its id, with at most one master and its slaves in discovery order. */
  datatype Cluster = Cluster(
    clusterId: string,
    master: Option<string>,
    slaves: seq<string>,
    publicIp: Option<string>,
    keyName: Option<string>,
    started: Option<string>,
    user: Option<string>,
    network: Option<string>,
    subnet: Option<string>,
    securityGroup: Option<string>,
    placementGroup: Option<string>)

  function NewCluster(clusterId: string): (c: Cluster)
    ensures c.clusterId == clusterId && c.master.None? && c.slaves == []
  {
    Cluster(clusterId, None, [], None, None, None, None, None, None, None, None)
  }

  /** Number of instances a cluster lists: the master, if any, plus the slaves. */
  function InstanceCount(c: Cluster): nat {
    (if c.master.Some? then 1 else 0) + |c.slaves|
  }
}
