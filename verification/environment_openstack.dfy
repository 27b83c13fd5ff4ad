/**
  The OpenStack environment decision tree: which of subnet, network and router an OpenStack
  cluster reuses or creates, the errors on the way, the router lookup over port device
  owners, and the security group with its rule list.

  The provider is a snapshot of what it lists (`Cloud`), the ids it will hand out for new
  resources, and the set of mutating calls it rejects (a ClientResponseException). What
  the code creates or attaches is returned as an action trace.
*/
module EnvironmentOpenstack {
  import opened Wrappers
  import opened JavaText

  /** The address range new /24 subnets are carved from. */
  const NetworkCidr: string := "192.168.0.0/16"
  const SubnetPrefixLength: nat := 24

  /** Router port owners, in the order the lookup tries them. */
  const RouterInterface: string := "network:router_interface"
  const HaRouterInterface: string := "network:ha_router_replicated_interface"
  const DistributedRouterInterface: string := "network:router_interface_distributed"

  const AnyAddress: string := "0.0.0.0/0"
  const SecurityGroupDescription: string := "Security group for cluster: "
  const SshPort: int := 22
  const MinPort: int := 1
  const MaxPort: int := 65535

  datatype Router = Router(id: string, name: string)
  /** A network with the CIDRs of its subnets; a null subnet list is `None`. */
  datatype Network = Network(id: string, name: string, subnetCidrs: Option<seq<string>>)
  datatype Subnet = Subnet(id: string, name: string, networkId: string, cidr: string)
  /** A port: its network, device owner, the device (router) it belongs to and the subnets of its fixed ips. */
  datatype Port = Port(networkId: string, deviceOwner: string, deviceId: string, fixedIpSubnetIds: seq<string>)
  datatype SecurityGroup = SecurityGroup(id: string, name: string)

  /** The ids the provider assigns to the resources created next. */
  datatype NewIds = NewIds(networkId: string, subnetId: string, securityGroupId: string)

  /** The mutating provider calls, any of which the provider may reject. */
  datatype Call = CreateNetworkCall | CreateSubnetCall | AttachInterfaceCall | CreateSecurityGroupCall | CreateRuleCall

  datatype Cloud = Cloud(
    routers: seq<Router>,
    networks: seq<Network>,
    subnets: seq<Subnet>,
    ports: seq<Port>,
    securityGroups: seq<SecurityGroup>,
    newIds: NewIds,
    rejected: set<Call>)

  /** The user's port protocols and the rule protocols of the compute API. */
  datatype UserProtocol = UserTcp | UserUdp | UserIcmp
  datatype Protocol = Tcp | Udp | Icmp

  datatype UserPort = UserPort(protocol: UserProtocol, number: int, ipRange: string)

  /** The part of the OpenStack configuration this code reads and writes back. */
  datatype OsConfig = OsConfig(
    router: Option<string>,
    network: Option<string>,
    subnet: Option<string>,
    securityGroup: Option<string>,
    ports: seq<UserPort>)

  /** The resource name prefixes and the cluster being set up. */
  datatype Names = Names(networkPrefix: string, subnetPrefix: string, securityGroupPrefix: string, clusterId: string)

  datatype RuleSource = FromCidr(cidr: string) | FromGroup(groupId: string)
  datatype Rule = Rule(parentGroupId: string, protocol: Protocol, fromPort: int, toPort: int, source: RuleSource)

  datatype Action =
    | CreateNetwork(name: string, adminStateUp: bool)
    | CreateSubnet(name: string, networkId: string, ipVersion: nat, dhcp: bool, cidr: string)
    | AttachInterface(routerId: string, subnetId: string)
    | CreateSecurityGroup(name: string, description: string)
    | CreateRule(rule: Rule)

  /**
    Why setting up failed. Every error but `NullRouter` is a ConfigurationException;
    `NullRouter` is the NullPointerException of dereferencing a missing router.
  */
  datatype EnvError =
    | NoSubnetNamed(subnetName: string)
    | NoNetworkWithId(networkId: string)
    | NoNetworkNamed(networkName: string)
    | NoRouterConfigured
    | NoRouterNamed(routerName: string)
    | NoFreeCidr(routerName: string)
    | ProviderRejected(call: Call)
    | NullRouter
  {
    predicate IsConfigurationError() {
      !NullRouter?
    }
  }

  /** The subnet, network and router the cluster will use; the router may be unknown. */
  datatype Environment = Environment(subnet: Subnet, network: Network, router: Option<Router>)

  /** What `createSubnet` leaves behind: the configuration it wrote, what it did, and its result. */
  datatype SubnetOutcome = SubnetOutcome(config: OsConfig, actions: seq<Action>, result: Result<Environment, EnvError>)

  datatype GroupOutcome = GroupOutcome(actions: seq<Action>, result: Result<SecurityGroup, EnvError>)

  // ---------------------------------------------------------------------------
  // Lookups
  // ---------------------------------------------------------------------------

  /** The lookup loops: the first element that matches, or null. */
  function FirstMatch<T>(s: seq<T>, p: T -> bool): (r: Option<T>)
    ensures r.None? <==> forall j :: 0 <= j < |s| ==> !p(s[j])
    ensures r.Some? ==>
      (exists i :: 0 <= i < |s| && s[i] == r.value && p(s[i]) && forall j :: 0 <= j < i ==> !p(s[j]))
  {
    if |s| == 0 then None
    else if p(s[0]) then Some(s[0])
    else
      var r := FirstMatch(s[1..], p);
      assert forall j :: 1 <= j < |s| ==> s[1..][j - 1] == s[j];
      r
  }

  function RouterByName(cloud: Cloud, name: string): Option<Router> {
    FirstMatch(cloud.routers, (x: Router) => x.name == name)
  }

  function RouterById(cloud: Cloud, id: string): Option<Router> {
    FirstMatch(cloud.routers, (x: Router) => x.id == id)
  }

  function NetworkByName(cloud: Cloud, name: string): Option<Network> {
    FirstMatch(cloud.networks, (x: Network) => x.name == name)
  }

  function NetworkById(cloud: Cloud, id: string): Option<Network> {
    FirstMatch(cloud.networks, (x: Network) => x.id == id)
  }

  function SubnetByName(cloud: Cloud, name: string): Option<Subnet> {
    FirstMatch(cloud.subnets, (x: Subnet) => x.name == name)
  }

  function SecurityGroupByName(cloud: Cloud, name: string): Option<SecurityGroup> {
    FirstMatch(cloud.securityGroups, (x: SecurityGroup) => x.name == name)
  }

  /** A port listing filtered by network and device owner, in listing order. */
  function PortsWith(ports: seq<Port>, networkId: string, owner: string): seq<Port> {
    if |ports| == 0 then []
    else
      var rest := PortsWith(ports[1..], networkId, owner);
      if OnNetworkWithOwner(ports[0], networkId, owner) then [ports[0]] + rest else rest
  }

  /** The filter keeps exactly the listed ports on the network with the owner. */
  lemma {:induction false} PortsWithMembers(ports: seq<Port>, networkId: string, owner: string)
    ensures forall q :: q in PortsWith(ports, networkId, owner) <==> q in ports && OnNetworkWithOwner(q, networkId, owner)
    ensures |PortsWith(ports, networkId, owner)| <= |ports|
  {
    if |ports| > 0 {
      PortsWithMembers(ports[1..], networkId, owner);
      assert forall q :: q in ports <==> q == ports[0] || q in ports[1..];
    }
  }

  /**
    The port filter is order-preserving: filtering a concatenation concatenates the filtered
    parts, and (`PortsWithSingle`) a single port is kept exactly when it is on the network with
    the owner. Together these fix the filtered list, order included.
  */
  lemma {:induction false} PortsWithFilter(a: seq<Port>, b: seq<Port>, networkId: string, owner: string)
    ensures PortsWith(a + b, networkId, owner) == PortsWith(a, networkId, owner) + PortsWith(b, networkId, owner)
  {
    if |a| == 0 {
      assert a + b == b;
    } else {
      var x, t := a[0], a[1..];
      assert a == [x] + t;
      assert a + b == [x] + (t + b);
      PortsWithCons(x, t, networkId, owner);
      PortsWithCons(x, t + b, networkId, owner);
      PortsWithFilter(t, b, networkId, owner);
    }
  }

  /** Filtering a port followed by a listing: the port when it is kept, then the filtered listing. */
  lemma PortsWithCons(x: Port, t: seq<Port>, networkId: string, owner: string)
    ensures PortsWith([x] + t, networkId, owner)
      == (if OnNetworkWithOwner(x, networkId, owner) then [x] else []) + PortsWith(t, networkId, owner)
  {
    assert ([x] + t)[0] == x && ([x] + t)[1..] == t;
  }

  lemma PortsWithSingle(q: Port, networkId: string, owner: string)
    ensures PortsWith([q], networkId, owner) == if OnNetworkWithOwner(q, networkId, owner) then [q] else []
  {
    assert [q][1..] == [];
  }

  /** The first port the filter keeps is the first port of the listing on the network with the owner. */
  lemma PortsWithFirst(ports: seq<Port>, networkId: string, owner: string)
    ensures var r := PortsWith(ports, networkId, owner);
      |r| > 0 ==>
        (exists i :: 0 <= i < |ports| && ports[i] == r[0] && OnNetworkWithOwner(ports[i], networkId, owner)
           && forall j :: 0 <= j < i ==> !OnNetworkWithOwner(ports[j], networkId, owner))
  {
    if |ports| > 0 && !OnNetworkWithOwner(ports[0], networkId, owner) {
      PortsWithFirst(ports[1..], networkId, owner);
      var r := PortsWith(ports, networkId, owner);
      if |r| > 0 {
        var i :| 0 <= i < |ports[1..]| && ports[1..][i] == r[0] && OnNetworkWithOwner(ports[1..][i], networkId, owner)
          && forall j :: 0 <= j < i ==> !OnNetworkWithOwner(ports[1..][j], networkId, owner);
        assert ports[i + 1] == r[0];
        forall j | 0 <= j < i + 1 ensures !OnNetworkWithOwner(ports[j], networkId, owner) {
          if j > 0 { assert ports[j] == ports[1..][j - 1]; }
        }
      }
    }
  }

  /** The router ports of a network: the first of the three owner tiers that lists any port. */
  function RouterPorts(cloud: Cloud, networkId: string): seq<Port> {
    var tier1 := PortsWith(cloud.ports, networkId, RouterInterface);
    if |tier1| > 0 then tier1
    else
      var tier2 := PortsWith(cloud.ports, networkId, HaRouterInterface);
      if |tier2| > 0 then tier2 else PortsWith(cloud.ports, networkId, DistributedRouterInterface)
  }

  predicate OnNetworkWithOwner(q: Port, networkId: string, owner: string) {
    q.networkId == networkId && q.deviceOwner == owner
  }

  /**
    The tiers of the router lookup: the ports used all come from one owner; an owner is only
    tried when every earlier one has no port on the network; and all ports of the chosen
    owner are used. No port at all means no router owner has a port on the network.
  */
  lemma RouterPortsTiers(cloud: Cloud, networkId: string)
    ensures var r := RouterPorts(cloud, networkId);
      var t1 := PortsWith(cloud.ports, networkId, RouterInterface);
      var t2 := PortsWith(cloud.ports, networkId, HaRouterInterface);
      var t3 := PortsWith(cloud.ports, networkId, DistributedRouterInterface);
      && (|t1| > 0 ==> r == t1)
      && (|t1| == 0 && |t2| > 0 ==> r == t2)
      && (|t1| == 0 && |t2| == 0 ==> r == t3)
      && (forall q :: q in cloud.ports && OnNetworkWithOwner(q, networkId, RouterInterface) ==> q in r)
      && (r == [] <==> forall q :: q in cloud.ports ==>
           && !OnNetworkWithOwner(q, networkId, RouterInterface)
           && !OnNetworkWithOwner(q, networkId, HaRouterInterface)
           && !OnNetworkWithOwner(q, networkId, DistributedRouterInterface))
      && (forall q :: q in r ==>
           (q.networkId == networkId && q.deviceOwner in {RouterInterface, HaRouterInterface, DistributedRouterInterface}))
  {
    var ps := cloud.ports;
    var t1 := PortsWith(ps, networkId, RouterInterface);
    var t2 := PortsWith(ps, networkId, HaRouterInterface);
    var t3 := PortsWith(ps, networkId, DistributedRouterInterface);
    PortsWithMembers(ps, networkId, RouterInterface);
    PortsWithMembers(ps, networkId, HaRouterInterface);
    PortsWithMembers(ps, networkId, DistributedRouterInterface);
    if |t1| > 0 {
      assert t1[0] in t1;
    } else if |t2| > 0 {
      assert t2[0] in t2;
    } else if |t3| > 0 {
      assert t3[0] in t3;
    }
  }

  /**
    `getRouterByNetwork`: without a subnet, the router of the first router port (looked up
    by id, so possibly none); with a subnet, the router of the first router port holding a
    fixed ip on that subnet; none when no port qualifies.
  */
  function RouterByNetwork(cloud: Cloud, network: Network, subnet: Option<Subnet>): (r: Option<Router>)
    ensures var lop := RouterPorts(cloud, network.id);
      subnet.None? ==> (if |lop| == 0 then r.None? else r == RouterById(cloud, lop[0].deviceId))
    ensures var lop := RouterPorts(cloud, network.id);
      subnet.Some? ==>
        (forall i :: 0 <= i < |lop| && subnet.value.id in lop[i].fixedIpSubnetIds
           && (forall j :: 0 <= j < i ==> subnet.value.id !in lop[j].fixedIpSubnetIds)
           ==> r == RouterById(cloud, lop[i].deviceId))
    ensures subnet.Some? && (forall q :: q in RouterPorts(cloud, network.id) ==> subnet.value.id !in q.fixedIpSubnetIds)
      ==> r.None?
  {
    var lop := RouterPorts(cloud, network.id);
    match subnet
    case None =>
      if |lop| == 0 then None else RouterById(cloud, lop[0].deviceId)
    case Some(sn) =>
      match FirstMatch(lop, (q: Port) => sn.id in q.fixedIpSubnetIds)
      case None => None
      case Some(q) => RouterById(cloud, q.deviceId)
  }

  // ---------------------------------------------------------------------------
  // createNetwork and createSubnet
  // ---------------------------------------------------------------------------

  /** `createNetwork` does nothing: the network is settled by `createSubnet`. */
  function CreateNetworkStep(cfg: OsConfig): (r: (OsConfig, seq<Action>))
    ensures r.0 == cfg && r.1 == []
  {
    (cfg, [])
  }

  /** The CIDRs of every subnet on the networks behind the router's ports, in port order. */
  function UsedCidrs(cloud: Cloud, ports: seq<Port>, routerId: string): seq<string> {
    if |ports| == 0 then []
    else
      var here :=
        if ports[0].deviceId == routerId then
          match NetworkById(cloud, ports[0].networkId)
          case Some(n) => n.subnetCidrs.GetOr([])
          case None => []
        else [];
      here + UsedCidrs(cloud, ports[1..], routerId)
  }

  /** The CIDRs a port contributes: those of its network's subnets, when the network is listed. */
  function PortCidrs(cloud: Cloud, q: Port): seq<string> {
    match NetworkById(cloud, q.networkId)
    case Some(n) => n.subnetCidrs.GetOr([])
    case None => []
  }

  /** A CIDR counts as used exactly when a port of the router sits on a network holding it. */
  lemma {:induction false} UsedCidrsSpec(cloud: Cloud, ports: seq<Port>, routerId: string, c: string)
    ensures c in UsedCidrs(cloud, ports, routerId) <==>
      exists i :: 0 <= i < |ports| && ports[i].deviceId == routerId && c in PortCidrs(cloud, ports[i])
  {
    if |ports| > 0 {
      UsedCidrsSpec(cloud, ports[1..], routerId, c);
      assert forall i :: 1 <= i < |ports| ==> ports[1..][i - 1] == ports[i];
      if c in UsedCidrs(cloud, ports[1..], routerId) {
        var i :| 0 <= i < |ports[1..]| && ports[1..][i].deviceId == routerId && c in PortCidrs(cloud, ports[1..][i]);
        assert ports[i + 1] == ports[1..][i];
      }
    }
  }

  /** The router's ports (`getPortsByRouter`) and the CIDRs already in use behind them. */
  function RouterCidrs(cloud: Cloud, router: Router): seq<string> {
    UsedCidrs(cloud, cloud.ports, router.id)
  }

  /**
    The second half of `createSubnet`: pick a free /24 behind the router, create the
    cluster's IPv4 subnet with DHCP on the network, write its name to the configuration,
    and attach it to the router.
  */
  function CreateSubnetOn(cloud: Cloud, cfg: OsConfig, names: Names, nextCidr: seq<string> -> Option<string>,
                          network: Network, router: Router, done: seq<Action>): (r: SubnetOutcome)
    ensures |done| <= |r.actions| <= |done| + 2 && r.actions[..|done|] == done
    ensures r.result.Failure? ==> r.result.error.IsConfigurationError()
    ensures r.result.Success? ==>
      && nextCidr(RouterCidrs(cloud, router)).Some?
      && r.result.value == Environment(
           Subnet(cloud.newIds.subnetId, names.subnetPrefix + names.clusterId, network.id, nextCidr(RouterCidrs(cloud, router)).value),
           network, Some(router))
      && r.config == cfg.(subnet := Some(names.subnetPrefix + names.clusterId))
      && r.actions == done + [
           CreateSubnet(names.subnetPrefix + names.clusterId, network.id, 4, true, nextCidr(RouterCidrs(cloud, router)).value),
           AttachInterface(router.id, cloud.newIds.subnetId)]
    ensures nextCidr(RouterCidrs(cloud, router)).None? <==> r.result == Failure(NoFreeCidr(router.name))
  {
    match nextCidr(RouterCidrs(cloud, router))
    case None => SubnetOutcome(cfg, done, Failure(NoFreeCidr(router.name)))
    case Some(cidr) =>
      if CreateSubnetCall in cloud.rejected then SubnetOutcome(cfg, done, Failure(ProviderRejected(CreateSubnetCall)))
      else
        var sn := Subnet(cloud.newIds.subnetId, names.subnetPrefix + names.clusterId, network.id, cidr);
        var cfg' := cfg.(subnet := Some(sn.name));
        var acts := done + [CreateSubnet(sn.name, network.id, 4, true, cidr)];
        if AttachInterfaceCall in cloud.rejected then SubnetOutcome(cfg', acts, Failure(ProviderRejected(AttachInterfaceCall)))
        else SubnetOutcome(cfg', acts + [AttachInterface(router.id, sn.id)], Success(Environment(sn, network, Some(router))))
  }

  /**
    `createSubnet`. A configured subnet is reused with its network (no actions, no
    configuration change). Otherwise a configured network is reused with the router its
    ports name, or, with no network configured, the configured router is looked up and a new
    network is created and written to the configuration; then a new subnet is created on
    it. A configured network whose ports name no router dereferences the missing router.
  */
  function CreateSubnetStep(cloud: Cloud, cfg: OsConfig, names: Names, nextCidr: seq<string> -> Option<string>): (r: SubnetOutcome)
    ensures cfg.subnet.Some? ==> r.actions == [] && r.config == cfg
    ensures r.result.Success? ==> r.config.subnet == Some(r.result.value.subnet.name)
    ensures r.result.Success? ==> r.result.value.network.id == r.result.value.subnet.networkId
    ensures r.result.Failure? && !r.result.error.IsConfigurationError() ==>
      cfg.subnet.None? && cfg.network.Some? && r.actions == [] && r.config == cfg
    ensures |r.actions| <= 3
  {
    if cfg.subnet.Some? then
      match SubnetByName(cloud, cfg.subnet.value)
      case None => SubnetOutcome(cfg, [], Failure(NoSubnetNamed(cfg.subnet.value)))
      case Some(sn) =>
        match NetworkById(cloud, sn.networkId)
        case None => SubnetOutcome(cfg, [], Failure(NoNetworkWithId(sn.networkId)))
        case Some(net) => SubnetOutcome(cfg, [], Success(Environment(sn, net, RouterByNetwork(cloud, net, Some(sn)))))
    else if cfg.network.Some? then
      match NetworkByName(cloud, cfg.network.value)
      case None => SubnetOutcome(cfg, [], Failure(NoNetworkNamed(cfg.network.value)))
      case Some(net) =>
        match RouterByNetwork(cloud, net, None)
        case None => SubnetOutcome(cfg, [], Failure(NullRouter))
        case Some(router) => CreateSubnetOn(cloud, cfg, names, nextCidr, net, router, [])
    else
      match cfg.router
      case None => SubnetOutcome(cfg, [], Failure(NoRouterConfigured))
      case Some(routerName) =>
        match RouterByName(cloud, routerName)
        case None => SubnetOutcome(cfg, [], Failure(NoRouterNamed(routerName)))
        case Some(router) =>
          if CreateNetworkCall in cloud.rejected then SubnetOutcome(cfg, [], Failure(ProviderRejected(CreateNetworkCall)))
          else
            var name := names.networkPrefix + names.clusterId;
            var net := Network(cloud.newIds.networkId, name, None);
            CreateSubnetOn(cloud, cfg.(network := Some(name)), names, nextCidr, net, router, [CreateNetwork(name, true)])
  }

  /** With a subnet configured, it and its network are reused exactly when both are listed. */
  lemma SubnetConfigured(cloud: Cloud, cfg: OsConfig, names: Names, nextCidr: seq<string> -> Option<string>)
    requires cfg.subnet.Some?
    ensures var r := CreateSubnetStep(cloud, cfg, names, nextCidr);
      && (SubnetByName(cloud, cfg.subnet.value).None? <==> r.result == Failure(NoSubnetNamed(cfg.subnet.value)))
      && (r.result.Success? <==>
           SubnetByName(cloud, cfg.subnet.value).Some?
           && NetworkById(cloud, SubnetByName(cloud, cfg.subnet.value).value.networkId).Some?)
      && (r.result.Success? ==>
           && r.result.value.subnet.name == cfg.subnet.value
           && r.result.value.router == RouterByNetwork(cloud, r.result.value.network, Some(r.result.value.subnet)))
  {
  }

  /** With a network but no subnet configured: the network must exist and its ports must name a router. */
  lemma NetworkConfigured(cloud: Cloud, cfg: OsConfig, names: Names, nextCidr: seq<string> -> Option<string>)
    requires cfg.subnet.None? && cfg.network.Some?
    ensures var r := CreateSubnetStep(cloud, cfg, names, nextCidr);
      && (NetworkByName(cloud, cfg.network.value).None? <==> r.result == Failure(NoNetworkNamed(cfg.network.value)))
      && (NetworkByName(cloud, cfg.network.value).Some?
          && RouterByNetwork(cloud, NetworkByName(cloud, cfg.network.value).value, None).None?
          <==> r.result == Failure(NullRouter))
      && (r.result.Success? ==>
           && r.result.value.network.name == cfg.network.value
           && r.result.value.router == RouterByNetwork(cloud, r.result.value.network, None)
           && r.config.network == cfg.network
           && |r.actions| == 2 && r.actions[0].CreateSubnet? && r.actions[1].AttachInterface?)
  {
  }

  /**
    With neither subnet nor network configured: a router name is needed and must be listed;
    a new network named after the cluster is created and recorded before the subnet.
  */
  lemma NothingConfigured(cloud: Cloud, cfg: OsConfig, names: Names, nextCidr: seq<string> -> Option<string>)
    requires cfg.subnet.None? && cfg.network.None?
    ensures var r := CreateSubnetStep(cloud, cfg, names, nextCidr);
      && (cfg.router.None? <==> r.result == Failure(NoRouterConfigured))
      && (cfg.router.Some? ==>
           (RouterByName(cloud, cfg.router.value).None? <==> r.result == Failure(NoRouterNamed(cfg.router.value))))
      && (r.result.Success? ==>
           && r.result.value.router.Some?
           && Some(r.result.value.router.value) == RouterByName(cloud, cfg.router.value)
           && r.result.value.network.name == names.networkPrefix + names.clusterId
           && r.config.network == Some(names.networkPrefix + names.clusterId)
           && r.config.subnet == Some(names.subnetPrefix + names.clusterId)
           && r.actions == [
                CreateNetwork(names.networkPrefix + names.clusterId, true),
                CreateSubnet(names.subnetPrefix + names.clusterId, cloud.newIds.networkId, 4, true, r.result.value.subnet.cidr),
                AttachInterface(r.result.value.router.value.id, cloud.newIds.subnetId)])
  {
  }

  /**
    Every provider rejection surfaces as a configuration error naming the rejected call, and
    nothing is done after it.
  */
  lemma RejectionIsConfigurationError(cloud: Cloud, cfg: OsConfig, names: Names, nextCidr: seq<string> -> Option<string>)
    ensures var r := CreateSubnetStep(cloud, cfg, names, nextCidr);
      r.result.Failure? && r.result.error.ProviderRejected? ==>
        && r.result.error.call in cloud.rejected
        && r.result.error.IsConfigurationError()
        && (forall k :: 0 <= k < |r.actions| ==> !r.actions[k].AttachInterface?)
  {
    if cfg.subnet.None? && cfg.network.Some? {
      var net := NetworkByName(cloud, cfg.network.value);
      if net.Some? && RouterByNetwork(cloud, net.value, None).Some? {
        RejectionOn(cloud, cfg, names, nextCidr, net.value, RouterByNetwork(cloud, net.value, None).value, []);
      }
    } else if cfg.subnet.None? && cfg.router.Some? {
      var router := RouterByName(cloud, cfg.router.value);
      if router.Some? && CreateNetworkCall !in cloud.rejected {
        var name := names.networkPrefix + names.clusterId;
        RejectionOn(cloud, cfg.(network := Some(name)), names, nextCidr,
          Network(cloud.newIds.networkId, name, None), router.value, [CreateNetwork(name, true)]);
      }
    }
  }

  /** A rejection while creating the subnet names the rejected call and attaches nothing. */
  lemma RejectionOn(cloud: Cloud, cfg: OsConfig, names: Names, nextCidr: seq<string> -> Option<string>,
                    network: Network, router: Router, done: seq<Action>)
    requires forall k :: 0 <= k < |done| ==> !done[k].AttachInterface?
    ensures var r := CreateSubnetOn(cloud, cfg, names, nextCidr, network, router, done);
      r.result.Failure? && r.result.error.ProviderRejected? ==>
        && r.result.error.call in cloud.rejected
        && (forall k :: 0 <= k < |r.actions| ==> !r.actions[k].AttachInterface?)
  {
  }

  /**
    When a new subnet is created, its CIDR is the allocator's answer for the CIDRs in use
    behind the router.
  */
  lemma NewSubnetCidr(cloud: Cloud, cfg: OsConfig, names: Names, nextCidr: seq<string> -> Option<string>)
    requires cfg.subnet.None?
    ensures var r := CreateSubnetStep(cloud, cfg, names, nextCidr);
      r.result.Success? ==>
        && r.result.value.router.Some?
        && Some(r.result.value.subnet.cidr) == nextCidr(RouterCidrs(cloud, r.result.value.router.value))
        && r.result.value.subnet.name == names.subnetPrefix + names.clusterId
        && r.result.value.subnet.id == cloud.newIds.subnetId
  {
  }

  // ---------------------------------------------------------------------------
  // The missing-network message
  // ---------------------------------------------------------------------------

  /** The message of the missing-network error as the code builds it, from the subnet setting. */
  function MissingNetworkMessageAsWritten(cfg: OsConfig): string {
    "No network with name '" + Text(cfg.subnet) + "' found!"
  }

  /** The message naming the network that was looked up. */
  function MissingNetworkMessage(networkName: string): string {
    "No network with name '" + networkName + "' found!"
  }

  /** Different network names give different messages. */
  lemma MissingNetworkMessageInjective(a: string, b: string)
    requires MissingNetworkMessage(a) == MissingNetworkMessage(b)
    ensures a == b
  {
    var pre := "No network with name '";
    var post := "' found!";
    assert MissingNetworkMessage(a)[|pre|..] == a + post;
    assert MissingNetworkMessage(b)[|pre|..] == b + post;
    assert |a| == |b|;
    assert a == (a + post)[..|a|];
    assert b == (b + post)[..|b|];
  }

  /**
    The missing-network error is only raised with no subnet configured, so the message as
    written always reports the name "null" and names the configured network only when that
    network is itself called "null".
  */
  lemma MissingNetworkReportsNull(cloud: Cloud, cfg: OsConfig, names: Names, nextCidr: seq<string> -> Option<string>)
    requires CreateSubnetStep(cloud, cfg, names, nextCidr).result.Failure?
    requires CreateSubnetStep(cloud, cfg, names, nextCidr).result.error.NoNetworkNamed?
    ensures cfg.network.Some?
    ensures MissingNetworkMessageAsWritten(cfg) == MissingNetworkMessage("null")
    ensures MissingNetworkMessageAsWritten(cfg) == MissingNetworkMessage(cfg.network.value) <==> cfg.network.value == "null"
  {
    if MissingNetworkMessage("null") == MissingNetworkMessage(cfg.network.value) {
      MissingNetworkMessageInjective("null", cfg.network.value);
    }
  }

  /** The corrected error carries the configured network name it looked for. */
  lemma MissingNetworkReportsName(cloud: Cloud, cfg: OsConfig, names: Names, nextCidr: seq<string> -> Option<string>)
    requires CreateSubnetStep(cloud, cfg, names, nextCidr).result.Failure?
    requires CreateSubnetStep(cloud, cfg, names, nextCidr).result.error.NoNetworkNamed?
    ensures cfg.network.Some? && NetworkByName(cloud, cfg.network.value).None?
    ensures MissingNetworkMessage(CreateSubnetStep(cloud, cfg, names, nextCidr).result.error.networkName)
      == MissingNetworkMessage(cfg.network.value)
  {
  }

  // ---------------------------------------------------------------------------
  // createSecurityGroup
  // ---------------------------------------------------------------------------

  function RuleProtocol(p: UserProtocol): Protocol {
    match p
    case UserTcp => Tcp
    case UserUdp => Udp
    case UserIcmp => Icmp
  }

  /** One rule per user port, in order: the mapped protocol, the single port, the port's address range. */
  function UserRules(groupId: string, ports: seq<UserPort>): (r: seq<Rule>)
    ensures |r| == |ports|
    ensures forall i :: 0 <= i < |ports| ==>
      r[i] == Rule(groupId, RuleProtocol(ports[i].protocol), ports[i].number, ports[i].number, FromCidr(ports[i].ipRange))
  {
    if |ports| == 0 then []
    else
      var head := Rule(groupId, RuleProtocol(ports[0].protocol), ports[0].number, ports[0].number, FromCidr(ports[0].ipRange));
      [head] + UserRules(groupId, ports[1..])
  }

  /** The rules of a new group: ssh from anywhere, all TCP and UDP ports within the group, then the user ports. */
  function GroupRules(groupId: string, ports: seq<UserPort>): (r: seq<Rule>)
    ensures |r| == 3 + |ports|
    ensures forall k :: 0 <= k < |r| ==> r[k].parentGroupId == groupId
    ensures r[0] == Rule(groupId, Tcp, SshPort, SshPort, FromCidr(AnyAddress))
    ensures forall k :: 1 <= k < 3 ==> r[k].source == FromGroup(groupId) && r[k].fromPort == MinPort && r[k].toPort == MaxPort
    ensures r[1].protocol == Tcp && r[2].protocol == Udp
    ensures r[3..] == UserRules(groupId, ports)
  {
    [ Rule(groupId, Tcp, SshPort, SshPort, FromCidr(AnyAddress)),
      Rule(groupId, Tcp, MinPort, MaxPort, FromGroup(groupId)),
      Rule(groupId, Udp, MinPort, MaxPort, FromGroup(groupId)) ]
    + UserRules(groupId, ports)
  }

  function RuleActions(rules: seq<Rule>): (r: seq<Action>)
    ensures |r| == |rules| && forall k :: 0 <= k < |rules| ==> r[k] == CreateRule(rules[k])
  {
    if |rules| == 0 then [] else [CreateRule(rules[0])] + RuleActions(rules[1..])
  }

  /**
    `createSecurityGroup`: a configured group that is listed is reused without touching it;
    otherwise (also when the configured one is missing) the cluster's group is created and
    its rules are added.
  */
  function CreateSecurityGroupStep(cloud: Cloud, cfg: OsConfig, names: Names): (r: GroupOutcome)
    ensures r.result.Failure? ==> r.result.error.ProviderRejected? && r.result.error.call in cloud.rejected
    ensures r.result.Success? && r.actions == [] ==>
      cfg.securityGroup.Some? && r.result.value.name == cfg.securityGroup.value
    ensures r.result.Success? && r.actions != [] ==>
      && r.result.value == SecurityGroup(cloud.newIds.securityGroupId, names.securityGroupPrefix + names.clusterId)
      && r.actions == [CreateSecurityGroup(names.securityGroupPrefix + names.clusterId, SecurityGroupDescription + names.clusterId)]
           + RuleActions(GroupRules(cloud.newIds.securityGroupId, cfg.ports))
  {
    if cfg.securityGroup.Some? && SecurityGroupByName(cloud, cfg.securityGroup.value).Some? then
      GroupOutcome([], Success(SecurityGroupByName(cloud, cfg.securityGroup.value).value))
    else if CreateSecurityGroupCall in cloud.rejected then
      GroupOutcome([], Failure(ProviderRejected(CreateSecurityGroupCall)))
    else
      var group := SecurityGroup(cloud.newIds.securityGroupId, names.securityGroupPrefix + names.clusterId);
      var created := CreateSecurityGroup(group.name, SecurityGroupDescription + names.clusterId);
      if CreateRuleCall in cloud.rejected then GroupOutcome([created], Failure(ProviderRejected(CreateRuleCall)))
      else GroupOutcome([created] + RuleActions(GroupRules(group.id, cfg.ports)), Success(group))
  }

  /** A configured group is reused, with no rule added, exactly when it is listed. */
  lemma SecurityGroupReused(cloud: Cloud, cfg: OsConfig, names: Names)
    ensures var r := CreateSecurityGroupStep(cloud, cfg, names);
      r.actions == [] && r.result.Success? <==>
        cfg.securityGroup.Some? && SecurityGroupByName(cloud, cfg.securityGroup.value).Some?
  {
  }

  /**
    A new group is named after the cluster and receives exactly 3 + (number of user ports)
    rules, in the fixed order, all on the new group.
  */
  lemma SecurityGroupCreated(cloud: Cloud, cfg: OsConfig, names: Names)
    requires !(cfg.securityGroup.Some? && SecurityGroupByName(cloud, cfg.securityGroup.value).Some?)
    requires CreateSecurityGroupCall !in cloud.rejected && CreateRuleCall !in cloud.rejected
    ensures var r := CreateSecurityGroupStep(cloud, cfg, names);
      && r.result == Success(SecurityGroup(cloud.newIds.securityGroupId, names.securityGroupPrefix + names.clusterId))
      && |r.actions| == 4 + |cfg.ports|
      && r.actions[0] == CreateSecurityGroup(names.securityGroupPrefix + names.clusterId, SecurityGroupDescription + names.clusterId)
      && (forall k :: 1 <= k < |r.actions| ==>
            r.actions[k].CreateRule? && r.actions[k].rule.parentGroupId == cloud.newIds.securityGroupId)
      && r.actions[1] == CreateRule(Rule(cloud.newIds.securityGroupId, Tcp, SshPort, SshPort, FromCidr(AnyAddress)))
      && r.actions[2] == CreateRule(Rule(cloud.newIds.securityGroupId, Tcp, MinPort, MaxPort, FromGroup(cloud.newIds.securityGroupId)))
      && r.actions[3] == CreateRule(Rule(cloud.newIds.securityGroupId, Udp, MinPort, MaxPort, FromGroup(cloud.newIds.securityGroupId)))
      && (forall i :: 0 <= i < |cfg.ports| ==>
            r.actions[4 + i].rule == Rule(cloud.newIds.securityGroupId, RuleProtocol(cfg.ports[i].protocol),
              cfg.ports[i].number, cfg.ports[i].number, FromCidr(cfg.ports[i].ipRange)))
  {
    var gid := cloud.newIds.securityGroupId;
    var rules := GroupRules(gid, cfg.ports);
    var acts := RuleActions(rules);
    forall i | 0 <= i < |cfg.ports|
      ensures acts[3 + i].rule == Rule(gid, RuleProtocol(cfg.ports[i].protocol), cfg.ports[i].number, cfg.ports[i].number, FromCidr(cfg.ports[i].ipRange))
    {
      assert rules[3 + i] == rules[3..][i];
    }
  }
}
