/**
  Tearing down an AWS cluster: one terminate request for all its instances, polling until
  every described instance is terminated, then deleting the placement group, the subnet and
  the security group that are set. The requests sent are returned as a trace.

  The provider's answers to the describe requests are a finite sequence of polls, each the
  state names of the described instances; when the sequence runs out before everything is
  terminated, the model reports that the loop is still polling.
*/
module TerminateAws {
  import opened Wrappers
  import opened ClusterModel

  const Terminated: string := "terminated"

  datatype AwsRequest =
    | TerminateInstances(instanceIds: seq<string>)
    | DescribeInstances(instanceIds: seq<string>)
    | DeletePlacementGroup(groupName: string)
    | DeleteSubnet(subnetId: string)
    | DeleteSecurityGroup(groupId: string)

  /** The instances to terminate: the slaves, then the master when there is one. */
  function TargetIds(c: Cluster): (r: seq<string>)
    ensures |r| == InstanceCount(c)
    ensures r[..|c.slaves|] == c.slaves
    ensures c.master.Some? ==> r[|r| - 1] == c.master.value
    ensures forall x :: x in r <==> x in c.slaves || c.master == Some(x)
  {
    if c.master.Some? then c.slaves + [c.master.value] else c.slaves
  }

  predicate AllTerminated(states: seq<string>) {
    forall i :: 0 <= i < |states| ==> states[i] == Terminated
  }

  /** The index of the first poll in which every described instance is terminated. */
  function FirstTerminatedPoll(polls: seq<seq<string>>): (r: Option<nat>)
    ensures r.Some? ==>
      (r.value < |polls| && AllTerminated(polls[r.value]) && forall j :: 0 <= j < r.value ==> !AllTerminated(polls[j]))
    ensures r.None? ==> forall j :: 0 <= j < |polls| ==> !AllTerminated(polls[j])
  {
    if |polls| == 0 then None
    else if AllTerminated(polls[0]) then Some(0)
    else
      var rest := FirstTerminatedPoll(polls[1..]);
      assert forall j :: 1 <= j < |polls| ==> polls[1..][j - 1] == polls[j];
      if rest.Some? then Some(rest.value + 1) else None
  }

  /** n copies of a request. */
  function Repeat(x: AwsRequest, n: nat): (r: seq<AwsRequest>)
    ensures |r| == n && forall i :: 0 <= i < n ==> r[i] == x
  {
    if n == 0 then [] else Repeat(x, n - 1) + [x]
  }

  /** The three deletes, each only when its resource is set, in the fixed order. */
  function Deletes(c: Cluster): seq<AwsRequest> {
    (if c.placementGroup.Some? then [DeletePlacementGroup(c.placementGroup.value)] else [])
    + (if c.subnet.Some? then [DeleteSubnet(c.subnet.value)] else [])
    + (if c.securityGroup.Some? then [DeleteSecurityGroup(c.securityGroup.value)] else [])
  }

  function CountPlacementGroupDeletes(t: seq<AwsRequest>): nat {
    if |t| == 0 then 0 else (if t[0].DeletePlacementGroup? then 1 else 0) + CountPlacementGroupDeletes(t[1..])
  }

  function CountSubnetDeletes(t: seq<AwsRequest>): nat {
    if |t| == 0 then 0 else (if t[0].DeleteSubnet? then 1 else 0) + CountSubnetDeletes(t[1..])
  }

  function CountSecurityGroupDeletes(t: seq<AwsRequest>): nat {
    if |t| == 0 then 0 else (if t[0].DeleteSecurityGroup? then 1 else 0) + CountSecurityGroupDeletes(t[1..])
  }

  /**
    `terminateCluster`. Returns the requests sent, whether the polling loop ended (it then
    always reports success), and the cluster whose slave list now also holds the master,
    because the code appends the master to the list the cluster itself keeps.
  */
  method TerminateCluster(c: Cluster, polls: seq<seq<string>>) returns (trace: seq<AwsRequest>, finished: bool, after: Cluster)
    ensures after == c.(slaves := TargetIds(c))
    ensures |TargetIds(c)| == 0 ==> finished && trace == Deletes(c)
    ensures |TargetIds(c)| > 0 && FirstTerminatedPoll(polls).Some? ==>
      finished && trace ==
        [TerminateInstances(TargetIds(c))]
        + Repeat(DescribeInstances(TargetIds(c)), FirstTerminatedPoll(polls).value + 1)
        + Deletes(c)
    ensures |TargetIds(c)| > 0 && FirstTerminatedPoll(polls).None? ==>
      !finished && trace == [TerminateInstances(TargetIds(c))] + Repeat(DescribeInstances(TargetIds(c)), |polls|)
  {
    var ids := TargetIds(c);
    after := c.(slaves := ids);
    trace := [];
    finished := true;
    if |ids| > 0 {
      trace := [TerminateInstances(ids)];
      finished := false;
      var i := 0;
      while i < |polls| && !finished
        invariant 0 <= i <= |polls|
        invariant finished ==> 0 < i && AllTerminated(polls[i - 1])
        invariant forall j :: 0 <= j < i - 1 ==> !AllTerminated(polls[j])
        invariant !finished ==> forall j :: 0 <= j < i ==> !AllTerminated(polls[j])
        invariant trace == [TerminateInstances(ids)] + Repeat(DescribeInstances(ids), i)
      {
        trace := trace + [DescribeInstances(ids)];
        finished := AllTerminated(polls[i]);
        i := i + 1;
      }
      if finished {
        assert FirstTerminatedPoll(polls) == Some(i - 1);
      }
    }
    if finished {
      trace := trace + Deletes(c);
    }
  }

  /** Each resource is deleted at most once, and exactly once when it is set. */
  lemma DeletesOncePerResource(c: Cluster)
    ensures CountPlacementGroupDeletes(Deletes(c)) == if c.placementGroup.Some? then 1 else 0
    ensures CountSubnetDeletes(Deletes(c)) == if c.subnet.Some? then 1 else 0
    ensures CountSecurityGroupDeletes(Deletes(c)) == if c.securityGroup.Some? then 1 else 0
  {
    var a := if c.placementGroup.Some? then [DeletePlacementGroup(c.placementGroup.value)] else [];
    var b := if c.subnet.Some? then [DeleteSubnet(c.subnet.value)] else [];
    var d := if c.securityGroup.Some? then [DeleteSecurityGroup(c.securityGroup.value)] else [];
    CountsAppend(a, b + d);
    CountsAppend(b, d);
    assert Deletes(c) == a + (b + d);
  }

  lemma {:induction false} CountsAppend(s: seq<AwsRequest>, t: seq<AwsRequest>)
    ensures CountPlacementGroupDeletes(s + t) == CountPlacementGroupDeletes(s) + CountPlacementGroupDeletes(t)
    ensures CountSubnetDeletes(s + t) == CountSubnetDeletes(s) + CountSubnetDeletes(t)
    ensures CountSecurityGroupDeletes(s + t) == CountSecurityGroupDeletes(s) + CountSecurityGroupDeletes(t)
  {
    if |s| > 0 {
      CountsAppend(s[1..], t);
      assert (s + t)[1..] == s[1..] + t;
    } else {
      assert s + t == t;
    }
  }

  /** No delete is a terminate or describe request: the instance requests all come first. */
  lemma DeletesAfterInstances(c: Cluster)
    ensures forall k :: 0 <= k < |Deletes(c)| ==>
      !Deletes(c)[k].TerminateInstances? && !Deletes(c)[k].DescribeInstances?
  {
  }
}
