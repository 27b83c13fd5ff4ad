/**
  The AWS checks of the validate intent: the snapshot check, the choice of the first image,
  network or subnet a describe call lists, and the virtualization check of the master
  instance type against the image.

  The describe calls are parameters: a snapshot listing is the ids the provider returns for
  the requested id, and an image listing is a success (possibly a null list) or a service
  exception.
*/
module ValidateAws {
  import opened Wrappers
  import opened JavaText
  import DeviceMapper

  // ---------------------------------------------------------------------------
  // Snapshots
  // ---------------------------------------------------------------------------

  /** The snapshot part of a configured id: the text before the first ':', if there is one. */
  function SnapshotPart(snapshotId: string): (r: string)
    ensures ':' !in r
    ensures r <= snapshotId
    ensures ':' !in snapshotId ==> r == snapshotId
  {
    if ':' in snapshotId then snapshotId[..FirstIndex(snapshotId, ':')] else snapshotId
  }

  /** Taking the snapshot part twice changes nothing more. */
  lemma SnapshotPartIdempotent(snapshotId: string)
    ensures SnapshotPart(SnapshotPart(snapshotId)) == SnapshotPart(snapshotId)
  {
  }

  /**
    The substring used here agrees with the device mapper's split-based stripping wherever
    that one succeeds; on an id of ':' characters only, where the split throws, the
    substring is empty.
  */
  lemma SnapshotPartAgreesWithStrip(snapshotId: string)
    ensures DeviceMapper.StripSnapshotId(snapshotId).Success? ==>
      DeviceMapper.StripSnapshotId(snapshotId).value == SnapshotPart(snapshotId)
    ensures DeviceMapper.StripSnapshotId(snapshotId).Failure? ==> SnapshotPart(snapshotId) == ""
  {
    if DeviceMapper.StripSnapshotId(snapshotId).Failure? {
      assert snapshotId[0] == ':';
    }
  }

  /**
    `checkSnapshot`: the provider is asked for the snapshot part of the id, and the check
    passes when it lists something whose first id is exactly that part.
  */
  function CheckSnapshot(snapshotId: string, describeSnapshots: string -> seq<string>): (r: bool)
    ensures r <==> |describeSnapshots(SnapshotPart(snapshotId))| > 0
                   && describeSnapshots(SnapshotPart(snapshotId))[0] == SnapshotPart(snapshotId)
  {
    var id := if ':' in snapshotId then snapshotId[..FirstIndex(snapshotId, ':')] else snapshotId;
    var snapshots := describeSnapshots(id);
    |snapshots| > 0 && snapshots[0] == id
  }

  /** A partition suffix does not matter: `snap:n` is checked like `snap`. */
  lemma CheckSnapshotIgnoresPartition(id: string, suffix: string, describeSnapshots: string -> seq<string>)
    requires ':' !in id
    ensures CheckSnapshot(id + ":" + suffix, describeSnapshots) == CheckSnapshot(id, describeSnapshots)
  {
    var s := id + ":" + suffix;
    assert s[|id|] == ':';
    assert SnapshotPart(s) == id by {
      assert forall k :: 0 <= k < |id| ==> s[k] == id[k];
    }
  }

  // ---------------------------------------------------------------------------
  // First results
  // ---------------------------------------------------------------------------

  /** A describe call that returned a (possibly null) list, or threw a service exception. */
  datatype Describe<T> = Listed(items: Option<seq<T>>) | ServiceException

  /**
    `getImage`: a null or empty list, or a service exception, gives null; otherwise the
    first image, however many were listed.
  */
  function GetImage<T>(d: Describe<T>): (r: Option<T>)
    ensures r.Some? <==> d.Listed? && d.items.Some? && |d.items.value| > 0
    ensures r.Some? ==> r.value == d.items.value[0]
  {
    match d
    case ServiceException => None
    case Listed(None) => None
    case Listed(Some(images)) => if |images| == 0 then None else Some(images[0])
  }

  /** `getNetwork` and `getSubnet`: the first listed element, or null for a null result or an empty list. */
  function FirstListed<T>(result: Option<seq<T>>): (r: Option<T>)
    ensures r.Some? <==> result.Some? && |result.value| > 0
    ensures r.Some? ==> r.value == result.value[0]
  {
    match result
    case None => None
    case Some(items) => First(items)
  }

  /** The image choice is the network and subnet choice with exceptions turned into null. */
  lemma GetImageIsFirstListed<T>(d: Describe<T>)
    ensures GetImage(d) == (if d.ServiceException? then None else FirstListed(d.items))
  {
  }

  // ---------------------------------------------------------------------------
  // Virtualization
  // ---------------------------------------------------------------------------

  /** What an instance type supports: hardware-assisted (HVM) and paravirtual (PV) images. */
  datatype InstanceSpec = InstanceSpec(hvm: bool, pvm: bool)

  /**
    `checkInstanceVirtualization`: an HVM image is refused by a type that supports only
    PV, a PV image by a type that supports only HVM; everything else passes.
  */
  function CheckInstanceVirtualization(imageHvm: bool, spec: InstanceSpec): bool {
    if imageHvm then
      if spec.hvm then true else if spec.pvm then false else true
    else
      if spec.pvm then true else if spec.hvm then false else true
  }

  /** The image fits the type: the type supports the image's kind, or declares neither kind. */
  predicate Fits(imageHvm: bool, spec: InstanceSpec) {
    (if imageHvm then spec.hvm else spec.pvm) || (!spec.hvm && !spec.pvm)
  }

  /** The check passes exactly when the image fits. */
  lemma VirtualizationMeansFit(imageHvm: bool, spec: InstanceSpec)
    ensures CheckInstanceVirtualization(imageHvm, spec) <==> Fits(imageHvm, spec)
  {
  }

  /** The four single-kind cases, and a type supporting both or neither kind always passing. */
  lemma VirtualizationCases(spec: InstanceSpec)
    ensures spec.hvm ==> CheckInstanceVirtualization(true, spec)
    ensures spec.pvm && !spec.hvm ==> !CheckInstanceVirtualization(true, spec)
    ensures spec.pvm ==> CheckInstanceVirtualization(false, spec)
    ensures spec.hvm && !spec.pvm ==> !CheckInstanceVirtualization(false, spec)
    ensures spec.hvm == spec.pvm ==> CheckInstanceVirtualization(true, spec) && CheckInstanceVirtualization(false, spec)
  {
  }

  /** The instance types of a configuration: the master's and the slaves'. */
  datatype InstanceTypes = InstanceTypes(master: InstanceSpec, slaves: seq<InstanceSpec>)

  /** `checkProviderImageProperties`: only the master type is held against the image. */
  function CheckProviderImageProperties(types: InstanceTypes, imageHvm: bool): bool {
    CheckInstanceVirtualization(imageHvm, types.master)
  }

  /** The slave types never change the outcome. */
  lemma OnlyMasterChecked(types: InstanceTypes, slaves: seq<InstanceSpec>, imageHvm: bool)
    ensures CheckProviderImageProperties(types.(slaves := slaves), imageHvm)
      == CheckProviderImageProperties(types, imageHvm)
    ensures CheckProviderImageProperties(types, imageHvm) <==> Fits(imageHvm, types.master)
  {
  }
}
