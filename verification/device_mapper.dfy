/**
  The block-device letter allocator: every volume (a snapshot id, optionally suffixed with
  ":<partition>") that is to be mounted gets the next free letter from f..z, which yields an
  API-facing device name "/dev/sd<letter>" and the name the guest sees, "/dev/xvd<letter>"
  followed by the partition number when there is one.
*/
module DeviceMapper {
  import opened Wrappers
  import opened JavaText

  /** The letters a volume can be attached under, in allocation order. */
  const DeviceLetters: string := "fghijklmnopqrstuvwxyz"
  const ApiDevicePrefix: string := "/dev/sd"
  const RealDevicePrefix: string := "/dev/xvd"

  /** One entry of the snapshot-id to mount-point map, in the map's iteration order. */
  datatype Volume = Volume(snapshotId: string, mountPoint: string)

  datatype MapperError =
    | TooManyVolumes(count: nat)          // IllegalArgumentException from the constructor
    | InvalidPartition(rawSnapshotId: string) // IllegalArgumentException from the partition parser
    | IndexOutOfBounds(rawSnapshotId: string) // ArrayIndexOutOfBoundsException from stripSnapshotId

  datatype Mapper = Mapper(
    snapshotIdToMountPoint: seq<Volume>,
    snapshotToDeviceName: map<string, string>,
    mountPointToRealDeviceName: map<string, string>,
    usedLetters: nat)

  /** A Java map never holds a key twice. */
  predicate DistinctSnapshotIds(vs: seq<Volume>) {
    forall i, j :: 0 <= i < j < |vs| ==> vs[i].snapshotId != vs[j].snapshotId
  }

  function ApiDeviceName(letter: char): string {
    ApiDevicePrefix + [letter]
  }

  function RealDeviceName(letter: char, partition: int): string {
    RealDevicePrefix + [letter] + (if partition > 0 then Decimal(partition) else "")
  }

  /** The i-th letter of f..z is the character i places after 'f'; so no two positions share a letter. */
  lemma LettersAscend()
    ensures |DeviceLetters| == 21
    ensures forall i :: 0 <= i < |DeviceLetters| ==> DeviceLetters[i] as int == 'f' as int + i
  {
  }

  /**
    The partition number of a raw snapshot id: -1 without a ':'; otherwise the second
    ':'-separated field as a Java int, and an IllegalArgumentException when that field is
    missing or not a number.
  */
  function PartitionNumber(raw: string): (r: Result<int, MapperError>)
    ensures ':' !in raw ==> r == Success(-1)
    ensures r.Failure? ==> r.error == InvalidPartition(raw)
    ensures r.Success? && ':' in raw ==> |Split(raw, ':')| >= 2 && ParseInt(Split(raw, ':')[1]) == Some(r.value)
    ensures ':' in raw && (|Split(raw, ':')| < 2 || ParseInt(Split(raw, ':')[1]).None?) ==> r.Failure?
  {
    if ':' !in raw then Success(-1)
    else
      var parts := Split(raw, ':');
      if |parts| < 2 then Failure(InvalidPartition(raw))
      else
        match ParseInt(parts[1])
        case None => Failure(InvalidPartition(raw))
        case Some(n) => Success(n)
  }

  /** An id suffixed with ":<n>" yields n as its partition number. */
  lemma PartitionNumberOfSuffix(id: string, n: nat)
    requires ':' !in id && n <= MaxInt
    ensures PartitionNumber(id + ":" + Decimal(n)) == Success(n)
  {
    var d := Decimal(n);
    assert forall k :: 0 <= k < |d| ==> d[k] != ':';
    SplitPair(id, d, ':');
    assert id + ":" + d == id + [':'] + d;
    ParseDecimal(n);
  }

  /** An id that ends right after its ':' has no partition number and is rejected. */
  lemma PartitionNumberMissing(id: string)
    requires ':' !in id
    ensures PartitionNumber(id + ":").Failure?
  {
    var raw := id + ":";
    assert raw[|id|] == ':';
    FieldsAfterFirst(id, "", ':');
    assert raw == id + [':'] + "";
    assert Fields(raw, ':') == [id, ""];
  }

  /**
    `stripSnapshotId`: the text before the first ':' or the id unchanged. A raw id made of
    ':' characters only splits into nothing, so indexing the first part throws.
  */
  function StripSnapshotId(raw: string): (r: Result<string, MapperError>)
    ensures ':' !in raw ==> r == Success(raw)
    ensures r.Success? ==> r.value == raw[..FirstIndex(raw, ':')] && ':' !in r.value
    ensures r.Failure? <==> raw != "" && OnlyChar(raw, ':')
  {
    SplitEmptyIff(raw, ':');
    if ':' in raw then
      var parts := Split(raw, ':');
      if |parts| == 0 then Failure(IndexOutOfBounds(raw))
      else
        SplitHead(raw, ':');
        Success(parts[0])
    else
      assert raw[..FirstIndex(raw, ':')] == raw;
      Success(raw)
  }

  /** Stripping an already stripped id changes nothing. */
  lemma StripIdempotent(raw: string)
    requires StripSnapshotId(raw).Success?
    ensures StripSnapshotId(StripSnapshotId(raw).value) == StripSnapshotId(raw)
  {
  }

  /** Stripping a partition suffix recovers the id it was appended to. */
  lemma StripSuffix(id: string, n: nat)
    requires ':' !in id
    ensures StripSnapshotId(id + ":" + Decimal(n)) == Success(id)
  {
    var raw := id + ":" + Decimal(n);
    assert raw[|id|] == ':';
    assert raw[..|id|] == id;
    FirstIndexAfter(id, Decimal(n), ':');
    assert raw == id + [':'] + Decimal(n);
    assert !OnlyChar(raw, ':') by {
      assert raw[|id| + 1] == Decimal(n)[0];
      assert IsDigit(Decimal(n)[0]);
    }
  }

  /**
    The constructor: rejects more volumes than letters before building anything; otherwise
    walks the entries in order, giving the i-th entry the i-th letter. The API-facing name is
    stored under the raw snapshot id (suffix included), the real name under the mount point,
    so a later entry with the same mount point replaces the earlier real name. A malformed
    partition suffix aborts the whole construction.
  */
  method NewMapper(volumes: seq<Volume>) returns (r: Result<Mapper, MapperError>)
    requires DistinctSnapshotIds(volumes)
    ensures |volumes| > |DeviceLetters| ==> r == Failure(TooManyVolumes(|volumes|))
    ensures |volumes| <= |DeviceLetters| ==>
      (r.Success? <==> forall i :: 0 <= i < |volumes| ==> PartitionNumber(volumes[i].snapshotId).Success?)
    ensures |volumes| <= |DeviceLetters| && r.Failure? ==>
      exists k :: 0 <= k < |volumes| && r.error == InvalidPartition(volumes[k].snapshotId)
        && PartitionNumber(volumes[k].snapshotId).Failure?
        && forall i :: 0 <= i < k ==> PartitionNumber(volumes[i].snapshotId).Success?
    ensures r.Success? ==> r.value.snapshotIdToMountPoint == volumes
    ensures r.Success? ==> r.value.usedLetters == |volumes|
    ensures r.Success? ==> r.value.snapshotToDeviceName.Keys == set i | 0 <= i < |volumes| :: volumes[i].snapshotId
    ensures r.Success? ==> forall i :: 0 <= i < |volumes| ==>
      r.value.snapshotToDeviceName[volumes[i].snapshotId] == ApiDeviceName(DeviceLetters[i])
    ensures r.Success? ==> r.value.mountPointToRealDeviceName.Keys == set i | 0 <= i < |volumes| :: volumes[i].mountPoint
    ensures r.Success? ==> forall i :: 0 <= i < |volumes| && LastWithMountPoint(volumes, i) ==>
      r.value.mountPointToRealDeviceName[volumes[i].mountPoint]
        == RealDeviceName(DeviceLetters[i], PartitionNumber(volumes[i].snapshotId).value)
  {
    if |volumes| > |DeviceLetters| {
      return Failure(TooManyVolumes(|volumes|));
    }
    var deviceNames: map<string, string> := map[];
    var realNames: map<string, string> := map[];
    var used := 0;
    var parts: seq<int> := [];
    while used < |volumes|
      invariant used <= |volumes| && |parts| == used
      invariant PartitionsParsed(volumes, parts)
      invariant deviceNames == ApiNames(volumes, used)
      invariant realNames == RealNames(volumes, parts)
    {
      var letter := DeviceLetters[used];
      deviceNames := deviceNames[volumes[used].snapshotId := ApiDeviceName(letter)];
      var partition := PartitionNumber(volumes[used].snapshotId);
      if partition.Failure? {
        assert partition.error == InvalidPartition(volumes[used].snapshotId);
        return Failure(partition.error);
      }
      realNames := realNames[volumes[used].mountPoint := RealDeviceName(letter, partition.value)];
      PartitionsParsedStep(volumes, parts, partition.value);
      assert (parts + [partition.value])[..used] == parts;
      parts := parts + [partition.value];
      used := used + 1;
    }
    MapperNames(volumes, parts);
    return Success(Mapper(volumes, deviceNames, realNames, used));
  }

  /** `parts` holds the partition numbers of the first |parts| entries. */
  predicate PartitionsParsed(vs: seq<Volume>, parts: seq<int>) {
    |parts| <= |vs| && forall i :: 0 <= i < |parts| ==> PartitionNumber(vs[i].snapshotId) == Success(parts[i])
  }

  lemma PartitionsParsedStep(vs: seq<Volume>, parts: seq<int>, p: int)
    requires PartitionsParsed(vs, parts) && |parts| < |vs|
    requires PartitionNumber(vs[|parts|].snapshotId) == Success(p)
    ensures PartitionsParsed(vs, parts + [p])
  {
  }

  /** The maps a completed walk leaves, in terms of the entries' partition numbers. */
  lemma MapperNames(volumes: seq<Volume>, parts: seq<int>)
    requires DistinctSnapshotIds(volumes) && |parts| == |volumes| <= |DeviceLetters|
    requires PartitionsParsed(volumes, parts)
    ensures ApiNames(volumes, |volumes|).Keys == set i | 0 <= i < |volumes| :: volumes[i].snapshotId
    ensures forall i :: 0 <= i < |volumes| ==>
      ApiNames(volumes, |volumes|)[volumes[i].snapshotId] == ApiDeviceName(DeviceLetters[i])
    ensures RealNames(volumes, parts).Keys == set i | 0 <= i < |volumes| :: volumes[i].mountPoint
    ensures forall i :: 0 <= i < |volumes| && LastWithMountPoint(volumes, i) ==>
      RealNames(volumes, parts)[volumes[i].mountPoint]
        == RealDeviceName(DeviceLetters[i], PartitionNumber(volumes[i].snapshotId).value)
  {
    ApiNamesSpec(volumes, |volumes|);
    RealNamesSpec(volumes, parts);
  }

  /** The API-facing names after the first n entries. */
  function ApiNames(vs: seq<Volume>, n: nat): map<string, string>
    requires n <= |vs| && n <= |DeviceLetters|
  {
    if n == 0 then map[] else ApiNames(vs, n - 1)[vs[n - 1].snapshotId := ApiDeviceName(DeviceLetters[n - 1])]
  }

  /** The real device names after the first |parts| entries, given their partition numbers. */
  function RealNames(vs: seq<Volume>, parts: seq<int>): map<string, string>
    requires |parts| <= |vs| && |parts| <= |DeviceLetters|
  {
    var n := |parts|;
    if n == 0 then map[]
    else RealNames(vs, parts[..n - 1])[vs[n - 1].mountPoint := RealDeviceName(DeviceLetters[n - 1], parts[n - 1])]
  }

  lemma {:induction false} ApiNamesKeys(vs: seq<Volume>, n: nat)
    requires n <= |vs| && n <= |DeviceLetters|
    ensures ApiNames(vs, n).Keys == set i | 0 <= i < n :: vs[i].snapshotId
  {
    if n > 0 {
      ApiNamesKeys(vs, n - 1);
      IndexSetStep(vs, n, true);
    }
  }

  lemma {:induction false} ApiNamesValues(vs: seq<Volume>, n: nat)
    requires n <= |vs| && n <= |DeviceLetters| && DistinctSnapshotIds(vs)
    ensures forall i :: 0 <= i < n ==> vs[i].snapshotId in ApiNames(vs, n)
    ensures forall i :: 0 <= i < n ==> ApiNames(vs, n)[vs[i].snapshotId] == ApiDeviceName(DeviceLetters[i])
  {
    if n > 0 {
      ApiNamesValues(vs, n - 1);
    }
  }

  lemma ApiNamesSpec(vs: seq<Volume>, n: nat)
    requires n <= |vs| && n <= |DeviceLetters| && DistinctSnapshotIds(vs)
    ensures ApiNames(vs, n).Keys == set i | 0 <= i < n :: vs[i].snapshotId
    ensures forall i :: 0 <= i < n ==> ApiNames(vs, n)[vs[i].snapshotId] == ApiDeviceName(DeviceLetters[i])
  {
    ApiNamesKeys(vs, n);
    ApiNamesValues(vs, n);
  }

  /** The ids (or mount points) of the first n entries grow by the n-th one. */
  lemma IndexSetStep(vs: seq<Volume>, n: nat, ids: bool)
    requires 0 < n <= |vs|
    ensures ids ==> (set i | 0 <= i < n :: vs[i].snapshotId) == (set i | 0 <= i < n - 1 :: vs[i].snapshotId) + {vs[n - 1].snapshotId}
    ensures !ids ==> (set i | 0 <= i < n :: vs[i].mountPoint) == (set i | 0 <= i < n - 1 :: vs[i].mountPoint) + {vs[n - 1].mountPoint}
  {
    if ids {
      var prev := set i | 0 <= i < n - 1 :: vs[i].snapshotId;
      forall i | 0 <= i < n ensures vs[i].snapshotId in prev + {vs[n - 1].snapshotId} {
        if i < n - 1 {
          assert vs[i].snapshotId in prev;
        }
      }
    } else {
      var prev := set i | 0 <= i < n - 1 :: vs[i].mountPoint;
      forall i | 0 <= i < n ensures vs[i].mountPoint in prev + {vs[n - 1].mountPoint} {
        if i < n - 1 {
          assert vs[i].mountPoint in prev;
        }
      }
    }
  }

  lemma {:induction false} RealNamesKeys(vs: seq<Volume>, parts: seq<int>)
    requires |parts| <= |vs| && |parts| <= |DeviceLetters|
    ensures RealNames(vs, parts).Keys == set i | 0 <= i < |parts| :: vs[i].mountPoint
  {
    var n := |parts|;
    if n > 0 {
      RealNamesKeys(vs, parts[..n - 1]);
      IndexSetStep(vs, n, false);
    }
  }

  lemma {:induction false} RealNamesValues(vs: seq<Volume>, parts: seq<int>)
    requires |parts| <= |vs| && |parts| <= |DeviceLetters|
    ensures forall i :: 0 <= i < |parts| && LastWithMountPointBefore(vs, i, |parts|) ==>
      vs[i].mountPoint in RealNames(vs, parts) &&
      RealNames(vs, parts)[vs[i].mountPoint] == RealDeviceName(DeviceLetters[i], parts[i])
  {
    var n := |parts|;
    if n > 0 {
      var init := parts[..n - 1];
      RealNamesValues(vs, init);
      var before := RealNames(vs, init);
      var key := vs[n - 1].mountPoint;
      var name := RealDeviceName(DeviceLetters[n - 1], parts[n - 1]);
      assert RealNames(vs, parts) == before[key := name];
      forall i | 0 <= i < n && LastWithMountPointBefore(vs, i, n)
        ensures vs[i].mountPoint in RealNames(vs, parts)
        ensures RealNames(vs, parts)[vs[i].mountPoint] == RealDeviceName(DeviceLetters[i], parts[i])
      {
        if i < n - 1 {
          assert vs[i].mountPoint != key;
          assert LastWithMountPointBefore(vs, i, n - 1) && init[i] == parts[i];
        }
      }
    }
  }

  lemma RealNamesSpec(vs: seq<Volume>, parts: seq<int>)
    requires |parts| <= |vs| && |parts| <= |DeviceLetters|
    ensures RealNames(vs, parts).Keys == set i | 0 <= i < |parts| :: vs[i].mountPoint
    ensures forall i :: 0 <= i < |parts| && LastWithMountPointBefore(vs, i, |parts|) ==>
      RealNames(vs, parts)[vs[i].mountPoint] == RealDeviceName(DeviceLetters[i], parts[i])
  {
    RealNamesKeys(vs, parts);
    RealNamesValues(vs, parts);
  }

  /** No later entry among the first `bound` ones uses the same mount point as entry i. */
  predicate LastWithMountPointBefore(vs: seq<Volume>, i: nat, bound: nat)
    requires i < bound <= |vs|
  {
    forall j :: i < j < bound ==> vs[j].mountPoint != vs[i].mountPoint
  }

  predicate LastWithMountPoint(vs: seq<Volume>, i: nat)
    requires i < |vs|
  {
    LastWithMountPointBefore(vs, i, |vs|)
  }

  /** Two different snapshot ids of one mapper never share an API-facing device name. */
  lemma DeviceNamesDistinct(volumes: seq<Volume>, m: Mapper, a: nat, b: nat)
    requires |volumes| <= |DeviceLetters|
    requires a < |volumes| && b < |volumes| && a != b
    requires forall i :: 0 <= i < |volumes| ==>
      volumes[i].snapshotId in m.snapshotToDeviceName
      && m.snapshotToDeviceName[volumes[i].snapshotId] == ApiDeviceName(DeviceLetters[i])
    ensures m.snapshotToDeviceName[volumes[a].snapshotId] != m.snapshotToDeviceName[volumes[b].snapshotId]
  {
    LettersAscend();
    var na := m.snapshotToDeviceName[volumes[a].snapshotId];
    var nb := m.snapshotToDeviceName[volumes[b].snapshotId];
    assert na[|ApiDevicePrefix|] == DeviceLetters[a];
    assert nb[|ApiDevicePrefix|] == DeviceLetters[b];
  }

  /** `getDeviceNameForSnapshotId`: a lookup by raw snapshot id; `None` plays Java's null. */
  function DeviceNameForSnapshotId(m: Mapper, snapshotId: string): (r: Option<string>)
    ensures r.Some? <==> snapshotId in m.snapshotToDeviceName
  {
    if snapshotId in m.snapshotToDeviceName then Some(m.snapshotToDeviceName[snapshotId]) else None
  }

  /** `getRealDeviceNameforMountPoint`: a lookup by mount point. */
  function RealDeviceNameForMountPoint(m: Mapper, mountPoint: string): (r: Option<string>)
    ensures r.Some? <==> mountPoint in m.mountPointToRealDeviceName
  {
    if mountPoint in m.mountPointToRealDeviceName then Some(m.mountPointToRealDeviceName[mountPoint]) else None
  }

  /** The API-facing and the real name of one entry carry the same letter, after their fixed prefixes. */
  lemma SameLetter(letter: char, partition: int)
    ensures ApiDeviceName(letter)[|ApiDevicePrefix|] == letter
    ensures RealDeviceName(letter, partition)[|RealDevicePrefix|] == letter
    ensures partition <= 0 ==> RealDeviceName(letter, partition) == RealDevicePrefix + [letter]
  {
  }
}
