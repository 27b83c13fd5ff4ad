# BiBiGrid core, modelled in Dafny

BiBiGrid sets up and tears down compute clusters on AWS, OpenStack and Google Cloud. This
project models the deterministic decision and data logic of that tooling as pure Dafny
functions over immutable data, and proves properties of them. Provider state (instances,
networks, subnets, routers, ports, describe results) is an input snapshot. Side effects
(requests sent, stages run, cleanups) are returned as traces.

The modules follow the source:

- `DeviceMapper` (`device_mapper.dfy`) is the block-device letter allocator. It assigns the letters f..z, builds the `/dev/sd?` and `/dev/xvd?[n]` names, and parses and strips the `:n` partition suffix.
- `ListIntent` (`list_intent.dfy`) is cluster discovery. It derives cluster ids from tags and names, groups instances into clusters, attaches networks and subnets by name prefix, caches the map, and renders the table.
- `EnvironmentOpenstack` (`environment_openstack.dfy`) is the OpenStack environment builder. It covers which subnet, network or router is reused or created, the error exits, the three-tier router lookup and the security-group rules.
- `TerminateAws` (`terminate_aws.dfy`) is AWS teardown: one terminate request, polling, then the guarded deletes.
- `StartUp` (`startup.dfy`) is the entry point's control flow: the provider mode, the aborts, the intent dispatch, and the fail-fast creation chain with its single cleanup.
- `CommandLine`, `CommandLineAws` and `CommandLineGoogle` (`command_line*.dfy`) are the command-line validators. They cover required options, the required-option tables with `switch` fall-through, the mount list parser, integer checks, spot instances and project ids.
- `ValidateAws` (`validate_aws.dfy`) holds the AWS validate checks: snapshot ids, first results, and virtualization compatibility.
- `AnsibleHosts` (`ansible_hosts.dfy`) is the Ansible inventory serializer.
- `LegacyList` (`legacy_list.dfy`) is the list intent of the older front end.
- `JavaText` (`java_text.dfy`) holds the Java library behaviour the code relies on:
  - `String.split` with a one-character literal, which drops trailing empty fields, gives `[s]` when there is no match and `[]` for a string of delimiters only;
  - `trim`, which strips characters up to U+0020;
  - `Integer.parseInt`, with its 32-bit range;
  - `equalsIgnoreCase`;
  - null printing as "null".
- `Wrappers` (`wrappers.dfy`) supplies `Option`, which stands for a nullable reference, and `Result`, which stands for a value or a thrown exception.
- `ClusterModel` (`cluster_model.dfy`) holds the cluster record and the tag keys `name`, `user` and `bibigrid-id`.

## Model

| member | source | states |
|---|---|---|
| DeviceMapper.NewMapper | src/de/unibi/cebitec/bibigrid/util/DeviceMapper.java:21-39 | More than 21 volumes fail before any mapping exists. Otherwise the i-th entry gets the i-th letter of f..z. The API name "/dev/sd"+letter is stored under the raw id, suffix included. The real name "/dev/xvd"+letter, plus the partition number when it is > 0, is stored under the mount point, and a later entry with the same mount point wins. A bad suffix fails the whole construction. |
| DeviceMapper.LettersAscend | src/de/unibi/cebitec/bibigrid/util/DeviceMapper.java:8-57 | The letter table is f..z in order, so two positions never share a letter. |
| DeviceMapper.DeviceNamesDistinct | src/de/unibi/cebitec/bibigrid/util/DeviceMapper.java:28-61 | Two different snapshot ids of one mapper never get the same API device name. |
| DeviceMapper.PartitionNumber | src/de/unibi/cebitec/bibigrid/util/DeviceMapper.java:67-81 | -1 without ':'. Otherwise the second ':'-field parsed as an int, and an error when that field is missing or not a number. |
| DeviceMapper.PartitionNumberOfSuffix | src/de/unibi/cebitec/bibigrid/util/DeviceMapper.java:67-81 | An id with the suffix ":n" yields n. |
| DeviceMapper.PartitionNumberMissing | src/de/unibi/cebitec/bibigrid/util/DeviceMapper.java:67-81 | An id ending right after its ':' is rejected. |
| DeviceMapper.StripSnapshotId | src/de/unibi/cebitec/bibigrid/util/DeviceMapper.java:89-95 | The text before the first ':', or the id unchanged without ':'. An id made only of ':' throws, because the split is empty. |
| DeviceMapper.StripIdempotent | src/de/unibi/cebitec/bibigrid/util/DeviceMapper.java:89-95 | Stripping is idempotent. |
| DeviceMapper.StripSuffix | src/de/unibi/cebitec/bibigrid/util/DeviceMapper.java:89-95 | Stripping a ":n" suffix gives back the id it was appended to. |
| DeviceMapper.SameLetter | src/de/unibi/cebitec/bibigrid/util/DeviceMapper.java:59-65 | The API name and the real name of an entry carry the same letter after their fixed prefixes. |
| ListIntent.ClusterIdFromName | bibigrid-core/src/main/java/de/unibi/cebitec/bibigrid/core/intents/ListIntent.java:54-57 | The last '-'-field under Java split semantics. The array access throws exactly for a non-empty name made of '-' only. |
| ListIntent.ClusterIdFromNameSuffix | bibigrid-core/src/main/java/de/unibi/cebitec/bibigrid/core/intents/ListIntent.java:54-57 | prefix + "-" + id gives back id when id is non-empty and has no '-'. |
| ListIntent.ClusterIdForInstance | bibigrid-core/src/main/java/de/unibi/cebitec/bibigrid/core/intents/ListIntent.java:146-157 | The "bibigrid-id" tag comes first. Then the id at the end of a master- or slave-prefixed name. Otherwise none, and the instance is skipped. |
| ListIntent.GetOrCreateCluster | bibigrid-core/src/main/java/de/unibi/cebitec/bibigrid/core/intents/ListIntent.java:31-41 | An existing entry is returned unchanged. An unseen id inserts exactly one fresh entry, and no other entry changes. |
| ListIntent.ScanLocal | bibigrid-core/src/main/java/de/unibi/cebitec/bibigrid/core/intents/ListIntent.java:59-119 | The instance scan treats clusters independently: each cluster is its own instances folded in scan order, and only clusters named by an instance are added. |
| ListIntent.FoldMaster | bibigrid-core/src/main/java/de/unibi/cebitec/bibigrid/core/intents/ListIntent.java:100-113 | The master is the first master-named instance, with its public IP and start time. A later master-named instance never replaces it. |
| ListIntent.FoldSlaves | bibigrid-core/src/main/java/de/unibi/cebitec/bibigrid/core/intents/ListIntent.java:104-116 | The slaves are the non-master-named instances in scan order. A second master is not added as a slave. |
| ListIntent.FoldKeyName | bibigrid-core/src/main/java/de/unibi/cebitec/bibigrid/core/intents/ListIntent.java:108-131 | The key name is first-wins while unset, except that the master assignment overwrites it. So it is the first non-null key name counted from the master on, or from the start without a master. |
| ListIntent.FoldUser | bibigrid-core/src/main/java/de/unibi/cebitec/bibigrid/core/intents/ListIntent.java:118-144 | The user is the first non-null "user" tag, and later differing values never overwrite it. |
| ListIntent.CountSpec | bibigrid-core/src/main/java/de/unibi/cebitec/bibigrid/core/intents/ListIntent.java:188 | The count shown, (master ? 1 : 0) + slaves, is the number of the cluster's instances minus the extra master-named ones. |
| ListIntent.AttachSpec | bibigrid-core/src/main/java/de/unibi/cebitec/bibigrid/core/intents/ListIntent.java:66-83 | Prefixed networks and subnets set their id on the cluster named by their suffix, creating it if needed. The last such resource wins. Other resources and other fields are untouched. |
| ListIntent.LastResourceForSpec | bibigrid-core/src/main/java/de/unibi/cebitec/bibigrid/core/intents/ListIntent.java:66-83 | The attached id is that of a resource naming the cluster that no later resource overrides. |
| ListIntent.DiscoverMembership | bibigrid-core/src/main/java/de/unibi/cebitec/bibigrid/core/intents/ListIntent.java:59-84 | A cluster is listed exactly when some instance, network or subnet names it. |
| ListIntent.DiscoverCluster | bibigrid-core/src/main/java/de/unibi/cebitec/bibigrid/core/intents/ListIntent.java:59-144 | Every listed cluster is its instances folded in order, plus the last network and the last subnet naming it. |
| ListIntent.GetList | bibigrid-core/src/main/java/de/unibi/cebitec/bibigrid/core/intents/ListIntent.java:46-52 | The scan runs only while no map exists. Afterwards the stored map is returned. |
| ListIntent.ScanAtMostOnce | bibigrid-core/src/main/java/de/unibi/cebitec/bibigrid/core/intents/ListIntent.java:46-169 | A second listing ignores the provider and returns the first map. |
| ListIntent.Render | bibigrid-core/src/main/java/de/unibi/cebitec/bibigrid/core/intents/ListIntent.java:165-194 | An empty map renders "No BiBiGrid cluster found!\n". Otherwise there is exactly one row per cluster of the (cached) map, and each row is that cluster's `RowOf`. |
| ListIntent.RowOf | bibigrid-core/src/main/java/de/unibi/cebitec/bibigrid/core/intents/ListIntent.java:181-191 | The row carries the key and the instance count. A null user, launch date, key name or public IP prints as "-" and a set one prints as itself. A null group, subnet or network id prints as "-" and a set one prints cut by `cutStringIfNecessary`. |
| ListIntent.CutString | bibigrid-core/src/main/java/de/unibi/cebitec/bibigrid/core/intents/ListIntent.java:196-198 | Ids longer than 11 characters become their first 9 characters and "..". Shorter ids are unchanged, so the result is at most 11 long. |
| ListIntent.CutIdempotent | bibigrid-core/src/main/java/de/unibi/cebitec/bibigrid/core/intents/ListIntent.java:196-198 | Cutting twice is cutting once. |
| EnvironmentOpenstack.CreateNetworkStep | bibigrid-openstack/src/main/java/de/unibi/cebitec/bibigrid/openstack/CreateClusterEnvironmentOpenstack.java:54-57 | createNetwork does nothing and changes nothing. |
| EnvironmentOpenstack.FirstMatch | bibigrid-openstack/src/main/java/de/unibi/cebitec/bibigrid/openstack/CreateClusterEnvironmentOpenstack.java:210-280 | The name and id lookups return the first matching element, or null when none matches. |
| EnvironmentOpenstack.RouterPortsTiers | bibigrid-openstack/src/main/java/de/unibi/cebitec/bibigrid/openstack/CreateClusterEnvironmentOpenstack.java:289-305 | The lookup takes all router_interface ports of the network when there is one. Otherwise it takes all ha_router_replicated_interface ports when there is one, and otherwise all router_interface_distributed ports. No port at all means no owner of the three has a port on the network. |
| EnvironmentOpenstack.PortsWithMembers | bibigrid-openstack/src/main/java/de/unibi/cebitec/bibigrid/openstack/CreateClusterEnvironmentOpenstack.java:289-305 | The port listing for a network and device owner holds exactly the listed ports on that network with that owner. |
| EnvironmentOpenstack.PortsWithFilter | bibigrid-openstack/src/main/java/de/unibi/cebitec/bibigrid/openstack/CreateClusterEnvironmentOpenstack.java:289-305 | The filtered port listing keeps the listing order: filtering a concatenation concatenates the filtered parts. |
| EnvironmentOpenstack.PortsWithCons | bibigrid-openstack/src/main/java/de/unibi/cebitec/bibigrid/openstack/CreateClusterEnvironmentOpenstack.java:289-305 | Filtering a port followed by a listing gives the port, when it is kept, followed by the filtered listing. |
| EnvironmentOpenstack.PortsWithSingle | bibigrid-openstack/src/main/java/de/unibi/cebitec/bibigrid/openstack/CreateClusterEnvironmentOpenstack.java:289-305 | A single port is kept exactly when it is on the network with the owner. |
| EnvironmentOpenstack.PortsWithFirst | bibigrid-openstack/src/main/java/de/unibi/cebitec/bibigrid/openstack/CreateClusterEnvironmentOpenstack.java:289-305 | The first kept port is the first port of the listing on the network with the owner. |
| EnvironmentOpenstack.RouterByNetwork | bibigrid-openstack/src/main/java/de/unibi/cebitec/bibigrid/openstack/CreateClusterEnvironmentOpenstack.java:282-320 | Without a subnet: null when no router port exists, otherwise the router looked up by the first port's device id. With a subnet: the router looked up by the device id of the first port with a fixed IP on that subnet, and null when no port has one. |
| EnvironmentOpenstack.SubnetConfigured | bibigrid-openstack/src/main/java/de/unibi/cebitec/bibigrid/openstack/CreateClusterEnvironmentOpenstack.java:77-92 | A missing configured subnet or a missing parent network is a configuration error. Otherwise both are reused and nothing is created. |
| EnvironmentOpenstack.NetworkConfigured | bibigrid-openstack/src/main/java/de/unibi/cebitec/bibigrid/openstack/CreateClusterEnvironmentOpenstack.java:94-151 | A configured network that is not found is an error. If it is found but its ports give no router, the missing router is dereferenced. Otherwise a subnet is created on it and attached. |
| EnvironmentOpenstack.NothingConfigured | bibigrid-openstack/src/main/java/de/unibi/cebitec/bibigrid/openstack/CreateClusterEnvironmentOpenstack.java:103-151 | No router name is an error, and so is an unknown router name. Otherwise the network prefix + cluster id network is created and written back, then the subnet. |
| EnvironmentOpenstack.CreateSubnetOn | bibigrid-openstack/src/main/java/de/unibi/cebitec/bibigrid/openstack/CreateClusterEnvironmentOpenstack.java:121-151 | No free /24 is an error. Otherwise an IPv4 subnet with DHCP, named subnet prefix + cluster id, is created with the allocator's CIDR, written to the configuration and attached to the router. |
| EnvironmentOpenstack.UsedCidrsSpec | bibigrid-openstack/src/main/java/de/unibi/cebitec/bibigrid/openstack/CreateClusterEnvironmentOpenstack.java:123-131 | A CIDR counts as used exactly when a router port sits on a listed network holding a subnet with that CIDR. |
| EnvironmentOpenstack.NewSubnetCidr | bibigrid-openstack/src/main/java/de/unibi/cebitec/bibigrid/openstack/CreateClusterEnvironmentOpenstack.java:121-143 | A new subnet's CIDR is the allocator's answer for the CIDRs used behind the router. |
| EnvironmentOpenstack.RejectionIsConfigurationError | bibigrid-openstack/src/main/java/de/unibi/cebitec/bibigrid/openstack/CreateClusterEnvironmentOpenstack.java:152-155 | A provider rejection is rethrown as a configuration error, and nothing follows it. |
| EnvironmentOpenstack.CreateSubnetStep | bibigrid-openstack/src/main/java/de/unibi/cebitec/bibigrid/openstack/CreateClusterEnvironmentOpenstack.java:65-159 | A reused subnet changes nothing. A success records the subnet's name, and the subnet lies on the returned network. The only failure that is not a configuration error is the missing router. |
| EnvironmentOpenstack.MissingNetworkReportsNull | bibigrid-openstack/src/main/java/de/unibi/cebitec/bibigrid/openstack/CreateClusterEnvironmentOpenstack.java:94-99 | The message as written names the subnet setting, which is always null there. It names the configured network only when that network is called "null". |
| EnvironmentOpenstack.MissingNetworkReportsName | bibigrid-openstack/src/main/java/de/unibi/cebitec/bibigrid/openstack/CreateClusterEnvironmentOpenstack.java:94-99 | The corrected error carries the configured network name that was not found. |
| EnvironmentOpenstack.GroupRules | bibigrid-openstack/src/main/java/de/unibi/cebitec/bibigrid/openstack/CreateClusterEnvironmentOpenstack.java:179-190 | The rules are TCP 22 from 0.0.0.0/0, then TCP and UDP 1-65535 from the group, then one rule per user port. |
| EnvironmentOpenstack.UserRules | bibigrid-openstack/src/main/java/de/unibi/cebitec/bibigrid/openstack/CreateClusterEnvironmentOpenstack.java:185-190 | There is one rule per user port, in order. TCP maps to TCP, UDP to UDP and anything else to ICMP, with from = to = the port and the port's CIDR. |
| EnvironmentOpenstack.SecurityGroupReused | bibigrid-openstack/src/main/java/de/unibi/cebitec/bibigrid/openstack/CreateClusterEnvironmentOpenstack.java:162-174 | A configured group is reused, with no rules added, exactly when it is listed. |
| EnvironmentOpenstack.SecurityGroupCreated | bibigrid-openstack/src/main/java/de/unibi/cebitec/bibigrid/openstack/CreateClusterEnvironmentOpenstack.java:175-195 | Otherwise the group security group prefix + cluster id is created with the fixed description. Then come TCP 22 from 0.0.0.0/0, TCP 1-65535 and UDP 1-65535 from the group, and one rule per user port in order, all on the new group. |
| EnvironmentOpenstack.CreateSecurityGroupStep | bibigrid-openstack/src/main/java/de/unibi/cebitec/bibigrid/openstack/CreateClusterEnvironmentOpenstack.java:161-195 | A failure is always a rejected provider call. A success without actions reuses the configured group. A success with actions is the new cluster group, whose creation is followed by exactly one create-rule call per rule of `GroupRules`, in order. |
| TerminateAws.TargetIds | bibigrid-aws/src/main/java/de/unibi/cebitec/bibigrid/aws/TerminateIntentAWS.java:48-51 | The targets are the slave ids followed by the master id if there is one. |
| TerminateAws.TerminateCluster | bibigrid-aws/src/main/java/de/unibi/cebitec/bibigrid/aws/TerminateIntentAWS.java:38-103 | No targets means no terminate request and no polling. Otherwise one terminate with all ids, then describe polls until the first all-terminated poll, then the placement group, subnet and security group deletes. The cluster's slave list gains the master. |
| TerminateAws.DeletesOncePerResource | bibigrid-aws/src/main/java/de/unibi/cebitec/bibigrid/aws/TerminateIntentAWS.java:78-103 | Each resource is deleted at most once, and exactly once when it is non-null. |
| TerminateAws.FirstTerminatedPoll | bibigrid-aws/src/main/java/de/unibi/cebitec/bibigrid/aws/TerminateIntentAWS.java:57-73 | Polling stops at exactly the first poll where every described instance is "terminated". |
| StartUp.RunCreateIntent | bibigrid-main/src/main/java/de/unibi/cebitec/bibigrid/StartUp.java:199-227 | Creation always starts with the environment stage, and the stages it reaches are a prefix of the fixed builder chain. |
| StartUp.StagesInOrder | bibigrid-main/src/main/java/de/unibi/cebitec/bibigrid/StartUp.java:202-210 | The stages reached are a prefix of environment→network→subnet→security group→placement group→master→slave→launch. |
| StartUp.CleanupOnlyAfterFailedLaunch | bibigrid-main/src/main/java/de/unibi/cebitec/bibigrid/StartUp.java:211-216 | There is exactly one cleanup, and only when every stage returned and the launch reported false. |
| StartUp.ConfigurationFailureNoCleanup | bibigrid-main/src/main/java/de/unibi/cebitec/bibigrid/StartUp.java:217-225 | A ConfigurationException from any stage gives false with no terminate. |
| StartUp.CreateSucceedsIff | bibigrid-main/src/main/java/de/unibi/cebitec/bibigrid/StartUp.java:202-226 | True comes back exactly when every stage returned and the launch succeeded, and then nothing is cleaned up. |
| StartUp.ParseProviderMode | bibigrid-main/src/main/java/de/unibi/cebitec/bibigrid/StartUp.java:229-236 | The mode option, falling back to the properties mode, trimmed. A missing value throws. |
| StartUp.AbortBeforeClient | bibigrid-main/src/main/java/de/unibi/cebitec/bibigrid/StartUp.java:140-196 | No mode, no module or a failed validation aborts before any client exists or any intent runs. |
| StartUp.TypeCheckOnlyReported | bibigrid-main/src/main/java/de/unibi/cebitec/bibigrid/StartUp.java:161-164 | A failed provider-type check is only reported, and the same intent events follow. |
| StartUp.PrepareOnlyAfterCreate | bibigrid-main/src/main/java/de/unibi/cebitec/bibigrid/StartUp.java:180-187 | In the PREPARE case of the switch, prepare and then terminate run exactly when create returned true, and they are the last two events. |
| StartUp.RunIntent | bibigrid-main/src/main/java/de/unibi/cebitec/bibigrid/StartUp.java:138-197 | In the model, only CREATE and PREPARE, whose creation can throw, or a missing provider mode value end the run with an uncaught exception. The other intents are modelled as not throwing (see "## Left out"). |
| CommandLine.CheckRequiredParameter | bibigrid-core/src/main/java/de/unibi/cebitec/bibigrid/core/CommandLineValidator.java:53-172 | False exactly when the option is required and the value is null or blank. A missing required list throws. |
| CommandLine.NullOrEmptyIff | bibigrid-core/src/main/java/de/unibi/cebitec/bibigrid/core/CommandLineValidator.java:170-172 | Null-or-empty after trim means null or made only of characters up to U+0020. |
| CommandLine.ParseClusterIdParameter | bibigrid-core/src/main/java/de/unibi/cebitec/bibigrid/core/CommandLineValidator.java:61-75 | When the terminate or cloud9 option is required, the cluster ids become its trimmed value. Otherwise they are unchanged. The step succeeds unless the value is missing. |
| CommandLine.ClusterIdsSettle | bibigrid-core/src/main/java/de/unibi/cebitec/bibigrid/core/CommandLineValidator.java:61-75 | Parsing the stored ids again gives the same ids. |
| CommandLine.ParseMountCsv | bibigrid-core/src/main/java/de/unibi/cebitec/bibigrid/core/CommandLineValidator.java:105-131 | Null or "" give an empty list. |
| CommandLine.MountCsvNullIff | bibigrid-core/src/main/java/de/unibi/cebitec/bibigrid/core/CommandLineValidator.java:109-121 | The result is null exactly when some ','-entry, trimmed, has no second '='-field. |
| CommandLine.MountCsvOrder | bibigrid-core/src/main/java/de/unibi/cebitec/bibigrid/core/CommandLineValidator.java:109-116 | There is one mount per entry, in input order, with the source and target trimmed. |
| CommandLine.CommasOnlyIsEmpty | bibigrid-core/src/main/java/de/unibi/cebitec/bibigrid/core/CommandLineValidator.java:109-116 | A list of commas only gives an empty list, not null. |
| CommandLine.MountCsvRoundTrip | bibigrid-core/src/main/java/de/unibi/cebitec/bibigrid/core/CommandLineValidator.java:105-131 | Parsing "s1=t1,s2=t2,…" gives back the mounts in order, for blank-free sources and targets. |
| CommandLine.ExtraFieldsDropped | bibigrid-core/src/main/java/de/unibi/cebitec/bibigrid/core/CommandLineValidator.java:111-114 | Fields after a second '=' are silently dropped. |
| CommandLine.MountEntryClean | bibigrid-core/src/main/java/de/unibi/cebitec/bibigrid/core/CommandLineValidator.java:111-114 | A parsed source and target are trimmed and hold no '='. |
| CommandLine.CheckStringAsInt | bibigrid-core/src/main/java/de/unibi/cebitec/bibigrid/core/CommandLineValidator.java:174-180 | Gives v exactly when the text parses as an int v with 0 ≤ v ≤ max, and fails otherwise. |
| CommandLine.CheckStringAsIntAccepts | bibigrid-core/src/main/java/de/unibi/cebitec/bibigrid/core/CommandLineValidator.java:174-180 | Every n in 0..max written in decimal is accepted as n. |
| CommandLine.CheckStringAsIntRejectsAbove | bibigrid-core/src/main/java/de/unibi/cebitec/bibigrid/core/CommandLineValidator.java:174-180 | A value above max, written in decimal, is refused. |
| CommandLine.CheckStringAsIntRejectsOutside | bibigrid-core/src/main/java/de/unibi/cebitec/bibigrid/core/CommandLineValidator.java:174-180 | Any text that parses to a value below 0 or above max, however it is written, is refused as out of range. |
| CommandLine.RunSwitch | bibigrid-aws/src/main/java/de/unibi/cebitec/bibigrid/aws/CommandLineValidatorAWS.java:38-75 | A mode without a case label gets null. A labelled mode collects its case's options and those of every case it falls through into. |
| CommandLine.ProviderRequiredOptions | bibigrid-aws/src/main/java/de/unibi/cebitec/bibigrid/aws/CommandLineValidatorAWS.java:36-75 | Version and help return null. Create and prepare get their own options followed by the validate list, because their case has no `break`. Every other mode gets exactly its own case's list. The Google Cloud validator has the same switch. |
| CommandLine.ProviderFallThrough | bibigrid-aws/src/main/java/de/unibi/cebitec/bibigrid/aws/CommandLineValidatorAWS.java:51-66 | Of the five cases, only the prepare/create case runs on, and it stops after validate. |
| CommandLineAws.RequiredOptionsTable | bibigrid-aws/src/main/java/de/unibi/cebitec/bibigrid/aws/CommandLineValidatorAWS.java:41-73 | LIST requires [keypair, region, credentials] and TERMINATE requires [terminate, region, credentials]. VALIDATE has its 9 options, and CLOUD9 requires [cloud9, credentials, ssh-user, keypair, ssh-key-file]. |
| CommandLineAws.CreateFallsThroughToValidate | bibigrid-aws/src/main/java/de/unibi/cebitec/bibigrid/aws/CommandLineValidatorAWS.java:51-66 | CREATE and PREPARE require [ssh-user, master-as-compute, slave-count] followed by the VALIDATE list, 12 options. |
| CommandLineAws.ParsePublicSlaveIp | bibigrid-aws/src/main/java/de/unibi/cebitec/bibigrid/aws/CommandLineValidatorAWS.java:83-89 | Always true. The flag is stored only when the parse gave a value. |
| CommandLineAws.SpotAcceptedIff | bibigrid-aws/src/main/java/de/unibi/cebitec/bibigrid/aws/CommandLineValidatorAWS.java:91-135 | Accepted exactly when the option is absent or "no", or "yes" with a bid price that parses and is not `<= 0.0` in Java's double comparison. Any given master bid price must pass the same check. So a positive number, +Infinity and NaN pass, and zero, negatives and -Infinity are refused. |
| CommandLineAws.NaNBidAccepted | bibigrid-aws/src/main/java/de/unibi/cebitec/bibigrid/aws/CommandLineValidatorAWS.java:95-103 | A bid price that parses to NaN throws nothing, because `NaN <= 0.0` is false. NaN is stored, and without a master price the parameters are accepted. |
| CommandLineAws.SpotUnknownValue | bibigrid-aws/src/main/java/de/unibi/cebitec/bibigrid/aws/CommandLineValidatorAWS.java:127-132 | A value other than yes or no is refused and changes nothing. |
| CommandLineAws.SpotYesStoresBeforeChecking | bibigrid-aws/src/main/java/de/unibi/cebitec/bibigrid/aws/CommandLineValidatorAWS.java:95-103 | "yes" turns spot instances on even if the prices are then refused. A parsed bid price is stored even when it is ≤ 0. |
| CommandLineAws.SpotFailsOnlyWithoutValue | bibigrid-aws/src/main/java/de/unibi/cebitec/bibigrid/aws/CommandLineValidatorAWS.java:93-115 | The only exceptions are a spot option or a given price option without a value. |
| CommandLineAws.ValidationIsSpotVerdict | bibigrid-aws/src/main/java/de/unibi/cebitec/bibigrid/aws/CommandLineValidatorAWS.java:79-81 | validateProviderParameters is the public-IP step, which always passes, and then the spot verdict. |
| CommandLineGoogle.RequiredOptionsTable | bibigrid-googlecloud/src/main/java/de/unibi/cebitec/bibigrid/googlecloud/CommandLineValidatorGoogleCloud.java:37-71 | LIST requires [credentials, project-id] and TERMINATE requires [terminate, region, zone, credentials, project-id]. VALIDATE has its 10 options, and CLOUD9 has its 5. |
| CommandLineGoogle.CreateFallsThroughToValidate | bibigrid-googlecloud/src/main/java/de/unibi/cebitec/bibigrid/googlecloud/CommandLineValidatorGoogleCloud.java:48-64 | CREATE and PREPARE require the 3 extra options followed by the VALIDATE list, 13 options. |
| CommandLineGoogle.ProjectIdAlwaysRequired | bibigrid-googlecloud/src/main/java/de/unibi/cebitec/bibigrid/googlecloud/CommandLineValidatorGoogleCloud.java:37-71 | Every listed mode requires the project id. |
| CommandLineGoogle.ParseIdParameter | bibigrid-googlecloud/src/main/java/de/unibi/cebitec/bibigrid/googlecloud/CommandLineValidatorGoogleCloud.java:81-103 | The verdict is the required check on the final value. |
| CommandLineGoogle.OverwriteOnlyWhenGiven | bibigrid-googlecloud/src/main/java/de/unibi/cebitec/bibigrid/googlecloud/CommandLineValidatorGoogleCloud.java:84-101 | The configured id is overwritten only by a present, non-blank value. |
| CommandLineGoogle.ShortCircuit | bibigrid-googlecloud/src/main/java/de/unibi/cebitec/bibigrid/googlecloud/CommandLineValidatorGoogleCloud.java:77-79 | A failed project id stops validation before the image project id is read. |
| CommandLineGoogle.ValidationPassesIff | bibigrid-googlecloud/src/main/java/de/unibi/cebitec/bibigrid/googlecloud/CommandLineValidatorGoogleCloud.java:77-103 | Validation passes exactly when the final project id is non-blank and, when required, so is the image project id. |
| ValidateAws.CheckSnapshot | bibigrid-aws/src/main/java/de/unibi/cebitec/bibigrid/aws/ValidateIntentAWS.java:52-60 | True exactly when the provider lists something for the id cut at the first ':', and the first listed id equals the cut id. |
| ValidateAws.CheckSnapshotIgnoresPartition | bibigrid-aws/src/main/java/de/unibi/cebitec/bibigrid/aws/ValidateIntentAWS.java:53-55 | "snap:n" is checked like "snap". |
| ValidateAws.SnapshotPartAgreesWithStrip | bibigrid-aws/src/main/java/de/unibi/cebitec/bibigrid/aws/ValidateIntentAWS.java:53-55 | The substring cut agrees with the device mapper's split-based strip wherever that succeeds. It is "" where the strip throws. |
| ValidateAws.GetImage | bibigrid-aws/src/main/java/de/unibi/cebitec/bibigrid/aws/ValidateIntentAWS.java:63-78 | A null or empty list, or a service exception, gives null. Otherwise the first image. |
| ValidateAws.FirstListed | bibigrid-aws/src/main/java/de/unibi/cebitec/bibigrid/aws/ValidateIntentAWS.java:111-123 | Networks and subnets: the first element, or null for a null result or an empty list. |
| ValidateAws.VirtualizationMeansFit | bibigrid-aws/src/main/java/de/unibi/cebitec/bibigrid/aws/ValidateIntentAWS.java:86-109 | The check passes exactly when the type supports the image's kind or declares neither kind. |
| ValidateAws.VirtualizationCases | bibigrid-aws/src/main/java/de/unibi/cebitec/bibigrid/aws/ValidateIntentAWS.java:88-108 | HVM/HVM and PV/PV pass. HVM image with a PV-only type and PV image with an HVM-only type fail. A type with both or neither kind always passes. |
| ValidateAws.OnlyMasterChecked | bibigrid-aws/src/main/java/de/unibi/cebitec/bibigrid/aws/ValidateIntentAWS.java:81-84 | Only the master instance type is held against the image. |
| AnsibleHosts.ToString | bibigrid-core/src/main/java/de/unibi/cebitec/bibigrid/core/model/AnsibleHostsConfig.java:28-43 | Without slaves, the output is exactly the comment header and the sections and ends right at "[slaves]\n". |
| AnsibleHosts.ToStringStartsWithPreamble | bibigrid-core/src/main/java/de/unibi/cebitec/bibigrid/core/model/AnsibleHostsConfig.java:28-37 | Whatever the slaves are, the output starts with the three-line comment header, a blank line and the master and slave sections. |
| AnsibleHosts.AddSlaveIp | bibigrid-core/src/main/java/de/unibi/cebitec/bibigrid/core/model/AnsibleHostsConfig.java:23-25 | The IP is appended at the end, and duplicates are kept. |
| AnsibleHosts.AddSlaveIpAppendsLine | bibigrid-core/src/main/java/de/unibi/cebitec/bibigrid/core/model/AnsibleHostsConfig.java:23-41 | Adding an IP appends exactly ip + " ansible_connection=ssh ansible_user=" + user + "\n". |
| AnsibleHosts.SlaveIpsRoundTrip | bibigrid-core/src/main/java/de/unibi/cebitec/bibigrid/core/model/AnsibleHostsConfig.java:28-43 | The slave IPs can be read back from the output, in insertion order with duplicates, when no IP holds a blank or line break. |
| LegacyList.Execute | src/de/unibi/cebitec/bibigrid/ctrl/ListIntent.java:28-31 | A null configuration throws IntentNotConfiguredException. |
| LegacyList.ExecuteDispatch | src/de/unibi/cebitec/bibigrid/ctrl/ListIntent.java:33-46 | "aws-ec2" or "default" list AWS and return true. "openstack" returns true without listing. Any other mode returns false. |
| LegacyList.OptionIsRequired | src/de/unibi/cebitec/bibigrid/ctrl/ListIntent.java:17-25 | The option is "l", and the required options are the four distinct ["l","k","e","a"], starting with it. |

## Left out

- Provider SDK calls (openstack4j, the AWS EC2 client, jclouds) are not performed. Listings are snapshot inputs, and mutating calls become action traces. A rejected call is a member of `Cloud.rejected`.
- Logging and the verbose-output flag are not modelled, and neither are the date formatting and column widths of the cluster table. Only the truncation rule and the field contents are modelled.
- `SubNets.nextCidr` is not part of this model. It is a function parameter from the used CIDRs to an optional free CIDR.
- The name prefixes (`CreateCluster.MASTER_NAME_PREFIX`, `SLAVE_NAME_PREFIX`, `CreateClusterEnvironment.NETWORK_PREFIX`, `SUBNET_PREFIX`, `SECURITY_GROUP_PREFIX`) are not part of this model. They are parameters (`Naming`, `Names`), and each prefix is assumed not to consist of '-' only.
- The option short names of `RuleBuilder` and `IntentMode` are not part of this model. They are a symbolic enumeration, assumed distinct.
- TerminateAws.TerminateCluster: the unbounded poll with its 5-second sleep is a finite sequence of poll answers. When it runs out, the result reports that polling had not ended.
- `Double.parseDouble` for bid prices is a function parameter. Its result is a Java double modelled as a finite value (an exact real), +Infinity, -Infinity or NaN. Decimal rounding, such as a tiny value becoming 0.0, is part of that parameter. The comparison `<= 0.0` follows Java, so NaN and +Infinity pass it.
- `parseBooleanParameter` for the public slave IP flag is an input: its parse result.
- JavaText.ParseInt and JavaText.EqualsIgnoreCase cover ASCII digits and ASCII case folding only. Java also accepts non-ASCII digits and folds non-ASCII letters.
- `validateProviderTypes` and the instance-type lookups behind it are an outcome of the `World` in `StartUp`. `printInstanceTypeHelp`, `main`, `printHelp` and `printVersionInfo` are not modelled.
- `connect` (the dry-run key check) in ValidateIntentAWS is not modelled.
- Error messages are not modelled, except the missing-network message below.
- `ListIntentAWS.list()` is recorded in the legacy list intent as a flag in the outcome. `ListIntentOpenstack` is not part of this model.
- A null provider listing in discovery is modelled as an absent list. A null instance name, tag or key name is modelled as `None`.
- HashMap iteration order is not modelled: map inputs are ordered sequences of entries, and the cluster table is rendered in the map's key order.
- A provider exception thrown during teardown or a stage's own resource handling is not modelled. Teardown issues its requests as a trace, and a delete of an already absent resource is not distinguished.
- The model follows the code in three places. Cleanup after creation happens only when the launch returns false, not on every failure. The API device name is stored under the raw snapshot id, with its partition suffix. Teardown deletes whatever ids the discovered cluster carries, with no notion of user-supplied resources that must be kept.
- StartUp.RunIntent: the help, list, validate and terminate intents, and the prepare and terminate steps after a successful create, are assumed not to throw. In the source, `getInstanceTypes` (StartUp.java:246), `intent.validate()` (StartUp.java:174, including the unguarded `describeSnapshots` in ValidateIntentAWS.java:57), `prepare()` (StartUp.java:183) and `terminate()` (StartUp.java:185 and 189) can throw provider exceptions. Provider exceptions are outside this model.
- ListIntent.CutString and all string lengths count characters (Unicode scalar values), not UTF-16 code units as Java's `length()` and `substring` do. An id with a character outside the Basic Multilingual Plane is cut at a different place in Java.
- ListIntent.ScanLocal: the `loadInstanceConfiguration(instance)` hook that `checkInstance` calls for every cluster instance (ListIntent.java:98) is provider-specific and is treated as having no effect on the cluster map.
- EnvironmentOpenstack.CreateSubnetStep: the NullPointerException at CreateClusterEnvironmentOpenstack.java:101 is modelled as the distinct failure `NullRouter`, which is not a configuration error. This covers a configured network whose ports give no router.

## Findings

| source | as written | input that shows it | evidently intended | confidence | as-written member | corrected member |
|---|---|---|---|---|---|---|
| bibigrid-openstack/src/main/java/de/unibi/cebitec/bibigrid/openstack/CreateClusterEnvironmentOpenstack.java:98 | the missing-network message is built from `cfg.getSubnet()`, which is always null on that path | no subnet configured, network "net-a" configured and not listed: the message reads "No network with name 'null' found!" | the message names the configured network, "net-a" | not executed | EnvironmentOpenstack.MissingNetworkReportsNull | EnvironmentOpenstack.MissingNetworkReportsName |
