/**
  The list intent of the older command-line front end: its option, the options it needs,
  and the dispatch on the configured meta mode. Listing the AWS clusters is an effect that
  is recorded, not performed.
*/
module LegacyList {
  import opened Wrappers

  const CmdLineOption: string := "l"
  const RequiredOptions: seq<string> := ["l", "k", "e", "a"]

  datatype LegacyConfig = LegacyConfig(metaMode: Option<string>)

  /** How `execute` ends: a returned verdict (and whether the AWS listing ran) or a thrown exception. */
  datatype ExecuteOutcome =
    | Returned(ok: bool, listedAws: bool)
    | IntentNotConfigured
    | NullMetaMode

  /**
    `execute`: a missing configuration throws; a switch on a null meta mode throws;
    "aws-ec2" and "default" list the AWS clusters, "openstack" lists nothing, and both
    return true; any other mode returns false.
  */
  function Execute(config: Option<LegacyConfig>): (r: ExecuteOutcome)
    ensures config.None? <==> r == IntentNotConfigured
  {
    match config
    case None => IntentNotConfigured
    case Some(c) =>
      match c.metaMode
      case None => NullMetaMode
      case Some(mode) =>
        if mode == "aws-ec2" || mode == "default" then Returned(true, true)
        else if mode == "openstack" then Returned(true, false)
        else Returned(false, false)
  }

  /** The set of meta modes the dispatch knows. */
  predicate KnownMetaMode(mode: string) {
    mode in {"aws-ec2", "default", "openstack"}
  }

  /**
    With a configured meta mode the intent returns, succeeding exactly for a known mode and
    listing exactly for the AWS ones; a failed dispatch never lists.
  */
  lemma ExecuteDispatch(c: LegacyConfig)
    requires c.metaMode.Some?
    ensures var r := Execute(Some(c));
      && r.Returned?
      && (r.ok <==> KnownMetaMode(c.metaMode.value))
      && (r.listedAws <==> c.metaMode.value == "aws-ec2" || c.metaMode.value == "default")
      && (!r.ok ==> !r.listedAws)
  {
  }

  /** The intent's own option is among the options it requires, and there are four distinct ones. */
  lemma OptionIsRequired()
    ensures CmdLineOption in RequiredOptions && RequiredOptions[0] == CmdLineOption
    ensures forall i, j :: 0 <= i < j < |RequiredOptions| ==> RequiredOptions[i] != RequiredOptions[j]
  {
  }
}
