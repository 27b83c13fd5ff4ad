/**
  The Google Cloud command-line validator: the options each intent mode requires, and the
  two project ids, which the command line may override.
*/
module CommandLineGoogle {
  import opened Wrappers
  import opened JavaText
  import opened CommandLine

  const ListOptions: seq<Opt> := [CredentialsFile, GoogleProjectId]
  const TerminateOptions: seq<Opt> := [TerminateOpt, Region, AvailabilityZone, CredentialsFile, GoogleProjectId]
  const CreateOptions: seq<Opt> := [SshUser, UseMasterAsCompute, SlaveInstanceCount]
  const ValidateOptions: seq<Opt> :=
    [MasterInstanceType, MasterImage, SlaveInstanceType, SlaveImage, SshPrivateKeyFile, Region,
     AvailabilityZone, CredentialsFile, GoogleImageProjectId, GoogleProjectId]
  const Cloud9Options: seq<Opt> := [Cloud9Opt, CredentialsFile, GoogleProjectId, SshUser, SshPrivateKeyFile]

  const Required: RequiredLists := RequiredLists(ListOptions, TerminateOptions, CreateOptions, ValidateOptions, Cloud9Options)

  function RequiredOptions(mode: IntentMode): Option<seq<Opt>> {
    ProviderRequiredOptions(Required, mode)
  }

  /** The lists of the modes that end in `break` right away. */
  lemma RequiredOptionsTable()
    ensures RequiredOptions(List) == Some([CredentialsFile, GoogleProjectId])
    ensures RequiredOptions(Terminate) == Some([TerminateOpt, Region, AvailabilityZone, CredentialsFile, GoogleProjectId])
    ensures RequiredOptions(Validate) == Some(ValidateOptions) && |ValidateOptions| == 10
    ensures RequiredOptions(Cloud9) == Some([Cloud9Opt, CredentialsFile, GoogleProjectId, SshUser, SshPrivateKeyFile])
  {
  }

  /**
    Create and prepare fall through into validate: their list is the three creation options
    followed by the whole validate list.
  */
  lemma CreateFallsThroughToValidate()
    ensures RequiredOptions(Create) == RequiredOptions(Prepare)
    ensures RequiredOptions(Create) == Some([SshUser, UseMasterAsCompute, SlaveInstanceCount] + RequiredOptions(Validate).value)
    ensures |RequiredOptions(Create).value| == 13
  {
  }

  /** The project id is required by every mode that has a list. */
  lemma ProjectIdAlwaysRequired(mode: IntentMode)
    requires RequiredOptions(mode).Some?
    ensures GoogleProjectId in RequiredOptions(mode).value
  {
    RequiredOptionsTable();
    CreateFallsThroughToValidate();
    assert GoogleProjectId == ValidateOptions[9];
  }

  // ---------------------------------------------------------------------------
  // Project ids
  // ---------------------------------------------------------------------------

  datatype GoogleConfig = GoogleConfig(projectId: Option<string>, imageProjectId: Option<string>)

  /**
    One project-id parameter: a present, non-blank command-line value replaces the configured
    one; the verdict is the required check on the value that results.
  */
  function ParseIdParameter(mode: IntentMode, cl: CommandLineArgs, o: Opt, configured: Option<string>)
    : (r: Result<(bool, Option<string>), Fault>)
    ensures r.Failure? <==> mode == Version || mode == Help
    ensures r.Success? ==> (r.value.0 <==> !(o in RequiredOptions(mode).value && IsStringNullOrEmpty(r.value.1)))
  {
    var value := if cl.HasOption(o) && !IsStringNullOrEmpty(cl.OptionValue(o)) then cl.OptionValue(o) else configured;
    var ok :- CheckRequiredParameter(RequiredOptions(mode), o, value);
    Success((ok, value))
  }

  /** `parseGoogleProjectIdParameter` and then, only when it passed, `parseGoogleImageProjectIdParameter`. */
  function ValidateProviderParameters(mode: IntentMode, cl: CommandLineArgs, cfg: GoogleConfig): (r: Result<(bool, GoogleConfig), Fault>) {
    var (projectOk, projectId) :- ParseIdParameter(mode, cl, GoogleProjectId, cfg.projectId);
    var afterProject := cfg.(projectId := projectId);
    if !projectOk then Success((false, afterProject))
    else
      match ParseIdParameter(mode, cl, GoogleImageProjectId, cfg.imageProjectId)
      case Failure(e) => Failure(e)
      case Success((imageOk, imageProjectId)) => Success((imageOk, afterProject.(imageProjectId := imageProjectId)))
  }

  /** A blank command-line value never overwrites a configured id; a non-blank one always does. */
  lemma OverwriteOnlyWhenGiven(mode: IntentMode, cl: CommandLineArgs, o: Opt, configured: Option<string>)
    requires mode != Version && mode != Help
    ensures var r := ParseIdParameter(mode, cl, o, configured);
      && r.Success?
      && (cl.OptionValue(o).None? || AllTrimmable(cl.OptionValue(o).value) ==> r.value.1 == configured)
      && (cl.OptionValue(o).Some? && !AllTrimmable(cl.OptionValue(o).value) ==> r.value.1 == cl.OptionValue(o))
  {
    NullOrEmptyIff(cl.OptionValue(o));
  }

  /** A failed project id stops validation before the image project id is read. */
  lemma ShortCircuit(mode: IntentMode, cl: CommandLineArgs, cfg: GoogleConfig)
    requires ParseIdParameter(mode, cl, GoogleProjectId, cfg.projectId) == Success((false, cfg.projectId))
    ensures ValidateProviderParameters(mode, cl, cfg) == Success((false, cfg))
  {
  }

  /** Validation passes exactly when both ids end up non-blank, as every listed mode requires the project id. */
  lemma ValidationPassesIff(mode: IntentMode, cl: CommandLineArgs, cfg: GoogleConfig)
    requires mode != Version && mode != Help
    ensures var r := ValidateProviderParameters(mode, cl, cfg);
      && r.Success?
      && (r.value.0 <==>
            !IsStringNullOrEmpty(r.value.1.projectId)
            && (GoogleImageProjectId in RequiredOptions(mode).value ==> !IsStringNullOrEmpty(r.value.1.imageProjectId)))
  {
    ProjectIdAlwaysRequired(mode);
    var p := ParseIdParameter(mode, cl, GoogleProjectId, cfg.projectId);
    NullOrEmptyIff(p.value.1);
    if p.value.0 {
      var i := ParseIdParameter(mode, cl, GoogleImageProjectId, cfg.imageProjectId);
      NullOrEmptyIff(i.value.1);
    }
  }
}
