/**
  The AWS command-line validator: the options each intent mode requires, and the provider
  parameters (public slave IPs and spot instance requests).

  Parsing a bid price with `Double.parseDouble` is a function parameter: it yields the
  double (which may be NaN or infinite), or `None` when the call throws a
  NumberFormatException.
*/
module CommandLineAws {
  import opened Wrappers
  import opened JavaText
  import opened CommandLine

  const ListOptions: seq<Opt> := [Keypair, Region, CredentialsFile]
  const TerminateOptions: seq<Opt> := [TerminateOpt, Region, CredentialsFile]
  const CreateOptions: seq<Opt> := [SshUser, UseMasterAsCompute, SlaveInstanceCount]
  const ValidateOptions: seq<Opt> :=
    [MasterInstanceType, MasterImage, SlaveInstanceType, SlaveImage, Keypair, SshPrivateKeyFile,
     Region, AvailabilityZone, CredentialsFile]
  const Cloud9Options: seq<Opt> := [Cloud9Opt, CredentialsFile, SshUser, Keypair, SshPrivateKeyFile]

  const Required: RequiredLists := RequiredLists(ListOptions, TerminateOptions, CreateOptions, ValidateOptions, Cloud9Options)

  function RequiredOptions(mode: IntentMode): Option<seq<Opt>> {
    ProviderRequiredOptions(Required, mode)
  }

  /** The lists of the modes that end in `break` right away. */
  lemma RequiredOptionsTable()
    ensures RequiredOptions(List) == Some([Keypair, Region, CredentialsFile])
    ensures RequiredOptions(Terminate) == Some([TerminateOpt, Region, CredentialsFile])
    ensures RequiredOptions(Validate) == Some(ValidateOptions) && |ValidateOptions| == 9
    ensures RequiredOptions(Cloud9) == Some([Cloud9Opt, CredentialsFile, SshUser, Keypair, SshPrivateKeyFile])
  {
  }

  /**
    Create and prepare fall through into validate: their list is the three creation options
    followed by the whole validate list.
  */
  lemma CreateFallsThroughToValidate()
    ensures RequiredOptions(Create) == RequiredOptions(Prepare)
    ensures RequiredOptions(Create) == Some([SshUser, UseMasterAsCompute, SlaveInstanceCount] + RequiredOptions(Validate).value)
    ensures |RequiredOptions(Create).value| == 12
  {
  }

  // ---------------------------------------------------------------------------
  // Provider parameters
  // ---------------------------------------------------------------------------

  /**
    A Java `double` as far as the price checks can tell: a finite value (rounding is not
    modelled), one of the two infinities, or NaN.
  */
  datatype Double = Finite(value: real) | PositiveInfinity | NegativeInfinity | NaN

  /** Java's `d <= 0.0`: every comparison with NaN is false, and -Infinity is below 0. */
  predicate AtMostZero(d: Double) {
    match d
    case Finite(x) => x <= 0.0
    case NegativeInfinity => true
    case PositiveInfinity => false
    case NaN => false
  }

  datatype AwsConfig = AwsConfig(publicSlaveIps: bool, useSpotInstances: bool, bidPrice: Double, bidPriceMaster: Double)

  /** The verdict of a validation step and the configuration it leaves behind. */
  datatype Validation = Validation(ok: bool, config: AwsConfig)

  /**
    `parsePublicSlaveIpParameter`: the flag is stored when the boolean parser gave a value
    (its parse is outside this model), and the step always succeeds.
  */
  function ParsePublicSlaveIp(cfg: AwsConfig, parsed: Option<bool>): (r: Validation)
    ensures r.ok
    ensures r.config.publicSlaveIps == parsed.GetOr(cfg.publicSlaveIps)
    ensures r.config.(publicSlaveIps := cfg.publicSlaveIps) == cfg
  {
    match parsed
    case None => Validation(true, cfg)
    case Some(b) => Validation(true, cfg.(publicSlaveIps := b))
  }

  /** A bid-price option: absent, or present with a value that is parsed; no value throws. */
  function ParsePrice(cl: CommandLineArgs, o: Opt, parseDouble: string -> Option<Double>): Result<Option<Option<Double>>, Fault> {
    if !cl.HasOption(o) then Success(None)
    else
      match cl.OptionValue(o)
      case None => Failure(NullPointer)
      case Some(text) => Success(Some(parseDouble(text)))
  }

  /**
    `parseSpotInstanceParameters`. Without the option nothing happens. "yes" (in any case)
    turns spot instances on first and then demands a bid price that parses and is not
    `<= 0.0`; a bid price for the master is optional but must pass the same check when given.
    Java compares doubles, so NaN passes the check. A parsed price is stored before it is checked. "no" changes nothing, and any other value is refused.
  */
  function ParseSpotInstance(cfg: AwsConfig, cl: CommandLineArgs, parseDouble: string -> Option<Double>): (r: Result<Validation, Fault>)
    ensures !cl.HasOption(UseSpotInstanceRequest) ==> r == Success(Validation(true, cfg))
    ensures r.Success? ==> r.value.config.publicSlaveIps == cfg.publicSlaveIps
  {
    if !cl.HasOption(UseSpotInstanceRequest) then Success(Validation(true, cfg))
    else
      match cl.OptionValue(UseSpotInstanceRequest)
      case None => Failure(NullPointer)
      case Some(value) =>
        if EqualsIgnoreCase(value, "yes") then
          var spot := cfg.(useSpotInstances := true);
          var bid :- ParsePrice(cl, BidPrice, parseDouble);
          match bid
          case None => Success(Validation(false, spot))
          case Some(None) => Success(Validation(false, spot))
          case Some(Some(price)) =>
            var priced := spot.(bidPrice := price);
            if AtMostZero(price) then Success(Validation(false, priced))
            else
              var master :- ParsePrice(cl, BidPriceMaster, parseDouble);
              match master
              case None => Success(Validation(true, priced))
              case Some(None) => Success(Validation(false, priced))
              case Some(Some(masterPrice)) =>
                Success(Validation(!AtMostZero(masterPrice), priced.(bidPriceMaster := masterPrice)))
        else if EqualsIgnoreCase(value, "no") then Success(Validation(true, cfg))
        else Success(Validation(false, cfg))
  }

  /**
    A price given on the command line that parses and is not `<= 0.0` in Java's sense: a
    positive number, +Infinity, or NaN.
  */
  predicate PositivePrice(cl: CommandLineArgs, o: Opt, parseDouble: string -> Option<Double>) {
    cl.OptionValue(o).Some? && parseDouble(cl.OptionValue(o).value).Some? && !AtMostZero(parseDouble(cl.OptionValue(o).value).value)
  }

  /**
    The spot parameters are accepted exactly when the option is absent, is "no", or is "yes"
    with a positive bid price and, if a master bid price is given, a positive one.
  */
  lemma SpotAcceptedIff(cfg: AwsConfig, cl: CommandLineArgs, parseDouble: string -> Option<Double>)
    requires ParseSpotInstance(cfg, cl, parseDouble).Success?
    ensures ParseSpotInstance(cfg, cl, parseDouble).value.ok <==>
      || !cl.HasOption(UseSpotInstanceRequest)
      || (&& cl.OptionValue(UseSpotInstanceRequest).Some?
          && !EqualsIgnoreCase(cl.OptionValue(UseSpotInstanceRequest).value, "yes")
          && EqualsIgnoreCase(cl.OptionValue(UseSpotInstanceRequest).value, "no"))
      || (&& cl.OptionValue(UseSpotInstanceRequest).Some?
          && EqualsIgnoreCase(cl.OptionValue(UseSpotInstanceRequest).value, "yes")
          && PositivePrice(cl, BidPrice, parseDouble)
          && (cl.HasOption(BidPriceMaster) ==> PositivePrice(cl, BidPriceMaster, parseDouble)))
  {
  }

  /**
    A bid price that parses to NaN passes: `NaN <= 0.0` is false in Java, so no exception is
    thrown, NaN is stored, and without a master price the parameters are accepted.
  */
  lemma NaNBidAccepted(cfg: AwsConfig, cl: CommandLineArgs, parseDouble: string -> Option<Double>)
    requires cl.OptionValue(UseSpotInstanceRequest) == Some("yes")
    requires cl.OptionValue(BidPrice).Some? && parseDouble(cl.OptionValue(BidPrice).value) == Some(NaN)
    requires !cl.HasOption(BidPriceMaster)
    ensures ParseSpotInstance(cfg, cl, parseDouble) == Success(Validation(true, cfg.(useSpotInstances := true, bidPrice := NaN)))
  {
    assert EqualsIgnoreCase("yes", "yes");
  }

  /** A value that is neither "yes" nor "no" is refused and changes nothing. */
  lemma SpotUnknownValue(cfg: AwsConfig, cl: CommandLineArgs, parseDouble: string -> Option<Double>)
    requires cl.OptionValue(UseSpotInstanceRequest).Some?
    requires !EqualsIgnoreCase(cl.OptionValue(UseSpotInstanceRequest).value, "yes")
    requires !EqualsIgnoreCase(cl.OptionValue(UseSpotInstanceRequest).value, "no")
    ensures ParseSpotInstance(cfg, cl, parseDouble) == Success(Validation(false, cfg))
  {
  }

  /**
    "yes" turns spot instances on even when the prices are then refused, and a bid price that
    parses is stored even when it is not positive.
  */
  lemma SpotYesStoresBeforeChecking(cfg: AwsConfig, cl: CommandLineArgs, parseDouble: string -> Option<Double>)
    requires cl.OptionValue(UseSpotInstanceRequest).Some?
    requires EqualsIgnoreCase(cl.OptionValue(UseSpotInstanceRequest).value, "yes")
    requires ParseSpotInstance(cfg, cl, parseDouble).Success?
    ensures var r := ParseSpotInstance(cfg, cl, parseDouble).value;
      && r.config.useSpotInstances
      && (cl.OptionValue(BidPrice).Some? && parseDouble(cl.OptionValue(BidPrice).value).Some? ==>
            r.config.bidPrice == parseDouble(cl.OptionValue(BidPrice).value).value)
  {
  }

  /** The only exceptions are a spot option or a given price option without a value. */
  lemma SpotFailsOnlyWithoutValue(cfg: AwsConfig, cl: CommandLineArgs, parseDouble: string -> Option<Double>)
    requires ParseSpotInstance(cfg, cl, parseDouble).Failure?
    ensures cl.HasOption(UseSpotInstanceRequest)
    ensures || cl.OptionValue(UseSpotInstanceRequest).None?
            || (cl.HasOption(BidPrice) && cl.OptionValue(BidPrice).None?)
            || (cl.HasOption(BidPriceMaster) && cl.OptionValue(BidPriceMaster).None?)
  {
  }

  /** `validateProviderParameters`: the public slave IP step, which always passes, then the spot step. */
  function ValidateProviderParameters(cfg: AwsConfig, publicSlaveIp: Option<bool>, cl: CommandLineArgs, parseDouble: string -> Option<Double>)
    : (r: Result<Validation, Fault>)
  {
    var ip := ParsePublicSlaveIp(cfg, publicSlaveIp);
    if !ip.ok then Success(ip) else ParseSpotInstance(ip.config, cl, parseDouble)
  }

  /** The verdict is the spot step's, taken on the configuration with the public IP flag already applied. */
  lemma ValidationIsSpotVerdict(cfg: AwsConfig, publicSlaveIp: Option<bool>, cl: CommandLineArgs, parseDouble: string -> Option<Double>)
    ensures var r := ValidateProviderParameters(cfg, publicSlaveIp, cl, parseDouble);
      var withIp := cfg.(publicSlaveIps := publicSlaveIp.GetOr(cfg.publicSlaveIps));
      r == ParseSpotInstance(withIp, cl, parseDouble)
      && (r.Success? ==> r.value.config.publicSlaveIps == publicSlaveIp.GetOr(cfg.publicSlaveIps))
  {
  }
}
