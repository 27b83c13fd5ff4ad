/**
  The provider-independent command-line helpers: the required-parameter check, the
  cluster-id parameters of the terminate and cloud9 intents, the mount list parser and the
  bounded integer check.

  A command line is a map from option to its argument: an option that is present has a key,
  and its value is `None` when it was given without an argument (Commons CLI then answers
  `null` to `getOptionValue`). Options are named symbolically; each stands for its distinct
  short parameter.
*/
module CommandLine {
  import opened Wrappers
  import opened JavaText

  datatype IntentMode = Version | Help | Create | Prepare | List | Validate | Terminate | Cloud9

  datatype Opt =
    | TerminateOpt | Cloud9Opt
    | Keypair | Region | CredentialsFile | SshUser | UseMasterAsCompute | SlaveInstanceCount
    | MasterInstanceType | MasterImage | SlaveInstanceType | SlaveImage | SshPrivateKeyFile
    | AvailabilityZone | GoogleProjectId | GoogleImageProjectId
    | PublicSlaveIp | UseSpotInstanceRequest | BidPrice | BidPriceMaster

  datatype CommandLineArgs = CommandLineArgs(options: map<Opt, Option<string>>) {
    predicate HasOption(o: Opt) {
      o in options
    }

    function OptionValue(o: Opt): (r: Option<string>)
      ensures r.Some? ==> HasOption(o) && options[o] == r
    {
      if o in options then options[o] else None
    }
  }

  // ---------------------------------------------------------------------------
  // Required-option tables
  // ---------------------------------------------------------------------------

  /**
    One case group of a `switch` over the intent mode: its labels, the options it adds and
    whether it ends in `break`. A group without `break` falls through into the next one.
  */
  datatype SwitchCase = SwitchCase(labels: set<IntentMode>, adds: seq<Opt>, breaks: bool)

  /** The options added from case `from` on, up to and including the first case that breaks. */
  function FallThrough(cases: seq<SwitchCase>, from: nat): (r: seq<Opt>)
    requires from <= |cases|
    decreases |cases| - from
  {
    if from == |cases| then []
    else if cases[from].breaks then cases[from].adds
    else cases[from].adds + FallThrough(cases, from + 1)
  }

  /** The index of the first case labelled with `mode`. */
  function CaseOf(cases: seq<SwitchCase>, mode: IntentMode): (r: Option<nat>)
    ensures r.Some? ==> r.value < |cases| && mode in cases[r.value].labels
    ensures r.Some? ==> forall j :: 0 <= j < r.value ==> mode !in cases[j].labels
    ensures r.None? ==> forall j :: 0 <= j < |cases| ==> mode !in cases[j].labels
  {
    if |cases| == 0 then None
    else if mode in cases[0].labels then Some(0)
    else
      var rest := CaseOf(cases[1..], mode);
      assert forall j :: 1 <= j < |cases| ==> cases[1..][j - 1] == cases[j];
      if rest.Some? then Some(rest.value + 1) else None
  }

  /**
    `getRequiredOptions`: the `default` branch returns null, so a mode without a label has
    no list; a labelled mode collects the options of its case and of every case it falls
    into.
  */
  function RunSwitch(cases: seq<SwitchCase>, mode: IntentMode): (r: Option<seq<Opt>>)
    ensures r.None? <==> forall j :: 0 <= j < |cases| ==> mode !in cases[j].labels
  {
    match CaseOf(cases, mode)
    case None => None
    case Some(i) => Some(FallThrough(cases, i))
  }

  /**
    The option lists a provider's validator gives its cases. The AWS and the Google Cloud
    validators share the shape of the switch: one case per mode, in the order below, and the
    case labelled both prepare and create has no `break`, so it runs on into validate.
  */
  datatype RequiredLists = RequiredLists(list: seq<Opt>, terminate: seq<Opt>, create: seq<Opt>, validate: seq<Opt>, cloud9: seq<Opt>)

  function ProviderSwitch(p: RequiredLists): seq<SwitchCase> {
    [
      SwitchCase({List}, p.list, true),
      SwitchCase({Terminate}, p.terminate, true),
      SwitchCase({Prepare, Create}, p.create, false),
      SwitchCase({Validate}, p.validate, true),
      SwitchCase({Cloud9}, p.cloud9, true)
    ]
  }

  /** The case of the provider switch that carries each mode's label. */
  function LabelledCase(mode: IntentMode): Option<nat> {
    match mode
    case List => Some(0)
    case Terminate => Some(1)
    case Prepare => Some(2)
    case Create => Some(2)
    case Validate => Some(3)
    case Cloud9 => Some(4)
    case _ => None
  }

  /** Each mode is labelled at most once, at the case named above. */
  lemma ProviderSwitchLabels(p: RequiredLists, mode: IntentMode)
    ensures |ProviderSwitch(p)| == 5
    ensures CaseOf(ProviderSwitch(p), mode) == LabelledCase(mode)
  {
    var cases := ProviderSwitch(p);
    assert forall j :: 0 <= j < 5 ==> (mode in cases[j].labels <==> LabelledCase(mode) == Some(j));
  }

  /** Only the shared prepare/create case falls through, and only into validate. */
  lemma ProviderFallThrough(p: RequiredLists)
    ensures FallThrough(ProviderSwitch(p), 0) == p.list
    ensures FallThrough(ProviderSwitch(p), 1) == p.terminate
    ensures FallThrough(ProviderSwitch(p), 2) == p.create + p.validate
    ensures FallThrough(ProviderSwitch(p), 3) == p.validate
    ensures FallThrough(ProviderSwitch(p), 4) == p.cloud9
  {
    var cases := ProviderSwitch(p);
    assert cases[3].breaks && cases[3].adds == p.validate;
    assert FallThrough(cases, 3) == p.validate;
    assert !cases[2].breaks && cases[2].adds == p.create;
  }

  /**
    `getRequiredOptions` of a provider: version and help have no list; create and prepare get
    their own options followed by the whole validate list; every other mode gets its own list.
  */
  function ProviderRequiredOptions(p: RequiredLists, mode: IntentMode): (r: Option<seq<Opt>>)
    ensures r.None? <==> mode == Version || mode == Help
    ensures mode == List ==> r == Some(p.list)
    ensures mode == Terminate ==> r == Some(p.terminate)
    ensures mode == Create || mode == Prepare ==> r == Some(p.create + p.validate)
    ensures mode == Validate ==> r == Some(p.validate)
    ensures mode == Cloud9 ==> r == Some(p.cloud9)
  {
    ProviderSwitchLabels(p, mode);
    ProviderFallThrough(p);
    RunSwitch(ProviderSwitch(p), mode)
  }

  /** The exceptions the helpers can end in. */
  datatype Fault = NullPointer | NumberFormat | OutOfRange

  // ---------------------------------------------------------------------------
  // Required parameters
  // ---------------------------------------------------------------------------

  /** `isStringNullOrEmpty`: null, or nothing but blanks. */
  predicate IsStringNullOrEmpty(s: Option<string>) {
    s.None? || Trim(s.value) == ""
  }

  /** Blank means made of characters up to U+0020 only. */
  lemma NullOrEmptyIff(s: Option<string>)
    ensures IsStringNullOrEmpty(s) <==> s.None? || AllTrimmable(s.value)
  {
    if s.Some? {
      TrimEmptyIff(s.value);
    }
  }

  /**
    `checkRequiredParameter`: false exactly when the option is in the required list and the
    value is null or blank. A mode without a required list (`None`) makes the lookup throw.
  */
  function CheckRequiredParameter(req: Option<seq<Opt>>, o: Opt, value: Option<string>): (r: Result<bool, Fault>)
    ensures r.Failure? <==> req.None?
    ensures r.Failure? ==> r.error == NullPointer
    ensures r == Success(false) <==> req.Some? && o in req.value && (value.None? || AllTrimmable(value.value))
  {
    NullOrEmptyIff(value);
    match req
    case None => Failure(NullPointer)
    case Some(required) => Success(!(o in required && IsStringNullOrEmpty(value)))
  }

  // ---------------------------------------------------------------------------
  // Cluster ids for terminate and cloud9
  // ---------------------------------------------------------------------------

  /**
    `parseTerminateParameter` (with `TerminateOpt`) and `parseCloud9Parameter` (with
    `Cloud9Opt`): when the mode's option is required, the cluster ids become its trimmed
    value; otherwise they stay as they were. The Java method then returns true, so a
    success is always true; a missing value is trimmed anyway and throws.
  */
  function ParseClusterIdParameter(req: Option<seq<Opt>>, cl: CommandLineArgs, modeOpt: Opt, clusterIds: Option<string>)
    : (r: Result<Option<string>, Fault>)
    ensures req.Some? && modeOpt !in req.value ==> r == Success(clusterIds)
    ensures req.Some? && modeOpt in req.value && cl.OptionValue(modeOpt).Some? ==>
      r.Success? && r.value.Some? && r.value.value == Trim(cl.options[modeOpt].value)
    ensures r.Failure? <==> req.None? || (modeOpt in req.value && cl.OptionValue(modeOpt).None?)
  {
    match req
    case None => Failure(NullPointer)
    case Some(required) =>
      if modeOpt !in required then Success(clusterIds)
      else
        match cl.OptionValue(modeOpt)
        case None => Failure(NullPointer)
        case Some(ids) => Success(Some(Trim(ids)))
  }

  /** Parsing the ids a second time from their own result changes nothing. */
  lemma ClusterIdsSettle(req: seq<Opt>, cl: CommandLineArgs, modeOpt: Opt, clusterIds: Option<string>)
    requires modeOpt in req && cl.OptionValue(modeOpt).Some?
    ensures var first := ParseClusterIdParameter(Some(req), cl, modeOpt, clusterIds);
      var again := ParseClusterIdParameter(Some(req), cl.(options := cl.options[modeOpt := first.value]), modeOpt, None);
      again == first
  {
    TrimIdempotent(cl.options[modeOpt].value);
  }

  // ---------------------------------------------------------------------------
  // Mount lists
  // ---------------------------------------------------------------------------

  datatype MountPoint = MountPoint(source: string, target: string)

  /**
    One `source=target` entry: trimmed, split on '=', and the first two fields trimmed.
    Fewer than two fields make the index out of bounds (`None`); fields after the second
    are ignored.
  */
  function ParseMountEntry(entry: string): (r: Option<MountPoint>)
    ensures r.Some? <==> |Split(Trim(entry), '=')| >= 2
  {
    var fs := Split(Trim(entry), '=');
    if |fs| < 2 then None else Some(MountPoint(Trim(fs[0]), Trim(fs[1])))
  }

  /** A parsed mount has no blanks at its ends and no '=' inside. */
  lemma MountEntryClean(entry: string)
    requires ParseMountEntry(entry).Some?
    ensures var m := ParseMountEntry(entry).value;
      && Trim(m.source) == m.source && Trim(m.target) == m.target
      && '=' !in m.source && '=' !in m.target
  {
    var fs := Split(Trim(entry), '=');
    TrimIdempotent(fs[0]);
    TrimIdempotent(fs[1]);
    TrimSubsequence(fs[0]);
    TrimSubsequence(fs[1]);
  }

  /** Trimming only removes characters. */
  lemma TrimSubsequence(s: string)
    ensures forall c :: c in Trim(s) ==> c in s
  {
    TrimIsMiddle(s);
    var i, j :| 0 <= i <= j <= |s| && Trim(s) == s[i..j];
    forall c | c in Trim(s)
      ensures c in s
    {
      var k :| 0 <= k < |Trim(s)| && Trim(s)[k] == c;
      assert s[i + k] == c;
    }
  }

  /** Every entry in order; one bad entry spoils the whole list. */
  function ParseAll<A, B>(parse: A -> Option<B>, entries: seq<A>): (r: Option<seq<B>>)
    ensures r.Some? <==> forall i :: 0 <= i < |entries| ==> parse(entries[i]).Some?
    ensures r.Some? ==> |r.value| == |entries|
    ensures r.Some? ==> forall i :: 0 <= i < |entries| ==> r.value[i] == parse(entries[i]).value
  {
    if |entries| == 0 then Some([])
    else
      var last := parse(entries[|entries| - 1]);
      var init := ParseAll(parse, entries[..|entries| - 1]);
      assert forall i :: 0 <= i < |entries| - 1 ==> entries[..|entries| - 1][i] == entries[i];
      if init.Some? && last.Some? then Some(init.value + [last.value]) else None
  }

  function ParseMountEntries(entries: seq<string>): (r: Option<seq<MountPoint>>)
    ensures r.Some? <==> forall i :: 0 <= i < |entries| ==> ParseMountEntry(entries[i]).Some?
    ensures r.Some? ==> |r.value| == |entries|
    ensures r.Some? ==> forall i :: 0 <= i < |entries| ==> r.value[i] == ParseMountEntry(entries[i]).value
  {
    ParseAll(ParseMountEntry, entries)
  }

  /**
    `parseMountCsv`: null or the empty string give an empty list; otherwise the text is split
    on ',' and every entry parsed, and any failing entry makes the result null.
  */
  function ParseMountCsv(csv: Option<string>): (r: Option<seq<MountPoint>>)
    ensures csv.None? || csv.value == "" ==> r == Some([])
  {
    if csv.None? || csv.value == "" then Some([])
    else ParseMountEntries(Split(csv.value, ','))
  }

  /** The result is null exactly when some ','-separated entry has no second '='-field. */
  lemma MountCsvNullIff(csv: string)
    requires csv != ""
    ensures ParseMountCsv(Some(csv)).None? <==>
      exists e :: e in Split(csv, ',') && |Split(Trim(e), '=')| < 2
  {
    var es := Split(csv, ',');
    if ParseMountCsv(Some(csv)).None? {
      var i :| 0 <= i < |es| && ParseMountEntry(es[i]).None?;
      assert es[i] in es;
    }
  }

  /** The mounts come out in input order, one per ','-separated entry. */
  lemma MountCsvOrder(csv: string)
    requires csv != "" && ParseMountCsv(Some(csv)).Some?
    ensures var ms := ParseMountCsv(Some(csv)).value;
      var es := Split(csv, ',');
      && |ms| == |es|
      && forall i :: 0 <= i < |es| ==>
        (var fs := Split(Trim(es[i]), '=');
         ms[i] == MountPoint(Trim(fs[0]), Trim(fs[1])))
  {
  }

  /** A list made of commas only has no entries at all, so it parses to an empty list rather than null. */
  lemma CommasOnlyIsEmpty(csv: string)
    requires csv != "" && OnlyChar(csv, ',')
    ensures ParseMountCsv(Some(csv)) == Some([])
  {
    SplitEmptyIff(csv, ',');
  }

  /** A mount written without blanks at its ends and without the separators. */
  predicate Tidy(s: string) {
    s != "" && !IsTrimmable(s[0]) && !IsTrimmable(s[|s| - 1]) && ',' !in s && '=' !in s
  }

  function MountEntryText(m: MountPoint): string {
    m.source + "=" + m.target
  }

  /** The mount list as a user writes it: `source=target` entries joined by ','. */
  function MountCsvText(ms: seq<MountPoint>): string {
    if |ms| == 0 then "" else Join(MountEntries(ms), ',')
  }

  function MountEntries(ms: seq<MountPoint>): (r: seq<string>)
    ensures |r| == |ms| && forall i :: 0 <= i < |ms| ==> r[i] == MountEntryText(ms[i])
  {
    if |ms| == 0 then [] else MountEntries(ms[..|ms| - 1]) + [MountEntryText(ms[|ms| - 1])]
  }

  /** `split` gives joined delimiter-free fields back, as long as the last field is not empty. */
  lemma SplitOfJoin(fs: seq<string>, d: char)
    requires |fs| >= 1 && forall i :: 0 <= i < |fs| ==> d !in fs[i]
    requires fs[|fs| - 1] != ""
    ensures Split(Join(fs, d), d) == fs
  {
    if |fs| > 1 {
      FieldsOfJoin(fs, d);
      assert Join(fs, d) == fs[0] + [d] + Join(fs[1..], d);
      assert Join(fs, d)[|fs[0]|] == d;
    }
  }

  /** A tidy entry parses back to its mount. */
  lemma MountEntryRoundTrip(m: MountPoint)
    requires Tidy(m.source) && Tidy(m.target)
    ensures ParseMountEntry(MountEntryText(m)) == Some(m)
  {
    var e := MountEntryText(m);
    assert e[0] == m.source[0] && e[|e| - 1] == m.target[|m.target| - 1];
    TrimUntouched(e);
    assert e == m.source + ['='] + m.target;
    SplitPair(m.source, m.target, '=');
    TrimUntouched(m.source);
    TrimUntouched(m.target);
  }

  /** Parsing a written mount list gives the mounts back, in order. */
  lemma MountCsvRoundTrip(ms: seq<MountPoint>)
    requires forall i :: 0 <= i < |ms| ==> Tidy(ms[i].source) && Tidy(ms[i].target)
    ensures ParseMountCsv(Some(MountCsvText(ms))) == Some(ms)
  {
    if |ms| > 0 {
      var es := MountEntries(ms);
      EntriesSeparated(ms);
      SplitOfJoin(es, ',');
      JoinNotEmpty(es, ',');
      EntriesRoundTrip(ms);
    }
  }

  lemma EntriesSeparated(ms: seq<MountPoint>)
    requires |ms| > 0
    requires forall i :: 0 <= i < |ms| ==> Tidy(ms[i].source) && Tidy(ms[i].target)
    ensures var es := MountEntries(ms);
      && (forall i :: 0 <= i < |es| ==> ',' !in es[i])
      && es[|es| - 1] != "" && es[0] != ""
  {
    var es := MountEntries(ms);
    forall i | 0 <= i < |es|
      ensures ',' !in es[i]
    {
      assert es[i] == ms[i].source + "=" + ms[i].target;
    }
  }

  lemma EntriesRoundTrip(ms: seq<MountPoint>)
    requires forall i :: 0 <= i < |ms| ==> Tidy(ms[i].source) && Tidy(ms[i].target)
    ensures ParseMountEntries(MountEntries(ms)) == Some(ms)
  {
    var es := MountEntries(ms);
    forall i | 0 <= i < |ms|
      ensures ParseMountEntry(es[i]) == Some(ms[i])
    {
      MountEntryRoundTrip(ms[i]);
    }
    ParseAllInverts(ParseMountEntry, es, ms);
  }

  /** When every entry parses to the matching value, the whole list parses to the values. */
  lemma ParseAllInverts<A, B>(parse: A -> Option<B>, entries: seq<A>, values: seq<B>)
    requires |entries| == |values|
    requires forall i :: 0 <= i < |entries| ==> parse(entries[i]) == Some(values[i])
    ensures ParseAll(parse, entries) == Some(values)
  {
    var r := ParseAll(parse, entries);
    assert r.Some?;
    assert forall i :: 0 <= i < |values| ==> r.value[i] == values[i];
    assert r.value == values;
  }

  lemma {:induction false} JoinNotEmpty(fs: seq<string>, d: char)
    requires |fs| >= 1 && fs[0] != ""
    ensures Join(fs, d) != ""
  {
    if |fs| > 1 {
      assert Join(fs, d) == fs[0] + [d] + Join(fs[1..], d);
    }
  }

  /** A third '='-field is dropped: `source=target=rest` reads as `source=target`. */
  lemma ExtraFieldsDropped(m: MountPoint, rest: string)
    requires Tidy(m.source) && Tidy(m.target) && '=' !in rest
    requires rest == "" || !IsTrimmable(rest[|rest| - 1])
    ensures ParseMountEntry(MountEntryText(m) + "=" + rest) == Some(m)
  {
    var e := MountEntryText(m) + "=" + rest;
    assert e == m.source + ['='] + m.target + ['='] + rest;
    assert e[0] == m.source[0];
    TrimUntouched(e);
    SplitFirstTwo(m.source, m.target, rest, '=');
    TrimUntouched(m.source);
    TrimUntouched(m.target);
  }

  /** With a non-empty middle field, the first two fields of `a d b d c` are `a` and `b`. */
  lemma SplitFirstTwo(a: string, b: string, c: string, d: char)
    requires d !in a && d !in b && d !in c && b != ""
    ensures var sp := Split(a + [d] + b + [d] + c, d);
      |sp| >= 2 && sp[0] == a && sp[1] == b
  {
    var e := a + [d] + b + [d] + c;
    assert e == a + [d] + (b + [d] + c);
    FieldsAfterFirst(a, b + [d] + c, d);
    FieldsAfterFirst(b, c, d);
    FieldsOfPlain(c, d);
    assert e[|a|] == d;
    var fs := Fields(e, d);
    assert fs == [a, b, c];
    assert fs[1] != "";
  }

  // ---------------------------------------------------------------------------
  // Bounded integers
  // ---------------------------------------------------------------------------

  /** `checkStringAsInt`: the parsed value when it lies in 0..max; otherwise the call throws. */
  function CheckStringAsInt(s: string, max: int): (r: Result<int, Fault>)
    ensures r.Success? <==> ParseInt(s).Some? && 0 <= ParseInt(s).value <= max
    ensures r.Success? ==> r.value == ParseInt(s).value && 0 <= r.value <= max
    ensures r.Failure? && ParseInt(s).None? ==> r.error == NumberFormat
  {
    match ParseInt(s)
    case None => Failure(NumberFormat)
    case Some(v) => if v < 0 || v > max then Failure(OutOfRange) else Success(v)
  }

  /** Every value in range written in decimal is accepted as itself. */
  lemma CheckStringAsIntAccepts(n: nat, max: int)
    requires n <= max && n <= MaxInt
    ensures CheckStringAsInt(Decimal(n), max) == Success(n)
  {
    ParseDecimal(n);
  }

  /** A value above the bound, written in decimal, is refused. */
  lemma CheckStringAsIntRejectsAbove(n: nat, max: int)
    requires max < n <= MaxInt
    ensures CheckStringAsInt(Decimal(n), max) == Failure(OutOfRange)
  {
    ParseDecimal(n);
  }

  /** Any text that parses to a value outside 0..max, however it is written, is refused as out of range. */
  lemma CheckStringAsIntRejectsOutside(s: string, v: int, max: int)
    requires ParseInt(s) == Some(v) && (v < 0 || v > max)
    ensures CheckStringAsInt(s, max) == Failure(OutOfRange)
  {
  }
}
