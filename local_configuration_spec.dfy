/** What `LocalConfiguration` does to its own state and to the configuration
    store, stated as functions of a snapshot of that state. The global
    configuration data is a map from absolute option paths to values; the
    command line, getopt, the configuration files and the section lookups of
    the path finder are inputs. */
module LocalConfigurationSpec {
  import opened Wrappers
  import opened Strings

  /** What a switch is bound to when it is registered. */
  datatype Callback =
    | NoCallback                 // registered with `function = False`
    | SetOptionCallback          // __setOptionByCmd
    | SetSectionCallback         // __setSectionByCmd
    | UseCertCallback            // __setUseCertByCmd
    | ShowHelpCallback           // __showHelp
    | CustomCallback(id: nat)    // a callback registered by the component

  /** One entry of `commandOptionList`. */
  datatype CmdOpt = CmdOpt(short: string, long: string, help: string, callback: Callback)

  datatype ComponentType = Unset | Service | Agent | Script

  /** What escapes a call as an exception, or ends the process. */
  datatype Interrupt = Thrown(message: string) | Exited(code: int)

  /** What a switch callback returns: an S_OK/S_ERROR dictionary, something
      else, or nothing because it raised or exited. */
  datatype Reply = Replied(ok: bool, message: string) | NotADict | Interrupts(why: Interrupt)

  /** The outcome of `initialize` and `loadUserData`. */
  datatype Outcome = Succeeded | Failed(message: string) | ProcessExit(code: int)

  /** The result of `getopt.gnu_getopt`. */
  datatype Getopt = GetoptError(message: string) | Parsed(opts: seq<(string, string)>, args: seq<string>)

  /** Loading the configuration files: the options they hold and the error
      message of every file that could not be loaded. */
  datatype Loaded = Loaded(options: map<string, string>, errors: seq<string>)

  /** Everything outside the object that its methods consult. */
  datatype Environment = Environment(
    argv: seq<string>,
    gnuGetopt: (seq<string>, string, seq<string>) -> Getopt,
    loadFiles: seq<string> -> Loaded,
    serviceSection: string -> Result<string, string>,
    agentSection: string -> Result<string, string>,
    custom: (nat, string) -> Reply)

  /** The state of a `LocalConfiguration` together with the configuration
      store it writes to. */
  datatype Config = Config(
    cfg: map<string, string>,
    section: string,
    loggingSection: string,
    mandatory: seq<string>,
    optional: seq<(string, string)>,
    options: seq<CmdOpt>,
    unprocessed: seq<(string, string)>,
    parsed: seq<(string, string)>,
    cliFiles: seq<string>,
    args: seq<string>,
    isParsed: bool,
    componentName: string,
    componentType: ComponentType,
    initialized: bool)

  /** Python's message for indexing an empty string. */
  const IndexErrorMessage := "string index out of range"

  const UseCertOption := "/DIRAC/Security/UseServerCertificate"

  /** An option is present when it has a non-empty value. */
  predicate IsSet(cfg: map<string, string>, path: string) {
    path in cfg && cfg[path] != ""
  }

  /** `sys.argv[0]` */
  function Program(argv: seq<string>): string {
    if |argv| > 0 then argv[0] else ""
  }

  /** `sys.argv[1:]` */
  function Arguments(argv: seq<string>): seq<string> {
    if |argv| > 0 then argv[1..] else []
  }

  // ---------------------------------------------------------------------------
  // Option paths
  // ---------------------------------------------------------------------------

  /** `__getAbsolutePath`: an absolute path is kept, a relative one is put
      under the current section; None when the path is empty, which raises. */
  function AbsolutePath(section: string, path: string): (r: Option<string>)
    ensures r.None? <==> path == ""
    ensures r.Some? ==> |path| <= |r.value| && r.value[|r.value| - |path|..] == path
    ensures r.Some? && path[0] == '/' ==> r.value == path
    ensures r.Some? && (section == "" || section[0] == '/') ==> r.value[0] == '/'
    ensures r.Some? && path[0] != '/' ==>
              |r.value| == |section| + 1 + |path| && r.value[..|section| + 1] == section + "/"
  {
    if path == "" then None
    else if path[0] == '/' then Some(path)
    else Some(section + "/" + path)
  }

  /** Under an absolute (or empty) section, resolving a resolved path again
      changes nothing. */
  lemma AbsolutePathIdempotent(section: string, path: string)
    requires path != ""
    requires section == "" || section[0] == '/'
    ensures AbsolutePath(section, AbsolutePath(section, path).value) == AbsolutePath(section, path)
  {
  }

  /** `__setOptionValue`: write the value at the resolved path. */
  function SetOptionValue(c: Config, path: string, value: string): (r: Option<Config>)
    ensures r.None? <==> path == ""
    ensures r.Some? ==> r.value == c.(cfg := c.cfg[AbsolutePath(c.section, path).value := value])
  {
    match AbsolutePath(c.section, path)
    case None => None
    case Some(p) => Some(c.(cfg := c.cfg[p := value]))
  }

  // ---------------------------------------------------------------------------
  // Defaults
  // ---------------------------------------------------------------------------

  /** `addDefaultEntry`: an absolute option is written only when absent; a
      relative one is queued for `loadUserData`. The first result tells
      whether the call raised (an empty path). */
  function DefaultEntry(c: Config, optionPath: string, value: string): (bool, Config) {
    if optionPath == "" then (true, c)
    else if optionPath[0] == '/' then
      (false, if IsSet(c.cfg, optionPath) then c else c.(cfg := c.cfg[optionPath := value]))
    else (false, c.(optional := c.optional + [(optionPath, value)]))
  }

  /** A default never replaces a value that is present. */
  lemma DefaultEntryNeverOverwrites(c: Config, optionPath: string, value: string)
    ensures var (raised, c') := DefaultEntry(c, optionPath, value);
            && (raised <==> optionPath == "")
            && (forall p | IsSet(c.cfg, p) :: p in c'.cfg && c'.cfg[p] == c.cfg[p])
            && (!raised && optionPath[0] == '/' && !IsSet(c.cfg, optionPath) ==> c'.cfg[optionPath] == value)
            && (!raised && optionPath[0] != '/' ==> c' == c.(optional := c.optional + [(optionPath, value)]))
  {
  }

  /** The store after the queued defaults of `loadUserData`, and whether an
      empty path raised part-way. */
  datatype Applied = Applied(cfg: map<string, string>, raised: bool)

  function ApplyDefaults(section: string, cfg: map<string, string>, entries: seq<(string, string)>): Applied
    decreases |entries|
  {
    if entries == [] then Applied(cfg, false)
    else
      var prev := ApplyDefaults(section, cfg, entries[..|entries| - 1]);
      var entry := entries[|entries| - 1];
      if prev.raised then prev
      else match AbsolutePath(section, entry.0)
        case None => prev.(raised := true)
        case Some(p) => if IsSet(prev.cfg, p) then prev else prev.(cfg := prev.cfg[p := entry.1])
  }

  /** Queued defaults never replace a present value and never remove an
      option. */
  lemma {:induction false} DefaultsNeverOverwrite(section: string, cfg: map<string, string>,
                                                  entries: seq<(string, string)>)
    ensures forall p | IsSet(cfg, p) ::
              p in ApplyDefaults(section, cfg, entries).cfg && ApplyDefaults(section, cfg, entries).cfg[p] == cfg[p]
    ensures forall p | p in cfg :: p in ApplyDefaults(section, cfg, entries).cfg
    decreases |entries|
  {
    if entries != [] {
      DefaultsNeverOverwrite(section, cfg, entries[..|entries| - 1]);
    }
  }

  /** Applying the queued defaults raises exactly when one of their paths is
      empty. */
  lemma {:induction false} DefaultsRaiseOnEmptyPath(section: string, cfg: map<string, string>,
                                                    entries: seq<(string, string)>)
    ensures ApplyDefaults(section, cfg, entries).raised <==> exists k :: 0 <= k < |entries| && entries[k].0 == ""
    decreases |entries|
  {
    if entries != [] {
      var init := entries[..|entries| - 1];
      var last := entries[|entries| - 1];
      DefaultsRaiseOnEmptyPath(section, cfg, init);
      DefaultsStep(section, cfg, entries);
      if last.0 == "" {
        assert entries[|entries| - 1].0 == "";
      } else {
        if exists k :: 0 <= k < |entries| && entries[k].0 == "" {
          var k :| 0 <= k < |entries| && entries[k].0 == "";
          assert k < |init| && init[k] == entries[k];
        }
        if exists k :: 0 <= k < |init| && init[k].0 == "" {
          var k :| 0 <= k < |init| && init[k].0 == "";
          assert entries[k] == init[k];
        }
      }
    }
  }

  /** The last queued default: skipped after a raise, raising on an empty
      path, written when its option is not set. */
  lemma DefaultsStep(section: string, cfg: map<string, string>, entries: seq<(string, string)>)
    requires entries != []
    ensures var prev := ApplyDefaults(section, cfg, entries[..|entries| - 1]);
            var last := entries[|entries| - 1];
            var a := ApplyDefaults(section, cfg, entries);
            && (a.raised <==> prev.raised || last.0 == "")
            && (!a.raised ==> AbsolutePath(section, last.0).value in a.cfg && prev.cfg.Keys <= a.cfg.Keys)
  {
  }

  /** Some queued default resolves to `q` and carries the value `v`. */
  predicate WrittenBy(section: string, entries: seq<(string, string)>, q: string, v: string) {
    exists j :: 0 <= j < |entries| && AbsolutePath(section, entries[j].0) == Some(q) && entries[j].1 == v
  }

  /** Queued defaults write nothing but themselves: every option in the
      store afterwards either was there with the same value or is the
      resolved path of a queued default, holding that default's value. */
  lemma {:induction false} DefaultsOnlyWriteDefaults(section: string, cfg: map<string, string>,
                                                    entries: seq<(string, string)>)
    ensures var after := ApplyDefaults(section, cfg, entries).cfg;
            forall q | q in after :: (q in cfg && after[q] == cfg[q]) || WrittenBy(section, entries, q, after[q])
    decreases |entries|
  {
    if entries != [] {
      var init := entries[..|entries| - 1];
      DefaultsOnlyWriteDefaults(section, cfg, init);
      var before := ApplyDefaults(section, cfg, init).cfg;
      var after := ApplyDefaults(section, cfg, entries).cfg;
      forall q | q in after
        ensures (q in cfg && after[q] == cfg[q]) || WrittenBy(section, entries, q, after[q])
      {
        var last := entries[|entries| - 1];
        if q in before && after[q] == before[q] {
          if !(q in cfg && after[q] == cfg[q]) {
            var j :| 0 <= j < |init| && AbsolutePath(section, init[j].0) == Some(q) && init[j].1 == before[q];
            assert entries[j] == init[j];
          }
        } else {
          assert AbsolutePath(section, last.0) == Some(q) && after[q] == last.1;
        }
      }
    }
  }

  /** An unset option receives the value of the first queued default that
      resolves to it, provided no empty path raised before that default
      and the value is not empty; later defaults leave it alone. */
  lemma {:induction false} DefaultsWriteFirstValue(section: string, cfg: map<string, string>,
                                                  entries: seq<(string, string)>, p: string, k: nat)
    requires k < |entries|
    requires !IsSet(cfg, p)
    requires forall j | 0 <= j <= k :: entries[j].0 != ""
    requires AbsolutePath(section, entries[k].0) == Some(p)
    requires forall j | 0 <= j < k :: AbsolutePath(section, entries[j].0) != Some(p)
    requires entries[k].1 != ""
    ensures p in ApplyDefaults(section, cfg, entries).cfg
    ensures ApplyDefaults(section, cfg, entries).cfg[p] == entries[k].1
    decreases |entries|
  {
    var init := entries[..|entries| - 1];
    assert forall j | 0 <= j < |init| :: init[j] == entries[j];
    if k == |entries| - 1 {
      DefaultsRaiseOnEmptyPath(section, cfg, init);
      DefaultsUnsetBefore(section, cfg, init, p);
      DefaultsWriteLast(section, cfg, entries, p);
    } else {
      DefaultsWriteFirstValue(section, cfg, init, p, k);
      DefaultsKeepSet(section, cfg, entries, p);
    }
  }

  /** An option that was unset and that no queued default resolves to is
      still unset afterwards. */
  lemma DefaultsUnsetBefore(section: string, cfg: map<string, string>, entries: seq<(string, string)>, p: string)
    requires !IsSet(cfg, p)
    requires forall j | 0 <= j < |entries| :: AbsolutePath(section, entries[j].0) != Some(p)
    ensures !IsSet(ApplyDefaults(section, cfg, entries).cfg, p)
  {
    var after := ApplyDefaults(section, cfg, entries).cfg;
    DefaultsOnlyWriteDefaults(section, cfg, entries);
    if p in after {
      assert !WrittenBy(section, entries, p, after[p]);
    }
  }

  /** The last queued default is written when nothing raised before it and
      its option is unset. */
  lemma DefaultsWriteLast(section: string, cfg: map<string, string>, entries: seq<(string, string)>, p: string)
    requires entries != []
    requires !ApplyDefaults(section, cfg, entries[..|entries| - 1]).raised
    requires !IsSet(ApplyDefaults(section, cfg, entries[..|entries| - 1]).cfg, p)
    requires AbsolutePath(section, entries[|entries| - 1].0) == Some(p)
    ensures p in ApplyDefaults(section, cfg, entries).cfg
    ensures ApplyDefaults(section, cfg, entries).cfg[p] == entries[|entries| - 1].1
  {
  }

  /** The last queued default leaves a set option as it is. */
  lemma DefaultsKeepSet(section: string, cfg: map<string, string>, entries: seq<(string, string)>, p: string)
    requires entries != []
    requires IsSet(ApplyDefaults(section, cfg, entries[..|entries| - 1]).cfg, p)
    ensures p in ApplyDefaults(section, cfg, entries).cfg
    ensures ApplyDefaults(section, cfg, entries).cfg[p] == ApplyDefaults(section, cfg, entries[..|entries| - 1]).cfg[p]
  {
  }

  /** When nothing raised, every queued option is in the store afterwards. */
  lemma DefaultsApplied(section: string, cfg: map<string, string>, entries: seq<(string, string)>)
    requires !ApplyDefaults(section, cfg, entries).raised
    ensures forall k | 0 <= k < |entries| ::
              entries[k].0 != "" && AbsolutePath(section, entries[k].0).value in ApplyDefaults(section, cfg, entries).cfg
  {
    forall k | 0 <= k < |entries|
      ensures entries[k].0 != "" && AbsolutePath(section, entries[k].0).value in ApplyDefaults(section, cfg, entries).cfg
    {
      DefaultAppliedAt(section, cfg, entries, k);
    }
  }

  lemma {:induction false} DefaultAppliedAt(section: string, cfg: map<string, string>, entries: seq<(string, string)>,
                                            k: nat)
    requires !ApplyDefaults(section, cfg, entries).raised
    requires k < |entries|
    ensures entries[k].0 != "" && AbsolutePath(section, entries[k].0).value in ApplyDefaults(section, cfg, entries).cfg
    decreases |entries|
  {
    DefaultsStep(section, cfg, entries);
    if k < |entries| - 1 {
      var init := entries[..|entries| - 1];
      DefaultAppliedAt(section, cfg, init, k);
      assert init[k] == entries[k];
    }
  }

  // ---------------------------------------------------------------------------
  // The option strings given to getopt, and the positional arguments
  // ---------------------------------------------------------------------------

  /** The short-option string: each short option is appended unless the
      string already contains it (as a substring). */
  function ShortOptions(opts: seq<CmdOpt>): string
    decreases |opts|
  {
    if opts == [] then ""
    else
      var prev := ShortOptions(opts[..|opts| - 1]);
      var o := opts[|opts| - 1];
      if Contains(prev, o.short) then prev else prev + o.short
  }

  /** The long-option list: each long option once, in order of first
      registration. */
  function LongOptions(opts: seq<CmdOpt>): seq<string>
    decreases |opts|
  {
    if opts == [] then []
    else
      var prev := LongOptions(opts[..|opts| - 1]);
      var o := opts[|opts| - 1];
      if o.long in prev then prev else prev + [o.long]
  }

  /** Every registered short option can be found in the short-option string. */
  lemma {:induction false} ShortOptionsCoverAll(opts: seq<CmdOpt>)
    ensures forall k | 0 <= k < |opts| :: Contains(ShortOptions(opts), opts[k].short)
    decreases |opts|
  {
    if opts != [] {
      var init := opts[..|opts| - 1];
      var prev := ShortOptions(init);
      var o := opts[|opts| - 1];
      ShortOptionsCoverAll(init);
      forall k | 0 <= k < |opts|
        ensures Contains(ShortOptions(opts), opts[k].short)
      {
        if !Contains(prev, o.short) {
          if k < |init| {
            assert init[k] == opts[k];
            ContainsExtended(prev, opts[k].short, o.short);
          } else {
            ContainsSuffix(prev, o.short);
          }
        } else if k < |init| {
          assert init[k] == opts[k];
        }
      }
    }
  }

  /** The long-option list holds exactly the registered long options... */
  lemma {:induction false} LongOptionsMembers(opts: seq<CmdOpt>)
    ensures forall x :: x in LongOptions(opts) <==> exists k :: 0 <= k < |opts| && opts[k].long == x
    decreases |opts|
  {
    if opts != [] {
      var init := opts[..|opts| - 1];
      LongOptionsMembers(init);
      forall x | exists k :: 0 <= k < |opts| && opts[k].long == x
        ensures x in LongOptions(opts)
      {
        var k :| 0 <= k < |opts| && opts[k].long == x;
        if k < |init| {
          assert init[k].long == x;
        }
      }
      forall x | x in LongOptions(opts)
        ensures exists k :: 0 <= k < |opts| && opts[k].long == x
      {
        if x in LongOptions(init) {
          var k :| 0 <= k < |init| && init[k].long == x;
          assert opts[k].long == x;
        } else {
          assert opts[|opts| - 1].long == x;
        }
      }
    }
  }

  /** ... each of them once. */
  lemma {:induction false} LongOptionsDistinct(opts: seq<CmdOpt>)
    ensures forall i, j | 0 <= i < j < |LongOptions(opts)| :: LongOptions(opts)[i] != LongOptions(opts)[j]
    decreases |opts|
  {
    if opts != [] {
      LongOptionsDistinct(opts[..|opts| - 1]);
    }
  }

  /** The four switches every component understands. */
  function BasicOptions(): seq<CmdOpt> {
    [ CmdOpt("o:", "option=", "Option=value to add", SetOptionCallback),
      CmdOpt("s:", "section=", "Set base section for relative parsed options", SetSectionCallback),
      CmdOpt("c:", "cert=", "Use server certificate to connect to Core Services", UseCertCallback),
      CmdOpt("h", "help", "Shows this help", ShowHelpCallback) ]
  }

  /** The option strings built from the basic switches. */
  lemma BasicOptionStrings()
    ensures ShortOptions(BasicOptions()) == "o:s:c:h"
    ensures LongOptions(BasicOptions()) == ["option=", "section=", "cert=", "help"]
  {
    var b := BasicOptions();
    assert b[..1][..0] == [] && b[..2][..1] == b[..1] && b[..3][..2] == b[..2] && b[..4][..3] == b[..3];
    assert b[..4] == b;
    AbsentFirstChar("o:", "s:");
    AbsentFirstChar("o:s:", "c:");
    AbsentFirstChar("o:s:c:", "h");
    assert ShortOptions(b[..1]) == "o:";
    assert ShortOptions(b[..2]) == "o:s:";
    assert ShortOptions(b[..3]) == "o:s:c:";
    assert LongOptions(b[..1]) == ["option="];
    assert LongOptions(b[..2]) == ["option=", "section="];
    assert LongOptions(b[..3]) == ["option=", "section=", "cert="];
  }

  /** A short option the string already contains adds nothing, now or
      later: the string comes out as if it had never been registered,
      whatever is registered after it. */
  lemma {:induction false} ShortOptionShadowed(opts: seq<CmdOpt>, o: CmdOpt, later: seq<CmdOpt>)
    requires Contains(ShortOptions(opts), o.short)
    ensures ShortOptions(opts + [o] + later) == ShortOptions(opts + later)
    decreases |later|
  {
    if later == [] {
      assert opts + [o] + later == opts + [o];
      assert (opts + [o])[..|opts|] == opts;
      assert opts + later == opts;
    } else {
      var init := later[..|later| - 1];
      ShortOptionShadowed(opts, o, init);
      assert (opts + [o] + later)[..|opts| + 1 + |later| - 1] == opts + [o] + init;
      assert (opts + later)[..|opts| + |later| - 1] == opts + init;
    }
  }

  /** The elements of `xs` that satisfy `keep`, in order. */
  function Filter<T>(xs: seq<T>, keep: T -> bool): seq<T> {
    if xs == [] then [] else (if keep(xs[0]) then [xs[0]] else []) + Filter(xs[1..], keep)
  }

  lemma {:induction false} FilterMembers<T>(xs: seq<T>, keep: T -> bool)
    ensures forall x :: x in Filter(xs, keep) <==> x in xs && keep(x)
    decreases |xs|
  {
    if xs != [] {
      FilterMembers(xs[1..], keep);
      assert xs == [xs[0]] + xs[1..];
    }
  }

  lemma {:induction false} FilterConcat<T>(a: seq<T>, b: seq<T>, keep: T -> bool)
    ensures Filter(a + b, keep) == Filter(a, keep) + Filter(b, keep)
    decreases |a|
  {
    if a == [] {
      assert a + b == b;
    } else {
      var head := if keep(a[0]) then [a[0]] else [];
      assert (a + b)[0] == a[0];
      assert (a + b)[1..] == a[1..] + b;
      FilterConcat(a[1..], b, keep);
      calc {
        Filter(a + b, keep);
        head + Filter(a[1..] + b, keep);
        head + (Filter(a[1..], keep) + Filter(b, keep));
        (head + Filter(a[1..], keep)) + Filter(b, keep);
        Filter(a, keep) + Filter(b, keep);
      }
    }
  }

  lemma {:induction false} FilterPartition<T>(xs: seq<T>, keep: T -> bool, drop: T -> bool)
    requires forall x :: drop(x) == !keep(x)
    ensures multiset(Filter(xs, keep)) + multiset(Filter(xs, drop)) == multiset(xs)
    decreases |xs|
  {
    if xs != [] {
      FilterPartition(xs[1..], keep, drop);
      var kept := if keep(xs[0]) then [xs[0]] else [];
      var dropped := if drop(xs[0]) then [xs[0]] else [];
      assert multiset(kept) + multiset(dropped) == multiset{xs[0]};
      assert multiset(Filter(xs, keep)) == multiset(kept) + multiset(Filter(xs[1..], keep));
      assert multiset(Filter(xs, drop)) == multiset(dropped) + multiset(Filter(xs[1..], drop));
      assert xs == [xs[0]] + xs[1..];
    }
  }

  /** An argument names a configuration file when its last four characters
      are ".cfg". */
  predicate IsCfg(arg: string) {
    LastFour(arg) == ".cfg"
  }

  predicate IsPlain(arg: string) {
    !IsCfg(arg)
  }

  /** The positional arguments that are configuration files, in order. */
  function CfgFiles(args: seq<string>): seq<string> {
    Filter(args, IsCfg)
  }

  /** The other positional arguments, in order. */
  function PlainArgs(args: seq<string>): seq<string> {
    Filter(args, IsPlain)
  }

  /** The configuration files are exactly the arguments ending in ".cfg",
      and the other arguments exactly the rest. */
  lemma SplitArgumentsMembers(args: seq<string>)
    ensures forall x :: x in CfgFiles(args) <==> x in args && IsCfg(x)
    ensures forall x :: x in PlainArgs(args) <==> x in args && !IsCfg(x)
  {
    FilterMembers(args, IsCfg);
    FilterMembers(args, IsPlain);
  }

  /** Each list keeps the order of the command line: splitting a
      concatenation is concatenating the splits. */
  lemma SplitArgumentsConcat(a: seq<string>, b: seq<string>)
    ensures CfgFiles(a + b) == CfgFiles(a) + CfgFiles(b)
    ensures PlainArgs(a + b) == PlainArgs(a) + PlainArgs(b)
  {
    FilterConcat(a, b, IsCfg);
    FilterConcat(a, b, IsPlain);
  }

  /** Every argument lands in exactly one of the two lists. */
  lemma SplitArgumentsPartition(a: seq<string>)
    ensures multiset(CfgFiles(a)) + multiset(PlainArgs(a)) == multiset(a)
  {
    FilterPartition(a, IsCfg, IsPlain);
  }

  /** `__parseCommandLine`: a getopt error shows the help, which ends the
      process with code 0; otherwise the switches are kept and the
      arguments split. */
  function ParseSpec(c: Config, env: Environment): (Option<int>, Config) {
    match env.gnuGetopt(Arguments(env.argv), ShortOptions(c.options), LongOptions(c.options))
    case GetoptError(_) => (Some(0), c)
    case Parsed(opts, args) =>
      (None, c.(cliFiles := CfgFiles(args), args := PlainArgs(args), parsed := opts, isParsed := true))
  }

  // ---------------------------------------------------------------------------
  // The switch callbacks
  // ---------------------------------------------------------------------------

  /** `__setOptionByCmd`: "key=value", split at every "=" and re-joined after
      the first. */
  function OptionSwitch(c: Config, value: string, program: string): (Reply, Config) {
    var valueList := Split(value, '=');
    if |valueList| < 2 then
      (Replied(false, "-o expects a option=value argument.\nFor example " + program + " -o Port=1234"), c)
    else match SetOptionValue(c, valueList[0], Join(valueList[1..], '='))
      case None => (Interrupts(Thrown(IndexErrorMessage)), c)
      case Some(c') => (Replied(true, ""), c')
  }

  /** The key is the text before the first "=" and the value everything
      after it; a value without "=" is refused and an empty key raises. */
  lemma OptionSwitchSplitsAtFirstEquals(c: Config, value: string, program: string)
    ensures '=' !in value ==> OptionSwitch(c, value, program).1 == c
    ensures '=' !in value ==> OptionSwitch(c, value, program).0.Replied?
    ensures '=' !in value ==> !OptionSwitch(c, value, program).0.ok
    ensures '=' in value && IndexOf(value, '=') == 0 ==>
              OptionSwitch(c, value, program) == (Interrupts(Thrown(IndexErrorMessage)), c)
    ensures '=' in value && IndexOf(value, '=') > 0 ==>
              var key := value[..IndexOf(value, '=')];
              OptionSwitch(c, value, program) ==
                (Replied(true, ""),
                 c.(cfg := c.cfg[AbsolutePath(c.section, key).value := value[IndexOf(value, '=') + 1..]]))
  {
    if '=' in value {
      SplitAtFirst(value, '=');
    }
  }

  /** `__setSectionByCmd`: only an absolute section is accepted. */
  function SectionSwitch(c: Config, value: string): (r: (Reply, Config))
    ensures value == "" ==> r == (Interrupts(Thrown(IndexErrorMessage)), c)
    ensures r.0.Replied? && r.0.ok <==> value != "" && value[0] == '/'
    ensures r.0.Replied? && r.0.ok ==> r.1 == c.(section := value)
    ensures !(r.0.Replied? && r.0.ok) ==> r.1 == c
  {
    if value == "" then (Interrupts(Thrown(IndexErrorMessage)), c)
    else if value[0] != '/' then (Replied(false, value + " is not a valid section. It should start with '/'"), c)
    else (Replied(true, ""), c.(section := value))
  }

  /** The value stored by `-c`. */
  function UseCertFlag(value: string): (flag: string)
    ensures flag == "yes" <==> Lower(value) in ["y", "yes", "true"]
    ensures flag == "yes" || flag == "no"
  {
    if Lower(value) in ["y", "yes", "true"] then "yes" else "no"
  }

  /** `__setUseCertByCmd`: always succeeds. */
  function CertSwitch(c: Config, value: string): (r: (Reply, Config))
    ensures r == (Replied(true, ""), c.(cfg := c.cfg[UseCertOption := UseCertFlag(value)]))
  {
    match SetOptionValue(c, UseCertOption, UseCertFlag(value))
    case None => (Interrupts(Thrown(IndexErrorMessage)), c)
    case Some(c') => (Replied(true, ""), c')
  }

  /** Calling the callback of a switch with its value. A component's own
      callback is given as a reply function and leaves the state alone. */
  function Call(c: Config, callback: Callback, value: string, env: Environment): (Reply, Config)
    requires !callback.NoCallback?
  {
    match callback
    case SetOptionCallback => OptionSwitch(c, value, Program(env.argv))
    case SetSectionCallback => SectionSwitch(c, value)
    case UseCertCallback => CertSwitch(c, value)
    case ShowHelpCallback => (Interrupts(Exited(0)), c)
    case CustomCallback(id) => (env.custom(id, value), c)
  }

  // ---------------------------------------------------------------------------
  // Dispatching the parsed switches
  // ---------------------------------------------------------------------------

  /** A parsed switch, with its dashes removed, names a registered option by
      its short form without ":" or its long form without "=". */
  predicate Matches(name: string, opt: CmdOpt) {
    name == Without(opt.short, ':') || name == Without(opt.long, '=')
  }

  function NotADictMessage(name: string): string {
    "Callback for switch '" + name + "' does not return S_OK or S_ERROR"
  }

  /** The state of the dispatch loop: the configuration, the messages
      collected and, once an exception or an exit escaped, what it was. */
  datatype Dispatch = Dispatch(conf: Config, errors: seq<string>, stop: Option<Interrupt>)

  /** One (switch, registered option) pair of the dispatch loop. */
  function Step(d: Dispatch, name: string, value: string, opt: CmdOpt, env: Environment): Dispatch {
    if d.stop.Some? || !Matches(name, opt) then d
    else if opt.callback.NoCallback? then d.(conf := d.conf.(unprocessed := d.conf.unprocessed + [(name, value)]))
    else
      var (reply, c) := Call(d.conf, opt.callback, value, env);
      match reply
      case Replied(ok, message) => Dispatch(c, if ok then d.errors else d.errors + [message], None)
      case NotADict => Dispatch(c, d.errors + [NotADictMessage(name)], None)
      case Interrupts(why) => Dispatch(c, d.errors, Some(why))
  }

  /** A matching option with a callback: an error reply adds its message,
      a reply that is not a dictionary adds the message naming the switch,
      a successful reply adds nothing, and an exception or exit stops the
      loop; in every case the configuration is the one the callback left. */
  lemma StepCallbackReplies(d: Dispatch, name: string, value: string, opt: CmdOpt, env: Environment)
    requires d.stop.None? && Matches(name, opt) && !opt.callback.NoCallback?
    ensures var (reply, c) := Call(d.conf, opt.callback, value, env);
            var d' := Step(d, name, value, opt, env);
            && (reply.Replied? && !reply.ok ==> d' == Dispatch(c, d.errors + [reply.message], None))
            && (reply.Replied? && reply.ok ==> d' == Dispatch(c, d.errors, None))
            && (reply.NotADict? ==> d' == Dispatch(c, d.errors + [NotADictMessage(name)], None))
            && (reply.Interrupts? ==> d' == Dispatch(c, d.errors, Some(reply.why)))
  {
  }

  /** One switch against every registered option, in registration order. */
  function DispatchOne(d: Dispatch, name: string, value: string, defs: seq<CmdOpt>, env: Environment): Dispatch
    decreases |defs|
  {
    if defs == [] then d
    else Step(DispatchOne(d, name, value, defs[..|defs| - 1], env), name, value, defs[|defs| - 1], env)
  }

  /** Every parsed switch, in command-line order. */
  function DispatchAll(d: Dispatch, switches: seq<(string, string)>, defs: seq<CmdOpt>, env: Environment): Dispatch
    decreases |switches|
  {
    if switches == [] then d
    else
      var prev := DispatchAll(d, switches[..|switches| - 1], defs, env);
      var sw := switches[|switches| - 1];
      DispatchOne(prev, Without(sw.0, '-'), sw.1, defs, env)
  }

  /** The number of registered options a switch name matches. */
  function MatchCount(name: string, defs: seq<CmdOpt>): nat
    decreases |defs|
  {
    if defs == [] then 0
    else MatchCount(name, defs[..|defs| - 1]) + (if Matches(name, defs[|defs| - 1]) then 1 else 0)
  }

  function Copies<T>(x: T, n: nat): (r: seq<T>)
    ensures |r| == n && forall k | 0 <= k < n :: r[k] == x
  {
    seq(n, _ => x)
  }

  /** A switch that matches no registered option changes nothing. */
  lemma {:induction false} UnmatchedSwitchIgnored(d: Dispatch, name: string, value: string, defs: seq<CmdOpt>,
                                                  env: Environment)
    requires forall k | 0 <= k < |defs| :: !Matches(name, defs[k])
    ensures DispatchOne(d, name, value, defs, env) == d
    decreases |defs|
  {
    if defs != [] {
      var init := defs[..|defs| - 1];
      assert forall k | 0 <= k < |init| :: init[k] == defs[k];
      UnmatchedSwitchIgnored(d, name, value, init, env);
    }
  }

  /** A switch whose matching options have no callback is appended to the
      unprocessed switches, once per matching option, and nothing else
      changes. */
  lemma {:induction false} SwitchWithoutCallbackUnprocessed(d: Dispatch, name: string, value: string,
                                                            defs: seq<CmdOpt>, env: Environment)
    requires d.stop.None?
    requires forall k | 0 <= k < |defs| && Matches(name, defs[k]) :: defs[k].callback.NoCallback?
    ensures DispatchOne(d, name, value, defs, env) ==
              d.(conf := d.conf.(unprocessed := d.conf.unprocessed + Copies((name, value), MatchCount(name, defs))))
    decreases |defs|
  {
    if defs == [] {
      assert d.conf.unprocessed + Copies((name, value), 0) == d.conf.unprocessed;
    } else {
      var init := defs[..|defs| - 1];
      assert forall k | 0 <= k < |init| :: init[k] == defs[k];
      SwitchWithoutCallbackUnprocessed(d, name, value, init, env);
      var n := MatchCount(name, init);
      if Matches(name, defs[|defs| - 1]) {
        assert Copies((name, value), n) + [(name, value)] == Copies((name, value), n + 1);
      }
    }
  }

  /** The parts of the state a dispatch may change: the store, the current
      section and, by appending, the unprocessed switches; messages are only
      appended. */
  predicate DispatchEffects(d: Dispatch, d': Dispatch) {
    && d'.conf == d.conf.(cfg := d'.conf.cfg, section := d'.conf.section, unprocessed := d'.conf.unprocessed)
    && d.conf.unprocessed <= d'.conf.unprocessed
    && d.errors <= d'.errors
  }

  lemma EffectsTransitive(d1: Dispatch, d2: Dispatch, d3: Dispatch)
    requires DispatchEffects(d1, d2) && DispatchEffects(d2, d3)
    ensures DispatchEffects(d1, d3)
  {
  }

  lemma CallEffects(c: Config, callback: Callback, value: string, env: Environment)
    requires !callback.NoCallback?
    ensures var c' := Call(c, callback, value, env).1;
            c' == c.(cfg := c'.cfg, section := c'.section)
  {
    if callback.SetOptionCallback? {
      var valueList := Split(value, '=');
      if |valueList| >= 2 {
        var r := SetOptionValue(c, valueList[0], Join(valueList[1..], '='));
      }
    }
  }

  lemma StepEffects(d: Dispatch, name: string, value: string, opt: CmdOpt, env: Environment)
    ensures DispatchEffects(d, Step(d, name, value, opt, env))
  {
    if d.stop.None? && Matches(name, opt) && !opt.callback.NoCallback? {
      CallEffects(d.conf, opt.callback, value, env);
    }
  }

  lemma {:induction false} DispatchOneEffects(d: Dispatch, name: string, value: string, defs: seq<CmdOpt>,
                                              env: Environment)
    ensures DispatchEffects(d, DispatchOne(d, name, value, defs, env))
    decreases |defs|
  {
    if defs != [] {
      var prev := DispatchOne(d, name, value, defs[..|defs| - 1], env);
      DispatchOneEffects(d, name, value, defs[..|defs| - 1], env);
      StepEffects(prev, name, value, defs[|defs| - 1], env);
      EffectsTransitive(d, prev, Step(prev, name, value, defs[|defs| - 1], env));
    }
  }

  /** Dispatching changes only the store, the current section and the
      unprocessed switches, and only appends messages. */
  lemma {:induction false} DispatchAllEffects(d: Dispatch, switches: seq<(string, string)>, defs: seq<CmdOpt>,
                                              env: Environment)
    ensures DispatchEffects(d, DispatchAll(d, switches, defs, env))
    decreases |switches|
  {
    if switches != [] {
      var prev := DispatchAll(d, switches[..|switches| - 1], defs, env);
      DispatchAllEffects(d, switches[..|switches| - 1], defs, env);
      var sw := switches[|switches| - 1];
      DispatchOneEffects(prev, Without(sw.0, '-'), sw.1, defs, env);
      EffectsTransitive(d, prev, DispatchOne(prev, Without(sw.0, '-'), sw.1, defs, env));
    }
  }

  /** Once something escaped, the rest of the loop does nothing. */
  lemma {:induction false} StoppedDispatchIdle(d: Dispatch, name: string, value: string, defs: seq<CmdOpt>,
                                               env: Environment)
    requires d.stop.Some?
    ensures DispatchOne(d, name, value, defs, env) == d
    decreases |defs|
  {
    if defs != [] {
      StoppedDispatchIdle(d, name, value, defs[..|defs| - 1], env);
    }
  }

  // ---------------------------------------------------------------------------
  // Section selection, user data, initialisation
  // ---------------------------------------------------------------------------

  /** `__setDefaultSection` */
  function WithSection(c: Config, section: string): Config {
    c.(section := section, loggingSection := section)
  }

  /** The section chosen from the component type; a failed lookup of the
      service or agent section is a message and changes nothing. */
  function DefaultSection(c: Config, env: Environment): (Option<string>, Config) {
    match c.componentType
    case Service =>
      (match env.serviceSection(c.componentName)
       case Ok(s) => (None, WithSection(c, s))
       case Err(e) => (Some(e), c))
    case Agent =>
      (match env.agentSection(c.componentName)
       case Ok(s) => (None, WithSection(c, s))
       case Err(e) => (Some(e), c))
    case Script =>
      if c.componentName != "" && c.componentName[0] == '/' then
        (None, WithSection(c, c.componentName).(componentName := c.componentName[1..]))
      else (None, WithSection(c, "/Scripts/" + c.componentName))
    case Unset => (None, WithSection(c, "/"))
  }

  /** A script or a component of no type always gets an absolute section. */
  lemma ScriptSectionIsAbsolute(c: Config, env: Environment)
    requires c.componentType == Script || c.componentType == Unset
    ensures var (err, c') := DefaultSection(c, env);
            err.None? && c'.section != "" && c'.section[0] == '/' && c'.loggingSection == c'.section
    ensures c.componentType == Script && c.componentName != "" && c.componentName[0] == '/' ==>
              DefaultSection(c, env).1.componentName == c.componentName[1..]
  {
  }

  /** How `__addUserDataToConfiguration` ends. */
  datatype UserData = Completed(errors: seq<string>) | Interrupted(why: Interrupt)

  function UserDataSpec(c: Config, env: Environment): (UserData, Config) {
    var (exit, c1) := if c.isParsed then (None, c) else ParseSpec(c, env);
    if exit.Some? then (Interrupted(Exited(exit.value)), c1)
    else UserDataAfterParse(c1, env)
  }

  /** Everything after the command line is parsed: the configuration files,
      the section, the switches. */
  function UserDataAfterParse(c1: Config, env: Environment): (UserData, Config) {
    var loaded := env.loadFiles(c1.cliFiles);
    var c2 := c1.(cfg := c1.cfg + loaded.options);
    var (sectionError, c3) := DefaultSection(c2, env);
    var errors := loaded.errors + (if sectionError.Some? then [sectionError.value] else []);
    var d := DispatchAll(Dispatch(c3.(unprocessed := []), errors, None), c3.parsed, c3.options, env);
    (if d.stop.Some? then Interrupted(d.stop.value) else Completed(d.errors), d.conf)
  }

  /** `__checkMandatoryOptions`: an empty entry raises (caught, its message
      returned); otherwise an error with no message when a mandatory option
      is absent. */
  function MandatoryStatus(c: Config): (r: Result<(), string>)
    ensures r.Ok? <==> forall p | p in c.mandatory :: p != "" && IsSet(c.cfg, AbsolutePath(c.section, p).value)
  {
    if "" in c.mandatory then Err(IndexErrorMessage)
    else if !AllSet(c.cfg, c.section, c.mandatory) then Err("")
    else Ok(())
  }

  /** Every non-empty path of `paths` is set, resolved against `section`. */
  predicate AllSet(cfg: map<string, string>, section: string, paths: seq<string>) {
    forall p | p in paths && p != "" :: IsSet(cfg, AbsolutePath(section, p).value)
  }

  lemma AllSetStep(cfg: map<string, string>, section: string, paths: seq<string>, p: string)
    ensures AllSet(cfg, section, paths + [p]) <==>
              AllSet(cfg, section, paths) && (p != "" ==> IsSet(cfg, AbsolutePath(section, p).value))
  {
    assert forall q :: q in paths + [p] <==> q in paths || q == p;
  }

  function Interruption(why: Interrupt): Outcome {
    match why
    case Thrown(message) => Failed(message)
    case Exited(code) => ProcessExit(code)
  }

  /** Collected messages are reported joined by newlines; without any, the
      mandatory options decide. */
  function Verdict(errors: seq<string>, mandatory: Result<(), string>): (r: Outcome)
    ensures r == Succeeded <==> errors == [] && mandatory.Ok?
    ensures errors != [] ==> r.Failed? && |r.message| > 0 && r.message[0] == '\n'
  {
    if errors != [] then Failed("\n" + Join(errors, '\n'))
    else if mandatory.Err? then Failed(mandatory.error)
    else Succeeded
  }

  /** The errors are listed one per line after the leading newline: when no
      error spans lines, splitting the rest of the message on newlines gives
      back the errors in order. */
  lemma VerdictListsErrors(errors: seq<string>, mandatory: Result<(), string>)
    requires errors != []
    requires forall k | 0 <= k < |errors| :: '\n' !in errors[k]
    ensures var r := Verdict(errors, mandatory);
            && r.Failed? && |r.message| > 0 && r.message[0] == '\n'
            && Split(r.message[1..], '\n') == errors
  {
    var r := Verdict(errors, mandatory);
    assert r.message[1..] == Join(errors, '\n');
    SplitJoin(errors, '\n');
  }

  /** `initialize` */
  function InitializeSpec(c: Config, componentName: string, env: Environment): (Outcome, Config) {
    if c.initialized then (Succeeded, c)
    else
      var c1 := c.(initialized := true, isParsed := true);
      var c2 := if c1.componentType == Unset then c1.(componentName := componentName, componentType := Script) else c1;
      var (step, c3) := UserDataSpec(c2, env);
      match step
      case Interrupted(why) => (Interruption(why), c3)
      case Completed(errors) => (Verdict(errors, MandatoryStatus(c3)), c3)
  }

  /** `loadUserData` */
  function LoadUserDataSpec(c: Config, env: Environment): (Outcome, Config) {
    if c.initialized then (Succeeded, c)
    else
      var (step, c1) := UserDataSpec(c.(initialized := true), env);
      match step
      case Interrupted(why) => (Interruption(why), c1)
      case Completed(errors) =>
        var a := ApplyDefaults(c1.section, c1.cfg, c1.optional);
        var c2 := c1.(cfg := a.cfg);
        if a.raised then (Failed(IndexErrorMessage), c2)
        else (Verdict(errors, MandatoryStatus(c2)), c2)
  }

  /** Reading the user data keeps the registered options, the mandatory and
      optional entries and the initialisation flag. */
  lemma UserDataKeeps(c: Config, env: Environment)
    ensures var c' := UserDataSpec(c, env).1;
            && c'.options == c.options && c'.mandatory == c.mandatory && c'.optional == c.optional
            && c'.initialized == c.initialized && c'.componentType == c.componentType
            && (c.isParsed ==> c'.isParsed && c'.parsed == c.parsed && c'.cliFiles == c.cliFiles && c'.args == c.args)
  {
    var pr := if c.isParsed then (None, c) else ParseSpec(c, env);
    var c1 := pr.1;
    assert c1 == c.(cliFiles := c1.cliFiles, args := c1.args, parsed := c1.parsed, isParsed := c1.isParsed);
    assert c.isParsed ==> c1 == c;
    if pr.0.None? {
      var loaded := env.loadFiles(c1.cliFiles);
      var c2 := c1.(cfg := c1.cfg + loaded.options);
      var sel := DefaultSection(c2, env);
      var c3 := sel.1;
      SectionKeeps(c2, env);
      var errors := loaded.errors + (if sel.0.Some? then [sel.0.value] else []);
      var d0 := Dispatch(c3.(unprocessed := []), errors, None);
      DispatchAllEffects(d0, c3.parsed, c3.options, env);
      assert UserDataSpec(c, env).1 == DispatchAll(d0, c3.parsed, c3.options, env).conf;
    }
  }

  /** Choosing the section touches only the section, the logging section
      and the component name. */
  lemma SectionKeeps(c: Config, env: Environment)
    ensures var c' := DefaultSection(c, env).1;
            c' == c.(section := c'.section, loggingSection := c'.loggingSection, componentName := c'.componentName)
  {
  }

  /** Initialisation happens once: a second `initialize` or `loadUserData`
      succeeds and changes nothing. The command line is never parsed by
      `initialize`, and a component of no type becomes a script. */
  lemma {:induction false} InitializeOnce(c: Config, componentName: string, env: Environment, name2: string,
                                          env2: Environment)
    requires !c.initialized
    ensures var c' := InitializeSpec(c, componentName, env).1;
            && c'.initialized && c'.isParsed
            && c'.parsed == c.parsed && c'.cliFiles == c.cliFiles && c'.args == c.args
            && (c.componentType == Unset ==> c'.componentType == Script)
            && (c.componentType != Unset ==> c'.componentType == c.componentType)
            && InitializeSpec(c', name2, env2) == (Succeeded, c')
            && LoadUserDataSpec(c', env2) == (Succeeded, c')
  {
    var c1 := c.(initialized := true, isParsed := true);
    var c2 := if c1.componentType == Unset then c1.(componentName := componentName, componentType := Script) else c1;
    UserDataKeeps(c2, env);
  }

  /** `loadUserData` never replaces a value present after the user data is
      read, and is likewise done once. */
  lemma {:induction false} LoadUserDataDefaults(c: Config, env: Environment, env2: Environment)
    requires !c.initialized
    ensures var (step, c1) := UserDataSpec(c.(initialized := true), env);
            var (r, c') := LoadUserDataSpec(c, env);
            && (step.Completed? ==> forall p | IsSet(c1.cfg, p) :: p in c'.cfg && c'.cfg[p] == c1.cfg[p])
            && c'.initialized
            && LoadUserDataSpec(c', env2) == (Succeeded, c')
  {
    var (step, c1) := UserDataSpec(c.(initialized := true), env);
    UserDataKeeps(c.(initialized := true), env);
    DefaultsNeverOverwrite(c1.section, c1.cfg, c1.optional);
  }
}
