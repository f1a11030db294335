/** `LocalConfiguration`: the object a DIRAC component uses to read its
    command line and its local configuration. Its fields are updated in
    place; `cfg` stands for the global configuration data it writes to.
    Every method is proved to do what LocalConfigurationSpec says of the
    snapshot `State()`. */
module LocalConfigurations {
  import opened Wrappers
  import opened Strings
  import opened LocalConfigurationSpec

  class LocalConfiguration {
    var cfg: map<string, string>
    var currentSectionPath: string
    var loggingSection: string
    var mandatoryEntryList: seq<string>
    var optionalEntryList: seq<(string, string)>
    var commandOptionList: seq<CmdOpt>
    var unprocessedSwitches: seq<(string, string)>
    var parsedOptionList: seq<(string, string)>
    var cliAdditionalCFGFiles: seq<string>
    var commandArgList: seq<string>
    var isParsed: bool
    var componentName: string
    var componentType: ComponentType
    var initialized: bool

    ghost function State(): Config
      reads this
    {
      Config(cfg, currentSectionPath, loggingSection, mandatoryEntryList, optionalEntryList, commandOptionList,
             unprocessedSwitches, parsedOptionList, cliAdditionalCFGFiles, commandArgList, isParsed,
             componentName, componentType, initialized)
    }

    /** A fresh object over the configuration data `store`, with the basic
        switches registered. */
    constructor (defaultSectionPath: string, store: map<string, string>)
      ensures State() == Config(store, defaultSectionPath, "/DIRAC", [], [], BasicOptions(), [], [], [], [],
                                false, "Unknown", Unset, false)
    {
      cfg := store;
      currentSectionPath := defaultSectionPath;
      mandatoryEntryList := [];
      optionalEntryList := [];
      commandOptionList := [];
      unprocessedSwitches := [];
      parsedOptionList := [];
      cliAdditionalCFGFiles := [];
      commandArgList := [];
      isParsed := false;
      componentName := "Unknown";
      componentType := Unset;
      loggingSection := "/DIRAC";
      initialized := false;
      new;
      RegisterCmdOpt("o:", "option=", "Option=value to add", SetOptionCallback);
      RegisterCmdOpt("s:", "section=", "Set base section for relative parsed options", SetSectionCallback);
      RegisterCmdOpt("c:", "cert=", "Use server certificate to connect to Core Services", UseCertCallback);
      RegisterCmdOpt("h", "help", "Shows this help", ShowHelpCallback);
    }

    /** `registerCmdOpt`: the switch is appended; a switch registered twice
        stays in the list twice. */
    method RegisterCmdOpt(shortOption: string, longOption: string, helpString: string, callback: Callback)
      modifies this
      ensures State() == old(State()).(options := old(commandOptionList) + [CmdOpt(shortOption, longOption, helpString, callback)])
    {
      commandOptionList := commandOptionList + [CmdOpt(shortOption, longOption, helpString, callback)];
    }

    /** `addDefaultEntry`; `raised` is the IndexError of an empty path. */
    method AddDefaultEntry(optionPath: string, value: string) returns (raised: bool)
      modifies this
      ensures (raised, State()) == DefaultEntry(old(State()), optionPath, value)
    {
      if optionPath == "" {
        return true;
      }
      raised := false;
      if optionPath[0] == '/' {
        if !IsSet(cfg, optionPath) {
          cfg := cfg[optionPath := value];
        }
      } else {
        optionalEntryList := optionalEntryList + [(optionPath, value)];
      }
    }

    /** The short-option string and the long-option list handed to getopt. */
    method BuildOptionSpec() returns (shortOption: string, longOptionList: seq<string>)
      ensures shortOption == ShortOptions(commandOptionList)
      ensures longOptionList == LongOptions(commandOptionList)
    {
      shortOption := "";
      longOptionList := [];
      var i := 0;
      while i < |commandOptionList|
        invariant 0 <= i <= |commandOptionList|
        invariant shortOption == ShortOptions(commandOptionList[..i])
        invariant longOptionList == LongOptions(commandOptionList[..i])
      {
        var optionTuple := commandOptionList[i];
        assert commandOptionList[..i + 1][..i] == commandOptionList[..i];
        if !Contains(shortOption, optionTuple.short) {
          shortOption := shortOption + optionTuple.short;
        }
        if optionTuple.long !in longOptionList {
          longOptionList := longOptionList + [optionTuple.long];
        }
        i := i + 1;
      }
      assert commandOptionList[..i] == commandOptionList;
    }

    /** `__parseCommandLine`; `exit` is the process exit of the help shown on
        a getopt error. */
    method ParseCommandLine(env: Environment) returns (exit: Option<int>)
      modifies this
      ensures (exit, State()) == ParseSpec(old(State()), env)
    {
      var shortOption, longOptionList := BuildOptionSpec();
      var outcome := env.gnuGetopt(Arguments(env.argv), shortOption, longOptionList);
      if outcome.GetoptError? {
        return Some(0);
      }
      cliAdditionalCFGFiles := CfgFiles(outcome.args);
      commandArgList := PlainArgs(outcome.args);
      parsedOptionList := outcome.opts;
      isParsed := true;
      exit := None;
    }

    /** `__setOptionByCmd` */
    method SetOptionByCmd(value: string, program: string) returns (reply: Reply)
      modifies this
      ensures (reply, State()) == OptionSwitch(old(State()), value, program)
    {
      var valueList := Split(value, '=');
      if |valueList| < 2 {
        return Replied(false, "-o expects a option=value argument.\nFor example " + program + " -o Port=1234");
      }
      var optionPath := AbsolutePath(currentSectionPath, valueList[0]);
      if optionPath.None? {
        return Interrupts(Thrown(IndexErrorMessage));
      }
      cfg := cfg[optionPath.value := Join(valueList[1..], '=')];
      reply := Replied(true, "");
    }

    /** `__setSectionByCmd` */
    method SetSectionByCmd(value: string) returns (reply: Reply)
      modifies this
      ensures (reply, State()) == SectionSwitch(old(State()), value)
    {
      if value == "" {
        return Interrupts(Thrown(IndexErrorMessage));
      }
      if value[0] != '/' {
        return Replied(false, value + " is not a valid section. It should start with '/'");
      }
      currentSectionPath := value;
      reply := Replied(true, "");
    }

    /** `__setUseCertByCmd` */
    method SetUseCertByCmd(value: string) returns (reply: Reply)
      modifies this
      ensures (reply, State()) == CertSwitch(old(State()), value)
    {
      var useCert := "no";
      if Lower(value) in ["y", "yes", "true"] {
        useCert := "yes";
      }
      cfg := cfg[UseCertOption := useCert];
      reply := Replied(true, "");
    }

    /** Calls the callback registered for a switch. */
    method Invoke(callback: Callback, value: string, env: Environment) returns (reply: Reply)
      requires !callback.NoCallback?
      modifies this
      ensures (reply, State()) == Call(old(State()), callback, value, env)
    {
      match callback
      case SetOptionCallback => reply := SetOptionByCmd(value, Program(env.argv));
      case SetSectionCallback => reply := SetSectionByCmd(value);
      case UseCertCallback => reply := SetUseCertByCmd(value);
      case ShowHelpCallback => reply := Interrupts(Exited(0));
      case CustomCallback(id) => reply := env.custom(id, value);
    }

    /** One (switch, registered option) pair of the dispatch loop. */
    method DispatchStep(optionName: string, optionValue: string, definedOptionTuple: CmdOpt, errorsIn: seq<string>,
                        env: Environment) returns (errors: seq<string>, stop: Option<Interrupt>)
      modifies this
      ensures Dispatch(State(), errors, stop) ==
                Step(Dispatch(old(State()), errorsIn, None), optionName, optionValue, definedOptionTuple, env)
    {
      errors, stop := errorsIn, None;
      if optionName == Without(definedOptionTuple.short, ':') || optionName == Without(definedOptionTuple.long, '=') {
        if !definedOptionTuple.callback.NoCallback? {
          var retVal := Invoke(definedOptionTuple.callback, optionValue, env);
          match retVal
          case Replied(ok, message) =>
            if !ok {
              errors := errors + [message];
            }
          case NotADict =>
            errors := errors + [NotADictMessage(optionName)];
          case Interrupts(why) =>
            stop := Some(why);
        } else {
          unprocessedSwitches := unprocessedSwitches + [(optionName, optionValue)];
        }
      }
    }

    /** One parsed switch against every registered option. */
    method DispatchSwitch(optionName: string, optionValue: string, defs: seq<CmdOpt>, errorsIn: seq<string>,
                          env: Environment) returns (errors: seq<string>, stop: Option<Interrupt>)
      modifies this
      ensures Dispatch(State(), errors, stop) ==
                DispatchOne(Dispatch(old(State()), errorsIn, None), optionName, optionValue, defs, env)
    {
      ghost var d0 := Dispatch(State(), errorsIn, None);
      errors, stop := errorsIn, None;
      var j := 0;
      while j < |defs|
        invariant 0 <= j <= |defs|
        invariant DispatchOne(d0, optionName, optionValue, defs[..j], env) == Dispatch(State(), errors, None)
        invariant stop.None?
      {
        assert defs[..j + 1][..j] == defs[..j];
        errors, stop := DispatchStep(optionName, optionValue, defs[j], errors, env);
        if stop.Some? {
          OneStaysStopped(d0, optionName, optionValue, defs, env, j + 1);
          return;
        }
        j := j + 1;
      }
      assert defs[..j] == defs;
    }

    /** The dispatch loop of `__addUserDataToConfiguration`: each parsed
        switch against each registered option; an exception or an exit ends
        it at once. */
    method DispatchSwitches(errorsIn: seq<string>, env: Environment) returns (errors: seq<string>, stop: Option<Interrupt>)
      modifies this
      ensures Dispatch(State(), errors, stop) ==
                DispatchAll(Dispatch(old(State()), errorsIn, None), old(parsedOptionList), old(commandOptionList), env)
    {
      var switches := parsedOptionList;
      var defs := commandOptionList;
      ghost var d0 := Dispatch(State(), errorsIn, None);
      errors, stop := errorsIn, None;
      var i := 0;
      while i < |switches|
        invariant 0 <= i <= |switches|
        invariant DispatchAll(d0, switches[..i], defs, env) == Dispatch(State(), errors, None)
        invariant stop.None?
      {
        assert switches[..i + 1][..i] == switches[..i];
        var optionName := Without(switches[i].0, '-');
        errors, stop := DispatchSwitch(optionName, switches[i].1, defs, errors, env);
        if stop.Some? {
          AllStaysStopped(d0, switches, defs, env, i + 1);
          return;
        }
        i := i + 1;
      }
      assert switches[..i] == switches;
    }

    /** The section selection of `__addUserDataToConfiguration`: a failed
        section lookup is returned as a message. */
    method SetDefaultSection(env: Environment) returns (error: Option<string>)
      modifies this
      ensures (error, State()) == DefaultSection(old(State()), env)
    {
      error := None;
      match componentType
      case Service =>
        var section := env.serviceSection(componentName);
        if section.Err? {
          return Some(section.error);
        }
        currentSectionPath := section.value;
        loggingSection := section.value;
      case Agent =>
        var section := env.agentSection(componentName);
        if section.Err? {
          return Some(section.error);
        }
        currentSectionPath := section.value;
        loggingSection := section.value;
      case Script =>
        if componentName != "" && componentName[0] == '/' {
          currentSectionPath := componentName;
          loggingSection := componentName;
          componentName := componentName[1..];
        } else {
          currentSectionPath := "/Scripts/" + componentName;
          loggingSection := currentSectionPath;
        }
      case Unset =>
        currentSectionPath := "/";
        loggingSection := "/";
    }

    /** `__addUserDataToConfiguration`, without the servers of a disabled
        configuration service and without the remote synchronisation. */
    method AddUserDataToConfiguration(env: Environment) returns (step: UserData)
      modifies this
      ensures (step, State()) == UserDataSpec(old(State()), env)
    {
      ghost var c0 := State();
      if !isParsed {
        var exit := ParseCommandLine(env);
        if exit.Some? {
          return Interrupted(Exited(exit.value));
        }
      }
      assert (if c0.isParsed then (None, c0) else ParseSpec(c0, env)) == (None, State());
      step := ReadUserData(env);
    }

    /** The part of `__addUserDataToConfiguration` after the command line is
        parsed. */
    method ReadUserData(env: Environment) returns (step: UserData)
      modifies this
      ensures (step, State()) == UserDataAfterParse(old(State()), env)
    {
      ghost var c1 := State();
      var loaded := env.loadFiles(cliAdditionalCFGFiles);
      cfg := cfg + loaded.options;
      var errorsList := loaded.errors;
      ghost var c2 := State();
      assert c2 == c1.(cfg := c1.cfg + loaded.options);
      var sectionError := SetDefaultSection(env);
      ghost var c3 := State();
      assert (sectionError, c3) == DefaultSection(c2, env);
      if sectionError.Some? {
        errorsList := errorsList + [sectionError.value];
      }
      unprocessedSwitches := [];
      ghost var d0 := Dispatch(c3.(unprocessed := []), errorsList, None);
      assert d0.conf == State();
      var errors, stop := DispatchSwitches(errorsList, env);
      assert Dispatch(State(), errors, stop) == DispatchAll(d0, c3.parsed, c3.options, env);
      // an exception or an exit from a callback ends the call here
      step := if stop.Some? then Interrupted(stop.value) else Completed(errors);
      assert errorsList == loaded.errors + (if sectionError.Some? then [sectionError.value] else []);
    }

    /** `__checkMandatoryOptions` */
    method CheckMandatoryOptions() returns (status: Result<(), string>)
      ensures status == MandatoryStatus(State())
    {
      var entries, section, store := mandatoryEntryList, currentSectionPath, cfg;
      var isMandatoryMissing := false;
      var i := 0;
      while i < |entries|
        invariant 0 <= i <= |entries|
        invariant "" !in entries[..i]
        invariant !isMandatoryMissing <==> AllSet(store, section, entries[..i])
      {
        assert entries[..i + 1] == entries[..i] + [entries[i]];
        AllSetStep(store, section, entries[..i], entries[i]);
        var optionPath := AbsolutePath(section, entries[i]);
        if optionPath.None? {
          assert entries[i] in entries;
          return Err(IndexErrorMessage);
        }
        if !IsSet(store, optionPath.value) {
          isMandatoryMissing := true;
        }
        i := i + 1;
      }
      assert entries[..i] == entries;
      if isMandatoryMissing {
        return Err("");
      }
      return Ok(());
    }

    /** The end shared by `initialize` and `loadUserData` once the user data
        is read. */
    method Conclude(step: UserData) returns (r: Outcome)
      ensures step.Interrupted? ==> r == Interruption(step.why)
      ensures step.Completed? ==> r == Verdict(step.errors, MandatoryStatus(State()))
    {
      match step
      case Interrupted(why) =>
        r := Interruption(why);
      case Completed(errors) =>
        if errors != [] {
          return Failed("\n" + Join(errors, '\n'));
        }
        var status := CheckMandatoryOptions();
        r := if status.Ok? then Succeeded else Failed(status.error);
    }

    /** `initialize` */
    method Initialize(name: string, env: Environment) returns (r: Outcome)
      modifies this
      ensures (r, State()) == InitializeSpec(old(State()), name, env)
    {
      if initialized {
        return Succeeded;
      }
      initialized := true;
      // the command line counts as parsed from here on
      isParsed := true;
      if componentType == Unset {
        componentName := name;
        componentType := Script;
      }
      var step := AddUserDataToConfiguration(env);
      r := Conclude(step);
    }

    /** The queued defaults of `loadUserData`, each written only when its
        option is absent; `raised` is the IndexError of an empty path. */
    method ApplyOptionalDefaults() returns (raised: bool)
      modifies this
      ensures var a := ApplyDefaults(old(currentSectionPath), old(cfg), old(optionalEntryList));
              State() == old(State()).(cfg := a.cfg) && raised == a.raised
    {
      cfg, raised := ApplyEntries(currentSectionPath, cfg, optionalEntryList);
    }

    /** `loadUserData` */
    method LoadUserData(env: Environment) returns (r: Outcome)
      modifies this
      ensures (r, State()) == LoadUserDataSpec(old(State()), env)
    {
      if initialized {
        return Succeeded;
      }
      initialized := true;
      var step := AddUserDataToConfiguration(env);
      if step.Interrupted? {
        return Interruption(step.why);
      }
      var raised := ApplyOptionalDefaults();
      if raised {
        return Failed(IndexErrorMessage);
      }
      r := Conclude(step);
    }
  }

  lemma {:induction false} OneStaysStopped(d: Dispatch, name: string, value: string, defs: seq<CmdOpt>,
                                           env: Environment, j: nat)
    requires 0 < j <= |defs|
    requires DispatchOne(d, name, value, defs[..j], env).stop.Some?
    ensures DispatchOne(d, name, value, defs, env) == DispatchOne(d, name, value, defs[..j], env)
    decreases |defs| - j
  {
    if j < |defs| {
      assert defs[..j + 1][..j] == defs[..j];
      OneStaysStopped(d, name, value, defs, env, j + 1);
    } else {
      assert defs[..j] == defs;
    }
  }

  lemma {:induction false} AllStaysStopped(d0: Dispatch, switches: seq<(string, string)>, defs: seq<CmdOpt>,
                                           env: Environment, i: nat)
    requires 0 < i <= |switches|
    requires DispatchAll(d0, switches[..i], defs, env).stop.Some?
    ensures DispatchAll(d0, switches, defs, env) == DispatchAll(d0, switches[..i], defs, env)
    decreases |switches| - i
  {
    if i < |switches| {
      assert switches[..i + 1][..i] == switches[..i];
      var sw := switches[i];
      StoppedDispatchIdle(DispatchAll(d0, switches[..i], defs, env), Without(sw.0, '-'), sw.1, defs, env);
      AllStaysStopped(d0, switches, defs, env, i + 1);
    } else {
      assert switches[..i] == switches;
    }
  }

  /** The loop over the queued defaults of `loadUserData`: each is written
      to the store only when its option is not set; an empty path raises and
      ends the loop with the store as it is. */
  method ApplyEntries(section: string, store: map<string, string>, entries: seq<(string, string)>)
    returns (result: map<string, string>, raised: bool)
    ensures ApplyDefaults(section, store, entries) == Applied(result, raised)
  {
    result := store;
    var i := 0;
    while i < |entries|
      invariant 0 <= i <= |entries|
      invariant ApplyDefaults(section, store, entries[..i]) == Applied(result, false)
    {
      var optionTuple := entries[i];
      DefaultsNext(section, store, entries, i);
      var optionPath := AbsolutePath(section, optionTuple.0);
      if optionPath.None? {
        DefaultsStayRaised(section, store, entries, i + 1);
        return result, true;
      }
      if !IsSet(result, optionPath.value) {
        result := result[optionPath.value := optionTuple.1];
      }
      i := i + 1;
    }
    assert entries[..i] == entries;
    raised := false;
  }

  /** One more queued default, as the loop of `loadUserData` applies it. */
  lemma DefaultsNext(section: string, cfg: map<string, string>, entries: seq<(string, string)>, i: nat)
    requires i < |entries|
    ensures var prev := ApplyDefaults(section, cfg, entries[..i]);
            var entry := entries[i];
            ApplyDefaults(section, cfg, entries[..i + 1]) ==
              if prev.raised then prev
              else match AbsolutePath(section, entry.0)
                case None => prev.(raised := true)
                case Some(p) => if IsSet(prev.cfg, p) then prev else prev.(cfg := prev.cfg[p := entry.1])
  {
    assert entries[..i + 1][..i] == entries[..i];
  }

  /** Once a queued default has raised, the later ones change nothing. */
  lemma {:induction false} DefaultsStayRaised(section: string, cfg: map<string, string>,
                                              entries: seq<(string, string)>, i: nat)
    requires 0 < i <= |entries|
    requires ApplyDefaults(section, cfg, entries[..i]).raised
    ensures ApplyDefaults(section, cfg, entries) == ApplyDefaults(section, cfg, entries[..i])
    decreases |entries| - i
  {
    if i < |entries| {
      assert entries[..i + 1][..i] == entries[..i];
      DefaultsStayRaised(section, cfg, entries, i + 1);
    } else {
      assert entries[..i] == entries;
    }
  }
}
