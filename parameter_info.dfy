/** Runtime-parameter information (tParameterInfo): the annotation of a
    parameter port that says where its value comes from — a command-line
    option, an entry in the configuration file, or a default set in
    finstruct — and the rule that decides which finstructable group is
    responsible for connecting parameters to the configuration file. */
module ParameterInfos {
  import opened Common
  import opened Elements
  import opened ConfigTree
  import opened ConfigFiles
  import opened ConfigNodes
  import opened Values

  // ---------------------------------------------------------------------------
  // Responsibility for configuration-file connections

  /** The group `GetParentWithFlags(FINSTRUCTABLE_GROUP)` climbs to when
      repeated until there is no finstructable group above. */
  function OutermostGroup(es: ElementTree, g: ElementId): (r: ElementId)
    requires ValidTree(es)
    decreases g
    ensures r == g || (StrictAncestor(es, r, g) && IsFinstructableGroup(es, r))
    ensures ParentGroup(es, r).None?
  {
    match ParentGroup(es, g)
    case None => g
    case Some(p) =>
      StrictAncestorsAreSmaller(es);
      var r := OutermostGroup(es, p);
      if r != p then StrictAncestorTrans(es, r, p, g); r else r
  }

  lemma StrictAncestorTrans(es: ElementTree, a: ElementId, b: ElementId, c: ElementId)
    requires StrictAncestor(es, a, b) && StrictAncestor(es, b, c)
    ensures StrictAncestor(es, a, c)
  {
    AncestorOrSelfTrans(es, a, b, Parent(es, c).value);
  }

  lemma {:induction false} AncestorOrSelfTrans(es: ElementTree, a: ElementId, b: ElementId, c: ElementId)
    requires StrictAncestor(es, a, b) && AncestorOrSelf(es, b, c)
    decreases c
    ensures AncestorOrSelf(es, a, c)
  {
    if b != c {
      AncestorOrSelfTrans(es, a, b, Parent(es, c).value);
    }
  }

  /** The group in charge of the configuration file that sits at `c`: `c`
      itself when it is a finstructable group, else the nearest one above. */
  function ConfigGroup(es: ElementTree, c: ElementId): Option<ElementId>
    requires ValidTree(es)
  {
    if IsFinstructableGroup(es, c) then Some(c) else ParentGroup(es, c)
  }

  /** Reference rule: with no configuration file the group is responsible
      when nothing is above it; otherwise the configuration file's group
      is; when the file has no group (it sits at the runtime), the
      outermost group above `group` is. */
  function Responsible(es: ElementTree, files: map<ElementId, ConfigFile>, group: ElementId, ap: ElementId): bool
    requires ValidTree(es)
    reads files.Values
  {
    match Find(es, files, ap)
    case None => ParentGroup(es, group).None?
    case Some(c) =>
      match ConfigGroup(es, c)
      case Some(g) => g == group
      case None => OutermostGroup(es, group) == group
  }

  /** tParameterInfo::IsFinstructableGroupResponsibleForConfigFileConnections */
  method IsFinstructableGroupResponsibleForConfigFileConnections(es: ElementTree, files: map<ElementId, ConfigFile>,
                                                               group: ElementId, ap: ElementId)
    returns (b: bool)
    requires ValidTree(es)
    ensures b == Responsible(es, files, group, ap)
  {
    var cf := Find(es, files, ap);
    if cf.None? {
      return ParentGroup(es, group).None?;
    }
    var configElement := cf.value;
    var responsible := if IsFinstructableGroup(es, configElement) then Some(configElement)
                       else ParentGroup(es, configElement);
    if responsible.None? {
      var r := group;
      StrictAncestorsAreSmaller(es);
      while ParentGroup(es, r).Some?
        invariant OutermostGroup(es, r) == OutermostGroup(es, group)
        decreases r
      {
        r := ParentGroup(es, r).value;
      }
      responsible := Some(r);
    }
    return responsible.value == group;
  }

  /** The outermost group above `g` is `g` exactly when no finstructable
      group is above it, so without a group at the configuration file the
      rule reduces to the one without a file. */
  lemma ResponsibleWithoutConfigGroup(es: ElementTree, files: map<ElementId, ConfigFile>, group: ElementId, ap: ElementId)
    requires ValidTree(es)
    requires Find(es, files, ap).None? || ConfigGroup(es, Find(es, files, ap).value).None?
    ensures Responsible(es, files, group, ap) <==>
      forall a: ElementId :: StrictAncestor(es, a, group) ==> !IsFinstructableGroup(es, a)
  {
    StrictAncestorsAreSmaller(es);
    var r := OutermostGroup(es, group);
    if ParentGroup(es, group).Some? {
      assert r != group;
    }
  }

  // ---------------------------------------------------------------------------
  // The parameter port and where its value may come from

  /** The port a parameter info annotates: its element and whether its type
      is a data-flow type (only those can be loaded). */
  datatype Port = Port(element: ElementId, dataFlow: bool)

  /** What loading reads: the elements, the configuration files and config
      nodes, the command-line arguments of the runtime and the port type's
      codecs (text and XML). */
  datatype Environment = Environment(
    es: ElementTree,
    files: map<ElementId, ConfigFile>,
    nodes: NodeAnnotations,
    commandLine: map<string, string>,
    parse: string -> Option<Data>,
    parseXml: XmlNode -> Option<Data>)

  datatype Source = CommandLine | ConfigEntry | FinstructDefault

  /** What a load published to the port. */
  datatype Loaded = NotLoaded | Published(source: Source, data: Data)

  const PortTypeNotSupported := "Port Type not supported as a parameter"

  /** `GetCommandLineArgument`: "" when the option was not given. */
  function CommandLineArgument(commandLine: map<string, string>, option: string): string {
    if option in commandLine then commandLine[option] else ""
  }

  /** One source in the precedence order: skipped when it does not apply;
      it ends the load with an error when the port type is not a data-flow
      type, with a publication when the codec succeeds, and falls through
      to the next source when the codec throws. */
  function Attempt(source: Source, applies: bool, decoded: Option<Data>, dataFlow: bool): Option<Result<Loaded>> {
    if !applies then None
    else if !dataFlow then Some(Err(PortTypeNotSupported))
    else if decoded.Some? then Some(Ok(Published(source, decoded.value)))
    else None
  }

  /** The first of the three sources that ends the load, or no load. */
  function FirstOutcome(first: Option<Result<Loaded>>, second: Option<Result<Loaded>>,
                        third: Option<Result<Loaded>>): Result<Loaded> {
    if first.Some? then first.value
    else if second.Some? then second.value
    else if third.Some? then third.value
    else Ok(NotLoaded)
  }

  /** The leaf holding a parameter's configuration entry, resolved against
      the config node of `element`, in the configuration file responsible
      for `element`; None when there is no file, the entry is empty or the
      file has no leaf there. */
  function ConfigLeaf(es: ElementTree, files: map<ElementId, ConfigFile>, nodes: NodeAnnotations,
                      element: ElementId, entry: string): Option<XmlNode>
    requires ValidTree(es)
    reads files.Values
  {
    match Find(es, files, element)
    case None => None
    case Some(c) =>
      if |entry| > 0 then files[c].LeafNode(GetFullConfigEntry(es, files, nodes, element, entry))
      else None
  }

  /** The three information fields that travel in streams and XML. */
  datatype InfoFields = InfoFields(configEntry: string, entrySetFromFinstruct: bool,
                                   commandLineOption: string, finstructDefault: string)

  /** XML attributes written by tParameterInfo::Serialize: "config" only when
      non-empty and either set from finstruct or written outside finstruct,
      "cmdline" only when asked for and non-empty, "default" when non-empty. */
  function EmitAttributes(f: InfoFields, finstructContext: bool, includeCommandLine: bool): (m: map<string, string>)
    ensures "config" in m <==> |f.configEntry| > 0 && (f.entrySetFromFinstruct || !finstructContext)
    ensures "cmdline" in m <==> includeCommandLine && |f.commandLineOption| > 0
    ensures "default" in m <==> |f.finstructDefault| > 0
    ensures m.Keys <= {"config", "cmdline", "default"}
    ensures "config" in m ==> m["config"] == f.configEntry
    ensures "cmdline" in m ==> m["cmdline"] == f.commandLineOption
    ensures "default" in m ==> m["default"] == f.finstructDefault
  {
    var m1: map<string, string> := if |f.configEntry| > 0 && (f.entrySetFromFinstruct || !finstructContext)
      then map["config" := f.configEntry] else map[];
    var m2 := if includeCommandLine && |f.commandLineOption| > 0 then m1["cmdline" := f.commandLineOption] else m1;
    if |f.finstructDefault| > 0 then m2["default" := f.finstructDefault] else m2
  }

  /** The fields tParameterInfo::Deserialize leaves behind: a missing
      attribute clears its field, except that the command-line option is
      only touched when asked for and the finstruct flag only when a
      "config" attribute is present. */
  function ReadAttributes(f0: InfoFields, m: map<string, string>, finstructContext: bool, includeCommandLine: bool): InfoFields {
    InfoFields(
      if "config" in m then m["config"] else "",
      if "config" in m then finstructContext else f0.entrySetFromFinstruct,
      if includeCommandLine then (if "cmdline" in m then m["cmdline"] else "") else f0.commandLineOption,
      if "default" in m then m["default"] else "")
  }

  /** tParameterInfo::HasNonDefaultFinstructInfo: exactly when serialising
      in finstruct context, command line included, writes any attribute. */
  function HasNonDefaultInfo(f: InfoFields): (b: bool)
    ensures b <==> EmitAttributes(f, true, true) != map[]
  {
    var m := EmitAttributes(f, true, true);
    assert |f.finstructDefault| > 0 ==> "default" in m;
    assert |f.commandLineOption| > 0 ==> "cmdline" in m;
    assert |f.configEntry| > 0 && f.entrySetFromFinstruct ==> "config" in m;
    (|f.configEntry| > 0 && f.entrySetFromFinstruct) || |f.commandLineOption| > 0 || |f.finstructDefault| > 0
  }

  /** `operator<<`: flag, entry, option, default. */
  function WriteInfo(f: InfoFields): seq<Token> {
    [Bool(f.entrySetFromFinstruct), Str(f.configEntry), Str(f.commandLineOption), Str(f.finstructDefault)]
  }

  /** The reading half of `operator>>`; None for a stream that does not hold
      the four items. */
  function ReadInfo(s: seq<Token>): (r: Option<(InfoFields, seq<Token>)>)
    ensures r.Some? ==> |r.value.1| == |s| - 4
  {
    if |s| >= 4 && s[0].Bool? && s[1].Str? && s[2].Str? && s[3].Str? then
      Some((InfoFields(s[1].s, s[0].b, s[2].s, s[3].s), s[4..]))
    else None
  }

  lemma StreamRoundTrip(f: InfoFields, rest: seq<Token>)
    ensures ReadInfo(WriteInfo(f) + rest) == Some((f, rest))
  {
    assert (WriteInfo(f) + rest)[4..] == rest;
  }

  // ---------------------------------------------------------------------------
  // The annotation

  /** What `LoadValue` ends with for the settings `f`: nothing for a port
      that is missing or (unless `ignoreReady`) not ready, otherwise the
      first of the command line, the configuration entry and the finstruct
      default that ends the load. */
  function LoadOutcome(f: InfoFields, ignoreReady: bool, env: Environment, port: Option<Port>): (r: Result<Loaded>)
    requires ValidTree(env.es)
    reads env.files.Values
    ensures r.Err? ==> r.message == PortTypeNotSupported && port.Some? && !port.value.dataFlow
    ensures r.Ok? && r.value.Published? ==> port.Some? && port.value.dataFlow && (ignoreReady || IsReady(env.es, port.value.element))
    ensures r.Ok? && r.value.Published? && r.value.source == CommandLine ==>
      env.parse(CommandLineArgument(env.commandLine, f.commandLineOption)) == Some(r.value.data)
    ensures r.Ok? && r.value.Published? && r.value.source == FinstructDefault ==>
      |f.finstructDefault| > 0 && env.parse(f.finstructDefault) == Some(r.value.data)
    ensures (port.Some? && (ignoreReady || IsReady(env.es, port.value.element)) && port.value.dataFlow &&
             |f.commandLineOption| > 0 && |CommandLineArgument(env.commandLine, f.commandLineOption)| > 0 &&
             env.parse(CommandLineArgument(env.commandLine, f.commandLineOption)).Some?) ==>
      r.Ok? && r.value.Published? && r.value.source == CommandLine
  {
    if port.None? || !(ignoreReady || IsReady(env.es, port.value.element)) then Ok(NotLoaded)
    else
      var arg := CommandLineArgument(env.commandLine, f.commandLineOption);
      var leaf := ConfigLeaf(env.es, env.files, env.nodes, port.value.element, f.configEntry);
      var df := port.value.dataFlow;
      FirstOutcome(
        Attempt(CommandLine, |f.commandLineOption| > 0 && |arg| > 0, env.parse(arg), df),
        Attempt(ConfigEntry, leaf.Some?, if leaf.Some? then env.parseXml(leaf.value) else None, df),
        Attempt(FinstructDefault, |f.finstructDefault| > 0, env.parse(f.finstructDefault), df))
  }

  /** The value a reload leaves published: load errors are only logged. */
  function Reloaded(o: Result<Loaded>): Loaded {
    if o.Ok? then o.value else NotLoaded
  }

  class ParameterInfo {
    var configEntry: string
    var entrySetFromFinstruct: bool
    var commandLineOption: string
    var finstructDefault: string

    /** Nothing set; the entry is not from finstruct. */
    constructor ()
      ensures configEntry == "" && !entrySetFromFinstruct && commandLineOption == "" && finstructDefault == ""
    {
      configEntry := "";
      entrySetFromFinstruct := false;
      commandLineOption := "";
      finstructDefault := "";
    }

    function Fields(): InfoFields
      reads this
    {
      InfoFields(configEntry, entrySetFromFinstruct, commandLineOption, finstructDefault)
    }

    /** tParameterInfo::HasNonDefaultFinstructInfo */
    function HasNonDefaultFinstructInfo(): (b: bool)
      reads this
      ensures b <==> EmitAttributes(Fields(), true, true) != map[]
    {
      HasNonDefaultInfo(Fields())
    }

    /** tParameterInfo::LoadValue(ignore_ready): nothing happens for a port
        that is missing or (unless `ignoreReady`) not ready; otherwise the
        command line, the configuration entry and the finstruct default are
        tried in this order, and the first that ends the load decides. The
        command line applies when the option and its argument are
        non-empty, the entry when a configuration file is found, the entry
        is non-empty and the file has a leaf at the full entry, the default
        when it is non-empty. */
    method LoadValue(ignoreReady: bool, env: Environment, port: Option<Port>) returns (r: Result<Loaded>)
      requires ValidTree(env.es)
      ensures port.None? || !(ignoreReady || IsReady(env.es, port.value.element)) ==> r == Ok(NotLoaded)
      ensures port.Some? && (ignoreReady || IsReady(env.es, port.value.element)) ==>
        var arg := CommandLineArgument(env.commandLine, commandLineOption);
        var leaf := ConfigLeaf(env.es, env.files, env.nodes, port.value.element, configEntry);
        var df := port.value.dataFlow;
        r == FirstOutcome(
          Attempt(CommandLine, |commandLineOption| > 0 && |arg| > 0, env.parse(arg), df),
          Attempt(ConfigEntry, leaf.Some?, if leaf.Some? then env.parseXml(leaf.value) else None, df),
          Attempt(FinstructDefault, |finstructDefault| > 0, env.parse(finstructDefault), df))
      ensures r == LoadOutcome(Fields(), ignoreReady, env, port)
    {
      if port.None? || !(ignoreReady || IsReady(env.es, port.value.element)) {
        return Ok(NotLoaded);
      }
      var ann := port.value;

      // command line option
      if |commandLineOption| > 0 {
        var arg := CommandLineArgument(env.commandLine, commandLineOption);
        if |arg| > 0 {
          if !ann.dataFlow {
            return Err(PortTypeNotSupported);
          }
          var d := env.parse(arg);
          if d.Some? {
            return Ok(Published(CommandLine, d.value));
          }
        }
      }

      // config file entry
      var cf := Find(env.es, env.files, ann.element);
      if cf.Some? && |configEntry| > 0 {
        var full := GetFullConfigEntry(env.es, env.files, env.nodes, ann.element, configEntry);
        var node := env.files[cf.value].LeafNode(full);
        if node.Some? {
          if !ann.dataFlow {
            return Err(PortTypeNotSupported);
          }
          var d := env.parseXml(node.value);
          if d.Some? {
            return Ok(Published(ConfigEntry, d.value));
          }
        }
      }

      // finstruct default
      if |finstructDefault| > 0 {
        if !ann.dataFlow {
          return Err(PortTypeNotSupported);
        }
        var d := env.parse(finstructDefault);
        if d.Some? {
          return Ok(Published(FinstructDefault, d.value));
        }
      }
      return Ok(NotLoaded);
    }

    /** tParameterInfo::SaveValue: for a ready data-flow port whose
        configuration file already has a leaf at the (unresolved) entry and
        whose current value is not the port's default, the leaf is
        re-created and the value written into it; otherwise no file
        changes. An absent entry is never created. */
    method SaveValue(env: Environment, port: Option<Port>, current: Data, default: Option<Data>,
                     serialize: Data -> string)
      returns (r: Result<()>)
      requires ValidTree(env.es)
      requires port.Some? && IsReady(env.es, port.value.element) ==> Find(env.es, env.files, port.value.element).Some?
      modifies env.files.Values
      ensures r.Err? ==> r.message == PortTypeNotSupported && port.Some? && !port.value.dataFlow
      ensures port.None? || !IsReady(env.es, port.value.element) ==> r.Ok? && unchanged(env.files.Values)
      ensures port.Some? && IsReady(env.es, port.value.element) ==>
        var cf := env.files[old(Find(env.es, env.files, port.value.element)).value];
        var t0 := old(cf.tree);
        var f := Lookup(configEntry, t0, 0);
        var write := port.value.dataFlow && f.Some? && At(t0, f.value).element == LeafName && default != Some(current);
        (r.Err? <==> !port.value.dataFlow) &&
        (forall o :: o in env.files.Values && o != cf ==> unchanged(o)) &&
        cf.filename == old(cf.filename) && cf.active == old(cf.active) &&
        (!write ==> cf.tree == t0) &&
        (write ==> (ValidPath(t0, f.value) && f.value != [] &&
                    ValidPath(Recreate(t0, f.value), RecreatedPath(t0, f.value)) && cf.tree == ReplaceAt(Recreate(t0, f.value), RecreatedPath(t0, f.value),
                                        FreshLeaf(t0, f.value).(text := serialize(current)))))
    {
      if port.None? || !IsReady(env.es, port.value.element) {
        return Ok(());
      }
      var ann := port.value;
      var cf := env.files[Find(env.es, env.files, ann.element).value];
      var found := Lookup(configEntry, cf.tree, 0);
      var hasEntry := found.Some? && At(cf.tree, found.value).element == LeafName;
      if !ann.dataFlow {
        return Err(PortTypeNotSupported);
      }
      if hasEntry {
        var isDefault := default == Some(current);
        if !isDefault {
          var node := cf.GetEntry(configEntry, true);
          cf.SetText(node.value, serialize(current));
        }
      }
      return Ok(());
    }

    /** tParameterInfo::Serialize (XML) */
    function Serialize(finstructContext: bool, includeCommandLine: bool): (m: map<string, string>)
      reads this
      ensures |configEntry| == 0 || entrySetFromFinstruct == finstructContext ==>
        ReadAttributes(Fields(), m, finstructContext, includeCommandLine) == Fields()
      ensures |configEntry| > 0 && finstructContext && !entrySetFromFinstruct ==>
        ReadAttributes(Fields(), m, finstructContext, includeCommandLine) == Fields().(configEntry := "")
      ensures |configEntry| > 0 && !finstructContext && entrySetFromFinstruct ==>
        ReadAttributes(Fields(), m, finstructContext, includeCommandLine) == Fields().(entrySetFromFinstruct := false)
    {
      EmitAttributes(Fields(), finstructContext, includeCommandLine)
    }

    /** tParameterInfo::Deserialize (XML) */
    method Deserialize(m: map<string, string>, finstructContext: bool, includeCommandLine: bool)
      modifies this
      ensures Fields() == ReadAttributes(old(Fields()), m, finstructContext, includeCommandLine)
      ensures "config" !in m ==> configEntry == "" && entrySetFromFinstruct == old(entrySetFromFinstruct)
    {
      if "config" in m {
        configEntry := m["config"];
        entrySetFromFinstruct := finstructContext;
      } else {
        configEntry := "";
      }
      if includeCommandLine {
        if "cmdline" in m {
          commandLineOption := m["cmdline"];
        } else {
          commandLineOption := "";
        }
      }
      if "default" in m {
        finstructDefault := m["default"];
      } else {
        finstructDefault := "";
      }
    }

    /** tParameterInfo::SetConfigEntry: a different entry is stored with its
        finstruct flag and the value reloaded (a load error is only logged);
        the same entry changes nothing. Without a second argument the
        source passes `finstructSet == false`. */
    method SetConfigEntry(entry: string, finstructSet: bool, env: Environment, port: Option<Port>)
      returns (loaded: Loaded)
      requires ValidTree(env.es)
      modifies this
      ensures entry == old(configEntry) ==> Fields() == old(Fields()) && loaded == NotLoaded
      ensures entry != old(configEntry) ==> Fields() == old(Fields()).(configEntry := entry, entrySetFromFinstruct := finstructSet)
      ensures loaded.Published? ==> port.Some? && IsReady(env.es, port.value.element)
      ensures entry != old(configEntry) ==> loaded == Reloaded(LoadOutcome(Fields(), false, env, port))
    {
      loaded := NotLoaded;
      if configEntry != entry {
        configEntry := entry;
        entrySetFromFinstruct := finstructSet;
        var r := LoadValue(false, env, port);
        loaded := Reloaded(r);
      }
    }

    /** tParameterInfo::SetCommandLineOption: no reload. */
    method SetCommandLineOption(option: string)
      modifies this
      ensures Fields() == old(Fields()).(commandLineOption := option)
    {
      commandLineOption := option;
    }

    /** tParameterInfo::SetFinstructDefault: no reload. */
    method SetFinstructDefault(value: string)
      modifies this
      ensures Fields() == old(Fields()).(finstructDefault := value)
    {
      finstructDefault := value;
    }

    /** `operator<<` */
    function Write(): (s: seq<Token>)
      reads this
      ensures ReadInfo(s) == Some((Fields(), []))
    {
      StreamRoundTrip(Fields(), []);
      assert WriteInfo(Fields()) + [] == WriteInfo(Fields());
      WriteInfo(Fields())
    }

    /** `operator>>`: all four items are taken over; the value is reloaded
        (errors only logged) only when one of the strings differs. */
    method Read(s: seq<Token>, env: Environment, port: Option<Port>)
      returns (r: Result<seq<Token>>, reloaded: bool, loaded: Loaded)
      requires ValidTree(env.es)
      modifies this
      ensures ReadInfo(s).None? ==> r.Err? && Fields() == old(Fields()) && !reloaded
      ensures ReadInfo(s).Some? ==> r == Ok(ReadInfo(s).value.1) && Fields() == ReadInfo(s).value.0
      ensures ReadInfo(s).Some? ==> (reloaded <==>
        var f := ReadInfo(s).value.0;
        f.configEntry != old(configEntry) || f.commandLineOption != old(commandLineOption) ||
        f.finstructDefault != old(finstructDefault))
      ensures loaded == (if reloaded then Reloaded(LoadOutcome(Fields(), false, env, port)) else NotLoaded)
    {
      var read := ReadInfo(s);
      if read.None? {
        return Err("Stream does not hold a parameter info"), false, NotLoaded;
      }
      var f := read.value.0;
      entrySetFromFinstruct := f.entrySetFromFinstruct;
      var same := f.configEntry == configEntry && f.commandLineOption == commandLineOption &&
                  f.finstructDefault == finstructDefault;
      configEntry := f.configEntry;
      commandLineOption := f.commandLineOption;
      finstructDefault := f.finstructDefault;
      reloaded, loaded := false, NotLoaded;
      if !same {
        var o := LoadValue(false, env, port);
        reloaded, loaded := true, Reloaded(o);
      }
      r := Ok(read.value.1);
    }
  }
}
