/** Static parameters and their lists (`tStaticParameterImplementationBase`,
    `tStaticParameterList`, `tStaticParameterImplementation`). All
    parameters and lists live in one registry: a parameter's number is its
    identity, its links to other parameters are kept apart from its other
    fields (`links`), and a list is annotated to at most one framework
    element. The registry also holds what the parameters read of the rest of
    the framework: the element tree, the configuration files, the config
    node annotations, the command line and the two value codecs. */
module StaticParameters {
  import opened Common
  import opened Elements
  import opened ConfigTree
  import opened ConfigFiles
  import opened ConfigNodes
  import opened Values
  import opened Attachment
  import opened ParameterCodec
  import opened Numeric
  import ParameterInfos

  type ListId = nat

  /** The fields of a static parameter other than its two link fields. A
      numeric parameter carries its bounds. */
  datatype Param = Param(
    name: string,
    dataType: TypeName,
    value: Option<Value>,
    lastValue: Option<Value>,
    enforceCurrentValue: bool,
    parentList: Option<ListId>,
    listIndex: nat,
    commandLineOption: string,
    outerParameterAttachment: string,
    createOuterParameter: bool,
    configEntry: string,
    configEntrySetByFinstruct: bool,
    staticParameterProxy: bool,
    bounds: Option<Bounds>)

  /** `tStaticParameterList`: its parameters in order, the index of the
      create action that made its element (-1 for none) and the element it
      is annotated to. */
  datatype ParamList = ParamList(parameters: seq<ParamId>, createAction: int, annotated: Option<ElementId>)

  const NoCreateAction := -1

  /** Calls the parameter layer makes into framework elements and files. */
  datatype Event =
    | EvaluateStaticParameters(element: ElementId)
    | Init(element: ElementId)
    | LoadParameterValues(element: ElementId)

  /** The fields of a new parameter: it is in no list, all flags are
      false and it has a buffer of its type unless it is a constructor
      prototype. */
  function NewParam(name: string, t: TypeName, constructorPrototype: bool, proxy: bool, configEntry: string): Param {
    Param(name, t, if constructorPrototype then None else Some(NewInstance(t)),
          None, false, None, 0, "", "", false, configEntry, false, proxy, None)
  }

  /** What `UpdateOuterParameterAttachment` did. */
  datatype OuterOutcome =
    | Unlisted                      // the parameter is in no list
    | Kept                          // nothing to do
    | Detached                      // empty attachment: back to its own buffer
    | NoGroup                       // no finstructable group above: ignored
    | AttachedOuter(group: ElementId, target: ParamId)
    | ProxyCreated(group: ElementId, proxy: ParamId)
    | NotFound(group: ElementId)    // no such parameter and none to be created
    | Unattached                    // the list is annotated to no element
    | Cyclic(group: ElementId, target: ParamId)  // attaching would close a cycle

  /** Where `LoadValue` took the value from. */
  datatype LoadedFrom = NotLoaded | FromCommandLine | FromConfigEntry

  const ListNotAttached := "List needs to be attached to framework element before being deserialized."
  const InvalidActionOrNumber := "Invalid action id or parameter number"
  const NotAParameter := "Stream does not hold a static parameter"

  /** The type of numeric parameters' buffers (`tNumber`). */
  const NumberType: TypeName := "tNumber"

  /** What loading a parameter's value depends on besides the parameter:
      whether its command line option may be used, the argument given for
      it, whether its config entry may be used, and the leaf for that entry
      in the responsible configuration file. */
  datatype LoadInputs = LoadInputs(commandLineApplies: bool, argument: string, configAllowed: bool, leaf: Option<XmlNode>)

  /** The outcome of `LoadValue` for a parameter with fields `p`: where the
      value comes from and the parameter's own buffer afterwards. Only a
      parameter that owns its buffer (`owns`) and does not enforce its value
      loads; a command line argument that applies and decodes comes first
      and wins; otherwise a permitted config entry whose leaf decodes into
      the buffer. */
  function Decide(owns: bool, p: Param, inputs: LoadInputs, parse: StringCodec, parseXml: XmlCodec): (LoadedFrom, Option<Value>)
  {
    if !owns || p.enforceCurrentValue then (NotLoaded, p.value)
    else
      var tried := inputs.commandLineApplies && |inputs.argument| > 0;
      if tried && parse(p.dataType, inputs.argument).Some? then
        (FromCommandLine, Some(Value(p.dataType, parse(p.dataType, inputs.argument).value)))
      else
        var v := if tried then AfterFailedSet(p.value, p.dataType) else p.value;
        if inputs.configAllowed && inputs.leaf.Some? && v.Some? && parseXml(v.value.typeName, inputs.leaf.value).Some?
        then (FromConfigEntry, Some(Value(v.value.typeName, parseXml(v.value.typeName, inputs.leaf.value).value)))
        else (NotLoaded, v)
  }

  /** What `Decide` promises: only a parameter that owns its buffer and
      does not enforce its current value loads; a command line argument that
      decodes wins; a config entry loads only when permitted and then from
      its leaf; otherwise the buffer is kept or renewed after a failed set. */
  lemma DecideOutcome(owns: bool, p: Param, inputs: LoadInputs, parse: StringCodec, parseXml: XmlCodec)
    ensures var d := Decide(owns, p, inputs, parse, parseXml);
      (!owns || p.enforceCurrentValue ==> d == (NotLoaded, p.value))
      && (owns && !p.enforceCurrentValue && inputs.commandLineApplies && |inputs.argument| > 0
          && parse(p.dataType, inputs.argument).Some?
          ==> d == (FromCommandLine, Some(Value(p.dataType, parse(p.dataType, inputs.argument).value))))
      && (d.0 == FromConfigEntry ==> inputs.configAllowed && inputs.leaf.Some? && d.1.Some?)
      && (d.0 == FromConfigEntry && p.value.Some? && p.value.value.typeName == p.dataType
          ==> parseXml(p.dataType, inputs.leaf.value).Some?
              && d.1 == Some(Value(p.dataType, parseXml(p.dataType, inputs.leaf.value).value)))
      && (d.0 == NotLoaded ==> d.1 == p.value || d.1 == AfterFailedSet(p.value, p.dataType))
  {
  }

  /** What `LoadValue` reads of the framework for a parameter of element
      `parent` with the given command line option, config entry and
      finstruct flag. The command line counts only for parameters outside
      any finstructable group or in an outermost one; a config entry that
      finstruct set counts only if the nearest group is responsible for
      config file connections. */
  function InputsAt(es: ElementTree, files: map<ElementId, ConfigFile>, nodes: NodeAnnotations,
                    commandLine: map<string, string>, parent: ElementId,
                    option: string, entry: string, setByFinstruct: bool): (r: LoadInputs)
    requires ValidTree(es)
    reads files.Values
    ensures r.configAllowed ==> |entry| > 0
  {
    var fg := ParentGroup(es, parent);
    LoadInputs(
      |option| > 0 && (fg.None? || Parent(es, fg.value) == Some(RuntimeElement)),
      ParameterInfos.CommandLineArgument(commandLine, option),
      |entry| > 0 && (!setByFinstruct || (fg.Some? && ParameterInfos.Responsible(es, files, fg.value, parent))),
      ParameterInfos.ConfigLeaf(es, files, nodes, parent, entry))
  }

  /** The list element of a parameter of an annotated list, or `None`. */
  function ListElement(lists: map<ListId, ParamList>, p: Param): Option<ElementId> {
    if p.parentList.Some? && p.parentList.value in lists then lists[p.parentList.value].annotated else None
  }

  /** What `LoadValue` would read of the framework for each parameter of
      an annotated list in `pm`, given its current settings. */
  ghost function InputsOf(es: ElementTree, files: map<ElementId, ConfigFile>, nodes: NodeAnnotations,
                          commandLine: map<string, string>, lists: map<ListId, ParamList>,
                          pm: map<ParamId, Param>): map<ParamId, LoadInputs>
    requires ValidTree(es)
    reads files.Values
  {
    map x | x in pm && ListElement(lists, pm[x]).Some? ::
      InputsAt(es, files, nodes, commandLine, ListElement(lists, pm[x]).value,
               pm[x].commandLineOption, pm[x].configEntry, pm[x].configEntrySetByFinstruct)
  }

  /** The settings a parameter writes out. */
  function SettingsOf(p: Param): Settings {
    Settings(p.name, p.dataType, p.commandLineOption, p.outerParameterAttachment, p.createOuterParameter,
             p.configEntry, p.configEntrySetByFinstruct, p.enforceCurrentValue)
  }

  /** What is left of a buffer after `Set(string)` failed: a buffer of the
      declared type, recreated when the old one had another type. */
  function AfterFailedSet(v: Option<Value>, t: TypeName): Option<Value> {
    if v.Some? && v.value.typeName == t then v else Some(NewInstance(t))
  }

  /** The number a `tNumber` buffer holds; a fresh one holds zero. */
  function NumberOf(d: Data): int {
    if d.Number? then d.n else 0
  }

  /** Member `k` of list `l` is a parameter that knows its list and its
      position there. */
  ghost predicate Member(lists: map<ListId, ParamList>, params: map<ParamId, Param>, l: ListId, k: nat)
    requires l in lists && k < |lists[l].parameters|
  {
    var p := lists[l].parameters[k];
    p in params && params[p].parentList == Some(l) && params[p].listIndex == k
  }

  /** Identities below the next free ones, lists of existing parameters
      that know their list and position, and element annotations that
      point back at their element. */
  ghost predicate Registered(params: map<ParamId, Param>, lists: map<ListId, ParamList>, listOf: map<ElementId, ListId>,
                             nextParam: nat, nextList: nat)
  {
    (forall id :: id in params ==> id < nextParam)
    && (forall l :: l in lists ==> l < nextList)
    && (forall id :: id in params && params[id].parentList.Some? ==> params[id].parentList.value in lists)
    && (forall l, k {:trigger Member(lists, params, l, k)} :: l in lists && 0 <= k < |lists[l].parameters| ==>
          Member(lists, params, l, k))
    && (forall e :: e in listOf ==> listOf[e] in lists && lists[listOf[e]].annotated == Some(e))
  }

  /** Changing a parameter's fields other than its list and position keeps
      the registry consistent; so does adding a parameter outside any list. */
  lemma StoreKeepsRegistered(params: map<ParamId, Param>, lists: map<ListId, ParamList>, listOf: map<ElementId, ListId>,
                             nextParam: nat, nextList: nat, p: ParamId, v: Param)
    requires Registered(params, lists, listOf, nextParam, nextList)
    requires p in params ==> v.parentList == params[p].parentList && v.listIndex == params[p].listIndex
    requires p !in params ==> v.parentList.None? && p < nextParam
    ensures Registered(params[p := v], lists, listOf, nextParam, nextList)
  {
    var ps := params[p := v];
    forall l, k | l in lists && 0 <= k < |lists[l].parameters| ensures Member(lists, ps, l, k) {
      assert Member(lists, params, l, k);
    }
  }

  /** Appending a parameter that is in no list yet to list `l`, with its
      list and position set, keeps the registry consistent. */
  lemma AddKeepsRegistered(params: map<ParamId, Param>, lists: map<ListId, ParamList>, listOf: map<ElementId, ListId>,
                           nextParam: nat, nextList: nat, l: ListId, id: ParamId)
    requires Registered(params, lists, listOf, nextParam, nextList)
    requires l in lists && id in params && params[id].parentList.None?
    ensures var n := |lists[l].parameters|;
      Registered(params[id := params[id].(parentList := Some(l), listIndex := n)],
                 lists[l := lists[l].(parameters := lists[l].parameters + [id])], listOf, nextParam, nextList)
  {
    var n := |lists[l].parameters|;
    var ps := params[id := params[id].(parentList := Some(l), listIndex := n)];
    var ls := lists[l := lists[l].(parameters := lists[l].parameters + [id])];
    forall l', k | l' in ls && 0 <= k < |ls[l'].parameters| ensures Member(ls, ps, l', k) {
      if l' != l || k < n {
        assert Member(lists, params, l', k);
        assert ls[l'].parameters[k] == lists[l'].parameters[k];
      }
    }
  }

  /** A new list, annotated to an element or not, keeps the registry
      consistent. */
  lemma NewListKeepsRegistered(params: map<ParamId, Param>, lists: map<ListId, ParamList>, listOf: map<ElementId, ListId>,
                               nextParam: nat, nextList: nat, annotated: Option<ElementId>)
    requires Registered(params, lists, listOf, nextParam, nextList)
    requires annotated.Some? ==> annotated.value !in listOf
    ensures var ls := lists[nextList := ParamList([], NoCreateAction, annotated)];
      Registered(params, ls, if annotated.Some? then listOf[annotated.value := nextList] else listOf,
                 nextParam, nextList + 1)
  {
    var ls := lists[nextList := ParamList([], NoCreateAction, annotated)];
    forall l, k | l in ls && 0 <= k < |ls[l].parameters| ensures Member(ls, params, l, k) {
      assert Member(lists, params, l, k);
    }
  }

  /** Emptying a list, or changing only its create action, keeps the
      registry consistent. */
  lemma ListChangeKeepsRegistered(params: map<ParamId, Param>, lists: map<ListId, ParamList>, listOf: map<ElementId, ListId>,
                                  nextParam: nat, nextList: nat, l: ListId, v: ParamList)
    requires Registered(params, lists, listOf, nextParam, nextList)
    requires l in lists && v.annotated == lists[l].annotated
    requires v.parameters == [] || v.parameters == lists[l].parameters
    ensures Registered(params, lists[l := v], listOf, nextParam, nextList)
  {
    var ls := lists[l := v];
    forall l', k | l' in ls && 0 <= k < |ls[l'].parameters| ensures Member(ls, params, l', k) {
      assert Member(lists, params, l', k);
    }
  }

  /** `s` backwards. */
  function Reversed<T>(s: seq<T>): (r: seq<T>)
    ensures |r| == |s| && forall i :: 0 <= i < |s| ==> r[i] == s[|s| - 1 - i]
  {
    if s == [] then [] else Reversed(s[1..]) + [s[0]]
  }

  /** The first position in `ps` holding a parameter named `name`. */
  function FirstNamed(params: map<ParamId, Param>, ps: seq<ParamId>, name: string): (r: Option<nat>)
    ensures r.Some? ==> r.value < |ps| && ps[r.value] in params && params[ps[r.value]].name == name
    ensures r.Some? ==> forall j :: 0 <= j < r.value && ps[j] in params ==> params[ps[j]].name != name
    ensures r.None? ==> forall j :: 0 <= j < |ps| && ps[j] in params ==> params[ps[j]].name != name
  {
    if ps == [] then None
    else if ps[0] in params && params[ps[0]].name == name then Some(0)
    else match FirstNamed(params, ps[1..], name)
      case None => None
      case Some(k) => Some(k + 1)
  }

  /** Two updates of one parameter leave the second. */
  lemma UpdateTwice(m: map<ParamId, Param>, k: ParamId, a: Param, b: Param)
    ensures m[k := a][k := b] == m[k := b]
  {
  }

  /** `a` and `b` agree on everything but the type and the buffers: the
      name, the list position and every setting. */
  ghost predicate SameSettings(a: Param, b: Param) {
    a.name == b.name && a.parentList == b.parentList && a.listIndex == b.listIndex
    && a.enforceCurrentValue == b.enforceCurrentValue && a.commandLineOption == b.commandLineOption
    && a.outerParameterAttachment == b.outerParameterAttachment && a.createOuterParameter == b.createOuterParameter
    && a.configEntry == b.configEntry && a.configEntrySetByFinstruct == b.configEntrySetByFinstruct
  }

  /** Every parameter of `before` but `id` is still there with the same
      settings. */
  ghost predicate OthersKeepSettings(before: map<ParamId, Param>, after: map<ParamId, Param>, id: ParamId) {
    forall j :: j in before && j != id ==> j in after && SameSettings(before[j], after[j])
  }

  /** The buffer half of `AttachTo` on the parameters' fields, with `o`
      the new owner of `id`'s chain: an untyped owner takes `id`'s type; an
      owner without buffer gets a fresh one, which, when the owner is
      another parameter, is swapped with `id`'s own. */
  function Filled(ps: map<ParamId, Param>, id: ParamId, o: ParamId): (r: map<ParamId, Param>)
    requires id in ps && o in ps
    ensures r.Keys == ps.Keys
  {
    var t := if ps[o].dataType == NullType then ps[id].dataType else ps[o].dataType;
    if ps[o].value.Some? then ps[o := ps[o].(dataType := t)]
    else if o == id then ps[id := ps[id].(dataType := t, value := Some(NewInstance(t)))]
    else ps[id := ps[id].(value := Some(NewInstance(t)))][o := ps[o].(dataType := t, value := ps[id].value)]
  }

  /** Filling an owner touches only types and buffers. */
  lemma FilledKeepsSettings(ps: map<ParamId, Param>, id: ParamId, o: ParamId)
    requires id in ps && o in ps
    ensures forall j :: j in ps ==> SameSettings(ps[j], Filled(ps, id, o)[j])
  {
    var r := Filled(ps, id, o);
    forall j | j in ps ensures SameSettings(ps[j], r[j]) {
      if j != id && j != o {
        assert r[j] == ps[j];
      }
    }
  }

  /** `AttachTo` changes nothing when the owner already has a buffer of a
      type. */
  lemma FilledByOwner(ps: map<ParamId, Param>, id: ParamId, o: ParamId)
    requires id in ps && o in ps && ps[o].value.Some?
    requires ps[o].dataType == NullType ==> ps[id].dataType == NullType
    ensures Filled(ps, id, o) == ps
  {
    assert ps[o := ps[o]] == ps;
  }

  lemma FilledKeepsRegistered(ps: map<ParamId, Param>, lists: map<ListId, ParamList>, listOf: map<ElementId, ListId>,
                              nextParam: nat, nextList: nat, id: ParamId, o: ParamId)
    requires Registered(ps, lists, listOf, nextParam, nextList) && id in ps && o in ps
    ensures Registered(Filled(ps, id, o), lists, listOf, nextParam, nextList)
  {
    var t := if ps[o].dataType == NullType then ps[id].dataType else ps[o].dataType;
    if ps[o].value.Some? {
      StoreKeepsRegistered(ps, lists, listOf, nextParam, nextList, o, ps[o].(dataType := t));
    } else if o == id {
      StoreKeepsRegistered(ps, lists, listOf, nextParam, nextList, id, ps[id].(dataType := t, value := Some(NewInstance(t))));
    } else {
      var ps1 := ps[id := ps[id].(value := Some(NewInstance(t)))];
      StoreKeepsRegistered(ps, lists, listOf, nextParam, nextList, id, ps1[id]);
      StoreKeepsRegistered(ps1, lists, listOf, nextParam, nextList, o, ps[o].(dataType := t, value := ps[id].value));
    }
  }

  /** After the buffer step the owner has a type, every other parameter is
      as it was, and `id` sees the owner's buffer when the owner had one, or
      else its own old buffer, which the owner took over. */
  lemma FilledSees(ps: map<ParamId, Param>, id: ParamId, o: ParamId)
    requires id in ps && o in ps
    ensures var r := Filled(ps, id, o);
      (forall x :: x in ps && x != id && x != o ==> r[x] == ps[x])
      && r[id] == ps[id].(value := r[id].value, dataType := r[id].dataType)
      && r[o] == ps[o].(value := r[o].value, dataType := r[o].dataType)
      && (o != id ==> r[id].dataType == ps[id].dataType)
      && r[o].dataType == (if ps[o].dataType == NullType then ps[id].dataType else ps[o].dataType)
      && (ps[o].value.Some? ==> r[o].value == ps[o].value)
      && (ps[o].value.None? ==> r[o].value == (if o == id then Some(NewInstance(r[o].dataType)) else ps[id].value))
      && (ps[o].value.None? && o != id ==> r[id].value == Some(NewInstance(r[o].dataType)))
  {
  }

  class Registry {
    var es: ElementTree
    var files: map<ElementId, ConfigFile>
    var nodes: NodeAnnotations
    var commandLine: map<string, string>
    const parse: StringCodec
    const parseXml: XmlCodec

    var links: Links
    ghost var rank: map<ParamId, nat>
    var params: map<ParamId, Param>
    var lists: map<ListId, ParamList>
    var listOf: map<ElementId, ListId>
    var nextParam: ParamId
    var nextList: ListId
    var log: seq<Event>

    ghost predicate Valid()
      reads this
    {
      ValidTree(es) && Graph(links, rank) && links.Keys == params.Keys
      && Registered(params, lists, listOf, nextParam, nextList)
    }

    /** The parts of the registry only attachment and the list operations
        change. */
    ghost function Structure(): (Links, map<ParamId, nat>, map<ListId, ParamList>, map<ElementId, ListId>, nat, nat)
      reads this
    {
      (links, rank, lists, listOf, nextParam, nextList)
    }

    /** The parts of the framework the parameters only read. */
    ghost function Context(): (ElementTree, map<ElementId, ConfigFile>, NodeAnnotations, map<string, string>)
      reads this
    {
      (es, files, nodes, commandLine)
    }

    /** `p` is member `k` of list `l`. */
    lemma MemberAt(l: ListId, k: nat)
      requires Valid() && l in lists && k < |lists[l].parameters|
      ensures lists[l].parameters[k] in params
      ensures params[lists[l].parameters[k]].parentList == Some(l)
      ensures params[lists[l].parameters[k]].listIndex == k
    {
      assert Member(lists, params, l, k);
    }

    constructor(es: ElementTree, files: map<ElementId, ConfigFile>, nodes: NodeAnnotations,
                commandLine: map<string, string>, parse: StringCodec, parseXml: XmlCodec)
      requires ValidTree(es)
      ensures Valid()
      ensures Context() == (es, files, nodes, commandLine) && this.parse == parse && this.parseXml == parseXml
      ensures links == map[] && params == map[] && lists == map[] && listOf == map[] && log == []
    {
      this.es := es;
      this.files := files;
      this.nodes := nodes;
      this.commandLine := commandLine;
      this.parse := parse;
      this.parseXml := parseXml;
      links := map[];
      rank := map[];
      params := map[];
      lists := map[];
      listOf := map[];
      nextParam := 0;
      nextList := 0;
      log := [];
    }

    // -------------------------------------------------------------------------
    // The buffer a parameter uses

    /** `GetParameterWithBuffer`: the end of the parameter's
        `use_value_of` chain. */
    function OwnerOf(id: ParamId): (o: ParamId)
      reads this
      requires Valid() && id in params
      ensures o in params && links[o].useValueOf == o && OnChain(links, rank, id, o)
    {
      Owner(links, rank, id)
    }

    /** `ValuePointer`: the buffer of the owner. */
    function ValuePointer(id: ParamId): Option<Value>
      reads this
      requires Valid() && id in params
    {
      params[OwnerOf(id)].value
    }

    /** Parameters on one chain see one buffer. */
    lemma SharedBuffer(x: ParamId, y: ParamId)
      requires Valid() && x in params && y in params && OnChain(links, rank, x, y)
      ensures OwnerOf(x) == OwnerOf(y) && ValuePointer(x) == ValuePointer(y)
    {
      ChainSharesOwner(links, rank, x, y);
    }

    /** The parameter is a member of a list that is annotated to an
        element, so `parent_list->GetAnnotated()` is defined. */
    predicate Attached(id: ParamId)
      reads this
      requires Valid() && id in params
    {
      params[id].parentList.Some? && lists[params[id].parentList.value].annotated.Some?
    }

    /** The element of the list `id` is a member of. */
    function ParentElement(id: ParamId): (e: ElementId)
      reads this
      requires Valid() && id in params && Attached(id)
    {
      lists[params[id].parentList.value].annotated.value
    }

    /** Tells the framework about `events` (they are appended to the log). */
    method Notify(events: seq<Event>)
      requires Valid()
      modifies this
      ensures Valid() && log == old(log) + events
      ensures params == old(params) && Structure() == old(Structure()) && Context() == old(Context())
    {
      log := log + events;
    }

    /** Sets the config node annotation of `fe`. */
    method AnnotateNode(fe: ElementId, node: string)
      requires Valid()
      modifies this
      ensures Valid() && nodes == old(nodes)[fe := node]
      ensures params == old(params) && Structure() == old(Structure()) && log == old(log)
      ensures es == old(es) && files == old(files) && commandLine == old(commandLine)
    {
      nodes := nodes[fe := node];
    }

    /** Replaces the fields of one parameter, leaving its list and
        position. */
    method Store(p: ParamId, v: Param)
      requires Valid() && p in params
      requires v.parentList == params[p].parentList && v.listIndex == params[p].listIndex
      modifies this
      ensures Valid() && params == old(params)[p := v]
      ensures links == old(links) && rank == old(rank) && lists == old(lists) && listOf == old(listOf)
      ensures nextList == old(nextList) && nextParam == old(nextParam)
      ensures Context() == old(Context()) && log == old(log)
      ensures v.value == old(params[p].value) ==> ValuePointer(p) == old(ValuePointer(p))
    {
      StoreKeepsRegistered(params, lists, listOf, nextParam, nextList, p, v);
      params := params[p := v];
    }

    /** The constructor: a detached parameter with its own buffer, unless it
        is a prototype, which has none. */
    method NewParameter(name: string, t: TypeName, constructorPrototype: bool, proxy: bool, configEntry: string)
      returns (id: ParamId)
      requires Valid()
      modifies this
      ensures Valid()
      ensures id == old(nextParam) && id !in old(params) && params.Keys == old(params.Keys) + {id}
      ensures params == old(params)[id := NewParam(name, t, constructorPrototype, proxy, configEntry)]
      ensures links == old(links)[id := Link(id, [])] && rank == old(rank)[id := 0]
      ensures Owner(links, rank, id) == id
      ensures lists == old(lists) && listOf == old(listOf) && nextList == old(nextList)
      ensures Context() == old(Context()) && log == old(log)
    {
      id := nextParam;
      var v := NewParam(name, t, constructorPrototype, proxy, configEntry);
      var ls := links[id := Link(id, [])];
      // the new parameter owns its buffer, so `CreateBuffer` fills its own
      var ps := params[id := v];
      assert id !in params;
      AddedOwners(links, rank, id);
      StoreKeepsRegistered(params, lists, listOf, nextParam + 1, nextList, id, v);
      assert ls.Keys == ps.Keys;
      nextParam := nextParam + 1;
      links := ls;
      rank := rank[id := 0];
      params := ps;
    }

    /** `CreateBuffer`: a fresh instance of `t` in the owner of the chain. */
    method CreateBuffer(id: ParamId, t: TypeName)
      requires Valid() && id in params
      modifies this
      ensures Valid() && Structure() == old(Structure()) && Context() == old(Context()) && log == old(log)
      ensures var o := Owner(links, rank, id); params == old(params)[o := old(params[o]).(value := Some(NewInstance(t)))]
      ensures ValuePointer(id) == Some(NewInstance(t))
    {
      var o := OwnerOf(id);
      Store(o, params[o].(value := Some(NewInstance(t))));
    }

    /** `AttachTo`: detaches `id` from the parameter it used (removing it
        from that one's back-edges), makes it use `target`'s chain (its own
        buffer when `other` is None) and appends it to `target`'s
        back-edges; then fills the new owner as `Filled` says. Attaching
        must not close a cycle. */
    method AttachTo(id: ParamId, other: Option<ParamId>)
      requires Valid() && id in params
      requires other.Some? ==> other.value in params && (other.value == id || !OnChain(links, rank, other.value, id))
      modifies this
      ensures Valid()
      ensures var target := if other.None? then id else other.value;
        links == Relinked(old(links), id, target)
        && links[id].useValueOf == target
        && (forall b :: b in links ==> (id in links[b].attachedParameters <==> b == target && target != id))
        && Owner(links, rank, id) == (if target == id then id else old(Owner(links, rank, target)))
      ensures params == Filled(old(params), id, Owner(links, rank, id))
      ensures params[id] == old(params[id]).(value := params[id].value, dataType := params[id].dataType)
      ensures var o := Owner(links, rank, id);
        old(params)[o].value.Some? ==> ValuePointer(id) == old(params)[o].value
      ensures lists == old(lists) && listOf == old(listOf) && nextList == old(nextList) && nextParam == old(nextParam)
      ensures Context() == old(Context()) && log == old(log)
    {
      var target := if other.None? then id else other.value;
      ghost var ps := params;
      Relink(id, target);
      ghost var o := Owner(links, rank, id);
      FillOwner(id);
      FilledSees(ps, id, o);
    }

    /** The link half of `AttachTo`. */
    method Relink(id: ParamId, target: ParamId)
      requires Valid() && id in params && target in params
      requires target == id || !OnChain(links, rank, target, id)
      modifies this
      ensures Valid() && params == old(params)
      ensures links == Relinked(old(links), id, target)
      ensures links[id].useValueOf == target
      ensures forall b :: b in links ==> (id in links[b].attachedParameters <==> b == target && target != id)
      ensures Owner(links, rank, id) == (if target == id then id else old(Owner(links, rank, target)))
      ensures lists == old(lists) && listOf == old(listOf) && nextList == old(nextList) && nextParam == old(nextParam)
      ensures Context() == old(Context()) && log == old(log)
    {
      RelinkPreservesGraph(links, rank, id, target);
      RelinkedOwner(links, rank, id, target);
      RelinkedBackEdges(links, rank, id, target);
      rank := Reranked(links, rank, id, target);
      links := Relinked(links, id, target);
    }

    /** The buffer half of `AttachTo`. */
    method FillOwner(id: ParamId)
      requires Valid() && id in params
      modifies this
      ensures Valid()
      ensures links == old(links) && rank == old(rank) && lists == old(lists) && listOf == old(listOf)
      ensures nextList == old(nextList) && nextParam == old(nextParam)
      ensures Context() == old(Context()) && log == old(log)
      ensures params == Filled(old(params), id, Owner(links, rank, id))
    {
      var sp := OwnerOf(id);
      FilledKeepsRegistered(params, lists, listOf, nextParam, nextList, id, sp);
      params := Filled(params, id, sp);
    }

    /** `GetAllAttachedParameters`: `id` first, then everything reachable
        over back-edges, each once. The step to `use_value_of` never adds
        anything, because its test asks whether the parameter being visited
        is missing from the result. The result is exactly the parameters
        whose chain passes through `id`, and they all share its buffer. */
    method GetAllAttachedParameters(id: ParamId) returns (result: seq<ParamId>)
      requires Valid() && id in params
      ensures |result| > 0 && result[0] == id
      ensures NoDuplicates(result)
      ensures forall x :: x in result <==> x in links && OnChain(links, rank, x, id)
      ensures forall k :: 0 <= k < |result| ==> OwnerOf(result[k]) == OwnerOf(id)
    {
      result := [id];
      var i := 0;
      while i < |result|
        invariant 0 <= i <= |result| <= |links.Keys|
        invariant |result| > 0 && result[0] == id && NoDuplicates(result)
        invariant forall k :: 0 <= k < |result| ==> result[k] in links && OnChain(links, rank, result[k], id)
        invariant forall k, j :: 0 <= k < i && 0 <= j < |links[result[k]].attachedParameters| ==>
                    links[result[k]].attachedParameters[j] in result
        decreases |links.Keys| - i
      {
        var p := result[i];
        ghost var seen := result;
        result := AppendAttached(id, p, result);
        forall k, j' | 0 <= k < i + 1 && 0 <= j' < |links[result[k]].attachedParameters|
          ensures links[result[k]].attachedParameters[j'] in result
        {
          assert result[k] == seen[k];
        }
        i := i + 1;
      }
      forall x | x in links && OnChain(links, rank, x, id) ensures x in result {
        ClosedListHoldsChain(links, rank, id, result, x);
      }
      forall k | 0 <= k < |result| ensures OwnerOf(result[k]) == OwnerOf(id) {
        ChainSharesOwner(links, rank, result[k], id);
      }
    }

    /** The inner loop of `GetAllAttachedParameters`: appends the
        parameters attached to `p` that are not yet listed. */
    method AppendAttached(id: ParamId, p: ParamId, result0: seq<ParamId>) returns (result: seq<ParamId>)
      requires Valid() && id in params && p in links
      requires |result0| > 0 && result0[0] == id && NoDuplicates(result0) && |result0| <= |links.Keys|
      requires forall k :: 0 <= k < |result0| ==> result0[k] in links && OnChain(links, rank, result0[k], id)
      requires OnChain(links, rank, p, id)
      ensures result0 <= result && |result| <= |links.Keys| && NoDuplicates(result)
      ensures forall k :: 0 <= k < |result| ==> result[k] in links && OnChain(links, rank, result[k], id)
      ensures forall j :: 0 <= j < |links[p].attachedParameters| ==> links[p].attachedParameters[j] in result
    {
      var ats := links[p].attachedParameters;
      assert LinkClosed(links, p);
      result := result0;
      var j := 0;
      while j < |ats|
        invariant 0 <= j <= |ats|
        invariant |result| <= |links.Keys|
        invariant result0 <= result && NoDuplicates(result)
        invariant forall k :: 0 <= k < |result| ==> result[k] in links && OnChain(links, rank, result[k], id)
        invariant forall j' :: 0 <= j' < j ==> ats[j'] in result
      {
        var at := ats[j];
        if at != id && at !in result {
          assert BackEdge(links, at, p);
          AppendDistinct(result, at);
          result := result + [at];
          DistinctBounded(result, links.Keys);
        }
        j := j + 1;
      }
    }

    /** `HasChanged`: the buffer the parameter uses differs from the copy
        taken at the last reset. Two missing buffers are the same (null)
        pointer; a missing and a present one differ. */
    function HasChanged(id: ParamId): (c: bool)
      reads this
      requires Valid() && id in params
      ensures c <==> ValuePointer(id) != params[id].lastValue
    {
      var sp := params[OwnerOf(id)].value;
      var last := params[id].lastValue;
      if sp.None? && last.None? then false
      else if sp.None? || last.None? then true
      else sp.value != last.value
    }

    /** `ResetChanged`: copies the buffer into `last_value`, recreating it
        when its type differs; afterwards nothing has changed. */
    method ResetChanged(id: ParamId)
      requires Valid() && id in params && ValuePointer(id).Some?
      modifies this
      ensures Valid() && Structure() == old(Structure()) && Context() == old(Context()) && log == old(log)
      ensures params == old(params)[id := old(params[id]).(lastValue := old(ValuePointer(id)))]
      ensures !HasChanged(id)
    {
      var sp := ValuePointer(id).value;
      var last := params[id].lastValue;
      var lv := if last.None? || last.value.typeName != sp.typeName then NewInstance(sp.typeName) else last.value;
      lv := lv.(data := sp.data);
      Store(id, params[id].(lastValue := Some(lv)));
    }

    // -------------------------------------------------------------------------
    // Setting and loading the value

    /** `Set(string)`: makes sure the buffer has the declared type, then
        decodes the text into it; when decoding fails (the codec throws)
        the buffer keeps what it had after the type check. */
    method SetFromString(id: ParamId, s: string) returns (ok: bool)
      requires Valid() && id in params
      modifies this
      ensures Valid() && Structure() == old(Structure()) && Context() == old(Context()) && log == old(log)
      ensures ok <==> parse(old(params[id].dataType), s).Some?
      ensures var o := Owner(links, rank, id);
        var t := old(params[id].dataType);
        params == old(params)[o := old(params)[o].(value := if ok then Some(Value(t, parse(t, s).value))
                                                           else AfterFailedSet(old(params)[o].value, t))]
    {
      var t := params[id].dataType;
      var o := OwnerOf(id);
      var val := params[o].value;
      // `CreateBuffer` when the buffer is missing or of another type
      var buffer := if val.None? || val.value.typeName != t then Some(NewInstance(t)) else val;
      var d := parse(t, s);
      ok := d.Some?;
      Store(o, params[o].(value := if ok then Some(Value(t, d.value)) else buffer));
    }

    /** What `LoadValue` reads of the framework for parameter `id` when
        its fields are `p`. */
    function InputsFor(id: ParamId, p: Param): (r: LoadInputs)
      reads this, files.Values
      requires Valid() && id in params && Attached(id)
      ensures r.configAllowed ==> |p.configEntry| > 0
    {
      InputsAt(es, files, nodes, commandLine, ParentElement(id), p.commandLineOption, p.configEntry, p.configEntrySetByFinstruct)
    }

    /** What `LoadValue` would read of the framework for each parameter of
        an annotated list, given its current settings. */
    ghost function Inputs(): map<ParamId, LoadInputs>
      reads this, files.Values
      requires Valid()
    {
      InputsOf(es, files, nodes, commandLine, lists, params)
    }

    /** `LoadValue`: loads the value from the command line or the config
        file as `Decide` says; only the parameter's own buffer changes. */
    method LoadValue(id: ParamId) returns (from: LoadedFrom)
      requires Valid() && id in params && Attached(id)
      modifies this
      ensures Valid() && Structure() == old(Structure()) && Context() == old(Context()) && log == old(log)
      ensures params == old(params)[id := old(params[id]).(value := params[id].value)]
      ensures (from, params[id].value) == Decide(old(links[id].useValueOf == id), old(params[id]),
                                                 old(InputsFor(id, params[id])), parse, parseXml)
    {
      from := ApplyLoad(id, InputsFor(id, params[id]));
    }

    /** The steps of `LoadValue` once the framework has been consulted. */
    method ApplyLoad(id: ParamId, inputs: LoadInputs) returns (from: LoadedFrom)
      requires Valid() && id in params
      modifies this
      ensures Valid() && Structure() == old(Structure()) && Context() == old(Context()) && log == old(log)
      ensures params == old(params)[id := old(params[id]).(value := params[id].value)]
      ensures (from, params[id].value) == Decide(old(links[id].useValueOf == id), old(params[id]), inputs, parse, parseXml)
    {
      var p := params[id];
      if links[id].useValueOf != id || p.enforceCurrentValue {
        return NotLoaded;
      }
      var v := p.value;
      if inputs.commandLineApplies && |inputs.argument| > 0 {
        assert Owner(links, rank, id) == id;
        var ok := SetFromString(id, inputs.argument);
        if ok {
          return FromCommandLine;
        }
        v := params[id].value;
      }
      assert params == old(params)[id := p.(value := v)];
      if inputs.configAllowed && inputs.leaf.Some? && v.Some? {
        var d := parseXml(v.value.typeName, inputs.leaf.value);
        if d.Some? {
          Store(id, params[id].(value := Some(Value(v.value.typeName, d.value))));
          UpdateTwice(old(params), id, p.(value := v), p.(value := params[id].value));
          return FromConfigEntry;
        }
      }
      return NotLoaded;
    }

    /** `SetConfigEntry`: clears the finstruct flag; a new entry is stored
        and, when the parameter's element is ready, loaded. */
    method SetConfigEntry(id: ParamId, entry: string) returns (from: LoadedFrom)
      requires Valid() && id in params
      modifies this
      ensures Valid() && Structure() == old(Structure()) && Context() == old(Context()) && log == old(log)
      ensures params[id].configEntry == entry && !params[id].configEntrySetByFinstruct
      ensures var p := old(params[id]).(configEntry := entry, configEntrySetByFinstruct := false);
        if entry != old(params[id].configEntry) && old(Attached(id)) && IsReady(es, old(ParentElement(id)))
        then params == old(params)[id := p.(value := params[id].value)]
             && (from, params[id].value) == Decide(links[id].useValueOf == id, p, old(InputsFor(id, p)), parse, parseXml)
        else params == old(params)[id := p] && from == NotLoaded
    {
      var changed := entry != params[id].configEntry;
      var p := params[id].(configEntry := entry, configEntrySetByFinstruct := false);
      var load := changed && Attached(id) && IsReady(es, ParentElement(id));
      // `LoadValue` consults the framework with the new settings
      var inputs := if load then InputsFor(id, p) else LoadInputs(false, "", false, None);
      Store(id, p);
      from := NotLoaded;
      if load {
        from := ApplyLoad(id, inputs);
        UpdateTwice(old(params), id, p, p.(value := params[id].value));
      }
    }

    /** `UpdateAndPossiblyLoad`: stores the command line option and the
        config entry, and reloads a parameter that owns its buffer when
        either changed. */
    method UpdateAndPossiblyLoad(id: ParamId, commandLineOption: string, configEntry: string) returns (from: LoadedFrom)
      requires Valid() && id in params
      requires links[id].useValueOf == id
               && (commandLineOption != params[id].commandLineOption || configEntry != params[id].configEntry)
               ==> Attached(id)
      modifies this
      ensures Valid() && Structure() == old(Structure()) && Context() == old(Context()) && log == old(log)
      ensures params[id].commandLineOption == commandLineOption && params[id].configEntry == configEntry
      ensures params == old(params)[id := old(params[id]).(commandLineOption := commandLineOption, configEntry := configEntry,
                                                           value := params[id].value)]
      ensures var p := old(params[id]).(commandLineOption := commandLineOption, configEntry := configEntry);
        if links[id].useValueOf == id
           && (commandLineOption != old(params[id].commandLineOption) || configEntry != old(params[id].configEntry))
        then params == old(params)[id := p.(value := params[id].value)]
             && (from, params[id].value) == Decide(true, p, old(InputsFor(id, p)), parse, parseXml)
        else params == old(params)[id := p] && from == NotLoaded
      ensures params[id].value == old(params[id].value) ==> ValuePointer(id) == old(ValuePointer(id))
    {
      var changed := commandLineOption != params[id].commandLineOption || configEntry != params[id].configEntry;
      var p := params[id].(commandLineOption := commandLineOption, configEntry := configEntry);
      var load := links[id].useValueOf == id && changed;
      // `LoadValue` consults the framework with the new settings
      var inputs := if load then InputsFor(id, p) else LoadInputs(false, "", false, None);
      Store(id, p);
      from := NotLoaded;
      if load {
        from := ApplyLoad(id, inputs);
        UpdateTwice(old(params), id, p, p.(value := params[id].value));
      }
    }

    // -------------------------------------------------------------------------
    // Static parameter lists

    /** The list constructor: an empty list with no create action, not yet
        annotated to an element. */
    method NewList() returns (l: ListId)
      requires Valid()
      modifies this
      ensures Valid() && l !in old(lists)
      ensures lists == old(lists)[l := ParamList([], NoCreateAction, None)]
      ensures links == old(links) && rank == old(rank) && params == old(params) && listOf == old(listOf)
      ensures nextParam == old(nextParam) && Context() == old(Context()) && log == old(log)
    {
      l := nextList;
      NewListKeepsRegistered(params, lists, listOf, nextParam, nextList, None);
      lists := lists[l := ParamList([], NoCreateAction, None)];
      nextList := nextList + 1;
    }

    /** `GetOrCreate`: the list annotated to `fe`, annotating a new empty
        one when there is none; an existing one is returned and nothing
        changes, so a second call returns the first call's list. */
    method GetOrCreate(fe: ElementId) returns (l: ListId)
      requires Valid()
      modifies this
      ensures Valid() && fe in listOf && l == listOf[fe] && lists[l].annotated == Some(fe)
      ensures fe in old(listOf) ==> l == old(listOf[fe]) && lists == old(lists) && listOf == old(listOf)
      ensures fe !in old(listOf) ==> l !in old(lists) && lists == old(lists)[l := ParamList([], NoCreateAction, Some(fe))]
                                     && listOf == old(listOf)[fe := l]
      ensures links == old(links) && rank == old(rank) && params == old(params)
      ensures nextParam == old(nextParam) && Context() == old(Context()) && log == old(log)
    {
      if fe in listOf {
        return listOf[fe];
      }
      l := nextList;
      NewListKeepsRegistered(params, lists, listOf, nextParam, nextList, Some(fe));
      lists := lists[l := ParamList([], NoCreateAction, Some(fe))];
      listOf := listOf[fe := l];
      nextList := nextList + 1;
    }

    /** `Add`: appends `id` to list `l`, whose position and list it
        records; the earlier entries stay. The parameter must not be in a
        list yet. */
    method Add(l: ListId, id: ParamId)
      requires Valid() && l in lists && id in params && params[id].parentList.None?
      modifies this
      ensures Valid()
      ensures lists == old(lists)[l := old(lists[l]).(parameters := old(lists[l].parameters) + [id])]
      ensures params == old(params)[id := old(params[id]).(parentList := Some(l), listIndex := old(|lists[l].parameters|))]
      ensures links == old(links) && rank == old(rank) && listOf == old(listOf)
      ensures nextParam == old(nextParam) && nextList == old(nextList) && Context() == old(Context()) && log == old(log)
    {
      var n := |lists[l].parameters|;
      AddKeepsRegistered(params, lists, listOf, nextParam, nextList, l, id);
      params := params[id := params[id].(parentList := Some(l), listIndex := n)];
      lists := lists[l := lists[l].(parameters := lists[l].parameters + [id])];
    }

    /** `Clear`: releases the parameters from the last to the first and
        leaves the list empty. The released parameters are returned in the
        order of release; their records stay in the registry. */
    method Clear(l: ListId) returns (released: seq<ParamId>)
      requires Valid() && l in lists
      modifies this
      ensures Valid() && released == Reversed(old(lists[l].parameters))
      ensures lists == old(lists)[l := old(lists[l]).(parameters := [])]
      ensures links == old(links) && rank == old(rank) && params == old(params) && listOf == old(listOf)
      ensures nextParam == old(nextParam) && nextList == old(nextList) && Context() == old(Context()) && log == old(log)
    {
      var ps := lists[l].parameters;
      released := [];
      var i := |ps|;
      while i > 0
        invariant 0 <= i <= |ps|
        invariant released == Reversed(ps[i..])
      {
        i := i - 1;
        assert ps[i..][1..] == ps[i + 1..];
        released := released + [ps[i]];
      }
      assert ps[0..] == ps;
      ListChangeKeepsRegistered(params, lists, listOf, nextParam, nextList, l, lists[l].(parameters := []));
      lists := lists[l := lists[l].(parameters := [])];
    }

    /** `SetCreateAction`: records the create action once; the source
        asserts that none was recorded before. */
    method SetCreateAction(l: ListId, action: int)
      requires Valid() && l in lists && lists[l].createAction == NoCreateAction
      modifies this
      ensures Valid() && lists == old(lists)[l := old(lists[l]).(createAction := action)]
      ensures links == old(links) && rank == old(rank) && params == old(params) && listOf == old(listOf)
      ensures nextParam == old(nextParam) && nextList == old(nextList) && Context() == old(Context()) && log == old(log)
    {
      ListChangeKeepsRegistered(params, lists, listOf, nextParam, nextList, l, lists[l].(createAction := action));
      lists := lists[l := lists[l].(createAction := action)];
    }

    // -------------------------------------------------------------------------
    // Outer parameter attachment

    /** A parameter is in a list at most once (its `list_index` is its
        one position). */
    lemma ListDistinct(l: ListId)
      requires Valid() && l in lists
      ensures forall j, k :: 0 <= j < k < |lists[l].parameters| ==> lists[l].parameters[j] != lists[l].parameters[k]
    {
      forall j, k | 0 <= j < k < |lists[l].parameters| ensures lists[l].parameters[j] != lists[l].parameters[k] {
        MemberAt(l, j);
        MemberAt(l, k);
      }
    }

    /** The parameters of list `l` exist. */
    lemma ListMembersExist(l: ListId)
      requires Valid() && l in lists
      ensures forall k :: 0 <= k < |lists[l].parameters| ==> lists[l].parameters[k] in params
    {
      forall k | 0 <= k < |lists[l].parameters| ensures lists[l].parameters[k] in params {
        assert Member(lists, params, l, k);
      }
    }

    /** The parameters of the list annotated to `fe`; none when there is no
        such list (`GetOrCreate` would create an empty one). */
    ghost function GroupList(fe: ElementId): seq<ParamId>
      reads this
      requires Valid()
    {
      if fe in listOf then lists[listOf[fe]].parameters else []
    }

    /** Whether `UpdateOuterParameterAttachment` searches for an outer
        parameter named `name`: the parameter is in a list, `name` is not
        empty, and its buffer is its own or belongs to a parameter of another
        name. */
    predicate Searches(id: ParamId, name: string)
      reads this
      requires Valid() && id in params
    {
      var o := OwnerOf(id);
      params[id].parentList.Some? && |name| > 0 && (o == id || params[o].name != name)
    }

    /** Whether `y` is on the chain that starts at `x`: attaching `y` to `x`
        would then close a cycle. */
    method ChainReaches(x: ParamId, y: ParamId) returns (b: bool)
      requires Valid() && x in params
      ensures b == OnChain(links, rank, x, y)
    {
      var cur := x;
      while cur != y && links[cur].useValueOf != cur
        invariant cur in links
        invariant OnChain(links, rank, x, y) == OnChain(links, rank, cur, y)
        decreases rank[cur]
      {
        assert RankDrops(links, rank, cur);
        cur := links[cur].useValueOf;
      }
      return cur == y;
    }

    /** What `UpdateOuterParameterAttachment` does to parameter `id`. */
    ghost function Resolution(id: ParamId): (r: OuterOutcome)
      reads this
      requires Valid() && id in params
      ensures r.AttachedOuter? || r.ProxyCreated? || r.NotFound? || r.Cyclic? ==>
                Searches(id, params[id].outerParameterAttachment) && Attached(id)
                && ParentGroup(es, ParentElement(id)) == Some(r.group)
      ensures r.AttachedOuter? || r.Cyclic? ==>
                r.target in GroupList(r.group) && r.target in params
                && params[r.target].name == params[id].outerParameterAttachment
      ensures r.AttachedOuter? ==> r.target == id || !OnChain(links, rank, r.target, id)
      ensures r.Cyclic? ==> r.target != id && OnChain(links, rank, r.target, id)
      ensures r.ProxyCreated? ==> r.proxy !in params && params[id].createOuterParameter
      ensures r.Kept? ==>
                params[id].parentList.Some? && !Searches(id, params[id].outerParameterAttachment)
                && (|params[id].outerParameterAttachment| == 0 ==> links[id].useValueOf == id)
      ensures r.Detached? ==> |params[id].outerParameterAttachment| == 0 && links[id].useValueOf != id
      ensures r.Unattached? ==> Searches(id, params[id].outerParameterAttachment) && !Attached(id)
    {
      var p := params[id];
      if p.parentList.None? then Unlisted
      else if |p.outerParameterAttachment| == 0 then
        if links[id].useValueOf != id then Detached else Kept
      else if !Searches(id, p.outerParameterAttachment) then Kept
      else if !Attached(id) then Unattached
      else
        match ParentGroup(es, ParentElement(id))
        case None => NoGroup
        case Some(fg) =>
          var ps := GroupList(fg);
          match FirstNamed(params, ps, p.outerParameterAttachment)
          case Some(k) =>
            if ps[k] != id && OnChain(links, rank, ps[k], id) then Cyclic(fg, ps[k]) else AttachedOuter(fg, ps[k])
          case None => if p.createOuterParameter then ProxyCreated(fg, nextParam) else NotFound(fg)
    }

    /** The search of `UpdateOuterParameterAttachment` through list `l`. */
    method FindNamed(l: ListId, name: string) returns (k: Option<nat>)
      requires Valid() && l in lists
      ensures k == FirstNamed(params, lists[l].parameters, name)
    {
      ListMembersExist(l);
      var ps := lists[l].parameters;
      var i := 0;
      while i < |ps|
        invariant 0 <= i <= |ps|
        invariant forall j :: 0 <= j < i ==> params[ps[j]].name != name
      {
        if params[ps[i]].name == name {
          return Some(i);
        }
        i := i + 1;
      }
      return None;
    }

    /** `UpdateOuterParameterAttachment`: re-establishes the attachment its
        `outer_parameter_attachment` names. A parameter in no list is left
        alone; an empty name detaches it; otherwise, unless its owner is
        already the named parameter, it is attached to the first parameter
        of that name in the list of the nearest finstructable group above
        its element, or to a new proxy parameter appended to that list when
        it may create one. Where the source's behaviour is undefined (a list
        annotated to no element, an attachment that closes a cycle) the
        parameter is left as it is. */
    method UpdateOuterParameterAttachment(id: ParamId) returns (out: OuterOutcome)
      requires Valid() && id in params
      modifies this
      ensures Valid() && Context() == old(Context()) && log == old(log)
      ensures id in params && params[id] == old(params[id]).(value := params[id].value, dataType := params[id].dataType)
      ensures out == old(Resolution(id))
      ensures params[id].parentList.Some? ==>
                var own := params[id].parentList.value;
                own in old(lists) && own in lists && lists[own] == old(lists[own])
      ensures out.Unlisted? || out.Kept? || out.NoGroup? || out.Unattached? ==>
                Structure() == old(Structure()) && params == old(params)
      ensures out.Detached? ==>
                links == Relinked(old(links), id, id) && params == Filled(old(params), id, id)
                && lists == old(lists) && listOf == old(listOf)
      ensures out.AttachedOuter? || out.NotFound? || out.ProxyCreated? || out.Cyclic? ==>
                out.group in listOf && lists[listOf[out.group]].annotated == Some(out.group)
                && lists[listOf[out.group]].parameters == old(GroupList(out.group)) + (if out.ProxyCreated? then [out.proxy] else [])
                && (forall l :: l in old(lists) && l != listOf[out.group] ==> l in lists && lists[l] == old(lists[l]))
      ensures out.AttachedOuter? ==>
                links == Relinked(old(links), id, out.target)
                && params == Filled(old(params), id, Owner(links, rank, id))
                && Owner(links, rank, id) == (if out.target == id then id else old(Owner(links, rank, out.target)))
      ensures out.NotFound? || out.Cyclic? ==> links == old(links) && rank == old(rank) && params == old(params)
      ensures out.ProxyCreated? ==>
                links == Relinked(old(links)[out.proxy := Link(out.proxy, [])], id, out.proxy)
                && Owner(links, rank, id) == out.proxy
                && params == old(params)[out.proxy := NewParam(old(params[id].outerParameterAttachment), old(params[id].dataType),
                                                               false, true, "")
                                                       .(parentList := Some(listOf[out.group]),
                                                         listIndex := |old(GroupList(out.group))|)]
    {
      var p := params[id];
      if p.parentList.None? {
        return Unlisted;
      }
      if |p.outerParameterAttachment| == 0 {
        if links[id].useValueOf != id {
          AttachTo(id, Some(id));
          return Detached;
        }
        return Kept;
      }
      if !Searches(id, p.outerParameterAttachment) {
        return Kept;
      }
      if !Attached(id) {
        return Unattached;
      }
      var fg := ParentGroup(es, ParentElement(id));
      if fg.None? {
        // the source logs an error and ignores the attachment
        return NoGroup;
      }
      // the group lies above the parameter's element, so its list is another one
      StrictAncestorsAreSmaller(es);
      out := SearchGroup(id, fg.value);
    }

    /** The search through the list of group `fg`, which is created when
        the group has none. */
    method SearchGroup(id: ParamId, fg: ElementId) returns (out: OuterOutcome)
      requires Valid() && id in params
      modifies this
      ensures Valid() && Context() == old(Context()) && log == old(log)
      ensures id in params && params[id] == old(params[id]).(value := params[id].value, dataType := params[id].dataType)
      ensures out == match FirstNamed(old(params), old(GroupList(fg)), old(params[id].outerParameterAttachment))
                     case Some(k) =>
                       var t := old(GroupList(fg))[k];
                       if t != id && old(OnChain(links, rank, t, id)) then Cyclic(fg, t) else AttachedOuter(fg, t)
                     case None => if old(params[id].createOuterParameter) then ProxyCreated(fg, old(nextParam)) else NotFound(fg)
      ensures fg in listOf && lists[listOf[fg]].annotated == Some(fg)
              && lists[listOf[fg]].parameters == old(GroupList(fg)) + (if out.ProxyCreated? then [out.proxy] else [])
              && (forall l :: l in old(lists) && l != listOf[fg] ==> l in lists && lists[l] == old(lists[l]))
      ensures forall l :: l in old(lists) && old(lists[l].annotated) != Some(fg) ==> l in lists && lists[l] == old(lists[l])
      ensures out.AttachedOuter? ==>
                links == Relinked(old(links), id, out.target)
                && params == Filled(old(params), id, Owner(links, rank, id))
                && Owner(links, rank, id) == (if out.target == id then id else old(Owner(links, rank, out.target)))
      ensures out.NotFound? || out.Cyclic? ==> links == old(links) && rank == old(rank) && params == old(params)
      ensures out.ProxyCreated? ==>
                links == Relinked(old(links)[out.proxy := Link(out.proxy, [])], id, out.proxy)
                && Owner(links, rank, id) == out.proxy
                && params == old(params)[out.proxy := NewParam(old(params[id].outerParameterAttachment), old(params[id].dataType),
                                                               false, true, "")
                                                       .(parentList := Some(listOf[fg]), listIndex := |old(GroupList(fg))|)]
    {
      var l := GetOrCreate(fg);
      out := ResolveOuter(id, fg, l);
    }

    /** The part of `UpdateOuterParameterAttachment` after the list `l` of
        group `fg` is found: attach to the first parameter of the name, or
        create a proxy, attach to it and append it to `l`. */
    method ResolveOuter(id: ParamId, fg: ElementId, l: ListId) returns (out: OuterOutcome)
      requires Valid() && id in params && l in lists
      modifies this
      ensures Valid() && Context() == old(Context()) && log == old(log) && listOf == old(listOf)
      ensures id in params && params[id] == old(params[id]).(value := params[id].value, dataType := params[id].dataType)
      ensures out == match FirstNamed(old(params), old(lists[l].parameters), old(params[id].outerParameterAttachment))
                     case Some(k) =>
                       var t := old(lists[l].parameters)[k];
                       if t != id && old(OnChain(links, rank, t, id)) then Cyclic(fg, t) else AttachedOuter(fg, t)
                     case None => if old(params[id].createOuterParameter) then ProxyCreated(fg, old(nextParam)) else NotFound(fg)
      ensures out.AttachedOuter? ==>
                links == Relinked(old(links), id, out.target)
                && params == Filled(old(params), id, Owner(links, rank, id))
                && Owner(links, rank, id) == (if out.target == id then id else old(Owner(links, rank, out.target)))
                && lists == old(lists)
      ensures out.NotFound? || out.Cyclic? ==> Structure() == old(Structure()) && params == old(params)
      ensures out.ProxyCreated? ==>
                links == Relinked(old(links)[out.proxy := Link(out.proxy, [])], id, out.proxy)
                && Owner(links, rank, id) == out.proxy
                && params == old(params)[out.proxy := NewParam(old(params[id].outerParameterAttachment), old(params[id].dataType),
                                                               false, true, "").(parentList := Some(l), listIndex := old(|lists[l].parameters|))]
                && lists == old(lists)[l := old(lists[l]).(parameters := old(lists[l].parameters) + [out.proxy])]
    {
      var name := params[id].outerParameterAttachment;
      var k := FindNamed(l, name);
      if k.Some? {
        var target := lists[l].parameters[k.value];
        var cycle := false;
        if target != id {
          cycle := ChainReaches(target, id);
        }
        if cycle {
          // the source attaches anyway; its next `GetParameterWithBuffer` would not return
          return Cyclic(fg, target);
        }
        AttachTo(id, Some(target));
        return AttachedOuter(fg, target);
      }
      if !params[id].createOuterParameter {
        return NotFound(fg);
      }
      var proxy := CreateProxy(id, name, l);
      return ProxyCreated(fg, proxy);
    }

    /** A new proxy parameter named `name` with `id`'s type, to which `id`
        is attached and which is appended to list `l`. */
    method CreateProxy(id: ParamId, name: string, l: ListId) returns (proxy: ParamId)
      requires Valid() && id in params && l in lists
      modifies this
      ensures Valid() && proxy !in old(params) && proxy == old(nextParam)
      ensures links == Relinked(old(links)[proxy := Link(proxy, [])], id, proxy) && Owner(links, rank, id) == proxy
      ensures params == old(params)[proxy := NewParam(name, old(params[id].dataType), false, true, "")
                                              .(parentList := Some(l), listIndex := old(|lists[l].parameters|))]
      ensures lists == old(lists)[l := old(lists[l]).(parameters := old(lists[l].parameters) + [proxy])]
      ensures listOf == old(listOf) && nextList == old(nextList)
      ensures Context() == old(Context()) && log == old(log)
    {
      var t := params[id].dataType;
      ghost var ps := params;
      ghost var v := NewParam(name, t, false, true, "");
      proxy := NewParameter(name, t, false, true, "");
      FilledByOwner(params, id, proxy);
      AttachTo(id, Some(proxy));
      UpdateTwice(ps, proxy, v, v.(parentList := Some(l), listIndex := |lists[l].parameters|));
      Add(l, proxy);
    }

    /** `SetOuterParameterAttachment`: stores the name and the create flag,
        then updates the attachment. */
    method SetOuterParameterAttachment(id: ParamId, name: string, createOuter: bool) returns (out: OuterOutcome)
      requires Valid() && id in params
      modifies this
      ensures Valid() && Context() == old(Context()) && log == old(log)
      ensures id in params && params[id].outerParameterAttachment == name && params[id].createOuterParameter == createOuter
    {
      Store(id, params[id].(outerParameterAttachment := name, createOuterParameter := createOuter));
      out := UpdateOuterParameterAttachment(id);
    }
  }
}
