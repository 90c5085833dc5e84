/** Static parameter evaluation (`tStaticParameterList::DoStaticParameterEvaluation`)
    and the config node setter that triggers it (`tConfigNode::SetConfigNode`).
    Evaluation reloads the parameters of an element, tells the element when
    any of them changed, and then walks the element's primary children and
    the groups of changed attached parameters. The framework calls it makes
    are recorded in the registry's event log. */
module Evaluation {
  import opened Common
  import opened Elements
  import opened Attachment
  import opened ConfigFiles
  import opened ConfigNodes
  import opened Values
  import opened StaticParameters

  /** Between two states of the parameters only buffers and last values
      changed. */
  ghost predicate ValuesOnly(before: map<ParamId, Param>, after: map<ParamId, Param>) {
    after.Keys == before.Keys
    && forall x :: x in before ==> after[x] == before[x].(value := after[x].value, lastValue := after[x].lastValue)
  }

  /** Event `k` of the log is an evaluation of an element that has a
      parameter list, or the initialisation of a ready element right after
      its evaluation and after position `n`. */
  ghost predicate EventOk(log: seq<Event>, n: nat, k: nat, listOf: map<ElementId, ListId>, es: ElementTree)
    requires k < |log|
  {
    match log[k]
    case EvaluateStaticParameters(e) => e in listOf
    case Init(e) => n < k && log[k - 1] == EvaluateStaticParameters(e) && IsReady(es, e)
    case LoadParameterValues(_) => false
  }

  /** Every event from position `n` on is as `EventOk` says. */
  ghost predicate Evaluations(log: seq<Event>, n: nat, listOf: map<ElementId, ListId>, es: ElementTree) {
    n <= |log| && forall k {:trigger EventOk(log, n, k, listOf, es)} :: n <= k < |log| ==> EventOk(log, n, k, listOf, es)
  }

  lemma EvaluationsCompose(log0: seq<Event>, log1: seq<Event>, log2: seq<Event>,
                           listOf: map<ElementId, ListId>, es: ElementTree)
    requires log0 <= log1 <= log2
    requires Evaluations(log1, |log0|, listOf, es) && Evaluations(log2, |log1|, listOf, es)
    ensures Evaluations(log2, |log0|, listOf, es)
  {
    forall k | |log0| <= k < |log2| ensures EventOk(log2, |log0|, k, listOf, es) {
      if k < |log1| {
        assert EventOk(log1, |log0|, k, listOf, es);
        assert log2[k] == log1[k];
        if k > 0 {
          assert log2[k - 1] == log1[k - 1];
        }
      } else {
        assert EventOk(log2, |log1|, k, listOf, es);
      }
    }
  }

  lemma PrefixTrans(a: seq<Event>, b: seq<Event>, c: seq<Event>)
    requires a <= b && b <= c
    ensures a <= c
  {
  }

  /** Only buffers changed. */
  ghost predicate BuffersOnly(before: map<ParamId, Param>, after: map<ParamId, Param>) {
    after.Keys == before.Keys && forall x :: x in before ==> after[x] == before[x].(value := after[x].value)
  }

  /** Only last values changed. */
  ghost predicate LastValuesOnly(before: map<ParamId, Param>, after: map<ParamId, Param>) {
    after.Keys == before.Keys && forall x :: x in before ==> after[x] == before[x].(lastValue := after[x].lastValue)
  }

  lemma BuffersOnlyStep(before: map<ParamId, Param>, mid: map<ParamId, Param>, p: ParamId, v: Option<Value>)
    requires BuffersOnly(before, mid) && p in mid
    ensures BuffersOnly(before, mid[p := mid[p].(value := v)])
  {
  }

  lemma LastValuesOnlyStep(before: map<ParamId, Param>, mid: map<ParamId, Param>, p: ParamId, v: Option<Value>)
    requires LastValuesOnly(before, mid) && p in mid
    ensures LastValuesOnly(before, mid[p := mid[p].(lastValue := v)])
  {
  }

  lemma ValuesOnlyCompose(a: map<ParamId, Param>, b: map<ParamId, Param>, c: map<ParamId, Param>)
    requires ValuesOnly(a, b) && ValuesOnly(b, c)
    ensures ValuesOnly(a, c)
  {
  }

  /** `x` is on the chain of one of the first `j` members of `ps`. */
  ghost predicate OnSomeChain(ls: Links, rk: map<ParamId, nat>, x: ParamId, ps: seq<ParamId>, j: nat)
    requires Ranked(ls, rk) && x in ls && j <= |ps|
  {
    j > 0 && (OnSomeChain(ls, rk, x, ps, j - 1) || OnChain(ls, rk, x, ps[j - 1]))
  }

  lemma {:induction false} OnSomeChainExists(ls: Links, rk: map<ParamId, nat>, x: ParamId, ps: seq<ParamId>, j: nat)
    requires Ranked(ls, rk) && x in ls && j <= |ps|
    ensures OnSomeChain(ls, rk, x, ps, j) <==> exists k :: 0 <= k < j && OnChain(ls, rk, x, ps[k])
  {
    if j > 0 {
      OnSomeChainExists(ls, rk, x, ps, j - 1);
      if OnChain(ls, rk, x, ps[j - 1]) {
        assert 0 <= j - 1 < j;
      }
    }
  }

  /** Every parameter of `ps` whose buffer (as recorded in `vp`) exists has
      that buffer as its last value. */
  ghost predicate ResetUpTo(params: map<ParamId, Param>, vp: map<ParamId, Option<Value>>, ps: seq<ParamId>, i: nat)
    requires i <= |ps|
  {
    forall k :: 0 <= k < i ==> ps[k] in params && ps[k] in vp && (vp[ps[k]].Some? ==> params[ps[k]].lastValue == vp[ps[k]])
  }

  lemma ResetStep(params: map<ParamId, Param>, vp: map<ParamId, Option<Value>>, ps: seq<ParamId>, i: nat, v: Option<Value>)
    requires i < |ps| && ResetUpTo(params, vp, ps, i) && ps[i] in params && ps[i] in vp
    requires vp[ps[i]].Some? ==> v == vp[ps[i]]
    ensures ResetUpTo(params[ps[i] := params[ps[i]].(lastValue := v)], vp, ps, i + 1)
  {
  }

  lemma ResetSkip(params: map<ParamId, Param>, vp: map<ParamId, Option<Value>>, ps: seq<ParamId>, i: nat)
    requires i < |ps| && ResetUpTo(params, vp, ps, i) && ps[i] in params && ps[i] in vp && vp[ps[i]].None?
    ensures ResetUpTo(params, vp, ps, i + 1)
  {
  }

  /** Whether a parameter owns its buffer (`use_value_of` is itself). */
  predicate Owns(ls: Links, x: ParamId) {
    x in ls && ls[x].useValueOf == x
  }

  /** The parameters after the first `j` members of `ps` were loaded,
      each as `Decide` says with the inputs `ins` gives it. The members of a
      list are distinct and a load changes only the member's own buffer, so
      the order of the loads does not matter for the result. */
  ghost function Loaded(pm: map<ParamId, Param>, ls: Links, ins: map<ParamId, LoadInputs>, ps: seq<ParamId>, j: nat,
                        parse: StringCodec, parseXml: XmlCodec): (r: map<ParamId, Param>)
    requires j <= |ps|
    ensures r.Keys == pm.Keys
  {
    map x | x in pm :: if x in ps[..j] && x in ins then pm[x].(value := Decide(Owns(ls, x), pm[x], ins[x], parse, parseXml).1) else pm[x]
  }

  /** `HasChanged` of `x` when the parameters are `pm`: the buffer of its
      owner differs from its last value. */
  ghost predicate ChangedIn(pm: map<ParamId, Param>, ls: Links, rk: map<ParamId, nat>, x: ParamId)
    requires Ranked(ls, rk) && x in ls
  {
    x in pm && Owner(ls, rk, x) in pm && pm[Owner(ls, rk, x)].value != pm[x].lastValue
  }

  /** One of the first `j` members of `ps` reports a change right after
      its own load (the loop's `changed |= HasChanged()`). */
  ghost predicate ChangedBy(pm: map<ParamId, Param>, ls: Links, rk: map<ParamId, nat>, ins: map<ParamId, LoadInputs>,
                            ps: seq<ParamId>, j: nat, parse: StringCodec, parseXml: XmlCodec)
    requires Ranked(ls, rk) && j <= |ps|
  {
    j > 0 && (ChangedBy(pm, ls, rk, ins, ps, j - 1, parse, parseXml)
              || (ps[j - 1] in ls && ChangedIn(Loaded(pm, ls, ins, ps, j, parse, parseXml), ls, rk, ps[j - 1])))
  }

  /** `ChangedBy` holds exactly when some one of the first `j` members
      reports a change right after its own load. */
  lemma {:induction false} ChangedByExists(pm: map<ParamId, Param>, ls: Links, rk: map<ParamId, nat>, ins: map<ParamId, LoadInputs>,
                                           ps: seq<ParamId>, j: nat, parse: StringCodec, parseXml: XmlCodec)
    requires Ranked(ls, rk) && j <= |ps|
    ensures ChangedBy(pm, ls, rk, ins, ps, j, parse, parseXml)
            <==> exists k :: 0 <= k < j && ps[k] in ls && ChangedIn(Loaded(pm, ls, ins, ps, k + 1, parse, parseXml), ls, rk, ps[k])
  {
    if j > 0 {
      ChangedByExists(pm, ls, rk, ins, ps, j - 1, parse, parseXml);
      if ps[j - 1] in ls && ChangedIn(Loaded(pm, ls, ins, ps, j, parse, parseXml), ls, rk, ps[j - 1]) {
        assert 0 <= j - 1 < j;
      }
    }
  }

  /** Some member of `ps` reports a change right after its own load. */
  ghost predicate ChangesOnLoad(pm: map<ParamId, Param>, ls: Links, rk: map<ParamId, nat>, ins: map<ParamId, LoadInputs>,
                                ps: seq<ParamId>, parse: StringCodec, parseXml: XmlCodec)
    requires Ranked(ls, rk)
  {
    ChangedBy(pm, ls, rk, ins, ps, |ps|, parse, parseXml)
  }

  /** The parameters once the list of `fe` is loaded. */
  ghost function AfterLoad(r: Registry, fe: ElementId): map<ParamId, Param>
    reads r, r.files.Values
    requires r.Valid()
  {
    var ps := r.GroupList(fe);
    Loaded(r.params, r.links, r.Inputs(), ps, |ps|, r.parse, r.parseXml)
  }

  /** Whether evaluating `fe` finds a change in its own list. */
  ghost predicate ReportsChange(r: Registry, fe: ElementId)
    reads r, r.files.Values
    requires r.Valid()
  {
    ChangesOnLoad(r.params, r.links, r.rank, r.Inputs(), r.GroupList(fe), r.parse, r.parseXml)
  }

  lemma LoadedStep(pm: map<ParamId, Param>, ls: Links, ins: map<ParamId, LoadInputs>, ps: seq<ParamId>, i: nat,
                   parse: StringCodec, parseXml: XmlCodec)
    requires i < |ps| && ps[i] in pm && ps[i] in ins && forall a, b :: 0 <= a < b < |ps| ==> ps[a] != ps[b]
    ensures Loaded(pm, ls, ins, ps, i, parse, parseXml)[ps[i]] == pm[ps[i]]
    ensures Loaded(pm, ls, ins, ps, i + 1, parse, parseXml)
            == Loaded(pm, ls, ins, ps, i, parse, parseXml)[ps[i] := pm[ps[i]].(value := Decide(Owns(ls, ps[i]), pm[ps[i]], ins[ps[i]], parse, parseXml).1)]
  {
    assert ps[i] !in ps[..i];
    assert ps[..i + 1] == ps[..i] + [ps[i]];
  }

  /** Loading a parameter a second time with the same inputs leaves the
      buffer the first load produced. */
  lemma DecideIdempotent(owns: bool, p: Param, inputs: LoadInputs, parse: StringCodec, parseXml: XmlCodec)
    ensures var v := Decide(owns, p, inputs, parse, parseXml).1;
      Decide(owns, p.(value := v), inputs, parse, parseXml).1 == v
  {
  }

  /** Evaluating an element again, with no change in the framework in
      between, loads the same buffers. */
  lemma {:induction false} ReloadKeepsBuffers(pm: map<ParamId, Param>, ls: Links, ins: map<ParamId, LoadInputs>, ps: seq<ParamId>,
                                              parse: StringCodec, parseXml: XmlCodec)
    ensures var once := Loaded(pm, ls, ins, ps, |ps|, parse, parseXml);
      Loaded(once, ls, ins, ps, |ps|, parse, parseXml) == once
  {
    var once := Loaded(pm, ls, ins, ps, |ps|, parse, parseXml);
    forall x | x in once && x in ps[..|ps|] && x in ins
      ensures once[x].(value := Decide(Owns(ls, x), once[x], ins[x], parse, parseXml).1) == once[x]
    {
      DecideIdempotent(Owns(ls, x), pm[x], ins[x], parse, parseXml);
    }
  }

  /** One step of the first loop: `LoadValue`, `HasChanged` and
      `GetAllAttachedParameters` on member `i` of list `l`. When the first
      `i` members were loaded from `pm0` with inputs `ins`, the first
      `i + 1` are afterwards. */
  /** ChangedBy over one more member of the list. */
  lemma ChangedByStep(pm: map<ParamId, Param>, ls: Links, rk: map<ParamId, nat>, ins: map<ParamId, LoadInputs>,
                      ps: seq<ParamId>, i: nat, parse: StringCodec, parseXml: XmlCodec)
    requires Ranked(ls, rk) && i < |ps|
    ensures ChangedBy(pm, ls, rk, ins, ps, i + 1, parse, parseXml)
            <==> ChangedBy(pm, ls, rk, ins, ps, i, parse, parseXml)
                 || (ps[i] in ls && ChangedIn(Loaded(pm, ls, ins, ps, i + 1, parse, parseXml), ls, rk, ps[i]))
  {
  }

  /** Appending the chain of the next member keeps the attached list exactly the union of the chains so far. */
  lemma OnSomeChainStep(ls: Links, rk: map<ParamId, nat>, ps: seq<ParamId>, i: nat, before: seq<ParamId>, chain: seq<ParamId>)
    requires Ranked(ls, rk) && i < |ps|
    requires forall x :: x in before <==> x in ls && OnSomeChain(ls, rk, x, ps, i)
    requires forall x :: x in chain <==> x in ls && OnChain(ls, rk, x, ps[i])
    ensures forall x :: x in before + chain <==> x in ls && OnSomeChain(ls, rk, x, ps, i + 1)
  {
  }

  method LoadOne(r: Registry, l: ListId, i: nat, ghost pm0: map<ParamId, Param>, ghost ins: map<ParamId, LoadInputs>)
    returns (changed: bool, attached: seq<ParamId>)
    requires r.Valid() && l in r.lists && r.lists[l].annotated.Some? && i < |r.lists[l].parameters|
    requires ins == InputsOf(r.es, r.files, r.nodes, r.commandLine, r.lists, pm0)
    requires r.params == Loaded(pm0, r.links, ins, r.lists[l].parameters, i, r.parse, r.parseXml)
    modifies r
    ensures r.Valid() && r.Structure() == old(r.Structure()) && r.Context() == old(r.Context()) && r.log == old(r.log)
    ensures var p := old(r.lists[l].parameters[i]);
      p in old(r.params) && old(r.Attached(p))
      && r.params == old(r.params)[p := old(r.params[p]).(value := Decide(Owns(r.links, p), old(r.params[p]),
                                                                          old(r.InputsFor(p, r.params[p])), r.parse, r.parseXml).1)]
      && changed == r.HasChanged(p) && changed == ChangedIn(r.params, r.links, r.rank, p)
      && forall x :: x in attached <==> x in r.links && OnChain(r.links, r.rank, x, p)
    ensures r.params == Loaded(pm0, r.links, ins, r.lists[l].parameters, i + 1, r.parse, r.parseXml)
  {
    r.MemberAt(l, i);
    r.ListDistinct(l);
    var p := r.lists[l].parameters[i];
    assert p in ins && r.InputsFor(p, r.params[p]) == ins[p];
    LoadedStep(pm0, r.links, ins, r.lists[l].parameters, i, r.parse, r.parseXml);
    var _ := r.LoadValue(p);
    changed := r.HasChanged(p);
    attached := r.GetAllAttachedParameters(p);
  }

  /** Loading changes buffers only. */
  lemma LoadedBuffersOnly(pm: map<ParamId, Param>, ls: Links, ins: map<ParamId, LoadInputs>, ps: seq<ParamId>, j: nat,
                          parse: StringCodec, parseXml: XmlCodec)
    requires j <= |ps|
    ensures BuffersOnly(pm, Loaded(pm, ls, ins, ps, j, parse, parseXml))
  {
  }

  /** The first loop of the evaluation: loads every parameter of list
      `l` as `Decide` says, notes whether one of them reports a change right
      after its load, and collects the parameters attached to each, which
      are exactly those whose chain passes a parameter of the list. */
  method LoadList(r: Registry, l: ListId) returns (changed: bool, attached: seq<ParamId>)
    requires r.Valid() && l in r.lists && r.lists[l].annotated.Some?
    modifies r
    ensures r.Valid() && r.Structure() == old(r.Structure()) && r.Context() == old(r.Context()) && r.log == old(r.log)
    ensures BuffersOnly(old(r.params), r.params)
    ensures var ps := r.lists[l].parameters;
      r.params == Loaded(old(r.params), r.links, old(r.Inputs()), ps, |ps|, r.parse, r.parseXml)
    ensures changed <==> ChangesOnLoad(old(r.params), r.links, r.rank, old(r.Inputs()), r.lists[l].parameters, r.parse, r.parseXml)
    ensures forall x :: x in attached <==> x in r.links && OnSomeChain(r.links, r.rank, x, r.lists[l].parameters, |r.lists[l].parameters|)
  {
    ghost var ins := r.Inputs();
    changed, attached := LoadEach(r, l, ins);
    LoadedBuffersOnly(old(r.params), r.links, ins, r.lists[l].parameters, |r.lists[l].parameters|, r.parse, r.parseXml);
  }

  /** One turn of the loop in LoadEach: loads member i and folds its outcome into the running results. */
  method LoadNext(r: Registry, l: ListId, i: nat, ghost pm0: map<ParamId, Param>, ghost ins: map<ParamId, LoadInputs>,
                  changed0: bool, attached0: seq<ParamId>)
    returns (changed: bool, attached: seq<ParamId>)
    requires r.Valid() && l in r.lists && r.lists[l].annotated.Some? && i < |r.lists[l].parameters|
    requires ins == InputsOf(r.es, r.files, r.nodes, r.commandLine, r.lists, pm0)
    requires r.params == Loaded(pm0, r.links, ins, r.lists[l].parameters, i, r.parse, r.parseXml)
    requires changed0 <==> ChangedBy(pm0, r.links, r.rank, ins, r.lists[l].parameters, i, r.parse, r.parseXml)
    requires forall x :: x in attached0 <==> x in r.links && OnSomeChain(r.links, r.rank, x, r.lists[l].parameters, i)
    modifies r
    ensures r.Valid() && r.Structure() == old(r.Structure()) && r.Context() == old(r.Context()) && r.log == old(r.log)
    ensures r.params == Loaded(pm0, r.links, ins, r.lists[l].parameters, i + 1, r.parse, r.parseXml)
    ensures changed <==> ChangedBy(pm0, r.links, r.rank, ins, r.lists[l].parameters, i + 1, r.parse, r.parseXml)
    ensures forall x :: x in attached <==> x in r.links && OnSomeChain(r.links, r.rank, x, r.lists[l].parameters, i + 1)
  {
    var ch, ap := LoadOne(r, l, i, pm0, ins);
    ChangedByStep(pm0, r.links, r.rank, ins, r.lists[l].parameters, i, r.parse, r.parseXml);
    OnSomeChainStep(r.links, r.rank, r.lists[l].parameters, i, attached0, ap);
    changed := changed0 || ch;
    attached := attached0 + ap;
  }

  /** The loop of LoadList: one LoadOne per member, in list order. */
  method LoadEach(r: Registry, l: ListId, ghost ins: map<ParamId, LoadInputs>) returns (changed: bool, attached: seq<ParamId>)
    requires r.Valid() && l in r.lists && r.lists[l].annotated.Some?
    requires ins == InputsOf(r.es, r.files, r.nodes, r.commandLine, r.lists, r.params)
    modifies r
    ensures r.Valid() && r.Structure() == old(r.Structure()) && r.Context() == old(r.Context()) && r.log == old(r.log)
    ensures var ps := r.lists[l].parameters;
      r.params == Loaded(old(r.params), r.links, ins, ps, |ps|, r.parse, r.parseXml)
    ensures changed <==> ChangedBy(old(r.params), r.links, r.rank, ins, r.lists[l].parameters, |r.lists[l].parameters|, r.parse, r.parseXml)
    ensures forall x :: x in attached <==> x in r.links && OnSomeChain(r.links, r.rank, x, r.lists[l].parameters, |r.lists[l].parameters|)
  {
    var ps := r.lists[l].parameters;
    ghost var ls := r.links;
    ghost var rk := r.rank;
    changed := false;
    attached := [];
    var i := 0;
    while i < |ps|
      invariant 0 <= i <= |ps|
      invariant r.Valid() && r.Structure() == old(r.Structure()) && r.Context() == old(r.Context()) && r.log == old(r.log)
      invariant r.links == ls && r.rank == rk && r.lists[l].parameters == ps
      invariant r.params == Loaded(old(r.params), ls, ins, ps, i, r.parse, r.parseXml)
      invariant changed <==> ChangedBy(old(r.params), ls, rk, ins, ps, i, r.parse, r.parseXml)
      invariant forall x :: x in attached <==> x in ls && OnSomeChain(ls, rk, x, ps, i)
    {
      changed, attached := LoadNext(r, l, i, old(r.params), ins, changed, attached);
      i := i + 1;
    }
  }

  /** The reset loop of the evaluation: afterwards no parameter of list `l`
      that has a buffer reports a change, no buffer was touched and no
      other parameter changed. (The source dereferences the buffer; a
      parameter without one is skipped.) */
  method ResetList(r: Registry, l: ListId)
    requires r.Valid() && l in r.lists
    modifies r
    ensures r.Valid() && r.Structure() == old(r.Structure()) && r.Context() == old(r.Context()) && r.log == old(r.log)
    ensures LastValuesOnly(old(r.params), r.params)
    ensures forall k :: 0 <= k < |r.lists[l].parameters| ==>
              r.lists[l].parameters[k] in r.params
              && (r.ValuePointer(r.lists[l].parameters[k]).Some? ==> !r.HasChanged(r.lists[l].parameters[k]))
    ensures forall x :: x in r.params && x !in r.lists[l].parameters ==> r.params[x] == old(r.params[x])
  {
    r.ListMembersExist(l);
    var ps := r.lists[l].parameters;
    ghost var vp := map y | y in r.params :: r.ValuePointer(y);
    var i := 0;
    while i < |ps|
      invariant 0 <= i <= |ps|
      invariant r.Valid() && r.Structure() == old(r.Structure()) && r.Context() == old(r.Context()) && r.log == old(r.log)
      invariant LastValuesOnly(old(r.params), r.params)
      invariant ResetUpTo(r.params, vp, ps, i)
      invariant forall x :: x in r.params && x !in ps ==> r.params[x] == old(r.params[x])
    {
      var p := ps[i];
      ghost var mid := r.params;
      if r.ValuePointer(p).Some? {
        ghost var v := r.ValuePointer(p);
        assert v == vp[p];
        r.ResetChanged(p);
        LastValuesOnlyStep(old(r.params), mid, p, v);
        ResetStep(mid, vp, ps, i, v);
      } else {
        ResetSkip(mid, vp, ps, i);
      }
      i := i + 1;
    }
    forall y | y in r.params ensures r.ValuePointer(y) == vp[y] {
      assert r.params[r.OwnerOf(y)].value == old(r.params[r.OwnerOf(y)].value);
    }
  }

  /** The events one evaluation of `fe` logs: the evaluation and, for a
      ready element, its initialisation, when a parameter changed. */
  function OwnLog(fe: ElementId, changed: bool, es: ElementTree): seq<Event> {
    if changed then [EvaluateStaticParameters(fe)] + (if IsReady(es, fe) then [Init(fe)] else []) else []
  }

  lemma OwnLogOk(log0: seq<Event>, fe: ElementId, changed: bool, listOf: map<ElementId, ListId>, es: ElementTree)
    requires changed ==> fe in listOf
    ensures Evaluations(log0 + OwnLog(fe, changed, es), |log0|, listOf, es)
  {
    var log := log0 + OwnLog(fe, changed, es);
    if changed {
      assert EventOk(log, |log0|, |log0|, listOf, es);
      if IsReady(es, fe) {
        assert EventOk(log, |log0|, |log0| + 1, listOf, es);
      }
    }
  }

  /** The branch of the evaluation taken when a parameter of `fe`'s list
      changed: the element is told, the change flags of the list are reset
      and a ready element is initialised. Afterwards no parameter of the
      list whose buffer exists reports a change, and only last values
      changed. */
  method AnnounceChange(r: Registry, fe: ElementId)
    requires r.Valid() && fe in r.listOf
    modifies r
    ensures r.Valid() && r.Structure() == old(r.Structure()) && r.Context() == old(r.Context())
    ensures r.log == old(r.log) + OwnLog(fe, true, r.es)
    ensures LastValuesOnly(old(r.params), r.params)
    ensures forall k :: 0 <= k < |r.lists[r.listOf[fe]].parameters| ==>
              var x := r.lists[r.listOf[fe]].parameters[k];
              x in r.links && r.params[Owner(r.links, r.rank, x)].value.Some? ==> !ChangedIn(r.params, r.links, r.rank, x)
  {
    var l := r.listOf[fe];
    r.Notify([EvaluateStaticParameters(fe)]);
    ResetList(r, l);
    forall k | 0 <= k < |r.lists[l].parameters|
      ensures var x := r.lists[l].parameters[k];
        x in r.links && r.params[Owner(r.links, r.rank, x)].value.Some? ==> !ChangedIn(r.params, r.links, r.rank, x)
    {
      var x := r.lists[l].parameters[k];
      assert r.ValuePointer(x).Some? ==> !r.HasChanged(x);
    }
    if IsReady(r.es, fe) {
      r.Notify([Init(fe)]);
    }
  }

  /** The part of the evaluation that concerns `fe`'s own list: its
      parameters are loaded; when one of them changed, the element is told
      (and initialised when it is ready) and the changes are reset, so that
      no parameter of the list with a buffer reports a change any more.
      Returns whether there was a change and the parameters attached to the
      list's parameters. An element without a list is left alone. */
  method EvaluateOwn(r: Registry, fe: ElementId) returns (changed: bool, attached: seq<ParamId>)
    requires r.Valid()
    modifies r
    ensures r.Valid() && r.Structure() == old(r.Structure()) && r.Context() == old(r.Context())
    ensures fe !in old(r.listOf) ==> unchanged(r) && attached == []
    ensures changed == old(ReportsChange(r, fe))
    ensures r.log == old(r.log) + OwnLog(fe, changed, r.es)
    ensures !changed ==> r.params == old(AfterLoad(r, fe))
    ensures changed ==> LastValuesOnly(old(AfterLoad(r, fe)), r.params) && fe in r.listOf
                        && forall k :: 0 <= k < |r.lists[r.listOf[fe]].parameters| ==>
                             var x := r.lists[r.listOf[fe]].parameters[k];
                             x in r.links && r.params[Owner(r.links, r.rank, x)].value.Some? ==> !ChangedIn(r.params, r.links, r.rank, x)
    ensures ValuesOnly(old(r.params), r.params)
    ensures forall x :: x in attached <==> x in r.links && OnSomeChain(r.links, r.rank, x, r.GroupList(fe), |r.GroupList(fe)|)
  {
    attached := [];
    changed := false;
    if fe in r.listOf {
      var l := r.listOf[fe];
      changed, attached := LoadList(r, l);
      assert r.GroupList(fe) == r.lists[l].parameters;
      if changed {
        assert r.params == old(AfterLoad(r, fe));
        AnnounceChange(r, fe);
      }
    } else {
      assert old(AfterLoad(r, fe)) == r.params;
    }
  }

  /** `DoStaticParameterEvaluation(fe)`, with `fuel` bounding the depth of
      the recursion: `fe`'s own list first, then its children, then the
      elements of changed attached parameters. Only buffers and last values
      change, the framework is told about evaluations and initialisations
      only, and the log starts with the events of `fe`'s own list. */
  method Evaluate(r: Registry, fe: ElementId, fuel: nat)
    requires r.Valid()
    modifies r
    decreases fuel, 2
    ensures r.Valid() && r.Structure() == old(r.Structure()) && r.Context() == old(r.Context())
    ensures ValuesOnly(old(r.params), r.params)
    ensures old(r.log) <= r.log && Evaluations(r.log, |old(r.log)|, r.listOf, r.es)
    ensures fuel > 0 ==> old(r.log) + OwnLog(fe, old(ReportsChange(r, fe)), r.es) <= r.log
  {
    if fuel == 0 {
      return;
    }
    var changed, attached := EvaluateOwn(r, fe);
    OwnLogOk(old(r.log), fe, changed, r.listOf, r.es);
    ghost var p1, log1 := r.params, r.log;
    EvaluateChildren(r, fe, fuel);
    ghost var p2, log2 := r.params, r.log;
    EvaluationsCompose(old(r.log), log1, log2, r.listOf, r.es);
    ValuesOnlyCompose(old(r.params), p1, p2);
    EvaluateAttached(r, attached, fuel);
    EvaluationsCompose(old(r.log), log2, r.log, r.listOf, r.es);
    ValuesOnlyCompose(old(r.params), p2, r.params);
  }

  /** The children of `fe`, in order. */
  function Children(es: ElementTree, fe: ElementId): seq<ElementId> {
    if fe in es then es[fe].children else []
  }

  /** The walk over the children evaluates `c`: it is a primary (its parent
      is `fe`), not deleted child. */
  predicate Walks(es: ElementTree, fe: ElementId, c: ElementId) {
    Parent(es, c) == Some(fe) && !es[c].deleted
  }

  /** The first child of `cs` the walk evaluates. */
  function FirstWalked(es: ElementTree, fe: ElementId, cs: seq<ElementId>): (r: Option<ElementId>)
    ensures r.Some? ==> r.value in cs && Walks(es, fe, r.value)
    ensures r.None? ==> forall k :: 0 <= k < |cs| ==> !Walks(es, fe, cs[k])
  {
    if cs == [] then None
    else if Walks(es, fe, cs[0]) then Some(cs[0])
    else FirstWalked(es, fe, cs[1..])
  }

  lemma {:induction false} FirstWalkedSnoc(es: ElementTree, fe: ElementId, cs: seq<ElementId>, c: ElementId)
    ensures FirstWalked(es, fe, cs + [c])
            == if FirstWalked(es, fe, cs).Some? then FirstWalked(es, fe, cs) else if Walks(es, fe, c) then Some(c) else None
  {
    if cs != [] {
      assert (cs + [c])[1..] == cs[1..] + [c];
      FirstWalkedSnoc(es, fe, cs[1..], c);
    }
  }

  /** FirstWalked over one more element of `cs`. */
  lemma FirstWalkedNext(es: ElementTree, fe: ElementId, cs: seq<ElementId>, i: nat)
    requires i < |cs|
    ensures FirstWalked(es, fe, cs[..i + 1])
            == if FirstWalked(es, fe, cs[..i]).Some? then FirstWalked(es, fe, cs[..i]) else if Walks(es, fe, cs[i]) then Some(cs[i]) else None
  {
    assert cs[..i + 1] == cs[..i] + [cs[i]];
    FirstWalkedSnoc(es, fe, cs[..i], cs[i]);
  }

  /** The walk over the primary, not deleted children of `fe`. Without
      such a child nothing happens; otherwise the log starts with the
      events of the first one's own list (given fuel for it). */
  method EvaluateChildren(r: Registry, fe: ElementId, fuel: nat)
    requires r.Valid() && fuel > 0
    modifies r
    decreases fuel, 1
    ensures r.Valid() && r.Structure() == old(r.Structure()) && r.Context() == old(r.Context())
    ensures ValuesOnly(old(r.params), r.params)
    ensures old(r.log) <= r.log && Evaluations(r.log, |old(r.log)|, r.listOf, r.es)
    ensures FirstWalked(r.es, fe, Children(r.es, fe)).None? ==> unchanged(r)
    ensures fuel > 1 && FirstWalked(r.es, fe, Children(r.es, fe)).Some? ==>
              var c := FirstWalked(r.es, fe, Children(r.es, fe)).value;
              old(r.log) + OwnLog(c, old(ReportsChange(r, c)), r.es) <= r.log
  {
    var children := Children(r.es, fe);
    ghost var ins := r.Inputs();
    ghost var es := r.es;
    var i := 0;
    while i < |children|
      invariant 0 <= i <= |children|
      invariant r.Valid() && r.Structure() == old(r.Structure()) && r.Context() == old(r.Context())
      invariant ValuesOnly(old(r.params), r.params)
      invariant old(r.log) <= r.log && Evaluations(r.log, |old(r.log)|, r.listOf, r.es)
      invariant ins == r.Inputs()
      invariant FirstWalked(es, fe, children[..i]).None? ==> unchanged(r)
      invariant fuel > 1 && FirstWalked(es, fe, children[..i]).Some? ==>
                  var c := FirstWalked(es, fe, children[..i]).value;
                  old(r.log) + OwnLog(c, ChangesOnLoad(old(r.params), r.links, r.rank, ins, Members(r.listOf, r.lists, c),
                                                       r.parse, r.parseXml), r.es) <= r.log
    {
      var c := children[i];
      FirstWalkedNext(es, fe, children, i);
      if Walks(r.es, fe, c) {
        EvaluateReported(r, c, fuel - 1, old(r.log), old(r.params), ins);
      }
      i := i + 1;
    }
    assert children[..i] == children;
  }

  /** The members of the list annotated to `fe` (`GroupList`), as a value. */
  function Members(listOf: map<ElementId, ListId>, lists: map<ListId, ParamList>, fe: ElementId): seq<ParamId> {
    if fe in listOf && listOf[fe] in lists then lists[listOf[fe]].parameters else []
  }

  /** What a load reads of the framework does not depend on the buffers or
      last values of the parameters. */
  lemma InputsKeep(es: ElementTree, files: map<ElementId, ConfigFile>, nodes: NodeAnnotations,
                   commandLine: map<string, string>, lists: map<ListId, ParamList>,
                   before: map<ParamId, Param>, after: map<ParamId, Param>)
    requires ValidTree(es) && ValuesOnly(before, after)
    ensures InputsOf(es, files, nodes, commandLine, lists, before) == InputsOf(es, files, nodes, commandLine, lists, after)
  {
    assert forall x :: x in before ==> ListElement(lists, before[x]) == ListElement(lists, after[x]);
  }

  /** Evaluation leaves what a load reads of the framework as it was:
      the context, the lists and the config files are untouched and only
      buffers and last values change. */
  twostate lemma InputsStay(r: Registry)
    requires old(r.Valid()) && r.Valid()
    requires r.Context() == old(r.Context()) && r.lists == old(r.lists) && ValuesOnly(old(r.params), r.params)
    requires unchanged(r.files.Values)
    ensures r.Inputs() == old(r.Inputs())
  {
    InputsKeep(r.es, r.files, r.nodes, r.commandLine, r.lists, old(r.params), r.params);
  }

  /** `a` is a parameter of a list with an element that reports a change
      (`HasChanged`) when the parameters are `pm`. */
  ghost predicate ReportsIn(pm: map<ParamId, Param>, ls: Links, rk: map<ParamId, nat>, lists: map<ListId, ParamList>, a: ParamId)
    requires Ranked(ls, rk)
  {
    a in pm && a in ls && ListElement(lists, pm[a]).Some? && ChangedIn(pm, ls, rk, a)
  }

  /** The test the loop over attached parameters makes. */
  predicate Reports(r: Registry, a: ParamId): (b: bool)
    reads r
    requires r.Valid()
    ensures b <==> ReportsIn(r.params, r.links, r.rank, r.lists, a)
    ensures b ==> r.ParentElement(a) == ListElement(r.lists, r.params[a]).value
  {
    a in r.params && r.Attached(a) && r.HasChanged(a)
  }

  /** The element of the first of the first `j` parameters of `ps` that
      reports a change when the parameters are `pm`. */
  ghost function FirstReporting(pm: map<ParamId, Param>, ls: Links, rk: map<ParamId, nat>, lists: map<ListId, ParamList>,
                                ps: seq<ParamId>, j: nat): Option<ElementId>
    requires Ranked(ls, rk) && j <= |ps|
  {
    if j == 0 then None
    else if FirstReporting(pm, ls, rk, lists, ps, j - 1).Some? then FirstReporting(pm, ls, rk, lists, ps, j - 1)
    else if ReportsIn(pm, ls, rk, lists, ps[j - 1]) then ListElement(lists, pm[ps[j - 1]])
    else None
  }

  /** One step of the walk over the attached parameters: the element of
      `a` is evaluated again when `a` still reports a change. */
  method EvaluateIfReporting(r: Registry, a: ParamId, fuel: nat, ghost log0: seq<Event>, ghost params0: map<ParamId, Param>,
                             ghost ins: map<ParamId, LoadInputs>)
    requires r.Valid() && fuel > 0
    requires log0 <= r.log && Evaluations(r.log, |log0|, r.listOf, r.es) && ValuesOnly(params0, r.params)
    requires ins == r.Inputs()
    modifies r
    decreases fuel, 0
    ensures r.Valid() && r.Structure() == old(r.Structure()) && r.Context() == old(r.Context())
    ensures ValuesOnly(old(r.params), r.params)
    ensures old(r.log) <= r.log && Evaluations(r.log, |old(r.log)|, r.listOf, r.es)
    ensures log0 <= r.log && Evaluations(r.log, |log0|, r.listOf, r.es) && ValuesOnly(params0, r.params)
    ensures ins == r.Inputs()
    ensures !ReportsIn(old(r.params), r.links, r.rank, r.lists, a) ==> unchanged(r)
    ensures fuel > 1 && ReportsIn(old(r.params), r.links, r.rank, r.lists, a) ==>
              var e := ListElement(r.lists, old(r.params)[a]).value;
              old(r.log) + OwnLog(e, ChangesOnLoad(old(r.params), r.links, r.rank, ins, Members(r.listOf, r.lists, e),
                                                   r.parse, r.parseXml), r.es) <= r.log
  {
    if Reports(r, a) {
      EvaluateReported(r, r.ParentElement(a), fuel - 1, log0, params0, ins);
    }
  }

  /** Evaluate, with the composition of its guarantees with those of the
      evaluations before it. */
  method EvaluateReported(r: Registry, e: ElementId, fuel: nat, ghost log0: seq<Event>, ghost params0: map<ParamId, Param>,
                          ghost ins: map<ParamId, LoadInputs>)
    requires r.Valid()
    requires log0 <= r.log && Evaluations(r.log, |log0|, r.listOf, r.es) && ValuesOnly(params0, r.params)
    requires ins == r.Inputs()
    modifies r
    decreases fuel, 3
    ensures r.Valid() && r.Structure() == old(r.Structure()) && r.Context() == old(r.Context())
    ensures ValuesOnly(old(r.params), r.params)
    ensures old(r.log) <= r.log && Evaluations(r.log, |old(r.log)|, r.listOf, r.es)
    ensures log0 <= r.log && Evaluations(r.log, |log0|, r.listOf, r.es) && ValuesOnly(params0, r.params)
    ensures ins == r.Inputs()
    ensures fuel > 0 ==>
              old(r.log) + OwnLog(e, ChangesOnLoad(old(r.params), r.links, r.rank, ins, Members(r.listOf, r.lists, e),
                                                   r.parse, r.parseXml), r.es) <= r.log
  {
    ghost var log1, p1 := r.log, r.params;
    Evaluate(r, e, fuel);
    EvaluationsCompose(log0, log1, r.log, r.listOf, r.es);
    ValuesOnlyCompose(params0, p1, r.params);
    InputsStay(r);
  }

  /** The walk over the collected attached parameters: the element of each
      one that still reports a change is evaluated again. Without such a
      parameter nothing happens; otherwise the log starts with the events
      of the first one's element (given fuel for it). (The source
      dereferences the parameter's list and its element; a parameter
      outside an annotated list is skipped.) */
  method EvaluateAttached(r: Registry, attached: seq<ParamId>, fuel: nat)
    requires r.Valid() && fuel > 0
    modifies r
    decreases fuel, 1
    ensures r.Valid() && r.Structure() == old(r.Structure()) && r.Context() == old(r.Context())
    ensures ValuesOnly(old(r.params), r.params)
    ensures old(r.log) <= r.log && Evaluations(r.log, |old(r.log)|, r.listOf, r.es)
    ensures FirstReporting(old(r.params), r.links, r.rank, r.lists, attached, |attached|).None? ==> unchanged(r)
    ensures fuel > 1 && FirstReporting(old(r.params), r.links, r.rank, r.lists, attached, |attached|).Some? ==>
              var e := FirstReporting(old(r.params), r.links, r.rank, r.lists, attached, |attached|).value;
              old(r.log) + OwnLog(e, old(ReportsChange(r, e)), r.es) <= r.log
  {
    ghost var ins := r.Inputs();
    var i := 0;
    while i < |attached|
      invariant 0 <= i <= |attached|
      invariant r.Valid() && r.Structure() == old(r.Structure()) && r.Context() == old(r.Context())
      invariant ValuesOnly(old(r.params), r.params)
      invariant old(r.log) <= r.log && Evaluations(r.log, |old(r.log)|, r.listOf, r.es)
      invariant ins == r.Inputs()
      invariant FirstReporting(old(r.params), r.links, r.rank, r.lists, attached, i).None? ==> unchanged(r)
      invariant fuel > 1 && FirstReporting(old(r.params), r.links, r.rank, r.lists, attached, i).Some? ==>
                  var e := FirstReporting(old(r.params), r.links, r.rank, r.lists, attached, i).value;
                  old(r.log) + OwnLog(e, ChangesOnLoad(old(r.params), r.links, r.rank, ins, Members(r.listOf, r.lists, e),
                                                       r.parse, r.parseXml), r.es) <= r.log
    {
      ghost var first := FirstReporting(old(r.params), r.links, r.rank, r.lists, attached, i);
      ghost var next := FirstReporting(old(r.params), r.links, r.rank, r.lists, attached, i + 1);
      EvaluateIfReporting(r, attached[i], fuel, old(r.log), old(r.params), ins);
      i := i + 1;
    }
  }


  /** An evaluation never ends with a reload of parameter values. */
  lemma LastIsNoLoad(log0: seq<Event>, log: seq<Event>, listOf: map<ElementId, ListId>, es: ElementTree)
    requires log0 <= log && Evaluations(log, |log0|, listOf, es)
    ensures |log| > |log0| ==> !log[|log| - 1].LoadParameterValues?
  {
    if |log| > |log0| {
      assert EventOk(log, |log0|, |log| - 1, listOf, es);
    }
  }

  /** `tConfigNode::SetConfigNode`: nothing happens when `fe` already has
      this node; otherwise the annotation is set or created, the element's
      static parameters are evaluated, and a ready element with a
      configuration file above it has its parameter values reloaded from
      that file. */
  method SetConfigNode(r: Registry, fe: ElementId, node: string, fuel: nat)
    requires r.Valid()
    modifies r
    ensures r.Valid() && r.Structure() == old(r.Structure())
    ensures r.es == old(r.es) && r.files == old(r.files) && r.commandLine == old(r.commandLine)
    ensures fe in old(r.nodes) && old(r.nodes[fe]) == node ==> r.nodes == old(r.nodes) && r.params == old(r.params) && r.log == old(r.log)
    ensures r.nodes == old(r.nodes)[fe := node]
    ensures ValuesOnly(old(r.params), r.params)
    ensures old(r.log) <= r.log
    ensures |r.log| > |old(r.log)| && r.log[|r.log| - 1].LoadParameterValues? ==>
              r.log[|r.log| - 1] == LoadParameterValues(fe) && IsReady(r.es, fe) && Find(r.es, r.files, fe).Some?
    ensures !(fe in old(r.nodes) && old(r.nodes[fe]) == node) && IsReady(r.es, fe) && Find(r.es, r.files, fe).Some? ==>
              |r.log| > |old(r.log)| && r.log[|r.log| - 1] == LoadParameterValues(fe)
  {
    if fe in r.nodes && r.nodes[fe] == node {
      return;
    }
    r.AnnotateNode(fe, node);
    Evaluate(r, fe, fuel);
    LastIsNoLoad(old(r.log), r.log, r.listOf, r.es);
    if IsReady(r.es, fe) && Find(r.es, r.files, fe).Some? {
      r.Notify([LoadParameterValues(fe)]);
    }
  }
}
