/** Reading and writing static parameters and static parameter lists: the
    binary stream form finstruct exchanges (`Serialize(tOutputStream&)`,
    `Deserialize(tInputStream&)` and the list's stream operators) and the
    XML form of .finroc files (`Serialize(tNode&, bool)`,
    `Deserialize(const tNode&, bool)`). The forms themselves are the pure
    functions of `ParameterCodec`; this module ties them to the registry. */
module ParameterIO {
  import opened Common
  import opened Values
  import opened Attachment
  import opened ParameterCodec
  import opened StaticParameters
  import opened TypedParameters
  import opened Evaluation

  // ---------------------------------------------------------------------------
  // One parameter, stream form

  /** `Serialize(tOutputStream&)` of parameter `id`: its settings and the
      buffer it uses. */
  function Serialize(r: Registry, id: ParamId): (t: seq<Token>)
    reads r
    requires r.Valid() && id in r.params
    ensures |t| == if r.ValuePointer(id).Some? then 11 else 9
    ensures t[0] == Str(r.params[id].name) && t[1] == TypeTok(r.params[id].dataType)
  {
    WriteParameter(SettingsOf(r.params[id]), r.ValuePointer(id))
  }

  /** Whatever follows a parameter in the stream, reading the parameter
      back yields its settings and its buffer and stops where it ended. */
  lemma SerializeRoundTrip(r: Registry, id: ParamId, rest: seq<Token>)
    requires r.Valid() && id in r.params
    ensures ReadHeader(Serialize(r, id) + rest) == Some((HeaderOf(SettingsOf(r.params[id])), WriteValue(r.ValuePointer(id)) + rest))
    ensures ReadValue(WriteValue(r.ValuePointer(id)) + rest) == Some((r.ValuePointer(id), rest))
  {
    StreamRoundTrip(SettingsOf(r.params[id]), r.ValuePointer(id), rest);
  }

  /** The settings `Deserialize(tInputStream&)` stores before it reattaches
      the parameter. */
  function WithHeader(p: Param, h: Header): Param {
    p.(outerParameterAttachment := h.outerParameterAttachment, createOuterParameter := h.createOuterParameter,
       configEntrySetByFinstruct := h.configEntrySetByFinstruct, enforceCurrentValue := h.enforceCurrentValue)
  }

  /** The value part of `Deserialize(tInputStream&)`
      (`DeserializeValue`): a buffer of another type than the one read is
      replaced by a fresh one of that type, which then takes the contents.
      (The source dereferences the buffer; a parameter without one gets a
      fresh buffer as well.) */
  method ReceiveValue(r: Registry, id: ParamId, v: Value)
    requires r.Valid() && id in r.params
    modifies r
    ensures r.Valid() && r.Structure() == old(r.Structure()) && r.Context() == old(r.Context()) && r.log == old(r.log)
    ensures r.ValuePointer(id) == Some(v)
    ensures var o := r.OwnerOf(id); r.params == old(r.params)[o := old(r.params[o]).(value := Some(v))]
    ensures BuffersOnly(old(r.params), r.params)
  {
    ghost var ps := r.params;
    var o := r.OwnerOf(id);
    var vp := r.ValuePointer(id);
    if vp.None? || vp.value.typeName != v.typeName {
      r.CreateBuffer(id, v.typeName);
      UpdateTwice(ps, o, ps[o].(value := Some(NewInstance(v.typeName))), ps[o].(value := Some(v)));
    } else {
      assert vp.value.(data := v.data) == v;
    }
    Set(r, id, v.data);
    BuffersOnlyStep(ps, ps, o, Some(v));
  }

  /** The settings part of `Deserialize(tInputStream&)` once the header
      is read: the flags and the outer attachment are stored, the parameter
      is reattached, and the command line option and config entry are
      stored (reloading the parameter when they changed). */
  method ReceiveHeader(r: Registry, id: ParamId, h: Header)
    requires r.Valid() && id in r.params && r.Attached(id)
    modifies r
    ensures r.Valid() && r.Context() == old(r.Context()) && r.log == old(r.log)
    ensures id in r.params && r.params[id].parentList == old(r.params[id].parentList)
    ensures r.params[id].parentList.Some? ==>
              var own := r.params[id].parentList.value;
              own in r.lists && r.lists[own] == old(r.lists[own])
    ensures r.params[id].outerParameterAttachment == h.outerParameterAttachment
            && r.params[id].createOuterParameter == h.createOuterParameter
            && r.params[id].configEntrySetByFinstruct == h.configEntrySetByFinstruct
            && r.params[id].enforceCurrentValue == h.enforceCurrentValue
            && r.params[id].commandLineOption == h.commandLineOption
            && r.params[id].configEntry == h.configEntry
    ensures OthersKeepSettings(old(r.params), r.params, id)
  {
    ghost var p0 := r.params;
    r.Store(id, WithHeader(r.params[id], h));
    ghost var p1 := r.params;
    var _ := Reattach(r, id);
    ghost var p2 := r.params;
    ghost var p := r.params[id];
    assert p.outerParameterAttachment == h.outerParameterAttachment && p.createOuterParameter == h.createOuterParameter
           && p.configEntrySetByFinstruct == h.configEntrySetByFinstruct && p.enforceCurrentValue == h.enforceCurrentValue;
    var _ := r.UpdateAndPossiblyLoad(id, h.commandLineOption, h.configEntry);
    assert r.params[id] == p.(commandLineOption := h.commandLineOption, configEntry := h.configEntry, value := r.params[id].value);
    UpdateKeepsOthers(p0, id, p1[id], id);
    UpdateKeepsOthers(p2, id, r.params[id], id);
    OthersKeepTrans(p0, p1, p2, id);
    OthersKeepTrans(p0, p2, r.params, id);
  }

  /** `Deserialize(tInputStream&)`: reads the header, stores the outer
      attachment, the create flag, the finstruct flag and the enforce flag,
      reattaches the parameter, stores command line option and config entry
      (reloading when they changed), and reads the value part. Returns what
      is left of the stream, or None when the stream does not hold a
      parameter. */
  method DeserializeStream(r: Registry, id: ParamId, t: seq<Token>) returns (rest: Option<seq<Token>>)
    requires r.Valid() && id in r.params && r.Attached(id)
    modifies r
    ensures r.Valid() && r.Context() == old(r.Context()) && r.log == old(r.log)
    ensures id in r.params && r.params[id].parentList == old(r.params[id].parentList)
    ensures r.params[id].parentList.Some? ==>
              var own := r.params[id].parentList.value;
              own in r.lists && r.lists[own] == old(r.lists[own])
    ensures ReadHeader(t).None? ==> rest.None? && r.params == old(r.params) && r.Structure() == old(r.Structure())
    ensures ReadHeader(t).Some? ==>
              var h := ReadHeader(t).value.0;
              r.params[id].outerParameterAttachment == h.outerParameterAttachment
              && r.params[id].createOuterParameter == h.createOuterParameter
              && r.params[id].configEntrySetByFinstruct == h.configEntrySetByFinstruct
              && r.params[id].enforceCurrentValue == h.enforceCurrentValue
              && r.params[id].commandLineOption == h.commandLineOption
              && r.params[id].configEntry == h.configEntry
    ensures rest == SkipParameter(t)
    ensures rest.Some? && ReadValue(ReadHeader(t).value.1).value.0.Some? ==>
              r.ValuePointer(id) == ReadValue(ReadHeader(t).value.1).value.0
    ensures OthersKeepSettings(old(r.params), r.params, id)
  {
    var hr := ReadHeader(t);
    if hr.None? {
      return None;
    }
    ghost var p0 := r.params;
    ReceiveHeader(r, id, hr.value.0);
    var vr := ReadValue(hr.value.1);
    if vr.None? {
      return None;
    }
    if vr.value.0.Some? {
      ghost var p1 := r.params;
      ReceiveValue(r, id, vr.value.0.value);
      BuffersOnlyKeepsOthers(p1, r.params, id);
      OthersKeepTrans(p0, p1, r.params, id);
    }
    return Some(vr.value.1);
  }

  // ---------------------------------------------------------------------------
  // One parameter, XML form

  /** `Serialize(tNode&, finstruct_context)` of parameter `id`, which must
      have a buffer: the attributes `EmitAttributes` chooses and the
      buffer's contents. */
  function SerializeXml(r: Registry, id: ParamId, finstructContext: bool): (n: ParameterNode)
    reads r
    requires r.Valid() && id in r.params && r.ValuePointer(id).Some?
    ensures n.content == r.ValuePointer(id).value.data
    ensures var p := r.params[id];
      var x := ReadAttributes(n.attributes, p.dataType, finstructContext, p.configEntrySetByFinstruct);
      x.bufferType == r.ValuePointer(id).value.typeName && x.enforceCurrentValue == p.enforceCurrentValue
      && x.commandLineOption == p.commandLineOption && x.outerParameterAttachment == p.outerParameterAttachment
      && x.configEntry == (if finstructContext && !p.configEntrySetByFinstruct then "" else p.configEntry)
  {
    var p := r.params[id];
    var v := r.ValuePointer(id).value;
    AttributesRoundTrip(SettingsOf(p), v.typeName, p.staticParameterProxy, finstructContext);
    ParameterNode(EmitAttributes(SettingsOf(p), v.typeName, p.staticParameterProxy, finstructContext), v.data)
  }

  /** `p` holds the settings the attributes `m` give a parameter whose
      finstruct flag was `flag0`: everything but the buffer type. */
  ghost predicate Configured(p: Param, m: map<string, string>, finstructContext: bool, flag0: bool) {
    var x := ReadAttributes(m, p.dataType, finstructContext, flag0);
    p.enforceCurrentValue == x.enforceCurrentValue && p.outerParameterAttachment == x.outerParameterAttachment
    && p.configEntrySetByFinstruct == x.configEntrySetByFinstruct && p.commandLineOption == x.commandLineOption
    && p.configEntry == x.configEntry
  }

  /** An outcome of `UpdateOuterParameterAttachment` that leaves the
      parameter using the buffer it used before. */
  predicate KeepsBuffer(out: OuterOutcome) {
    out.Unlisted? || out.Kept? || out.NoGroup? || out.Unattached? || out.NotFound? || out.Cyclic?
  }

  /** `UpdateOuterParameterAttachment` as the deserialisers use it: the
      other parameters keep their settings, and an outcome that does not
      reattach leaves the buffer the parameter uses as it was. */
  method Reattach(r: Registry, id: ParamId) returns (out: OuterOutcome)
    requires r.Valid() && id in r.params
    modifies r
    ensures r.Valid() && r.Context() == old(r.Context()) && r.log == old(r.log)
    ensures id in r.params && r.params[id] == old(r.params[id]).(value := r.params[id].value, dataType := r.params[id].dataType)
    ensures r.params[id].parentList.Some? ==>
              var own := r.params[id].parentList.value;
              own in old(r.lists) && own in r.lists && r.lists[own] == old(r.lists[own])
    ensures OthersKeepSettings(old(r.params), r.params, id)
    ensures KeepsBuffer(out) ==> r.links == old(r.links) && r.rank == old(r.rank) && r.params == old(r.params)
    ensures KeepsBuffer(out) ==> r.ValuePointer(id) == old(r.ValuePointer(id))
  {
    ghost var ps := r.params;
    out := r.UpdateOuterParameterAttachment(id);
    OuterKeepsSettings(ps, r.params, id, out, if out.Detached? then id else r.OwnerOf(id));
  }

  /** The settings half of `Reattach`, over the outcomes'
      effects on the parameters. */
  lemma OuterKeepsSettings(ps: map<ParamId, Param>, after: map<ParamId, Param>, id: ParamId, out: OuterOutcome, o: ParamId)
    requires id in ps
    requires KeepsBuffer(out) ==> after == ps
    requires out.Detached? || out.AttachedOuter? ==> o in ps && after == Filled(ps, id, o)
    requires out.ProxyCreated? ==> out.proxy !in ps && out.proxy in after && after == ps[out.proxy := after[out.proxy]]
    ensures OthersKeepSettings(ps, after, id)
  {
    if out.Detached? || out.AttachedOuter? {
      FilledKeepsSettings(ps, id, o);
    }
  }

  /** `Deserialize(const tNode&, finstruct_context)`: the enforce flag and
      the buffer (recreated when the node names another type) come first,
      then the outer attachment (the parameter is reattached), then the
      finstruct flag (taken from the context when the node has a config
      entry), and last the command line option and config entry, which
      reload the parameter when they changed. */
  method DeserializeXml(r: Registry, id: ParamId, node: ParameterNode, finstructContext: bool)
    returns (out: OuterOutcome, from: LoadedFrom)
    requires r.Valid() && id in r.params && r.Attached(id)
    modifies r
    ensures r.Valid() && r.Context() == old(r.Context()) && r.log == old(r.log)
    ensures id in r.params && r.params[id].parentList == old(r.params[id].parentList)
    ensures r.params[id].parentList.Some? ==>
              var own := r.params[id].parentList.value;
              own in r.lists && r.lists[own] == old(r.lists[own])
    ensures var x := ReadAttributes(node.attributes, old(r.params[id].dataType), finstructContext,
                                    old(r.params[id].configEntrySetByFinstruct));
      r.params[id].enforceCurrentValue == x.enforceCurrentValue
      && r.params[id].outerParameterAttachment == x.outerParameterAttachment
      && r.params[id].configEntrySetByFinstruct == x.configEntrySetByFinstruct
      && r.params[id].commandLineOption == x.commandLineOption
      && r.params[id].configEntry == x.configEntry
    ensures OthersKeepSettings(old(r.params), r.params, id)
    ensures var x := ReadAttributes(node.attributes, old(r.params[id].dataType), finstructContext,
                                    old(r.params[id].configEntrySetByFinstruct));
      var reloads := r.links[id].useValueOf == id
                     && (x.commandLineOption != old(r.params[id].commandLineOption) || x.configEntry != old(r.params[id].configEntry));
      (out.Unlisted? || out.Kept? || out.NoGroup? || out.Unattached? || out.NotFound? || out.Cyclic?) && !reloads ==>
        r.ValuePointer(id) == Some(Value(x.bufferType, node.content))
  {
    var x := ReadAttributes(node.attributes, r.params[id].dataType, finstructContext, r.params[id].configEntrySetByFinstruct);
    ghost var p0 := r.params;
    r.Store(id, r.params[id].(enforceCurrentValue := x.enforceCurrentValue));
    ghost var p1 := r.params;
    ReceiveValue(r, id, Value(x.bufferType, node.content));
    ghost var p2 := r.params;
    r.Store(id, r.params[id].(outerParameterAttachment := x.outerParameterAttachment));
    ghost var p3 := r.params;
    out := Reattach(r, id);
    ghost var p4 := r.params;
    r.Store(id, r.params[id].(configEntrySetByFinstruct := x.configEntrySetByFinstruct));
    ghost var p5 := r.params;
    from := r.UpdateAndPossiblyLoad(id, x.commandLineOption, x.configEntry);
    UpdateKeepsOthers(p0, id, p1[id], id);
    BuffersOnlyKeepsOthers(p1, p2, id);
    UpdateKeepsOthers(p2, id, p3[id], id);
    UpdateKeepsOthers(p4, id, p5[id], id);
    UpdateKeepsOthers(p5, id, r.params[id], id);
    OthersKeepTrans(p0, p1, p2, id);
    OthersKeepTrans(p0, p2, p3, id);
    OthersKeepTrans(p0, p3, p4, id);
    OthersKeepTrans(p0, p4, p5, id);
    OthersKeepTrans(p0, p5, r.params, id);
  }

  /** A change to `id` alone, or one that keeps the settings, keeps the
      other parameters' settings. */
  lemma UpdateKeepsOthers(ps: map<ParamId, Param>, k: ParamId, v: Param, id: ParamId)
    requires k in ps && (k == id || SameSettings(ps[k], v))
    ensures OthersKeepSettings(ps, ps[k := v], id)
  {
  }

  lemma BuffersOnlyKeepsOthers(before: map<ParamId, Param>, after: map<ParamId, Param>, id: ParamId)
    requires BuffersOnly(before, after)
    ensures OthersKeepSettings(before, after, id)
  {
    forall j | j in before && j != id ensures j in after && SameSettings(before[j], after[j]) {
      assert after[j] == before[j].(value := after[j].value);
    }
  }

  lemma OthersKeepTrans(a: map<ParamId, Param>, b: map<ParamId, Param>, c: map<ParamId, Param>, id: ParamId)
    requires OthersKeepSettings(a, b, id) && OthersKeepSettings(b, c, id)
    ensures OthersKeepSettings(a, c, id)
  {
  }

  /** After `DeserializeXml` the buffer `id` used holds what the node
      carried, until reattachment or reloading replace it; this is the
      buffer the method fills first. */
  lemma XmlContentRoundTrip(r: Registry, id: ParamId, finstructContext: bool)
    requires r.Valid() && id in r.params && r.ValuePointer(id).Some?
    ensures var n := SerializeXml(r, id, finstructContext);
      var x := ReadAttributes(n.attributes, r.params[id].dataType, finstructContext, r.params[id].configEntrySetByFinstruct);
      Value(x.bufferType, n.content) == r.ValuePointer(id).value
  {
  }

  // ---------------------------------------------------------------------------
  // Lists

  /** The stream forms of the parameters `ps`. */
  function Forms(r: Registry, ps: seq<ParamId>): (ws: seq<seq<Token>>)
    reads r
    requires r.Valid() && forall k :: 0 <= k < |ps| ==> ps[k] in r.params
    ensures |ws| == |ps| && forall k :: 0 <= k < |ps| ==> ws[k] == Serialize(r, ps[k])
  {
    if ps == [] then [] else [Serialize(r, ps[0])] + Forms(r, ps[1..])
  }

  /** Stream forms written one after another. */
  function Concat(ws: seq<seq<Token>>): seq<Token> {
    if ws == [] then [] else ws[0] + Concat(ws[1..])
  }

  lemma {:induction false} ConcatSnoc(ws: seq<seq<Token>>, i: nat)
    requires i < |ws|
    ensures Concat(ws[..i + 1]) == Concat(ws[..i]) + ws[i]
  {
    if i == 0 {
      assert ws[..1][1..] == [];
    } else {
      assert ws[..i + 1][1..] == ws[1..][..i];
      assert ws[..i][1..] == ws[1..][..i - 1];
      ConcatSnoc(ws[1..], i - 1);
      AppendAssoc(ws[0], Concat(ws[1..][..i - 1]), ws[i]);
    }
  }

  lemma AppendAssoc(a: seq<Token>, b: seq<Token>, c: seq<Token>)
    ensures a + (b + c) == (a + b) + c
  {
  }

  /** What is left after reading one parameter's stream form (header and
      value part), as `Deserialize(tInputStream&)` reads it. */
  function SkipParameter(t: seq<Token>): Option<seq<Token>> {
    match ReadHeader(t)
    case None => None
    case Some(h) =>
      match ReadValue(h.1)
      case None => None
      case Some(v) => Some(v.1)
  }

  /** What is left after reading `n` parameters one after another. */
  function SkipParameters(t: seq<Token>, n: nat): Option<seq<Token>> {
    if n == 0 then Some(t)
    else match SkipParameter(t)
      case None => None
      case Some(t') => SkipParameters(t', n - 1)
  }

  lemma {:induction false} SkipParametersStep(t: seq<Token>, n: nat)
    requires SkipParameters(t, n).Some?
    ensures SkipParameters(t, n + 1) == SkipParameter(SkipParameters(t, n).value)
  {
    if n > 0 {
      SkipParametersStep(SkipParameter(t).value, n - 1);
    }
  }

  /** `w` reads back as one parameter, whatever follows it. */
  ghost predicate IsForm(w: seq<Token>) {
    forall tail :: SkipParameter(w + tail) == Some(tail)
  }

  lemma SerializedForms(r: Registry, ps: seq<ParamId>)
    requires r.Valid() && forall k :: 0 <= k < |ps| ==> ps[k] in r.params
    ensures forall k :: 0 <= k < |ps| ==> IsForm(Forms(r, ps)[k])
  {
    var ws := Forms(r, ps);
    forall k | 0 <= k < |ws| ensures IsForm(ws[k]) {
      forall tail ensures SkipParameter(ws[k] + tail) == Some(tail) {
        SerializeRoundTrip(r, ps[k], tail);
      }
    }
  }

  /** Reading back forms written one after another consumes exactly them,
      whatever follows. */
  lemma {:induction false} ConcatRoundTrip(ws: seq<seq<Token>>, rest: seq<Token>)
    requires forall k :: 0 <= k < |ws| ==> IsForm(ws[k])
    ensures SkipParameters(Concat(ws) + rest, |ws|) == Some(rest)
  {
    if ws != [] {
      var tail := Concat(ws[1..]) + rest;
      AppendAssoc(ws[0], Concat(ws[1..]), rest);
      assert Concat(ws) + rest == ws[0] + tail;
      assert IsForm(ws[0]);
      assert SkipParameter(ws[0] + tail) == Some(tail);
      assert forall k :: 0 <= k < |ws[1..]| ==> IsForm(ws[1..][k]) by {
        forall k | 0 <= k < |ws| - 1 ensures IsForm(ws[1..][k]) {
          assert ws[1..][k] == ws[k + 1];
        }
      }
      ConcatRoundTrip(ws[1..], rest);
      assert SkipParameters(Concat(ws) + rest, |ws|) == SkipParameters(tail, |ws| - 1);
    } else {
      assert Concat(ws) + rest == rest;
    }
  }

  /** The stream form of list `l`: its create action, its size and its
      parameters. */
  function ListStream(r: Registry, l: ListId): (t: seq<Token>)
    reads r
    requires r.Valid() && l in r.lists
  {
    r.ListMembersExist(l);
    [Int(r.lists[l].createAction), Int(|r.lists[l].parameters|)] + Concat(Forms(r, r.lists[l].parameters))
  }

  /** The list's `operator <<` on streams: the create action, the size and
      each parameter's stream form in order. */
  method WriteList(r: Registry, l: ListId) returns (t: seq<Token>)
    requires r.Valid() && l in r.lists
    ensures t == ListStream(r, l)
    ensures |t| >= 2 && t[0] == Int(r.lists[l].createAction) && t[1] == Int(|r.lists[l].parameters|)
  {
    r.ListMembersExist(l);
    var ps := r.lists[l].parameters;
    ghost var ws := Forms(r, ps);
    var head := [Int(r.lists[l].createAction), Int(|ps|)];
    t := head;
    var i := 0;
    while i < |ps|
      invariant 0 <= i <= |ps|
      invariant t == head + Concat(ws[..i])
    {
      var w := Serialize(r, ps[i]);
      ConcatSnoc(ws, i);
      AppendAssoc(head, Concat(ws[..i]), w);
      t := t + w;
      i := i + 1;
    }
    assert ws[..i] == ws;
  }

  /** The part of the list's `operator >>` on streams that checks the
      head: the create action and the size must match the list's. */
  function ReadListHead(t: seq<Token>, createAction: int, size: nat): (r: Option<seq<Token>>)
    ensures r.Some? <==> |t| >= 2 && t[0] == Int(createAction) && t[1] == Int(size)
    ensures r.Some? ==> r.value == t[2..]
  {
    if |t| >= 2 && t[0] == Int(createAction) && t[1] == Int(size) then Some(t[2..]) else None
  }

  /** A list accepts what it wrote itself: the head matches, and reading
      its parameters consumes exactly their stream forms, whatever follows. */
  lemma ListRoundTrip(r: Registry, l: ListId, rest: seq<Token>)
    requires r.Valid() && l in r.lists
    requires forall k :: 0 <= k < |r.lists[l].parameters| ==> r.lists[l].parameters[k] in r.params
    ensures var head := ReadListHead(ListStream(r, l) + rest, r.lists[l].createAction, |r.lists[l].parameters|);
      head.Some? && SkipParameters(head.value, |r.lists[l].parameters|) == Some(rest)
  {
    var ps := r.lists[l].parameters;
    var ws := Forms(r, ps);
    var t := ListStream(r, l) + rest;
    assert t[2..] == Concat(ws) + rest;
    SerializedForms(r, ps);
    ConcatRoundTrip(ws, rest);
  }

  /** Reading `k` of the forms written one after another leaves the
      remaining forms. */
  lemma {:induction false} ConcatSkip(ws: seq<seq<Token>>, rest: seq<Token>, k: nat)
    requires k <= |ws| && forall j :: 0 <= j < |ws| ==> IsForm(ws[j])
    ensures SkipParameters(Concat(ws) + rest, k) == Some(Concat(ws[k..]) + rest)
  {
    if k == 0 {
      assert ws[0..] == ws;
    } else {
      var tail := Concat(ws[1..]) + rest;
      AppendAssoc(ws[0], Concat(ws[1..]), rest);
      assert Concat(ws) + rest == ws[0] + tail;
      assert IsForm(ws[0]);
      assert SkipParameter(ws[0] + tail) == Some(tail);
      assert forall j :: 0 <= j < |ws[1..]| ==> IsForm(ws[1..][j]) by {
        forall j | 0 <= j < |ws| - 1 ensures IsForm(ws[1..][j]) {
          assert ws[1..][j] == ws[j + 1];
        }
      }
      ConcatSkip(ws[1..], rest, k - 1);
      assert ws[1..][k - 1..] == ws[k..];
    }
  }

  /** Reading back what a list wrote finds, as the header of its `k`-th
      parameter, that parameter's settings: `ReadList` on `WriteList`'s
      output restores every member's settings. */
  lemma ListHeadersRoundTrip(r: Registry, l: ListId, rest: seq<Token>)
    requires r.Valid() && l in r.lists
    ensures var ps := r.lists[l].parameters;
      var head := ReadListHead(ListStream(r, l) + rest, r.lists[l].createAction, |ps|);
      head.Some? &&
      forall k :: 0 <= k < |ps| ==>
        ps[k] in r.params && StreamHeader(head.value, k) == Some(HeaderOf(SettingsOf(r.params[ps[k]])))
  {
    r.ListMembersExist(l);
    var ps := r.lists[l].parameters;
    var ws := Forms(r, ps);
    var t := ListStream(r, l) + rest;
    assert t[2..] == Concat(ws) + rest;
    SerializedForms(r, ps);
    forall k | 0 <= k < |ps| ensures StreamHeader(t[2..], k) == Some(HeaderOf(SettingsOf(r.params[ps[k]]))) {
      FormHeaderAt(r, ps, ws, rest, k);
    }
  }

  lemma FormHeaderAt(r: Registry, ps: seq<ParamId>, ws: seq<seq<Token>>, rest: seq<Token>, k: nat)
    requires r.Valid() && k < |ps| && |ws| == |ps|
    requires forall j :: 0 <= j < |ps| ==> ps[j] in r.params && ws[j] == Serialize(r, ps[j]) && IsForm(ws[j])
    ensures StreamHeader(Concat(ws) + rest, k) == Some(HeaderOf(SettingsOf(r.params[ps[k]])))
  {
    ConcatSkip(ws, rest, k);
    var after := Concat(ws[k + 1..]) + rest;
    assert Concat(ws[k..]) == ws[k] + Concat(ws[k + 1..]) by {
      assert ws[k..][1..] == ws[k + 1..];
    }
    AppendAssoc(ws[k], Concat(ws[k + 1..]), rest);
    SerializeRoundTrip(r, ps[k], after);
  }

  lemma {:induction false} SkipNoneStaysNone(t: seq<Token>, i: nat, n: nat)
    requires i <= n && SkipParameters(t, i).None?
    ensures SkipParameters(t, n).None?
  {
    if i < n {
      SkipNoneStaysNone(t, i, n - 1);
      SkipNoneNext(t, n - 1);
    }
  }

  lemma {:induction false} SkipNoneNext(t: seq<Token>, n: nat)
    requires SkipParameters(t, n).None?
    ensures SkipParameters(t, n + 1).None?
  {
    if SkipParameter(t).Some? {
      SkipNoneNext(SkipParameter(t).value, n - 1);
    }
  }

  /** The message the model uses for a stream that ends or holds
      something else where a parameter should be. */
  const MalformedStream := "Malformed parameter stream"

  /** The list's `operator >>` on streams: fails on a list that is not
      annotated to an element and on a head that does not match the list;
      otherwise reads every parameter in order and evaluates the element's
      static parameters. Returns what is left of the stream. */
  method ReadList(r: Registry, l: ListId, t: seq<Token>, fuel: nat) returns (res: Result<seq<Token>>)
    requires r.Valid() && l in r.lists
    modifies r
    ensures r.Valid() && r.Context() == old(r.Context()) && old(r.log) <= r.log
    ensures old(r.lists[l].annotated).None? ==> res == Err(ListNotAttached) && r.params == old(r.params) && r.log == old(r.log)
    ensures old(r.lists[l].annotated).Some? && ReadListHead(t, old(r.lists[l].createAction), old(|r.lists[l].parameters|)).None? ==>
              res == Err(InvalidActionOrNumber) && r.params == old(r.params) && r.log == old(r.log)
    ensures old(r.lists[l].annotated).Some? && ReadListHead(t, old(r.lists[l].createAction), old(|r.lists[l].parameters|)).Some? ==>
              var skipped := SkipParameters(ReadListHead(t, old(r.lists[l].createAction), old(|r.lists[l].parameters|)).value,
                                            old(|r.lists[l].parameters|));
              (res.Ok? <==> skipped.Some?) && (res.Ok? ==> res.value == skipped.value)
              && (res.Err? ==> res == Err(MalformedStream) && r.log == old(r.log))
    ensures res.Ok? ==> Evaluations(r.log, |old(r.log)|, r.listOf, r.es) && l in r.lists && r.lists[l] == old(r.lists[l])
    ensures res.Ok? ==>
              PrefixHeaders(r.params, r.lists[l].parameters,
                            ReadListHead(t, r.lists[l].createAction, |r.lists[l].parameters|).value, |r.lists[l].parameters|)
  {
    var list := r.lists[l];
    if list.annotated.None? {
      return Err(ListNotAttached);
    }
    var head := ReadListHead(t, list.createAction, |list.parameters|);
    if head.None? {
      return Err(InvalidActionOrNumber);
    }
    var ps := list.parameters;
    var cur := head.value;
    var i := 0;
    while i < |ps|
      invariant 0 <= i <= |ps|
      invariant r.Valid() && r.Context() == old(r.Context()) && r.log == old(r.log)
      invariant l in r.lists && r.lists[l] == list
      invariant SkipParameters(head.value, i) == Some(cur)
      invariant PrefixHeaders(r.params, ps, head.value, i)
    {
      var next := ReadNext(r, l, i, head.value, cur);
      if next.None? {
        SkipNoneStaysNone(head.value, i + 1, |ps|);
        return Err(MalformedStream);
      }
      cur := next.value;
      i := i + 1;
    }
    ghost var before := r.params;
    Evaluate(r, list.annotated.value, fuel);
    ValuesOnlyKeepsHeaders(before, r.params, ps, head.value);
    return Ok(cur);
  }

  /** One turn of `ReadList`'s loop: reads parameter `i` of list `l`
      from `cur`, the stream after the first `i` parameters of `t`. */
  method ReadNext(r: Registry, l: ListId, i: nat, t: seq<Token>, cur: seq<Token>) returns (next: Option<seq<Token>>)
    requires r.Valid() && l in r.lists && r.lists[l].annotated.Some? && i < |r.lists[l].parameters|
    requires SkipParameters(t, i) == Some(cur) && PrefixHeaders(r.params, r.lists[l].parameters, t, i)
    modifies r
    ensures r.Valid() && r.Context() == old(r.Context()) && r.log == old(r.log)
    ensures l in r.lists && r.lists[l] == old(r.lists[l])
    ensures next == SkipParameters(t, i + 1)
    ensures next.Some? ==> PrefixHeaders(r.params, r.lists[l].parameters, t, i + 1)
  {
    var ps := r.lists[l].parameters;
    r.MemberAt(l, i);
    r.ListDistinct(l);
    assert ps[i] !in ps[..i];
    ghost var before := r.params;
    next := DeserializeStream(r, ps[i], cur);
    SkipParametersStep(t, i);
    if next.Some? {
      assert StreamHeader(t, i) == Some(ReadHeader(cur).value.0);
      HeaderStep(before, r.params, ps, i, t);
    }
  }

  /** The header of parameter `k` of stream `t`, when `t` holds that many. */
  function StreamHeader(t: seq<Token>, k: nat): Option<Header> {
    match SkipParameters(t, k)
    case None => None
    case Some(c) => if ReadHeader(c).Some? then Some(ReadHeader(c).value.0) else None
  }

  /** `p` holds the settings of header `h`. */
  ghost predicate HasHeader(p: Param, h: Header) {
    p.outerParameterAttachment == h.outerParameterAttachment && p.createOuterParameter == h.createOuterParameter
    && p.configEntrySetByFinstruct == h.configEntrySetByFinstruct && p.enforceCurrentValue == h.enforceCurrentValue
    && p.commandLineOption == h.commandLineOption && p.configEntry == h.configEntry
  }

  /** The first `n` parameters of `ps` hold the settings of the first `n`
      headers of stream `t`. */
  ghost predicate PrefixHeaders(pm: map<ParamId, Param>, ps: seq<ParamId>, t: seq<Token>, n: nat)
    requires n <= |ps|
  {
    forall k :: 0 <= k < n ==> ps[k] in pm && StreamHeader(t, k).Some? && HasHeader(pm[ps[k]], StreamHeader(t, k).value)
  }

  lemma HeaderStep(before: map<ParamId, Param>, after: map<ParamId, Param>, ps: seq<ParamId>, i: nat, t: seq<Token>)
    requires i < |ps| && ps[i] !in ps[..i]
    requires PrefixHeaders(before, ps, t, i) && OthersKeepSettings(before, after, ps[i])
    requires StreamHeader(t, i).Some? && ps[i] in after && HasHeader(after[ps[i]], StreamHeader(t, i).value)
    ensures PrefixHeaders(after, ps, t, i + 1)
  {
    forall k | 0 <= k < i + 1 ensures ps[k] in after && StreamHeader(t, k).Some? && HasHeader(after[ps[k]], StreamHeader(t, k).value) {
      if k < i {
        assert ps[k] in ps[..i];
        SameSettingsHeader(before[ps[k]], after[ps[k]], StreamHeader(t, k).value);
      }
    }
  }

  lemma SameSettingsHeader(a: Param, b: Param, h: Header)
    requires SameSettings(a, b) && HasHeader(a, h)
    ensures HasHeader(b, h)
  {
  }

  lemma ValuesOnlyKeepsHeaders(before: map<ParamId, Param>, after: map<ParamId, Param>, ps: seq<ParamId>, t: seq<Token>)
    requires ValuesOnly(before, after) && PrefixHeaders(before, ps, t, |ps|)
    ensures PrefixHeaders(after, ps, t, |ps|)
  {
    forall k | 0 <= k < |ps| ensures ps[k] in after && HasHeader(after[ps[k]], StreamHeader(t, k).value) {
      assert after[ps[k]] == before[ps[k]].(value := after[ps[k]].value, lastValue := after[ps[k]].lastValue);
    }
  }

  /** The XML node of parameter `id` of a list: its `SerializeXml` form
      with the parameter's name added. */
  function NamedNode(r: Registry, id: ParamId, finstructContext: bool): (n: ParameterNode)
    reads r
    requires r.Valid() && id in r.params && r.ValuePointer(id).Some?
    ensures NameAttribute in n.attributes && n.attributes[NameAttribute] == r.params[id].name
    ensures n.attributes - {NameAttribute} == SerializeXml(r, id, finstructContext).attributes
  {
    var n := SerializeXml(r, id, finstructContext);
    n.(attributes := n.attributes[NameAttribute := r.params[id].name])
  }

  /** `tStaticParameterList::Serialize(tNode&, finstruct_context)`: one
      `parameter` child per parameter, in order. (The source dereferences
      each buffer, so every parameter must have one.) */
  method SerializeListXml(r: Registry, l: ListId, finstructContext: bool) returns (children: seq<ParameterNode>)
    requires r.Valid() && l in r.lists
    requires forall k :: 0 <= k < |r.lists[l].parameters| ==>
               r.lists[l].parameters[k] in r.params && r.ValuePointer(r.lists[l].parameters[k]).Some?
    ensures |children| == |r.lists[l].parameters|
    ensures forall k :: 0 <= k < |children| ==> children[k] == NamedNode(r, r.lists[l].parameters[k], finstructContext)
  {
    var ps := r.lists[l].parameters;
    children := [];
    var i := 0;
    while i < |ps|
      invariant 0 <= i <= |ps|
      invariant |children| == i
      invariant forall k :: 0 <= k < i ==> children[k] == NamedNode(r, ps[k], finstructContext)
    {
      children := children + [NamedNode(r, ps[i], finstructContext)];
      i := i + 1;
    }
  }

  /** `tStaticParameterList::Deserialize(const tNode&, finstruct_context)`:
      the first `min(children, size)` parameters read the children in
      order; a mismatch in number is only warned about. */
  method DeserializeListXml(r: Registry, l: ListId, children: seq<ParameterNode>, finstructContext: bool)
    returns (count: nat)
    requires r.Valid() && l in r.lists
    requires |children| > 0 && |r.lists[l].parameters| > 0 ==> r.lists[l].annotated.Some?
    modifies r
    ensures count == if |children| < old(|r.lists[l].parameters|) then |children| else old(|r.lists[l].parameters|)
    ensures r.Valid() && r.Context() == old(r.Context()) && r.log == old(r.log)
    ensures l in r.lists && r.lists[l] == old(r.lists[l])
    ensures forall k :: 0 <= k < count ==>
              var id := r.lists[l].parameters[k];
              id in old(r.params) && id in r.params
              && Configured(r.params[id], children[k].attributes, finstructContext, old(r.params)[id].configEntrySetByFinstruct)
    ensures forall j :: j in old(r.params) && j !in r.lists[l].parameters[..count] ==>
              j in r.params && SameSettings(old(r.params)[j], r.params[j])
  {
    var list := r.lists[l];
    var ps := list.parameters;
    forall k | 0 <= k < |ps| ensures ps[k] in r.params {
      r.MemberAt(l, k);
    }
    count := if |children| < |ps| then |children| else |ps|;
    var i := 0;
    while i < count
      invariant 0 <= i <= count
      invariant r.Valid() && r.Context() == old(r.Context()) && r.log == old(r.log)
      invariant l in r.lists && r.lists[l] == list
      invariant ListConfigured(old(r.params), r.params, ps, i, children, finstructContext)
    {
      DeserializeNext(r, l, i, children, finstructContext, old(r.params));
      i := i + 1;
    }
  }

  /** The settings `DeserializeListXml` has given the first `i` of `ps`
      by the children, with every parameter not among them as in `p0`. */
  ghost predicate ListConfigured(p0: map<ParamId, Param>, pm: map<ParamId, Param>, ps: seq<ParamId>, i: nat,
                                 children: seq<ParameterNode>, finstructContext: bool)
    requires i <= |ps| && i <= |children|
  {
    PrefixConfigured(p0, pm, ps, i, children, finstructContext) && KeptOutside(p0, pm, ps[..i])
  }

  ghost predicate PrefixConfigured(p0: map<ParamId, Param>, pm: map<ParamId, Param>, ps: seq<ParamId>, i: nat,
                                   children: seq<ParameterNode>, finstructContext: bool)
    requires i <= |ps| && i <= |children|
  {
    forall k :: 0 <= k < i ==>
      ps[k] in p0 && ps[k] in pm
      && Configured(pm[ps[k]], children[k].attributes, finstructContext, p0[ps[k]].configEntrySetByFinstruct)
  }

  ghost predicate KeptOutside(p0: map<ParamId, Param>, pm: map<ParamId, Param>, done: seq<ParamId>) {
    forall j :: j in p0 && j !in done ==> j in pm && SameSettings(p0[j], pm[j])
  }

  /** Step `i` of `DeserializeListXml`: parameter `i` takes child `i`'s
      settings, and every other parameter keeps what it had. */
  method DeserializeNext(r: Registry, l: ListId, i: nat, children: seq<ParameterNode>, finstructContext: bool,
                         ghost p0: map<ParamId, Param>)
    requires r.Valid() && l in r.lists && i < |r.lists[l].parameters| && i < |children|
    requires r.lists[l].annotated.Some?
    requires ListConfigured(p0, r.params, r.lists[l].parameters, i, children, finstructContext)
    requires r.lists[l].parameters[i] in p0
    modifies r
    ensures r.Valid() && r.Context() == old(r.Context()) && r.log == old(r.log)
    ensures l in r.lists && r.lists[l] == old(r.lists[l])
    ensures ListConfigured(p0, r.params, r.lists[l].parameters, i + 1, children, finstructContext)
  {
    var ps := r.lists[l].parameters;
    r.MemberAt(l, i);
    r.ListDistinct(l);
    assert ps[i] !in ps[..i];
    ghost var before := r.params;
    var _, _ := DeserializeXml(r, ps[i], children[i], finstructContext);
    ReadConfigured(r.params[ps[i]], children[i].attributes, before[ps[i]].dataType, finstructContext,
                   before[ps[i]].configEntrySetByFinstruct);
    ConfiguredStep(p0, before, r.params, ps, i, children, finstructContext);
  }

  lemma ConfiguredStep(p0: map<ParamId, Param>, before: map<ParamId, Param>, after: map<ParamId, Param>, ps: seq<ParamId>,
                       i: nat, children: seq<ParameterNode>, finstructContext: bool)
    requires i < |ps| && i < |children| && ps[i] in p0 && ps[i] !in ps[..i]
    requires ListConfigured(p0, before, ps, i, children, finstructContext)
    requires OthersKeepSettings(before, after, ps[i])
    requires ps[i] in after && Configured(after[ps[i]], children[i].attributes, finstructContext, before[ps[i]].configEntrySetByFinstruct)
    ensures ListConfigured(p0, after, ps, i + 1, children, finstructContext)
  {
    PrefixMembers(ps, i);
    PrefixStep(p0, before, after, ps, i, children, finstructContext);
    OutsideStep(p0, before, after, ps, i);
  }

  lemma PrefixStep(p0: map<ParamId, Param>, before: map<ParamId, Param>, after: map<ParamId, Param>, ps: seq<ParamId>,
                   i: nat, children: seq<ParameterNode>, finstructContext: bool)
    requires i < |ps| && i < |children| && ps[i] in p0 && ps[i] !in ps[..i]
    requires PrefixConfigured(p0, before, ps, i, children, finstructContext) && KeptOutside(p0, before, ps[..i])
    requires OthersKeepSettings(before, after, ps[i])
    requires ps[i] in after && Configured(after[ps[i]], children[i].attributes, finstructContext, before[ps[i]].configEntrySetByFinstruct)
    ensures PrefixConfigured(p0, after, ps, i + 1, children, finstructContext)
  {
    forall k | 0 <= k < i + 1
      ensures ps[k] in p0 && ps[k] in after
      ensures Configured(after[ps[k]], children[k].attributes, finstructContext, p0[ps[k]].configEntrySetByFinstruct)
    {
      if k < i {
        assert ps[k] != ps[i];
        SameSettingsConfigured(before[ps[k]], after[ps[k]], children[k].attributes, finstructContext,
                               p0[ps[k]].configEntrySetByFinstruct);
      } else {
        assert SameSettings(p0[ps[i]], before[ps[i]]);
      }
    }
  }

  lemma OutsideStep(p0: map<ParamId, Param>, before: map<ParamId, Param>, after: map<ParamId, Param>, ps: seq<ParamId>, i: nat)
    requires i < |ps|
    requires forall j :: j in ps[..i + 1] <==> j in ps[..i] || j == ps[i]
    requires KeptOutside(p0, before, ps[..i]) && OthersKeepSettings(before, after, ps[i])
    ensures KeptOutside(p0, after, ps[..i + 1])
  {
  }

  lemma PrefixMembers(ps: seq<ParamId>, i: nat)
    requires i < |ps|
    ensures forall j :: j in ps[..i + 1] <==> j in ps[..i] || j == ps[i]
  {
    assert ps[..i + 1] == ps[..i] + [ps[i]];
  }

  lemma ReadConfigured(p: Param, m: map<string, string>, declared: TypeName, finstructContext: bool, flag0: bool)
    requires var x := ReadAttributes(m, declared, finstructContext, flag0);
      p.enforceCurrentValue == x.enforceCurrentValue && p.outerParameterAttachment == x.outerParameterAttachment
      && p.configEntrySetByFinstruct == x.configEntrySetByFinstruct && p.commandLineOption == x.commandLineOption
      && p.configEntry == x.configEntry
    ensures Configured(p, m, finstructContext, flag0)
  {
  }

  lemma SameSettingsConfigured(a: Param, b: Param, m: map<string, string>, finstructContext: bool, flag0: bool)
    requires SameSettings(a, b) && Configured(a, m, finstructContext, flag0)
    ensures Configured(b, m, finstructContext, flag0)
  {
  }
}
