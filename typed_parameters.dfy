/** The typed static parameters (`tStaticParameterImplementation<T>`): a
    generic one whose buffer holds a `T`, and a numeric one whose buffer
    holds a `tNumber` and which carries bounds. Both read and write the
    buffer `ValuePointer` returns, so every parameter attached to the same
    owner sees what one of them sets. */
module TypedParameters {
  import opened Common
  import opened Attachment
  import opened Values
  import opened Numeric
  import opened StaticParameters

  /** `Get` of the generic parameter: the contents of the shared buffer. */
  function Get(r: Registry, id: ParamId): Data
    reads r
    requires r.Valid() && id in r.params && r.ValuePointer(id).Some?
  {
    r.ValuePointer(id).value.data
  }

  /** `Get` of the numeric parameter (units left out). */
  function GetNumber(r: Registry, id: ParamId): int
    reads r
    requires r.Valid() && id in r.params && r.ValuePointer(id).Some?
  {
    NumberOf(Get(r, id))
  }

  /** `Set` of the generic parameter: overwrites the contents of the buffer
      of `id`'s owner, so every parameter sharing that owner reads the new
      contents. */
  method Set(r: Registry, id: ParamId, d: Data)
    requires r.Valid() && id in r.params && r.ValuePointer(id).Some?
    modifies r
    ensures r.Valid() && r.Structure() == old(r.Structure()) && r.Context() == old(r.Context()) && r.log == old(r.log)
    ensures var o := Owner(r.links, r.rank, id);
      r.params == old(r.params)[o := old(r.params[o]).(value := Some(old(r.ValuePointer(id)).value.(data := d)))]
    ensures forall y :: y in r.params && r.OwnerOf(y) == r.OwnerOf(id) ==> r.ValuePointer(y).Some? && Get(r, y) == d
  {
    var o := r.OwnerOf(id);
    var v := r.ValuePointer(id).value.(data := d);
    r.Store(o, r.params[o].(value := Some(v)));
  }

  /** `Set` of the numeric parameter: a value outside the bounds of `id` is
      discarded, moved to the nearest end of the range or replaced by the
      default, as the bounds' action says; what is left is stored in the
      shared buffer. With sound bounds the stored number lies within them. */
  method SetNumber(r: Registry, id: ParamId, v: int) returns (stored: bool)
    requires r.Valid() && id in r.params && r.params[id].bounds.Some? && r.ValuePointer(id).Some?
    modifies r
    ensures r.Valid() && r.Structure() == old(r.Structure()) && r.Context() == old(r.Context()) && r.log == old(r.log)
    ensures stored <==> Enforce(old(r.params[id].bounds.value), v).Some?
    ensures !stored ==> r.params == old(r.params)
    ensures stored ==> var o := Owner(r.links, r.rank, id);
      r.params == old(r.params)[o := old(r.params[o]).(value := Some(old(r.ValuePointer(id)).value
                                                                     .(data := Number(Enforce(old(r.params[id].bounds.value), v).value))))]
    ensures stored ==> forall y :: y in r.params && r.OwnerOf(y) == r.OwnerOf(id) ==>
                         r.ValuePointer(y).Some? && GetNumber(r, y) == Enforce(old(r.params[id].bounds.value), v).value
    ensures stored && Sound(old(r.params[id].bounds.value)) ==> InBounds(old(r.params[id].bounds.value), GetNumber(r, id))
  {
    var b := r.params[id].bounds.value;
    var e := Enforce(b, v);
    if e.None? {
      return false;
    }
    if Sound(b) {
      EnforceInBounds(b, v);
    }
    Set(r, id, Number(e.value));
    return true;
  }

  /** The constructor of the generic parameter: a parameter of type `t`
      with its own buffer, into which the default value, when one is given,
      is read. */
  method NewTyped(r: Registry, name: string, t: TypeName, configEntry: string, default: Option<Data>) returns (id: ParamId)
    requires r.Valid()
    modifies r
    ensures r.Valid() && id == old(r.nextParam) && id !in old(r.params)
    ensures r.links == old(r.links)[id := Link(id, [])] && r.OwnerOf(id) == id
    ensures r.params == old(r.params)[id := NewParam(name, t, false, false, configEntry)
                                            .(value := Some(Value(t, if default.Some? then default.value else Initial)))]
    ensures r.lists == old(r.lists) && r.listOf == old(r.listOf) && r.nextList == old(r.nextList)
    ensures r.Context() == old(r.Context()) && r.log == old(r.log)
  {
    ghost var ps := r.params;
    id := r.NewParameter(name, t, false, false, configEntry);
    if default.Some? {
      ghost var p := NewParam(name, t, false, false, configEntry);
      UpdateTwice(ps, id, p, p.(value := Some(Value(t, default.value))));
      Set(r, id, default.value);
    }
  }

  /** The constructor of the numeric parameter: a `tNumber` parameter with
      its own buffer and the given bounds (`Unbounded` when none are given);
      a default value is set through `SetNumber`, so it obeys the bounds. */
  method NewNumeric(r: Registry, name: string, configEntry: string, bounds: Bounds, default: Option<int>) returns (id: ParamId)
    requires r.Valid()
    modifies r
    ensures r.Valid() && id == old(r.nextParam) && id !in old(r.params)
    ensures r.links == old(r.links)[id := Link(id, [])] && r.OwnerOf(id) == id
    ensures var p := NewParam(name, NumberType, false, false, configEntry).(bounds := Some(bounds));
      var e := if default.Some? then Enforce(bounds, default.value) else None;
      r.params == old(r.params)[id := if e.Some? then p.(value := Some(Value(NumberType, Number(e.value)))) else p]
    ensures default.Some? && Enforce(bounds, default.value).Some? && Sound(bounds) ==> InBounds(bounds, GetNumber(r, id))
    ensures r.lists == old(r.lists) && r.listOf == old(r.listOf) && r.nextList == old(r.nextList)
    ensures r.Context() == old(r.Context()) && r.log == old(r.log)
  {
    ghost var ps := r.params;
    id := r.NewParameter(name, NumberType, false, false, configEntry);
    var p := r.params[id].(bounds := Some(bounds));
    UpdateTwice(ps, id, r.params[id], p);
    r.Store(id, p);
    if default.Some? {
      ghost var e := Enforce(bounds, default.value);
      if e.Some? {
        UpdateTwice(ps, id, p, p.(value := Some(Value(NumberType, Number(e.value)))));
      }
      var _ := SetNumber(r, id, default.value);
    }
  }

  /** `DeepCopy` of the untyped parameter: a new parameter with the name,
      type and config entry of `id` and a fresh buffer; nothing else is
      copied, and `id` is left as it was. */
  method DeepCopyBase(r: Registry, id: ParamId) returns (c: ParamId)
    requires r.Valid() && id in r.params
    modifies r
    ensures r.Valid() && c !in old(r.params) && c != id && id in r.params && r.params[id] == old(r.params[id])
    ensures r.params == old(r.params)[c := NewParam(old(r.params[id].name), old(r.params[id].dataType), false, false,
                                                    old(r.params[id].configEntry))]
    ensures r.OwnerOf(c) == c && r.ValuePointer(c) == Some(NewInstance(old(r.params[id].dataType)))
    ensures r.Context() == old(r.Context()) && r.log == old(r.log)
  {
    var p := r.params[id];
    c := r.NewParameter(p.name, p.dataType, false, false, p.configEntry);
  }

  /** `DeepCopy` of the generic parameter: only the name is copied (the
      copy's config entry is empty). */
  method DeepCopyTyped(r: Registry, id: ParamId) returns (c: ParamId)
    requires r.Valid() && id in r.params
    modifies r
    ensures r.Valid() && c !in old(r.params) && c != id && id in r.params && r.params[id] == old(r.params[id])
    ensures r.params == old(r.params)[c := NewParam(old(r.params[id].name), old(r.params[id].dataType), false, false, "")]
    ensures r.OwnerOf(c) == c && r.ValuePointer(c) == Some(NewInstance(old(r.params[id].dataType)))
    ensures r.Context() == old(r.Context()) && r.log == old(r.log)
  {
    var p := r.params[id];
    c := r.NewParameter(p.name, p.dataType, false, false, "");
  }

  /** `DeepCopy` of the numeric parameter: the name and the bounds are
      copied, and the copy holds a fresh number. */
  method DeepCopyNumeric(r: Registry, id: ParamId) returns (c: ParamId)
    requires r.Valid() && id in r.params && r.params[id].bounds.Some?
    modifies r
    ensures r.Valid() && c !in old(r.params) && c != id && id in r.params && r.params[id] == old(r.params[id])
    ensures r.params == old(r.params)[c := NewParam(old(r.params[id].name), NumberType, false, false, "")
                                            .(bounds := old(r.params[id].bounds))]
    ensures r.OwnerOf(c) == c && GetNumber(r, c) == 0
    ensures r.Context() == old(r.Context()) && r.log == old(r.log)
  {
    var p := r.params[id];
    c := NewNumeric(r, p.name, "", p.bounds.value, None);
  }
}
