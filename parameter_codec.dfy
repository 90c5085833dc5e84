/** The two external forms of a static parameter: the binary stream form
    (one parameter after another, as finstruct exchanges them) and the XML
    attribute form (one `parameter` node per parameter in a .finroc file).
    Both are pure functions of a parameter's settings; the methods of the
    registry that read them back live with the registry. */
module ParameterCodec {
  import opened Common
  import opened Values

  /** The settings of a static parameter that are written out. */
  datatype Settings = Settings(
    name: string,
    dataType: TypeName,
    commandLineOption: string,
    outerParameterAttachment: string,
    createOuterParameter: bool,
    configEntry: string,
    configEntrySetByFinstruct: bool,
    enforceCurrentValue: bool)

  /** What a reader takes from the head of a parameter's stream form: the
      name and the declared type are read but skipped. */
  datatype Header = Header(
    commandLineOption: string,
    outerParameterAttachment: string,
    createOuterParameter: bool,
    configEntry: string,
    configEntrySetByFinstruct: bool,
    enforceCurrentValue: bool)

  function HeaderOf(s: Settings): Header {
    Header(s.commandLineOption, s.outerParameterAttachment, s.createOuterParameter,
           s.configEntry, s.configEntrySetByFinstruct, s.enforceCurrentValue)
  }

  /** The value part of the stream form: a flag, then the buffer's type and
      contents when there is a buffer. */
  function WriteValue(val: Option<Value>): (s: seq<Token>)
    ensures |s| == if val.Some? then 3 else 1
  {
    [Bool(val.Some?)] + (if val.Some? then [TypeTok(val.value.typeName), Val(val.value)] else [])
  }

  /** `Serialize(tOutputStream&)`: the settings in a fixed order, then the
      value part. */
  function WriteParameter(s: Settings, val: Option<Value>): (r: seq<Token>)
    ensures |r| == 8 + |WriteValue(val)|
    ensures r[0] == Str(s.name) && r[1] == TypeTok(s.dataType)
  {
    [Str(s.name), TypeTok(s.dataType), Str(s.commandLineOption), Str(s.outerParameterAttachment),
     Bool(s.createOuterParameter), Str(s.configEntry), Bool(s.configEntrySetByFinstruct),
     Bool(s.enforceCurrentValue)] + WriteValue(val)
  }

  /** The first half of `Deserialize(tInputStream&)`: eight items of the
      right kinds, or None for a stream that does not hold them. */
  function ReadHeader(t: seq<Token>): (r: Option<(Header, seq<Token>)>)
    ensures r.Some? ==> |t| >= 8 && r.value.1 == t[8..]
    ensures r.None? <==> |t| < 8 || !t[0].Str? || !t[1].TypeTok? || !t[2].Str? || !t[3].Str?
                         || !t[4].Bool? || !t[5].Str? || !t[6].Bool? || !t[7].Bool?
  {
    if |t| >= 8 && t[0].Str? && t[1].TypeTok? && t[2].Str? && t[3].Str? && t[4].Bool?
       && t[5].Str? && t[6].Bool? && t[7].Bool?
    then Some((Header(t[2].s, t[3].s, t[4].b, t[5].s, t[6].b, t[7].b), t[8..]))
    else None
  }

  /** `DeserializeValue`: the flag, then, when it is set, the type the
      buffer must have and the contents, which land in a buffer of that
      type. `Some(None)` means there was no value to read. */
  function ReadValue(t: seq<Token>): (r: Option<(Option<Value>, seq<Token>)>)
    ensures r.Some? && r.value.0.None? ==> |t| >= 1 && r.value.1 == t[1..]
    ensures r.Some? && r.value.0.Some? ==>
              |t| >= 3 && r.value.1 == t[3..] && t[1].TypeTok? && r.value.0.value.typeName == t[1].t
  {
    if |t| >= 1 && t[0].Bool? && !t[0].b then Some((None, t[1..]))
    else if |t| >= 3 && t[0].Bool? && t[0].b && t[1].TypeTok? && t[2].Val?
    then Some((Some(Value(t[1].t, t[2].v.data)), t[3..]))
    else None
  }

  /** Reading back a parameter's stream form yields its settings (less the
      skipped name and type) and its value, and leaves what follows it. */
  lemma StreamRoundTrip(s: Settings, val: Option<Value>, rest: seq<Token>)
    ensures ReadHeader(WriteParameter(s, val) + rest) == Some((HeaderOf(s), WriteValue(val) + rest))
    ensures ReadValue(WriteValue(val) + rest) == Some((val, rest))
  {
    var w := WriteParameter(s, val) + rest;
    assert w[8..] == WriteValue(val) + rest;
  }

  /** Names of the attributes of a `parameter` node. */
  const TypeAttribute := "type"
  const EnforceAttribute := "enforcevalue"
  const CommandLineAttribute := "cmdline"
  const AttachOuterAttribute := "attachouter"
  const ConfigAttribute := "config"
  const NameAttribute := "name"

  /** A parameter node: attributes, and the contents the buffer writes into
      the node. */
  datatype ParameterNode = ParameterNode(attributes: map<string, string>, content: Data)

  /** `Serialize(tNode&, finstruct_context)`: the buffer's type when it
      differs from the declared one or the parameter is a proxy, the
      enforce flag when set, and the non-empty options; the config entry is
      left out in finstruct context unless finstruct set it. */
  function EmitAttributes(s: Settings, bufferType: TypeName, proxy: bool, finstructContext: bool): (m: map<string, string>)
    ensures TypeAttribute in m <==> bufferType != s.dataType || proxy
    ensures TypeAttribute in m ==> m[TypeAttribute] == bufferType
    ensures EnforceAttribute in m <==> s.enforceCurrentValue
    ensures CommandLineAttribute in m <==> |s.commandLineOption| > 0
    ensures AttachOuterAttribute in m <==> |s.outerParameterAttachment| > 0
    ensures ConfigAttribute in m <==> |s.configEntry| > 0 && (s.configEntrySetByFinstruct || !finstructContext)
    ensures NameAttribute !in m
  {
    var t := if bufferType != s.dataType || proxy then map[TypeAttribute := bufferType] else map[];
    var e := if s.enforceCurrentValue then t[EnforceAttribute := "true"] else t;
    var c := if |s.commandLineOption| > 0 then e[CommandLineAttribute := s.commandLineOption] else e;
    var a := if |s.outerParameterAttachment| > 0 then c[AttachOuterAttribute := s.outerParameterAttachment] else c;
    if |s.configEntry| > 0 && (s.configEntrySetByFinstruct || !finstructContext)
    then a[ConfigAttribute := s.configEntry] else a
  }

  /** What `Deserialize(tNode&, finstruct_context)` takes from the
      attributes. */
  datatype XmlSettings = XmlSettings(
    bufferType: TypeName,
    enforceCurrentValue: bool,
    commandLineOption: string,
    outerParameterAttachment: string,
    configEntry: string,
    configEntrySetByFinstruct: bool)

  /** An absent option reads as the empty string; the finstruct flag takes
      the context only when a config entry is present and is otherwise kept. */
  function ReadAttributes(m: map<string, string>, declared: TypeName, finstructContext: bool, setByFinstruct: bool): XmlSettings
  {
    XmlSettings(
      if TypeAttribute in m then m[TypeAttribute] else declared,
      EnforceAttribute in m && m[EnforceAttribute] == "true",
      if CommandLineAttribute in m then m[CommandLineAttribute] else "",
      if AttachOuterAttribute in m then m[AttachOuterAttribute] else "",
      if ConfigAttribute in m then m[ConfigAttribute] else "",
      if ConfigAttribute in m then finstructContext else setByFinstruct)
  }

  /** Reading back the attributes a parameter wrote restores its buffer
      type, enforce flag, options and, outside finstruct context or when
      finstruct set it, its config entry; in finstruct context an entry not
      set by finstruct reads back as empty, and a written entry takes the
      reading context as its finstruct flag. */
  lemma AttributesRoundTrip(s: Settings, bufferType: TypeName, proxy: bool, ctx: bool)
    ensures var r := ReadAttributes(EmitAttributes(s, bufferType, proxy, ctx), s.dataType, ctx, s.configEntrySetByFinstruct);
      r.bufferType == bufferType && r.enforceCurrentValue == s.enforceCurrentValue
      && r.commandLineOption == s.commandLineOption
      && r.outerParameterAttachment == s.outerParameterAttachment
      && r.configEntrySetByFinstruct == (if ConfigAttribute in EmitAttributes(s, bufferType, proxy, ctx) then ctx
                                         else s.configEntrySetByFinstruct)
      && r.configEntry == (if ctx && !s.configEntrySetByFinstruct then "" else s.configEntry)
  {
  }
}
