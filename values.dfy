/** Generic values of the type system the parameters are stored in, and the
    tokens of the binary streams parameters are written to. The codecs that
    turn text or XML into values belong to the type system and are passed
    in as functions; `None` stands for a codec that throws. */
module Values {
  import opened Common
  import opened ConfigTree

  /** Name of a data type; the empty name is the null type. */
  type TypeName = string

  const NullType: TypeName := ""

  /** Contents of a buffer: a freshly created instance, something a codec
      produced, or a number (the numeric parameters' `tNumber`). */
  datatype Data = Initial | Decoded(text: string) | Number(n: int)

  /** A generic object: its type and its contents. */
  datatype Value = Value(typeName: TypeName, data: Data)

  /** `type.CreateInstanceGeneric()` */
  function NewInstance(t: TypeName): Value {
    Value(t, Initial)
  }

  /** Deserialises text into a buffer of the given type. */
  type StringCodec = (TypeName, string) -> Option<Data>

  /** Deserialises an XML node into a buffer of the given type. */
  type XmlCodec = (TypeName, XmlNode) -> Option<Data>

  /** Items of a binary stream (`WriteBoolean`, `WriteInt`, `WriteString`,
      a type, a serialised value). */
  datatype Token = Bool(b: bool) | Int(i: int) | Str(s: string) | TypeTok(t: TypeName) | Val(v: Value)
}
