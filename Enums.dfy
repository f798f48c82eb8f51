/** The two enumerations whose [Description] attributes supply the literal
    media-type and content-coding strings. */
module Enums {

  datatype ContentType =
    | ApplicationXml
    | ApplicationJson
    | ApplicationYaml
    | ApplicationXYaml
    | ApplicationTextYaml

  /** What GetDescription() reads from the [Description] attribute. */
  function Description(c: ContentType): (d: string)
    ensures |d| > 0
    ensures forall i :: 0 <= i < |d| ==> !('A' <= d[i] <= 'Z')
  {
    match c
    case ApplicationXml => "application/xml"
    case ApplicationJson => "application/json"
    case ApplicationYaml => "application/yaml"
    case ApplicationXYaml => "application/x-yaml"
    case ApplicationTextYaml => "text/yaml"
  }

  /** Content codings (section 3.1.2.1 of RFC 7231). */
  datatype EncodingType = Gzip | Deflate

  function EncodingDescription(e: EncodingType): (d: string)
    ensures |d| > 0
    ensures forall i :: 0 <= i < |d| ==> !('A' <= d[i] <= 'Z')
  {
    match e
    case Gzip => "gzip"
    case Deflate => "deflate"
  }

  /** Distinct members carry distinct descriptions. */
  lemma DescriptionInjective(a: ContentType, b: ContentType)
    requires Description(a) == Description(b)
    ensures a == b
  {
  }
}
