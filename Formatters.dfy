/** The two media-type formatters: each announces the media types it serves,
    accepts only strings, and writes the UTF-8 bytes of the value's text. */
module Formatters {
  import opened Common
  import opened Http

  /** Serves "application/yaml", "application/x-yaml" and "text/yaml". */
  class YamlMediaTypeFormatter {
    /** The media types the constructor registers, in registration order. */
    static const MediaTypes: seq<string> := ["application/yaml", "application/x-yaml", "text/yaml"]

    var supportedMediaTypes: seq<string>

    constructor ()
      ensures supportedMediaTypes == MediaTypes
    {
      supportedMediaTypes := [];
      supportedMediaTypes := supportedMediaTypes + ["application/yaml"];
      supportedMediaTypes := supportedMediaTypes + ["application/x-yaml"];
      supportedMediaTypes := supportedMediaTypes + ["text/yaml"];
    }

    /** Only a string can be written. */
    static predicate CanWriteType(t: ClrType)
    {
      t == StringType
    }

    /** Only a string can be read. */
    static predicate CanReadType(t: ClrType)
    {
      t == StringType
    }

    /** The whole buffer Encoding.UTF8.GetBytes(value.ToString()) goes to the
        stream, and nothing else does. */
    method WriteToStream(value: Value, writeStream: Stream)
      modifies writeStream
      ensures writeStream.written == old(writeStream.written) + Utf8(ToString(value))
    {
      var buffer := Utf8(ToString(value));
      writeStream.Write(buffer);
    }
  }

  /** Serves "text/plain". */
  class TextPlainMediaTypeFormatter {
    static const MediaTypes: seq<string> := ["text/plain"]

    var supportedMediaTypes: seq<string>

    constructor ()
      ensures supportedMediaTypes == MediaTypes
    {
      supportedMediaTypes := [];
      supportedMediaTypes := supportedMediaTypes + ["text/plain"];
    }

    static predicate CanWriteType(t: ClrType)
    {
      t == StringType
    }

    static predicate CanReadType(t: ClrType)
    {
      t == StringType
    }

    method WriteToStream(value: Value, writeStream: Stream)
      modifies writeStream
      ensures writeStream.written == old(writeStream.written) + Utf8(ToString(value))
    {
      var buffer := Utf8(ToString(value));
      writeStream.Write(buffer);
    }
  }

  // ---------------------------------------------------------------------------
  // Properties
  // ---------------------------------------------------------------------------

  /** Both formatters accept a value for writing exactly when it is a string:
      a list, an error model or an HttpError is refused. */
  lemma WriteGate(v: Value)
    ensures YamlMediaTypeFormatter.CanWriteType(TypeOf(v)) <==> v.Str?
    ensures TextPlainMediaTypeFormatter.CanWriteType(TypeOf(v)) <==> v.Str?
    ensures YamlMediaTypeFormatter.CanReadType(TypeOf(v)) <==> v.Str?
    ensures TextPlainMediaTypeFormatter.CanReadType(TypeOf(v)) <==> v.Str?
  {
  }

  /** For a string the bytes written are the string's own UTF-8 encoding, so
      writing the concatenation of two strings is writing one after the other. */
  lemma WrittenStringBytes(a: string, b: string)
    ensures Utf8(ToString(Str(a + b))) == Utf8(ToString(Str(a))) + Utf8(ToString(Str(b)))
  {
    Utf8Append(a, b);
  }
}
