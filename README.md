# ScreenScrapping Azure Function, modelled in Dafny

The system is an HTTP-triggered Azure Function. `ScreenScrappingFunction.Run` hands the request to `ScreenScrappingService.GetResult`, which works in four steps:

- it reads the `Url.Address` setting and answers 400 when the setting is blank;
- it fetches the page and parses its HTML;
- it collects the inner text of every `td` element whose `class` attribute contains `title`;
- it answers 200 with that list, as JSON, through `HttpRequestMessageHelper`. It passes no media-type hint, so YAML is never chosen.

Any failure becomes a 500 that carries the exception. The service logs through Serilog into Azure Table storage. `AzureBatchingTableStorageSink` turns each batch of log events into `LogEventEntity` rows. It keys each row with a `DefaultKeyGenerator`:

- the partition key is the reversed tick count, in 19 digits;
- the offered row key is "level|template|counter".

The row key stored in the entity is the event's `SourceContext` property, unquoted and trimmed, whenever the event has one; the offered key is then discarded. This application's only logger sets that property to "ServicesModule" (SerilogToAzureTableStorage.cs:15, ServicesModule.cs:16). So every row it stores has the row key "ServicesModule", and two events whose partition keys are equal get the same partition and row key pair. `RowKeyShape` and `SourceContextUnquoted` state that precedence. `EmittedRowKeysDistinct` is about the offered keys only.

Rows are written as one table batch per maximal run of equal partition key. A library of string and exception extension methods supports all of this.

Each of the core's own source files becomes a module of the same name: `StringExtensions`, `ExceptionExtensions`, `HttpRequestMessageHelper`, `ScreenScrappingService`, `ScreenScrappingFunction`, `AzureBatchingTableStorageSink`, `LogEventEntity` and `DefaultKeyGenerator`. The supporting modules listed below are the exceptions: some group several files, and others stand for framework and library types that no file of the repository defines.

- **Pure code becomes functions, each with lemmas about it:**
  - string and exception extensions;
  - response building and content checks;
  - title extraction;
  - key texts;
  - row-key sanitising.
- **Objects whose state changes become classes:**
  - the key generator and its counter;
  - the clock it reads;
  - the sink and the table it executes batches against;
  - the entity, whose stored properties are fixed at construction;
  - the helper's disposal flag;
  - the request whose content decompression replaces;
  - the streams the formatters write into;
  - the network the service fetches from.

    Their methods carry `modifies` clauses and state the whole new state.
- **The batching loop of `EmitBatchAsync`** is a `while` loop, `AzureBatchingTableStorageSink.EmitBatch`. It is proved against `Runs`, the maximal runs of its rows. `RunsArePartition` and `RunPartitionUnique` show that the runs are the only grouping into non-empty, single-key batches whose neighbouring batches have different keys.
- **Foreign code is a function parameter:** gzip, deflate, RC2, URL coding, the HTML parser, the HTTP client, the configuration store, Serilog's message and JSON rendering, and the storage key-character rule.

Supporting modules:

- `Common` holds `Option`/`Result`, ASCII case folding, 32- and 64-bit wrap-around, decimal and fixed-width digits, and UTF-8 encoding.
- `Http`, `Html` and `SerilogEvents` hold the framework types the core passes around: requests, responses and header values, HtmlAgilityPack nodes, and Serilog events. No file of the repository defines them.
- `Models` holds `ErrorResponseModel`.
- `Enums` holds the two enumerations `ContentType` and `EncodingType`, one file each.
- `Formatters` holds the two media-type formatters, `YamlMediaTypeFormatter` and `TextPlainMediaTypeFormatter`, one file each.

## Model

| member | source | states |
|---|---|---|
| Common.Wrap64Step | src/ScreenScrappingAzureFunctionDemo/Services/Logging/Serilog/Services/DefaultKeyGenerator.cs:34 | wrapping x + 1 of a wrapped x is the wrapped x + 1, so 64-bit increments compose |
| Common.Wrap64Distinct | src/ScreenScrappingAzureFunctionDemo/Services/Logging/Serilog/Services/DefaultKeyGenerator.cs:34 | two integers less than 2^64 apart wrap to different 64-bit values |
| Common.Wrap32 | src/ScreenScrappingAzureFunctionDemo/Services/Extensions/StringExtensions.cs:261 | the 32-bit result is congruent to the integer modulo 2^32 and equal to it when it fits |
| Common.FoldChar | src/ScreenScrappingAzureFunctionDemo/Services/Extensions/StringExtensions.cs:191 | the folded character is never an ASCII capital and lower-case letters are kept |
| Common.Fold | src/ScreenScrappingAzureFunctionDemo/Services/Extensions/StringExtensions.cs:191 | folding keeps the length and folds each character in place |
| Common.FoldIdempotent | src/ScreenScrappingAzureFunctionDemo/Services/Extensions/StringExtensions.cs:189-192 | folding twice is folding once |
| Common.FoldNoUpper | src/ScreenScrappingAzureFunctionDemo/Services/Extensions/StringExtensions.cs:189-192 | a string without capitals is its own fold |
| Common.CharUtf8 | src/ScreenScrappingAzureFunctionDemo/Services/Formatters/YamlMediaTypeFormatter.cs:49 | a character encodes to 1 to 4 bytes, and to exactly one byte iff it is ASCII |
| Common.Utf8 | src/ScreenScrappingAzureFunctionDemo/Services/Formatters/YamlMediaTypeFormatter.cs:49 | encoding yields at least one byte per character |
| Common.Utf8Append | src/ScreenScrappingAzureFunctionDemo/Services/Formatters/YamlMediaTypeFormatter.cs:49 | the encoding of a concatenation is the concatenation of the encodings |
| Common.Utf8Prefix | src/ScreenScrappingAzureFunctionDemo/Services/Extensions/StringExtensions.cs:337-343 | the encoding of a prefix of the text is a prefix of the text's encoding |
| Common.NatDecimalValue | src/ScreenScrappingAzureFunctionDemo/Services/Logging/Serilog/Services/DefaultKeyGenerator.cs:34 | the decimal digits of n read back as n |
| Common.IntDecimal | src/ScreenScrappingAzureFunctionDemo/Services/Logging/Serilog/Services/DefaultKeyGenerator.cs:34 | the decimal text of a counter is non-empty and has no '\|' |
| Common.IntDecimalRoundTrip | src/ScreenScrappingAzureFunctionDemo/Services/Logging/Serilog/Services/DefaultKeyGenerator.cs:34 | parsing the decimal text of n gives n back |
| Common.IntDecimalInjective | src/ScreenScrappingAzureFunctionDemo/Services/Logging/Serilog/Services/DefaultKeyGenerator.cs:34 | different integers have different decimal texts |
| Common.FixedDigits | src/ScreenScrappingAzureFunctionDemo/Services/Logging/Serilog/Services/DefaultKeyGenerator.cs:23 | the D19-style rendering has exactly the requested width and only digits |
| Common.FixedDigitsValue | src/ScreenScrappingAzureFunctionDemo/Services/Logging/Serilog/Services/DefaultKeyGenerator.cs:23 | the fixed-width digits of n read back as n when n fits the width |
| Common.PadDecimalIsFixed | src/ScreenScrappingAzureFunctionDemo/Services/Logging/Serilog/Services/DefaultKeyGenerator.cs:23 | left-padding the plain decimal text with zeros gives the same fixed-width digits |
| Common.FixedDigitsOrder | src/ScreenScrappingAzureFunctionDemo/Services/Logging/Serilog/Services/DefaultKeyGenerator.cs:23 | for numbers that fit the width, the smaller number gives the lexicographically smaller text |
| Enums.Description | src/ScreenScrappingAzureFunctionDemo/Services/Enums/ContentType.cs:5-17 | every media type is a non-empty lower-case string |
| Enums.EncodingDescription | src/ScreenScrappingAzureFunctionDemo/Services/Enums/EncodingType.cs:5-11 | both content codings are non-empty lower-case strings |
| Enums.DescriptionInjective | src/ScreenScrappingAzureFunctionDemo/Services/Enums/ContentType.cs:7-16 | different members carry different descriptions |
| SerilogEvents.LevelName | src/ScreenScrappingAzureFunctionDemo/Services/Logging/Serilog/Sinks/LogEventEntity.cs:49 | a level name is non-empty and has no '\|' |
| SerilogEvents.LevelNameInjective | src/ScreenScrappingAzureFunctionDemo/Services/Logging/Serilog/Sinks/LogEventEntity.cs:49 | different levels have different names |
| Http.Code | src/ScreenScrappingAzureFunctionDemo/Services/HttpRequestMessageHelper.cs:73 | each status maps to its numeric code, always between 200 and 599 |
| Http.CreateErrorResponse | src/ScreenScrappingAzureFunctionDemo/Services/ScreenScrappingService.cs:74 | the response carries the given status and the exception, and negotiates its formatter |
| Http.AsException | src/ScreenScrappingAzureFunctionDemo/Services/ScreenScrappingService.cs:71-75 | an error raised by the core becomes an exception with no stack trace and no inner exception |
| Http.Stream.Write | src/ScreenScrappingAzureFunctionDemo/Services/Formatters/YamlMediaTypeFormatter.cs:50 | the whole buffer is appended to what was written before |
| Http.HeaderValuesText | src/ScreenScrappingAzureFunctionDemo/Services/HttpRequestMessageHelper.cs:188 | the text opens with the first value, and a comma follows it when a second value is present |
| Http.ToString | src/ScreenScrappingAzureFunctionDemo/Services/Formatters/YamlMediaTypeFormatter.cs:49 | a string prints as itself; the other values print their type name; WrittenStringBytes uses it |
| Formatters.YamlMediaTypeFormatter.constructor | src/ScreenScrappingAzureFunctionDemo/Services/Formatters/YamlMediaTypeFormatter.cs:27-32 | the formatter registers application/yaml, application/x-yaml and text/yaml |
| Formatters.YamlMediaTypeFormatter.WriteToStream | src/ScreenScrappingAzureFunctionDemo/Services/Formatters/YamlMediaTypeFormatter.cs:47-51 | the stream gains exactly the UTF-8 bytes of value.ToString() |
| Formatters.TextPlainMediaTypeFormatter.constructor | src/ScreenScrappingAzureFunctionDemo/Services/Formatters/TextPlainMediaTypeFormatter.cs:22-25 | the formatter registers text/plain only |
| Formatters.TextPlainMediaTypeFormatter.WriteToStream | src/ScreenScrappingAzureFunctionDemo/Services/Formatters/TextPlainMediaTypeFormatter.cs:38-42 | the stream gains exactly the UTF-8 bytes of value.ToString() |
| Formatters.WriteGate | src/ScreenScrappingAzureFunctionDemo/Services/Formatters/YamlMediaTypeFormatter.cs:35-44 | both formatters read and write a value iff it is a string |
| Formatters.WrittenStringBytes | src/ScreenScrappingAzureFunctionDemo/Services/Formatters/YamlMediaTypeFormatter.cs:49 | writing a concatenated string yields the two strings' bytes one after the other |
| Formatters.YamlMediaTypeFormatter.CanWriteType | src/ScreenScrappingAzureFunctionDemo/Services/Formatters/YamlMediaTypeFormatter.cs:35-38 | only the string type is writable; WriteGate states it for every value |
| Formatters.YamlMediaTypeFormatter.CanReadType | src/ScreenScrappingAzureFunctionDemo/Services/Formatters/YamlMediaTypeFormatter.cs:41-44 | only the string type is readable; WriteGate states it for every value |
| Formatters.TextPlainMediaTypeFormatter.CanWriteType | src/ScreenScrappingAzureFunctionDemo/Services/Formatters/TextPlainMediaTypeFormatter.cs:28-31 | only the string type is writable; WriteGate states it for every value |
| Formatters.TextPlainMediaTypeFormatter.CanReadType | src/ScreenScrappingAzureFunctionDemo/Services/Formatters/TextPlainMediaTypeFormatter.cs:33-36 | only the string type is readable; WriteGate states it for every value |
| ExceptionExtensions.OwnMessage | src/ScreenScrappingAzureFunctionDemo/Services/Extensions/ExceptionExtensions.cs:22-30 | the first line is the message alone without a stack trace, and message, newline and stack trace with one |
| ExceptionExtensions.Messages | src/ScreenScrappingAzureFunctionDemo/Services/Extensions/ExceptionExtensions.cs:14-52 | a null exception yields nothing; otherwise the first element is the exception's own message |
| ExceptionExtensions.MessagesOf | src/ScreenScrappingAzureFunctionDemo/Services/Extensions/ExceptionExtensions.cs:14-52 | the sequence is never empty and starts with the exception's own message |
| ExceptionExtensions.MessagesOfChildren | src/ScreenScrappingAzureFunctionDemo/Services/Extensions/ExceptionExtensions.cs:33-51 | the own message is followed by the messages of the inner exceptions, each in full |
| ExceptionExtensions.MessagesCount | src/ScreenScrappingAzureFunctionDemo/Services/Extensions/ExceptionExtensions.cs:14-52 | exactly one message per exception in the tree |
| ExceptionExtensions.MessagesAllCount | src/ScreenScrappingAzureFunctionDemo/Services/Extensions/ExceptionExtensions.cs:48-51 | the inner exceptions' messages number as many as the exceptions in their trees |
| ExceptionExtensions.MessagesOfAllAppend | src/ScreenScrappingAzureFunctionDemo/Services/Extensions/ExceptionExtensions.cs:48 | flattening over a concatenated list of inner exceptions concatenates the results |
| ExceptionExtensions.PreOrderSplit | src/ScreenScrappingAzureFunctionDemo/Services/Extensions/ExceptionExtensions.cs:48-51 | a work-list pre-order walk of a concatenated list gives the first list's messages, then the rest |
| ExceptionExtensions.MessagesIsPreOrder | src/ScreenScrappingAzureFunctionDemo/Services/Extensions/ExceptionExtensions.cs:14-52 | the messages are the pre-order walk of the exception tree |
| StringExtensions.ThrowIfNullOrWhiteSpace | src/ScreenScrappingAzureFunctionDemo/Services/Extensions/StringExtensions.cs:292-299 | it throws ArgumentNullException iff the value is null or blank, and otherwise returns the value itself |
| StringExtensions.IsEquivalentTo | src/ScreenScrappingAzureFunctionDemo/Services/Extensions/StringExtensions.cs:189-192 | an equivalent comparer is not null and has the value's length; every value is equivalent to itself |
| StringExtensions.ContainsEquivalent | src/ScreenScrappingAzureFunctionDemo/Services/Extensions/StringExtensions.cs:60-64 | it throws iff the value is blank; a blank comparer is never contained |
| StringExtensions.ListContainsEquivalent | src/ScreenScrappingAzureFunctionDemo/Services/Extensions/StringExtensions.cs:72-76 | true iff some item is equivalent to the given one; never for a null item or an empty list |
| StringExtensions.StartsWithEquivalent | src/ScreenScrappingAzureFunctionDemo/Services/Extensions/StringExtensions.cs:277-281 | it throws iff the value is blank; a blank comparer never matches |
| StringExtensions.EndsWithEquivalent | src/ScreenScrappingAzureFunctionDemo/Services/Extensions/StringExtensions.cs:166-170 | it throws iff the value is blank; a blank comparer never matches |
| StringExtensions.FoldWhiteSpace | src/ScreenScrappingAzureFunctionDemo/Services/Extensions/StringExtensions.cs:63 | folding the case changes neither blankness nor non-blankness |
| StringExtensions.ContainsIgnoresCase | src/ScreenScrappingAzureFunctionDemo/Services/Extensions/StringExtensions.cs:60-64 | the answer is the same for the case-folded arguments |
| StringExtensions.StartsWithIgnoresCase | src/ScreenScrappingAzureFunctionDemo/Services/Extensions/StringExtensions.cs:277-281 | the answer is the same for the case-folded arguments |
| StringExtensions.EndsWithIgnoresCase | src/ScreenScrappingAzureFunctionDemo/Services/Extensions/StringExtensions.cs:166-170 | the answer is the same for the case-folded arguments |
| StringExtensions.AffixImpliesContains | src/ScreenScrappingAzureFunctionDemo/Services/Extensions/StringExtensions.cs:277-281 | a case-insensitive prefix or suffix is also contained |
| StringExtensions.ComparisonsReflexive | src/ScreenScrappingAzureFunctionDemo/Services/Extensions/StringExtensions.cs:60-64 | a non-blank value contains itself, starts with itself and ends with itself |
| StringExtensions.EquivalenceRelation | src/ScreenScrappingAzureFunctionDemo/Services/Extensions/StringExtensions.cs:189-192 | equivalence is reflexive, symmetric and transitive |
| StringExtensions.Substring | src/ScreenScrappingAzureFunctionDemo/Services/Extensions/StringExtensions.cs:263 | it succeeds iff the range lies inside the string, and then gives that slice |
| StringExtensions.SubstringFrom | src/ScreenScrappingAzureFunctionDemo/Services/Extensions/StringExtensions.cs:265 | it succeeds iff the start lies inside the string, and then gives the suffix |
| StringExtensions.SafeSubstring | src/ScreenScrappingAzureFunctionDemo/Services/Extensions/StringExtensions.cs:255-266 | corrected: a blank input gives ""; it throws ArgumentOutOfRange iff the start is negative or a negative length passes the range test, the sum taken without overflow |
| StringExtensions.SafeSubstringAsWritten | src/ScreenScrappingAzureFunctionDemo/Services/Extensions/StringExtensions.cs:255-266 | as written: it equals the corrected definition whenever startIndex + length fits in 32 bits; when a positive sum wraps it throws for every non-blank string shorter than 2^31 |
| StringExtensions.SafeSubstringClamps | src/ScreenScrappingAzureFunctionDemo/Services/Extensions/StringExtensions.cs:261-265 | for non-negative arguments the result is the requested range clipped to the string, with the in-range, suffix and past-the-end cases spelled out |
| StringExtensions.SafeSubstringIsPiece | src/ScreenScrappingAzureFunctionDemo/Services/Extensions/StringExtensions.cs:255-266 | for non-negative arguments it never throws, and the result is a piece of the input no longer than the length |
| StringExtensions.SafeSubstringOverflow | src/ScreenScrappingAzureFunctionDemo/Services/Extensions/StringExtensions.cs:261 | ("abc", 1, int.MaxValue) throws as written, because the sum wraps negative; the corrected model gives "bc" |
| StringExtensions.WhiteSpaceRun | src/ScreenScrappingAzureFunctionDemo/Services/Extensions/StringExtensions.cs:325 | the run of white space at the front is maximal |
| StringExtensions.Collapse | src/ScreenScrappingAzureFunctionDemo/Services/Extensions/StringExtensions.cs:325 | collapsing never lengthens the text and keeps whether it starts with white space |
| StringExtensions.TrimStart | src/ScreenScrappingAzureFunctionDemo/Services/Extensions/StringExtensions.cs:325 | the result is a suffix of the input and does not start with white space |
| StringExtensions.TrimEnd | src/ScreenScrappingAzureFunctionDemo/Services/Extensions/StringExtensions.cs:325 | the result is a prefix of the input and does not end with white space |
| StringExtensions.Trim | src/ScreenScrappingAzureFunctionDemo/Services/Extensions/StringExtensions.cs:325 | the result is no longer than the input and has no white space at its ends; text without outer white space is returned unchanged |
| StringExtensions.CollapseNoAdjacent | src/ScreenScrappingAzureFunctionDemo/Services/Extensions/StringExtensions.cs:325 | after the replacement no two white-space characters are adjacent |
| StringExtensions.CollapseKeepsCollapsed | src/ScreenScrappingAzureFunctionDemo/Services/Extensions/StringExtensions.cs:325 | text without adjacent white space is left unchanged by the replacement |
| StringExtensions.SliceNoAdjacent | src/ScreenScrappingAzureFunctionDemo/Services/Extensions/StringExtensions.cs:325 | trimming a text without adjacent white space keeps it so |
| StringExtensions.TrimShape | src/ScreenScrappingAzureFunctionDemo/Services/Extensions/StringExtensions.cs:325 | trimming keeps text free of adjacent white-space characters |
| StringExtensions.TrimWhiteSpace | src/ScreenScrappingAzureFunctionDemo/Services/Extensions/StringExtensions.cs:323-326 | the result has no white space at its ends and no two white-space characters in a row |
| StringExtensions.TrimWhiteSpaceIdempotent | src/ScreenScrappingAzureFunctionDemo/Services/Extensions/StringExtensions.cs:323-326 | applying it twice is applying it once |
| StringExtensions.NonWhiteSpaceAppend | src/ScreenScrappingAzureFunctionDemo/Services/Extensions/StringExtensions.cs:325 | the non-white-space characters of a concatenation are those of each part, in order |
| StringExtensions.NonWhiteSpaceOfBlank | src/ScreenScrappingAzureFunctionDemo/Services/Extensions/StringExtensions.cs:325 | a blank text has no non-white-space characters |
| StringExtensions.CollapseKeepsText | src/ScreenScrappingAzureFunctionDemo/Services/Extensions/StringExtensions.cs:325 | the replacement keeps every non-white-space character in order |
| StringExtensions.TrimStartKeepsText | src/ScreenScrappingAzureFunctionDemo/Services/Extensions/StringExtensions.cs:325 | trimming the front keeps every non-white-space character |
| StringExtensions.TrimEndKeepsText | src/ScreenScrappingAzureFunctionDemo/Services/Extensions/StringExtensions.cs:325 | trimming the end keeps every non-white-space character |
| StringExtensions.TrimWhiteSpaceKeepsText | src/ScreenScrappingAzureFunctionDemo/Services/Extensions/StringExtensions.cs:323-326 | the result keeps every non-white-space character of the input, in order |
| StringExtensions.CharsWithin | src/ScreenScrappingAzureFunctionDemo/Services/Extensions/StringExtensions.cs:342-343 | the longest prefix of whole characters whose UTF-8 encoding fits the byte budget |
| StringExtensions.TruncateAsWritten | src/ScreenScrappingAzureFunctionDemo/Services/Extensions/StringExtensions.cs:334-345 | as written: text that fits is returned unchanged; a negative budget that does not fit throws ArgumentOutOfRange(count) |
| StringExtensions.TruncateAsWrittenDecodesPrefix | src/ScreenScrappingAzureFunctionDemo/Services/Extensions/StringExtensions.cs:342-343 | as written, a cut text is its longest fitting prefix of whole characters, plus one U+FFFD when bytes of a split character remain |
| StringExtensions.TruncateAsWrittenExceedsBudget | src/ScreenScrappingAzureFunctionDemo/Services/Extensions/StringExtensions.cs:342-343 | as written, "é" cut to 1 byte gives U+FFFD, which takes 3 bytes |
| StringExtensions.Truncate | src/ScreenScrappingAzureFunctionDemo/Services/Extensions/StringExtensions.cs:334-345 | corrected: the truncation always fits the budget, is a prefix of the input and is the longest such prefix; only a negative budget that does not fit throws |
| StringExtensions.TruncationsAgreeOnWholeChars | src/ScreenScrappingAzureFunctionDemo/Services/Extensions/StringExtensions.cs:342-343 | the code as written and the corrected truncation differ by at most the trailing U+FFFD |
| StringExtensions.ReplaceRemovesChar | src/ScreenScrappingAzureFunctionDemo/Services/Logging/Serilog/Sinks/LogEventEntity.cs:47 | replacing a character by text not containing it removes every occurrence |
| StringExtensions.ReplaceAbsent | src/ScreenScrappingAzureFunctionDemo/Services/Extensions/StringExtensions.cs:356 | replacing a substring that does not occur changes nothing |
| StringExtensions.Replace | src/ScreenScrappingAzureFunctionDemo/Services/Logging/Serilog/Sinks/LogEventEntity.cs:47 | a replacement no longer than what it replaces never lengthens the text |
| StringExtensions.UrlEncode | src/ScreenScrappingAzureFunctionDemo/Services/Extensions/StringExtensions.cs:364-369 | blank values pass through unchanged; otherwise the result contains no '+', and an encoding without '+' is returned as it is |
| StringExtensions.UrlDecode | src/ScreenScrappingAzureFunctionDemo/Services/Extensions/StringExtensions.cs:352-357 | blank values pass through unchanged; a value without "%20" is decoded as it is |
| StringExtensions.Encrypt | src/ScreenScrappingAzureFunctionDemo/Services/Extensions/StringExtensions.cs:134-155 | blank values pass through unchanged; anything else is encrypted |
| StringExtensions.Base64ShapeLength | src/ScreenScrappingAzureFunctionDemo/Services/Extensions/StringExtensions.cs:21 | text of the Base64 shape has a length divisible by 4 |
| StringExtensions.ValidEncryptionMatchExact | src/ScreenScrappingAzureFunctionDemo/Services/Extensions/StringExtensions.cs:21 | for lengths divisible by 4 the anchored pattern matches exactly the Base64-shaped strings |
| StringExtensions.Decrypt | src/ScreenScrappingAzureFunctionDemo/Services/Extensions/StringExtensions.cs:105-132 | the input is returned unchanged unless it is non-blank and shaped like Base64, in which case it is decrypted |
| HttpRequestMessageHelper.ContainsEquivalentOfThree | src/ScreenScrappingAzureFunctionDemo/Services/HttpRequestMessageHelper.cs:143 | membership in a literal list of three lower-case names is equality of the folded hint with one of them |
| HttpRequestMessageHelper.ContainsEquivalentOfTwo | src/ScreenScrappingAzureFunctionDemo/Services/HttpRequestMessageHelper.cs:243 | membership in a literal list of two lower-case names is equality of the folded item with one of them |
| HttpRequestMessageHelper.SelectFormatter | src/ScreenScrappingAzureFunctionDemo/Services/HttpRequestMessageHelper.cs:143-145 | YAML iff the hint folds to one of the three YAML media types, JSON otherwise, and never negotiated |
| HttpRequestMessageHelper.CreateResponse | src/ScreenScrappingAzureFunctionDemo/Services/HttpRequestMessageHelper.cs:141-147 | it throws InvalidOperation iff YAML is selected for a value that is not a string; otherwise the status, the selected formatter and the value |
| HttpRequestMessageHelper.CreateJsonResponse | src/ScreenScrappingAzureFunctionDemo/Services/HttpRequestMessageHelper.cs:88 | without a hint the response is JSON and never throws |
| HttpRequestMessageHelper.CreateBadRequestResponseOf | src/ScreenScrappingAzureFunctionDemo/Services/HttpRequestMessageHelper.cs:86-89 | a 400 JSON response carrying the value |
| HttpRequestMessageHelper.CreateBadRequestResponse | src/ScreenScrappingAzureFunctionDemo/Services/HttpRequestMessageHelper.cs:69-77 | a 400 JSON response whose payload has StatusCode 400, the message and no description |
| HttpRequestMessageHelper.CreateNotFoundResponseOf | src/ScreenScrappingAzureFunctionDemo/Services/HttpRequestMessageHelper.cs:114-117 | a 404 JSON response carrying the value |
| HttpRequestMessageHelper.CreateNotFoundResponse | src/ScreenScrappingAzureFunctionDemo/Services/HttpRequestMessageHelper.cs:97-105 | a 404 JSON response whose payload has StatusCode 404, the message and no description |
| HttpRequestMessageHelper.CreateOkResponse | src/ScreenScrappingAzureFunctionDemo/Services/HttpRequestMessageHelper.cs:127-130 | the 200 response with the caller's hint; on success the value is carried unchanged |
| HttpRequestMessageHelper.CreateUnsupportedMediaTypeResponseOf | src/ScreenScrappingAzureFunctionDemo/Services/HttpRequestMessageHelper.cs:172-175 | a 415 JSON response carrying the value |
| HttpRequestMessageHelper.CreateUnsupportedMediaTypeResponseAsWritten | src/ScreenScrappingAzureFunctionDemo/Services/HttpRequestMessageHelper.cs:155-163 | as written: the response status is 404 while the payload says 415 |
| HttpRequestMessageHelper.CreateUnsupportedMediaTypeResponse | src/ScreenScrappingAzureFunctionDemo/Services/HttpRequestMessageHelper.cs:155-163 | corrected: a 415 JSON response whose payload has StatusCode 415 and the message |
| HttpRequestMessageHelper.ErrorBuildersAgree | src/ScreenScrappingAzureFunctionDemo/Services/HttpRequestMessageHelper.cs:69-105 | each error builder's response status equals its payload's StatusCode, and the payload carries the caller's message |
| HttpRequestMessageHelper.UnsupportedMediaTypeAsWrittenDisagrees | src/ScreenScrappingAzureFunctionDemo/Services/HttpRequestMessageHelper.cs:155-163 | the builder as written answers 404 with a payload saying 415 |
| HttpRequestMessageHelper.YamlOnlyForStrings | src/ScreenScrappingAzureFunctionDemo/Services/HttpRequestMessageHelper.cs:141-147 | a title list with a YAML hint throws; a string with that hint is written as YAML; any other hint gives JSON |
| HttpRequestMessageHelper.YamlListsAgree | src/ScreenScrappingAzureFunctionDemo/Services/HttpRequestMessageHelper.cs:35-38 | the helper's YAML hints are the same set as the media types the YAML formatter registers |
| HttpRequestMessageHelper.IsValidContentType | src/ScreenScrappingAzureFunctionDemo/Services/HttpRequestMessageHelper.cs:240-244 | it throws NullReference iff there is no Content-Type header; otherwise true iff the media type folds to application/json or application/yaml |
| HttpRequestMessageHelper.ValidInputIsNarrower | src/ScreenScrappingAzureFunctionDemo/Services/HttpRequestMessageHelper.cs:30-38 | application/x-yaml and text/yaml select YAML output but are refused as input, as is application/xml |
| HttpRequestMessageHelper.ContainsPayload | src/ScreenScrappingAzureFunctionDemo/Services/HttpRequestMessageHelper.cs:57-61 | a request has a payload iff its body text has a non-white-space character |
| HttpRequestMessageHelper.HeaderContains | src/ScreenScrappingAzureFunctionDemo/Services/HttpRequestMessageHelper.cs:254-255 | a collection holding the token contains it, and an empty collection contains nothing |
| HttpRequestMessageHelper.IsContentCompressed | src/ScreenScrappingAzureFunctionDemo/Services/HttpRequestMessageHelper.cs:251-256 | compressed content has a non-empty Content-Encoding collection; one that lists gzip or deflate is compressed |
| HttpRequestMessageHelper.DecompressionFor | src/ScreenScrappingAzureFunctionDemo/Services/HttpRequestMessageHelper.cs:188-205 | gzip is chosen iff the header holds the one value "gzip"; everything else is inflated as deflate |
| HttpRequestMessageHelper.CompressionChecksDiffer | src/ScreenScrappingAzureFunctionDemo/Services/HttpRequestMessageHelper.cs:251-256 | "GZIP" and "gzip, identity" count as compressed but would be inflated as deflate, and "br" is not compressed |
| HttpRequestMessageHelper.HeaderlessRequestIsInflated | src/ScreenScrappingAzureFunctionDemo/Services/HttpRequestMessageHelper.cs:188-205 | a request without the header has the empty collection, whose text is "", and its body is inflated as deflate |
| HttpRequestMessageHelper.DecompressHttpContent | src/ScreenScrappingAzureFunctionDemo/Services/HttpRequestMessageHelper.cs:182-215 | the content is replaced by the decompressed UTF-8 JSON content, which is returned; a request without the header has an empty collection and is inflated as deflate; the null-collection branch, which the framework never produces, throws ArgumentOutOfRange and leaves the request untouched |
| HttpRequestMessageHelper.DecompressedContent | src/ScreenScrappingAzureFunctionDemo/Services/HttpRequestMessageHelper.cs:188-213 | the body is the gunzipped bytes when the header is exactly "gzip" and the inflated bytes otherwise, read as text and re-encoded in UTF-8; the new content is not marked compressed and has an accepted content type |
| HttpRequestMessageHelper.HttpRequestMessageHelper.constructor | src/ScreenScrappingAzureFunctionDemo/Services/HttpRequestMessageHelper.cs:24-28 | a new helper is not disposed and has released nothing |
| HttpRequestMessageHelper.HttpRequestMessageHelper.DisposeWith | src/ScreenScrappingAzureFunctionDemo/Services/HttpRequestMessageHelper.cs:221-233 | the first call runs the managed hook when disposing, then the unmanaged hook, and marks the helper disposed; later calls do nothing |
| HttpRequestMessageHelper.HttpRequestMessageHelper.Dispose | src/ScreenScrappingAzureFunctionDemo/Services/HttpRequestMessageHelper.cs:45-50 | the first call releases managed then unmanaged resources; later calls do nothing |
| ScreenScrappingService.Titles | src/ScreenScrappingAzureFunctionDemo/Services/ScreenScrappingService.cs:62-65 | no more titles than nodes |
| ScreenScrappingService.IsTitleCell | src/ScreenScrappingAzureFunctionDemo/Services/ScreenScrappingService.cs:64 | a td element whose class attribute contains "title", compared ordinally; ClassRule gives its cases |
| ScreenScrappingService.TitlesAppend | src/ScreenScrappingAzureFunctionDemo/Services/ScreenScrappingService.cs:62-65 | the titles of two node lists concatenated are the two lists' titles concatenated |
| ScreenScrappingService.TitlesCount | src/ScreenScrappingAzureFunctionDemo/Services/ScreenScrappingService.cs:62-65 | exactly one title per title cell |
| ScreenScrappingService.TitlesInOrder | src/ScreenScrappingAzureFunctionDemo/Services/ScreenScrappingService.cs:62-65 | a title cell's text comes right after the titles of the cells before it, in document order |
| ScreenScrappingService.TitlesSound | src/ScreenScrappingAzureFunctionDemo/Services/ScreenScrappingService.cs:64-65 | every title is the inner text of some title cell |
| ScreenScrappingService.NoTitleCells | src/ScreenScrappingAzureFunctionDemo/Services/ScreenScrappingService.cs:64 | without title cells there are no titles |
| ScreenScrappingService.ClassRule | src/ScreenScrappingAzureFunctionDemo/Services/ScreenScrappingService.cs:64 | a td without a class never counts; "subtitle" counts; "Title" and a th do not |
| ScreenScrappingService.Network.GetString | src/ScreenScrappingAzureFunctionDemo/Services/ScreenScrappingService.cs:56 | the answer for the address, and the address is added to the requests made |
| ScreenScrappingService.GetResult | src/ScreenScrappingAzureFunctionDemo/Services/ScreenScrappingService.cs:32-78 | the response equals the expected result; a blank address makes no request; otherwise exactly one request, to that address |
| ScreenScrappingService.ExpectedResult | src/ScreenScrappingAzureFunctionDemo/Services/ScreenScrappingService.cs:32-78 | the response computed from the setting, the page and the parser; only 200, 400 and 500 are ever answered |
| ScreenScrappingService.BlankAddress | src/ScreenScrappingAzureFunctionDemo/Services/ScreenScrappingService.cs:39-43 | a blank address gives a 400 JSON response with the message "Null or empty UrlAddress" |
| ScreenScrappingService.FailuresAre500 | src/ScreenScrappingAzureFunctionDemo/Services/ScreenScrappingService.cs:71-75 | a failed fetch or a failed parse gives a 500 carrying that exception |
| ScreenScrappingService.SuccessIs200 | src/ScreenScrappingAzureFunctionDemo/Services/ScreenScrappingService.cs:62-67 | a loaded page gives a JSON 200 with one title per title cell, possibly none |
| ScreenScrappingFunction.Run | src/ScreenScrappingAzureFunctionDemo/Functions/ScreenScrappingFunction.cs:16-33 | a response from the service is returned unchanged; a thrown exception becomes a 500 whose text is the fixed prefix followed by the message |
| ScreenScrappingFunction.ErrorTextRoundTrip | src/ScreenScrappingAzureFunctionDemo/Functions/ScreenScrappingFunction.cs:29-31 | the message can be read back from the error text |
| ScreenScrappingFunction.RunThroughService | src/ScreenScrappingAzureFunctionDemo/Functions/ScreenScrappingFunction.cs:21-26 | for every setting, page and parser outcome, the function's status is 200, 400 or 500 |
| Html.WithDescendants | src/ScreenScrappingAzureFunctionDemo/Services/ScreenScrappingService.cs:62-63 | the traversal lists at least the given nodes |
| Html.WithDescendantsAppend | src/ScreenScrappingAzureFunctionDemo/Services/ScreenScrappingService.cs:62-63 | the traversal of a concatenation is the concatenation of the traversals |
| Html.TopLevelNodesAreDescendants | src/ScreenScrappingAzureFunctionDemo/Services/ScreenScrappingService.cs:62-63 | every given node is in the traversal |
| Html.InnerText | src/ScreenScrappingAzureFunctionDemo/Services/ScreenScrappingService.cs:65 | the text of every text node below the node, in document order; TitlesSound and TitlesInOrder use it |
| Html.Descendants | src/ScreenScrappingAzureFunctionDemo/Services/ScreenScrappingService.cs:62-63 | every node below the node, in pre-order; TopLevelNodesAreDescendants and WithDescendantsAppend state its properties |
| DefaultKeyGenerator.Clock.UtcNow | src/ScreenScrappingAzureFunctionDemo/Services/Logging/Serilog/Services/DefaultKeyGenerator.cs:23 | the next reading of the clock, and the count of readings advances by one |
| DefaultKeyGenerator.MaxTicksFits | src/ScreenScrappingAzureFunctionDemo/Services/Logging/Serilog/Services/DefaultKeyGenerator.cs:23 | DateTime.MaxValue's tick count fits 19 digits |
| DefaultKeyGenerator.PartitionKeyDigits | src/ScreenScrappingAzureFunctionDemo/Services/Logging/Serilog/Services/DefaultKeyGenerator.cs:21-24 | the key is MaxTicks minus the reading, in 19 digits |
| DefaultKeyGenerator.PartitionKeyAt | src/ScreenScrappingAzureFunctionDemo/Services/Logging/Serilog/Services/DefaultKeyGenerator.cs:21-24 | the key is always 19 decimal digits |
| DefaultKeyGenerator.PartitionKeyValue | src/ScreenScrappingAzureFunctionDemo/Services/Logging/Serilog/Services/DefaultKeyGenerator.cs:21-24 | the key has 19 digits, reads back as MaxTicks − now and does not depend on the event |
| DefaultKeyGenerator.ReverseTicksOrder | src/ScreenScrappingAzureFunctionDemo/Services/Logging/Serilog/Services/DefaultKeyGenerator.cs:23 | a later reading gives lexicographically smaller digits |
| DefaultKeyGenerator.PartitionKeyOrder | src/ScreenScrappingAzureFunctionDemo/Services/Logging/Serilog/Services/DefaultKeyGenerator.cs:21-24 | equal readings give equal keys; a later reading gives a key that sorts first |
| DefaultKeyGenerator.AfterLastBar | src/ScreenScrappingAzureFunctionDemo/Services/Logging/Serilog/Services/DefaultKeyGenerator.cs:34 | the text after the last '\|' contains no '\|' |
| DefaultKeyGenerator.AfterLastBarOf | src/ScreenScrappingAzureFunctionDemo/Services/Logging/Serilog/Services/DefaultKeyGenerator.cs:34 | the text after the last '\|' of a + "\|" + b is b when b has none |
| DefaultKeyGenerator.RowKeyText | src/ScreenScrappingAzureFunctionDemo/Services/Logging/Serilog/Services/DefaultKeyGenerator.cs:32-35 | the counter can be read back from the row key as the text after its last '\|', whatever '\|' the message template contains |
| DefaultKeyGenerator.RowKeysDistinct | src/ScreenScrappingAzureFunctionDemo/Services/Logging/Serilog/Services/DefaultKeyGenerator.cs:32-35 | keys built from different counter values differ, whatever the events |
| DefaultKeyGenerator.RowKeyTextSeparates | src/ScreenScrappingAzureFunctionDemo/Services/Logging/Serilog/Services/DefaultKeyGenerator.cs:32-35 | the default row-key function never maps two counter values to the same key |
| DefaultKeyGenerator.Increment64 | src/ScreenScrappingAzureFunctionDemo/Services/Logging/Serilog/Services/DefaultKeyGenerator.cs:34 | it adds one, and wraps from 2^63 − 1 to −2^63 |
| DefaultKeyGenerator.IdAfterStep | src/ScreenScrappingAzureFunctionDemo/Services/Logging/Serilog/Services/DefaultKeyGenerator.cs:34 | one further increment moves the counter from after k calls to after k + 1 |
| DefaultKeyGenerator.IdsDistinct | src/ScreenScrappingAzureFunctionDemo/Services/Logging/Serilog/Services/DefaultKeyGenerator.cs:34 | any two of 2^64 consecutive calls yield different counters |
| DefaultKeyGenerator.IdsFromZero | src/ScreenScrappingAzureFunctionDemo/Services/Logging/Serilog/Services/DefaultKeyGenerator.cs:11-14 | from a fresh generator, the k-th call's counter is k itself while it fits |
| DefaultKeyGenerator.DefaultKeyGenerator.constructor | src/ScreenScrappingAzureFunctionDemo/Services/Logging/Serilog/Services/DefaultKeyGenerator.cs:11-14 | the counter starts at 0, with the default partition-key and row-key functions |
| DefaultKeyGenerator.DefaultKeyGenerator.GeneratePartitionKey | src/ScreenScrappingAzureFunctionDemo/Services/Logging/Serilog/Services/DefaultKeyGenerator.cs:21-24 | the key of the next clock reading, which is consumed |
| DefaultKeyGenerator.DefaultKeyGenerator.GenerateRowKey | src/ScreenScrappingAzureFunctionDemo/Services/Logging/Serilog/Services/DefaultKeyGenerator.cs:32-35 | the counter is incremented (with wrap-around) and the key embeds the new value |
| LogEventEntity.Without | src/ScreenScrappingAzureFunctionDemo/Services/Logging/Serilog/Sinks/LogEventEntity.cs:80 | filtering never lengthens the text |
| LogEventEntity.WithoutRejects | src/ScreenScrappingAzureFunctionDemo/Services/Logging/Serilog/Sinks/LogEventEntity.cs:80 | no rejected character survives |
| LogEventEntity.WithoutChars | src/ScreenScrappingAzureFunctionDemo/Services/Logging/Serilog/Sinks/LogEventEntity.cs:80 | filtering adds no character |
| LogEventEntity.WithoutKeeps | src/ScreenScrappingAzureFunctionDemo/Services/Logging/Serilog/Sinks/LogEventEntity.cs:80 | text with no rejected character is left unchanged |
| LogEventEntity.WithoutAppend | src/ScreenScrappingAzureFunctionDemo/Services/Logging/Serilog/Sinks/LogEventEntity.cs:80 | filtering a concatenation filters each part |
| LogEventEntity.RemoveQuotesIsFilter | src/ScreenScrappingAzureFunctionDemo/Services/Logging/Serilog/Sinks/LogEventEntity.cs:47 | replacing '"' by the empty string is removing every double quote |
| LogEventEntity.GetValidRowKey | src/ScreenScrappingAzureFunctionDemo/Services/Logging/Serilog/Sinks/LogEventEntity.cs:78-82 | the result is at most 1024 characters |
| LogEventEntity.ValidRowKeyIsFilteredPrefix | src/ScreenScrappingAzureFunctionDemo/Services/Logging/Serilog/Sinks/LogEventEntity.cs:78-82 | the result is the filtered key, cut to its first 1024 characters when longer, and has no disallowed character |
| LogEventEntity.RowKeySource | src/ScreenScrappingAzureFunctionDemo/Services/Logging/Serilog/Sinks/LogEventEntity.cs:46-47 | without a SourceContext property the key offered is the sanitised one, at most 1024 characters |
| LogEventEntity.RowKeyOf | src/ScreenScrappingAzureFunctionDemo/Services/Logging/Serilog/Sinks/LogEventEntity.cs:46-48 | the stored key has no white space at its ends and is no longer than the key it was made from |
| LogEventEntity.TrimIsSlice | src/ScreenScrappingAzureFunctionDemo/Services/Logging/Serilog/Sinks/LogEventEntity.cs:47 | trimming gives a contiguous slice of the input |
| LogEventEntity.TrimWithoutChars | src/ScreenScrappingAzureFunctionDemo/Services/Logging/Serilog/Sinks/LogEventEntity.cs:47 | trimming filtered text keeps it filtered and drawn from the input, with no white space at its ends |
| LogEventEntity.RowKeyShape | src/ScreenScrappingAzureFunctionDemo/Services/Logging/Serilog/Sinks/LogEventEntity.cs:46-48 | the row key has no '"' and no outer white space; with SourceContext it is that property unquoted and trimmed; otherwise at most 1024 allowed characters |
| LogEventEntity.SourceContextUnquoted | src/ScreenScrappingAzureFunctionDemo/Services/Logging/Serilog/Sinks/LogEventEntity.cs:46-48 | a quoted SourceContext name becomes the row key, without its quotes |
| LogEventEntity.ExceptionText | src/ScreenScrappingAzureFunctionDemo/Services/Logging/Serilog/Sinks/LogEventEntity.cs:50 | null iff there is no exception; otherwise the exception's ToString() |
| LogEventEntity.BuiltFromDescribes | src/ScreenScrappingAzureFunctionDemo/Services/Logging/Serilog/Sinks/LogEventEntity.cs:42-55 | a constructed entity has the given partition key, the sanitised row key, the level name, exception text, rendered message and JSON data |
| LogEventEntity.LogEventEntity.constructor | src/ScreenScrappingAzureFunctionDemo/Services/Logging/Serilog/Sinks/LogEventEntity.cs:42-55 | the entity records the event, the keys it was offered and the renderers, and its stored properties follow from them |
| AzureBatchingTableStorageSink.Runs | src/ScreenScrappingAzureFunctionDemo/Services/Logging/Serilog/Sinks/AzureBatchingTableStorageSink.cs:91-98 | there are no batches iff there are no rows |
| AzureBatchingTableStorageSink.FlattenAppend | src/ScreenScrappingAzureFunctionDemo/Services/Logging/Serilog/Sinks/AzureBatchingTableStorageSink.cs:101 | appending a batch appends its rows |
| AzureBatchingTableStorageSink.RunsExtendSame | src/ScreenScrappingAzureFunctionDemo/Services/Logging/Serilog/Sinks/AzureBatchingTableStorageSink.cs:91-101 | a row whose key equals the last row's key joins the last batch |
| AzureBatchingTableStorageSink.RunsExtendNew | src/ScreenScrappingAzureFunctionDemo/Services/Logging/Serilog/Sinks/AzureBatchingTableStorageSink.cs:91-101 | a row with a new key starts a batch of its own |
| AzureBatchingTableStorageSink.RunsArePartition | src/ScreenScrappingAzureFunctionDemo/Services/Logging/Serilog/Sinks/AzureBatchingTableStorageSink.cs:84-107 | the batches are non-empty, of one key each, adjacent ones of different keys, and hold the rows in order |
| AzureBatchingTableStorageSink.RunPartitionUnique | src/ScreenScrappingAzureFunctionDemo/Services/Logging/Serilog/Sinks/AzureBatchingTableStorageSink.cs:84-107 | there is only one such grouping of a row sequence |
| AzureBatchingTableStorageSink.PartitionJoin | src/ScreenScrappingAzureFunctionDemo/Services/Logging/Serilog/Sinks/AzureBatchingTableStorageSink.cs:91-101 | a row whose key matches the last row keeps the grouping valid when it extends the last batch |
| AzureBatchingTableStorageSink.PartitionStart | src/ScreenScrappingAzureFunctionDemo/Services/Logging/Serilog/Sinks/AzureBatchingTableStorageSink.cs:91-101 | a row with a new key keeps the grouping valid when it opens a new batch |
| AzureBatchingTableStorageSink.TailIsPartition | src/ScreenScrappingAzureFunctionDemo/Services/Logging/Serilog/Sinks/AzureBatchingTableStorageSink.cs:91-98 | the first batch is a prefix of the rows and the remaining batches group the rest |
| AzureBatchingTableStorageSink.FirstBatchIsFirstRun | src/ScreenScrappingAzureFunctionDemo/Services/Logging/Serilog/Sinks/AzureBatchingTableStorageSink.cs:91-98 | the first batch is the longest prefix with one key |
| AzureBatchingTableStorageSink.RunsBounded | src/ScreenScrappingAzureFunctionDemo/Services/Logging/Serilog/Sinks/AzureBatchingTableStorageSink.cs:66-69 | when the events handed over are within the batch size limit, so is every batch |
| AzureBatchingTableStorageSink.PendingJoin | src/ScreenScrappingAzureFunctionDemo/Services/Logging/Serilog/Sinks/AzureBatchingTableStorageSink.cs:100-101 | adding a same-key row to the open batch keeps the flushed and open batches equal to the runs so far |
| AzureBatchingTableStorageSink.PendingStart | src/ScreenScrappingAzureFunctionDemo/Services/Logging/Serilog/Sinks/AzureBatchingTableStorageSink.cs:91-98 | flushing the open batch and opening a new one keeps them equal to the runs so far |
| AzureBatchingTableStorageSink.PendingStep | src/ScreenScrappingAzureFunctionDemo/Services/Logging/Serilog/Sinks/AzureBatchingTableStorageSink.cs:91-101 | either way, one loop turn keeps the flushed and open batches equal to the runs so far |
| AzureBatchingTableStorageSink.PendingFinish | src/ScreenScrappingAzureFunctionDemo/Services/Logging/Serilog/Sinks/AzureBatchingTableStorageSink.cs:103-106 | executing the open batch if it is non-empty completes the runs of the rows |
| AzureBatchingTableStorageSink.CloudTable.constructor | src/ScreenScrappingAzureFunctionDemo/Services/Logging/Serilog/Sinks/AzureBatchingTableStorageSink.cs:80 | the table has the given name and no batches |
| AzureBatchingTableStorageSink.CloudTable.ExecuteBatch | src/ScreenScrappingAzureFunctionDemo/Services/Logging/Serilog/Sinks/AzureBatchingTableStorageSink.cs:96 | the batch is appended to those executed |
| AzureBatchingTableStorageSink.TableNameOrDefault | src/ScreenScrappingAzureFunctionDemo/Services/Logging/Serilog/Sinks/AzureBatchingTableStorageSink.cs:75-78 | "LogEventEntity" when the name is null or empty, the given name otherwise |
| AzureBatchingTableStorageSink.EmittedStep | src/ScreenScrappingAzureFunctionDemo/Services/Logging/Serilog/Sinks/AzureBatchingTableStorageSink.cs:100 | a row built from the next event, clock reading and counter value extends the record of emitted rows |
| AzureBatchingTableStorageSink.EmittedAll | src/ScreenScrappingAzureFunctionDemo/Services/Logging/Serilog/Sinks/AzureBatchingTableStorageSink.cs:88-102 | row j was built from event j, the partition key of clock reading j and the row key of counter value start + j + 1 |
| AzureBatchingTableStorageSink.EmittedRow | src/ScreenScrappingAzureFunctionDemo/Services/Logging/Serilog/Sinks/AzureBatchingTableStorageSink.cs:100 | one emitted row's offered row key and partition key |
| AzureBatchingTableStorageSink.EmittedRowKeysDistinct | src/ScreenScrappingAzureFunctionDemo/Services/Logging/Serilog/Sinks/AzureBatchingTableStorageSink.cs:100 | with row keys that separate counters, the rows of one batch were offered pairwise distinct row keys |
| AzureBatchingTableStorageSink.EmittedPartitionKeysFall | src/ScreenScrappingAzureFunctionDemo/Services/Logging/Serilog/Sinks/AzureBatchingTableStorageSink.cs:90 | with the default partition keys and a clock that does not go back, later rows' keys never sort after earlier ones |
| AzureBatchingTableStorageSink.AzureBatchingTableStorageSink.Init | src/ScreenScrappingAzureFunctionDemo/Services/Logging/Serilog/Sinks/AzureBatchingTableStorageSink.cs:71-80 | the sink keeps the batch size, the format renderers, the key generator and the table |
| AzureBatchingTableStorageSink.AzureBatchingTableStorageSink.Create | src/ScreenScrappingAzureFunctionDemo/Services/Logging/Serilog/Sinks/AzureBatchingTableStorageSink.cs:62-82 | batch sizes outside 1..100 fail with the ArgumentException message; otherwise a fresh empty table of the defaulted name and the given generator, or a fresh default one |
| AzureBatchingTableStorageSink.AzureBatchingTableStorageSink.EmitOne | src/ScreenScrappingAzureFunctionDemo/Services/Logging/Serilog/Sinks/AzureBatchingTableStorageSink.cs:89-101 | one loop turn: the key of the next reading, the open batch executed when the key changes, and the new row appended |
| AzureBatchingTableStorageSink.AzureBatchingTableStorageSink.EmitBatch | src/ScreenScrappingAzureFunctionDemo/Services/Logging/Serilog/Sinks/AzureBatchingTableStorageSink.cs:84-107 | one row per event, built as EmittedAll states; the table gains exactly the maximal runs of equal partition key; counter and clock advance by one per event |
| AzureBatchingTableStorageSink.EmittedBatchesAreMaximalRuns | src/ScreenScrappingAzureFunctionDemo/Services/Logging/Serilog/Sinks/AzureBatchingTableStorageSink.cs:91-106 | any grouping into same-key, adjacent-distinct batches is exactly the one EmitBatch executes |

## Left out

These parts of the system are not modelled:

- **Time and logging**
  - The entity's `Timestamp` and time-zone conversion (LogEventEntity.cs:44). No property depends on it.
  - The `ILog` calls and the `Log.Error` in the catch blocks. They are side effects with no effect on results.
- **Entity setters and other key generators**
  - The entity's parameterless constructor and its property setters. Only the table client uses them, when it reads rows back.
  - Key generators other than `DefaultKeyGenerator`. The sink sees a generator only through its two key functions, `partitionKeyOf` and `rowKeyOf`. `EmitBatch` and the `Emitted*` lemmas are stated for arbitrary such functions. `Create` fixes them to the default ones when no generator is given.
  - The `suffix` argument of `GenerateRowKey`. The source ignores it too.
- **Storage and batching infrastructure**
  - `CloudStorageAccount`, `CreateCloudTableClient` and `CreateIfNotExistsAsync`. These are storage-service calls. The table is modelled by its name and the batches executed against it.
  - The periodic scheduling, queueing and `batchSizeLimit` enforcement of `PeriodicBatchingSink`. `RunsBounded` states what the limit would imply for each table batch.
  - The `async`/`await` structure, and the atomicity of `Interlocked.Increment`. Only sequential behaviour is modelled.
- **Foreign code and rendering**
  - The storage client's `KeyFieldValueCharactersNotAllowedMatch` regular expression. It is modelled as a per-character predicate, so the exact character set is not modelled.
  - The format provider. It is folded into `Renderers`, together with `Exception.ToString()`, message rendering and the JSON formatter.
  - The gzip, deflate and RC2 codecs, Base64, `WebUtility` URL coding, HtmlAgilityPack parsing and `HttpClient`. They are function parameters, so their byte-level behaviour is not modelled.
  - `CurrentCultureIgnoreCase` and `ToLowerInvariant`. They are modelled as ASCII case folding, so culture-specific casing is not modelled.
  - Automatic decompression on the `HttpClientHandler` (ScreenScrappingService.cs:46-51). It belongs to the foreign HTTP client.
- **Compression and the real Azure Functions pipeline**
  - `Compress`/`Decompress` in StringExtensions.cs:29-103. They are Base64 and gzip framing over foreign codecs.
  - The trivial wrappers `GetSize`, `ToBoolean`, `ToInt32`, `IsNotNullOrEmpty` and `IsNullOrEmptyOrWhiteSpace`. They delegate to the framework.
  - Content negotiation for `Negotiated` responses. It is framework behaviour.
  - `DateEpoch`, `EnumExtensions` reflection, `StreamExtensions`, the IoC container, service locator, bootstrapping and Serilog configuration.

Contracts stated weaker than the source, or idealised:

- UrlDecode: its contract pins down the result only for inputs without "%20". Otherwise the result is the foreign decoder applied after the replacement, which is opaque here.
- Decrypt: the `_validEncription` pattern is modelled as the Base64 shape it describes. `ValidEncryptionMatchExact` proves the two agree for lengths divisible by 4.
- ListContainsEquivalent: the list and its elements are never null here, because `seq<string>` cannot hold null. The `ThrowIfNullOrDefault` guard on the list (StringExtensions.cs:74) and null elements are not modelled. Every caller in the core passes a literal list, so the core never reaches that path.
- UtcNow: readings are a fixed sequence of tick counts between 0 and `DateTime.MaxValue`. Wall-clock time is not modelled.
- CloudTable.ExecuteBatch: it never fails here. In the source `ExecuteBatchAsync` can throw a storage exception (AzureBatchingTableStorageSink.cs:96 and 105). The throw ends the `foreach`, so the table keeps only the runs executed before it, and the rest of the batch is lost. `EmitBatch` therefore states only the outcome in which every table batch succeeds.
- SafeSubstring, SafeSubstringAsWritten, Substring, SubstringFrom, GetValidRowKey: a `string` here is a sequence of Unicode scalar values. .NET counts lengths and indices in UTF-16 code units, so a character outside the Basic Multilingual Plane is one element here and two in .NET. Substring bounds and the 1024-character cut agree with the source only for text inside the Basic Multilingual Plane. The model never splits a surrogate pair, while .NET can.
- TrimWhiteSpace, TruncateAsWritten, Truncate: they take a string that is never null. In the source a null receiver throws `ArgumentNullException`, from `Regex.Replace` (StringExtensions.cs:325) and from `Encoding.UTF8.GetByteCount` (StringExtensions.cs:337).
- DecompressHttpContent, IsValidContentType, IsContentCompressed, ContainsPayload: a request always has content here, since `HttpRequestMessage.content` is not optional. In the source a null `request.Content` throws `NullReferenceException` (HttpRequestMessageHelper.cs:59, 183, 242 and 252).
- DecompressHttpContent, DecompressedContent: the `gunzip` and `inflate` parameters are total functions. The real `GZipStream` and `DeflateStream` throw `InvalidDataException` on malformed data (HttpRequestMessageHelper.cs:195-205), and `task.Wait()` rethrows it wrapped in an `AggregateException`. That failure path is not modelled.

The code and the prose description differ in three places. The model follows the code in all three:

- **An unrecognised content coding.** For example "br", or "gzip" written in upper case. It is inflated as deflate; it is not refused with a 415.
- **The `class` test on title cells.** It is case-sensitive ordinal matching, not case-insensitive.
- **A request without a Content-Encoding header.** The framework creates the header collection on first use, so it is never null. The throw for a null collection (HttpRequestMessageHelper.cs:184-187) cannot happen. A request without the header has an empty collection, whose text is "". It is inflated as deflate (lines 188 and 201-205), so decompression is not a no-op when the header is absent. The model keeps the null branch as `None`, and a request without the header is `Some([])`.

## Findings

No case was executed. Each finding is derived from the code as written.

| source | as written | input that shows it | evidently intended | confidence | as-written member | corrected member |
|---|---|---|---|---|---|---|
| src/ScreenScrappingAzureFunctionDemo/Services/Extensions/StringExtensions.cs:261 | `self.Length >= startIndex + length` is 32-bit arithmetic, and the sum can wrap negative | `"abc".SafeSubstring(1, int.MaxValue)` takes the in-range branch, so `Substring` throws | the suffix "bc", as for any length past the end | not executed | StringExtensions.SafeSubstringAsWritten, StringExtensions.SafeSubstringOverflow | StringExtensions.SafeSubstring |
| src/ScreenScrappingAzureFunctionDemo/Services/Extensions/StringExtensions.cs:342-343 | decoding the first `maxBytesLength` bytes turns a split character into U+FFFD | `"é".Truncate(1)` gives U+FFFD, which takes 3 bytes for a budget of 1 | a result whose UTF-8 encoding fits the byte budget | not executed | StringExtensions.TruncateAsWritten, StringExtensions.TruncateAsWrittenExceedsBudget | StringExtensions.Truncate |
| src/ScreenScrappingAzureFunctionDemo/Services/HttpRequestMessageHelper.cs:162 | the 415 builder hands its payload to the 404 builder | any message: the response status is 404, while its payload says 415 | a 415 response | not executed | HttpRequestMessageHelper.CreateUnsupportedMediaTypeResponseAsWritten, HttpRequestMessageHelper.UnsupportedMediaTypeAsWrittenDisagrees | HttpRequestMessageHelper.CreateUnsupportedMediaTypeResponse |
