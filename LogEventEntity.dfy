/** LogEventEntity: the table row a Serilog event becomes. Its keys, level,
    exception text, rendered message and JSON data are fixed when it is
    constructed. */
module LogEventEntity {
  import opened Common
  import opened ExceptionExtensions
  import opened SerilogEvents
  import opened StringExtensions

  /** The property whose rendered value, when present, becomes the row key. */
  const SourceContextProperty: string := "SourceContext"

  /** The largest key Azure Table storage accepts, in characters. */
  const MaxKeyLength: nat := 1024

  /** The foreign formatting the constructor relies on: the key character
      rule of the storage client (KeyFieldValueCharactersNotAllowedMatch,
      one character per match), Exception.ToString(), LogEvent.RenderMessage
      and Serilog's JsonFormatter, each for the sink's format provider. */
  datatype Renderers = Renderers(
    notAllowed: char -> bool,
    exceptionText: Exception -> string,
    renderMessage: LogEvent -> string,
    formatJson: LogEvent -> string)

  // ---------------------------------------------------------------------------
  // Row key sanitising
  // ---------------------------------------------------------------------------

  /** The characters of s that p does not reject, in order. */
  function Without(s: string, p: char -> bool): (r: string)
    ensures |r| <= |s|
  {
    if s == [] then []
    else (if p(s[0]) then [] else [s[0]]) + Without(s[1..], p)
  }

  /** No character p rejects is left. */
  lemma {:induction false} WithoutRejects(s: string, p: char -> bool)
    ensures forall i :: 0 <= i < |Without(s, p)| ==> !p(Without(s, p)[i])
  {
    if s != [] {
      WithoutRejects(s[1..], p);
    }
  }

  /** Filtering adds no character. */
  lemma {:induction false} WithoutChars(s: string, p: char -> bool)
    ensures forall i :: 0 <= i < |Without(s, p)| ==> Without(s, p)[i] in s
  {
    if s != [] {
      WithoutChars(s[1..], p);
    }
  }

  /** Characters that p does not reject all survive. */
  lemma {:induction false} WithoutKeeps(s: string, p: char -> bool)
    requires forall i :: 0 <= i < |s| ==> !p(s[i])
    ensures Without(s, p) == s
  {
    if s != [] {
      WithoutKeeps(s[1..], p);
    }
  }

  predicate IsQuote(c: char)
  {
    c == '"'
  }

  /** Replace("\"", string.Empty) drops exactly the double quotes. */
  lemma {:induction false} RemoveQuotesIsFilter(s: string)
    ensures Replace(s, "\"", "") == Without(s, IsQuote)
    decreases |s|
  {
    if s != [] {
      RemoveQuotesIsFilter(s[1..]);
      assert (s[..1] == "\"") == IsQuote(s[0]);
    }
  }

  /** GetValidRowKey: the allowed characters, cut to the first 1024. */
  function GetValidRowKey(rowKey: string, notAllowed: char -> bool): (r: string)
    ensures |r| <= MaxKeyLength
  {
    var filtered := Without(rowKey, notAllowed);
    if |filtered| > MaxKeyLength then filtered[..MaxKeyLength] else filtered
  }

  /** The valid key is the filtered key, whole when it fits and cut to
      exactly 1024 characters when it does not; none of its characters is
      disallowed. */
  lemma ValidRowKeyIsFilteredPrefix(rowKey: string, notAllowed: char -> bool)
    ensures var r := GetValidRowKey(rowKey, notAllowed);
      var w := Without(rowKey, notAllowed);
      && |r| <= |w| && r == w[..|r|]
      && (|w| <= MaxKeyLength ==> r == w)
      && (|w| > MaxKeyLength ==> |r| == MaxKeyLength)
      && (forall i :: 0 <= i < |r| ==> !notAllowed(r[i]))
  {
    var r := GetValidRowKey(rowKey, notAllowed);
    var w := Without(rowKey, notAllowed);
    WithoutRejects(rowKey, notAllowed);
    forall i | 0 <= i < |r|
      ensures !notAllowed(r[i])
    {
      assert r[i] == w[i];
    }
  }

  /** The key the sink offers unless the event carries a SourceContext. */
  function RowKeySource(log: LogEvent, rowKey: string, notAllowed: char -> bool): (r: string)
    ensures SourceContextProperty !in log.properties ==> |r| <= MaxKeyLength
  {
    if SourceContextProperty in log.properties then log.properties[SourceContextProperty]
    else GetValidRowKey(rowKey, notAllowed)
  }

  /** (value?.ToString() ?? GetValidRowKey(rowKey)).Replace("\"", "").Trim(). */
  function RowKeyOf(log: LogEvent, rowKey: string, notAllowed: char -> bool): (r: string)
    ensures NoOuterWhiteSpace(r)
    ensures |r| <= |RowKeySource(log, rowKey, notAllowed)|
  {
    Trim(Replace(RowKeySource(log, rowKey, notAllowed), "\"", ""))
  }

  /** Trim returns a contiguous piece of its argument. */
  lemma TrimIsSlice(s: string)
    ensures exists i, j :: 0 <= i <= j <= |s| && Trim(s) == s[i..j]
  {
    var t := TrimStart(s);
    var k := TrimEnd(t);
    var i := |s| - |t|;
    assert t == s[i..] && k == t[..|k|];
    PrefixOfSuffix(s, i, |k|);
    assert Trim(s) == k == s[i..i + |k|];
  }

  lemma PrefixOfSuffix(s: string, i: nat, m: nat)
    requires i + m <= |s|
    ensures s[i..][..m] == s[i..i + m]
  {
    var a, b := s[i..][..m], s[i..i + m];
    forall n | 0 <= n < m
      ensures a[n] == b[n]
    {
    }
  }

  /** A slice keeps what every character of the whole satisfies. */
  lemma SliceOfFiltered(w: string, i: nat, j: nat, s: string, p: char -> bool)
    requires i <= j <= |w|
    requires forall n :: 0 <= n < |w| ==> !p(w[n]) && w[n] in s
    ensures forall n :: 0 <= n < j - i ==> !p(w[i..j][n]) && w[i..j][n] in s
  {
    forall n | 0 <= n < j - i
      ensures !p(w[i..j][n]) && w[i..j][n] in s
    {
      assert w[i..j][n] == w[i + n];
    }
  }

  /** Trimming the filtered text keeps only characters of s that p lets through. */
  lemma TrimWithoutChars(s: string, p: char -> bool)
    ensures var k := Trim(Without(s, p));
      |k| <= |s| && NoOuterWhiteSpace(k) && forall n :: 0 <= n < |k| ==> !p(k[n]) && k[n] in s
  {
    var w := Without(s, p);
    WithoutChars(s, p);
    WithoutRejects(s, p);
    assert forall n :: 0 <= n < |w| ==> !p(w[n]) && w[n] in s;
    TrimShape(w);
    TrimIsSlice(w);
    var i, j :| 0 <= i <= j <= |w| && Trim(w) == w[i..j];
    SliceOfFiltered(w, i, j, s, p);
  }

  /** The stored row key never holds a double quote nor begins or ends with
      white space; the property text wins over the offered key; and in the
      fallback case the key keeps within 1024 allowed characters. */
  lemma RowKeyShape(log: LogEvent, rowKey: string, notAllowed: char -> bool)
    ensures var k := RowKeyOf(log, rowKey, notAllowed);
      '"' !in k && NoOuterWhiteSpace(k)
      && (SourceContextProperty in log.properties ==>
            k == Trim(Without(log.properties[SourceContextProperty], IsQuote)))
      && (SourceContextProperty !in log.properties ==>
            |k| <= MaxKeyLength && forall i :: 0 <= i < |k| ==> !notAllowed(k[i]))
  {
    var source := RowKeySource(log, rowKey, notAllowed);
    var k := RowKeyOf(log, rowKey, notAllowed);
    RemoveQuotesIsFilter(source);
    assert k == Trim(Without(source, IsQuote));
    TrimWithoutChars(source, IsQuote);
    NoneMatch(k, IsQuote);
    if SourceContextProperty !in log.properties {
      ValidRowKeyIsFilteredPrefix(rowKey, notAllowed);
      CharsDrawnFrom(k, source, notAllowed);
    }
  }

  /** Characters none of which satisfies p do not include one that does. */
  lemma NoneMatch(k: string, p: char -> bool)
    requires forall n :: 0 <= n < |k| ==> !p(k[n])
    ensures forall c :: c in k ==> !p(c)
  {
  }

  /** Characters drawn from a text none of whose characters satisfies q. */
  lemma CharsDrawnFrom(k: string, source: string, q: char -> bool)
    requires forall n :: 0 <= n < |k| ==> k[n] in source
    requires forall m :: 0 <= m < |source| ==> !q(source[m])
    ensures forall n :: 0 <= n < |k| ==> !q(k[n])
  {
    forall n | 0 <= n < |k|
      ensures !q(k[n])
    {
      var m :| 0 <= m < |source| && source[m] == k[n];
    }
  }

  /** A string property renders with its quotes; they are not kept. */
  lemma SourceContextUnquoted(log: LogEvent, rowKey: string, notAllowed: char -> bool, name: string)
    requires SourceContextProperty in log.properties
    requires log.properties[SourceContextProperty] == "\"" + name + "\""
    requires '"' !in name && NoOuterWhiteSpace(name)
    ensures RowKeyOf(log, rowKey, notAllowed) == name
  {
    var q := "\"";
    var source := log.properties[SourceContextProperty];
    assert source == q + (name + q);
    assert Without(q, IsQuote) == [];
    WithoutKeeps(name, IsQuote);
    WithoutAppend(name, q, IsQuote);
    WithoutAppend(q, name + q, IsQuote);
    RemoveQuotesIsFilter(source);
    assert Replace(source, q, "") == name;
    TrimShape(name);
  }

  lemma {:induction false} WithoutAppend(a: string, b: string, p: char -> bool)
    ensures Without(a + b, p) == Without(a, p) + Without(b, p)
  {
    if a == [] {
      assert a + b == b;
    } else {
      assert (a + b)[1..] == a[1..] + b;
      WithoutAppend(a[1..], b, p);
    }
  }

  // ---------------------------------------------------------------------------
  // The entity
  // ---------------------------------------------------------------------------

  /** log.Exception?.ToString(). */
  function ExceptionText(exception: Option<Exception>, exceptionText: Exception -> string): (r: Option<string>)
    ensures r.None? <==> exception.None?
    ensures exception.Some? ==> r == Some(exceptionText(exception.value))
  {
    match exception
    case None => None
    case Some(e) => Some(exceptionText(e))
  }

  /** The fields a row built from log with the offered keys holds. */
  predicate Describes(e: LogEventEntity, log: LogEvent, partitionKey: string, rowKey: string, renderers: Renderers)
  {
    && e.partitionKey == partitionKey
    && e.rowKey == RowKeyOf(log, rowKey, renderers.notAllowed)
    && e.level == LevelName(log.level)
    && e.exception == ExceptionText(log.exception, renderers.exceptionText)
    && e.message == renderers.renderMessage(log)
    && e.data == renderers.formatJson(log)
  }

  /** e was made by new LogEventEntity(log, renderers, partitionKey, rowKey). */
  ghost predicate BuiltFrom(e: LogEventEntity, log: LogEvent, partitionKey: string, rowKey: string, renderers: Renderers)
  {
    e.log == log && e.partitionKey == partitionKey && e.offeredRowKey == rowKey && e.renderers == renderers
  }

  /** Every property of an entity is the one its constructor arguments decide. */
  lemma BuiltFromDescribes(e: LogEventEntity, log: LogEvent, partitionKey: string, rowKey: string, renderers: Renderers)
    requires BuiltFrom(e, log, partitionKey, rowKey, renderers)
    ensures Describes(e, log, partitionKey, rowKey, renderers)
  {
  }

  /** The table row. The constructor arguments are kept, and each stored
      property is the value the constructor computes from them. */
  class LogEventEntity {
    const log: LogEvent
    const renderers: Renderers
    const offeredRowKey: string

    const partitionKey: string
    const rowKey: string := RowKeyOf(log, offeredRowKey, renderers.notAllowed)
    const level: string := LevelName(log.level)
    const exception: Option<string> := ExceptionText(log.exception, renderers.exceptionText)
    const message: string := renderers.renderMessage(log)
    const data: string := renderers.formatJson(log)

    /** new LogEventEntity(log, formatProvider, partitionKey, rowKey). */
    constructor (log: LogEvent, partitionKey: string, rowKey: string, renderers: Renderers)
      ensures BuiltFrom(this, log, partitionKey, rowKey, renderers)
    {
      this.log := log;
      this.renderers := renderers;
      this.offeredRowKey := rowKey;
      this.partitionKey := partitionKey;
    }
  }
}
