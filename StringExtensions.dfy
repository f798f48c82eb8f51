/** The string extension methods: guards, ignore-case comparisons, clamped
    substrings, white-space collapsing, UTF-8 truncation and the early
    returns of the crypto and URL helpers. A parameter `Option<string>` is a
    C# string that may be null. */
module StringExtensions {
  import opened Common

  // ---------------------------------------------------------------------------
  // Guards and ignore-case comparisons
  // ---------------------------------------------------------------------------

  /** value.ThrowIfNullOrWhiteSpace(): the value itself, or ArgumentNullException. */
  function ThrowIfNullOrWhiteSpace(value: Option<string>): (r: Result<string>)
    ensures r.Failure? <==> IsNullOrWhiteSpace(value)
    ensures r.Failure? ==> r.error == ArgumentNull("value")
    ensures r.Success? ==> value == Some(r.value)
  {
    if IsNullOrWhiteSpace(value) then Failure(ArgumentNull("value")) else Success(value.value)
  }

  /** value.IsEquivalentTo(comparer): equal ignoring case; false for a null comparer. */
  predicate IsEquivalentTo(value: string, comparer: Option<string>)
    ensures IsEquivalentTo(value, comparer) ==> comparer.Some? && |comparer.value| == |value|
    ensures comparer == Some(value) ==> IsEquivalentTo(value, comparer)
  {
    comparer.Some? && Fold(value) == Fold(comparer.value)
  }

  /** value.ContainsEquivalent(comparer): throws for a blank value, is false
      for a blank comparer, otherwise an ordinal substring test on the lower-cased texts. */
  function ContainsEquivalent(value: Option<string>, comparer: Option<string>): (r: Result<bool>)
    ensures r.Failure? <==> IsNullOrWhiteSpace(value)
    ensures r.Failure? ==> r.error == ArgumentNull("value")
    ensures r.Success? && IsNullOrWhiteSpace(comparer) ==> !r.value
  {
    match ThrowIfNullOrWhiteSpace(value)
    case Failure(e) => Failure(e)
    case Success(v) =>
      Success(!IsNullOrWhiteSpace(comparer) && ContainsSubstring(Fold(v), Fold(comparer.value)))
  }

  /** items.ContainsEquivalent(item): some element is equivalent to the item. */
  function ListContainsEquivalent(items: seq<string>, item: Option<string>): (b: bool)
    ensures b <==> exists i :: 0 <= i < |items| && IsEquivalentTo(items[i], item)
    ensures item.None? || items == [] ==> !b
  {
    if items == [] then false
    else IsEquivalentTo(items[0], item) || ListContainsEquivalent(items[1..], item)
  }

  /** value.StartsWithEquivalent(comparer). */
  function StartsWithEquivalent(value: Option<string>, comparer: Option<string>): (r: Result<bool>)
    ensures r.Failure? <==> IsNullOrWhiteSpace(value)
    ensures r.Failure? ==> r.error == ArgumentNull("value")
    ensures r.Success? && IsNullOrWhiteSpace(comparer) ==> !r.value
  {
    match ThrowIfNullOrWhiteSpace(value)
    case Failure(e) => Failure(e)
    case Success(v) => Success(!IsNullOrWhiteSpace(comparer) && Fold(comparer.value) <= Fold(v))
  }

  /** value.EndsWithEquivalent(comparer). */
  function EndsWithEquivalent(value: Option<string>, comparer: Option<string>): (r: Result<bool>)
    ensures r.Failure? <==> IsNullOrWhiteSpace(value)
    ensures r.Failure? ==> r.error == ArgumentNull("value")
    ensures r.Success? && IsNullOrWhiteSpace(comparer) ==> !r.value
  {
    match ThrowIfNullOrWhiteSpace(value)
    case Failure(e) => Failure(e)
    case Success(v) =>
      Success(!IsNullOrWhiteSpace(comparer)
        && |comparer.value| <= |v| && Fold(v)[|v| - |comparer.value|..] == Fold(comparer.value))
  }

  lemma FoldWhiteSpace(s: string)
    ensures IsNullOrWhiteSpace(Some(Fold(s))) <==> IsNullOrWhiteSpace(Some(s))
  {
    var f := Fold(s);
    assert forall i :: 0 <= i < |s| ==> (IsWhiteSpace(f[i]) <==> IsWhiteSpace(s[i]));
  }

  /** The comparisons do not see case: folding both arguments first changes nothing. */
  lemma ContainsIgnoresCase(value: string, comparer: string)
    ensures ContainsEquivalent(Some(Fold(value)), Some(Fold(comparer))) == ContainsEquivalent(Some(value), Some(comparer))
  {
    FoldWhiteSpace(value);
    FoldWhiteSpace(comparer);
    FoldIdempotent(value);
    FoldIdempotent(comparer);
  }

  lemma StartsWithIgnoresCase(value: string, comparer: string)
    ensures StartsWithEquivalent(Some(Fold(value)), Some(Fold(comparer))) == StartsWithEquivalent(Some(value), Some(comparer))
  {
    FoldWhiteSpace(value);
    FoldWhiteSpace(comparer);
    FoldIdempotent(value);
    FoldIdempotent(comparer);
  }

  lemma EndsWithIgnoresCase(value: string, comparer: string)
    ensures EndsWithEquivalent(Some(Fold(value)), Some(Fold(comparer))) == EndsWithEquivalent(Some(value), Some(comparer))
  {
    FoldWhiteSpace(value);
    FoldWhiteSpace(comparer);
    FoldIdempotent(value);
    FoldIdempotent(comparer);
  }

  /** A suffix or a prefix match is a containment match. */
  lemma {:induction false} AffixImpliesContains(value: Option<string>, comparer: Option<string>)
    ensures StartsWithEquivalent(value, comparer) == Success(true) ==> ContainsEquivalent(value, comparer) == Success(true)
    ensures EndsWithEquivalent(value, comparer) == Success(true) ==> ContainsEquivalent(value, comparer) == Success(true)
  {
    if !IsNullOrWhiteSpace(value) && !IsNullOrWhiteSpace(comparer) {
      var v, c := Fold(value.value), Fold(comparer.value);
      if c <= v {
        assert OccursAt(v, c, 0);
      }
      if |c| <= |v| && v[|v| - |c|..] == c {
        assert OccursAt(v, c, |v| - |c|);
      }
    }
  }

  /** A non-blank value contains, starts with and ends with itself, in any casing. */
  lemma {:induction false} ComparisonsReflexive(value: string)
    requires !IsNullOrWhiteSpace(Some(value))
    ensures ContainsEquivalent(Some(value), Some(value)) == Success(true)
    ensures StartsWithEquivalent(Some(value), Some(value)) == Success(true)
    ensures EndsWithEquivalent(Some(value), Some(value)) == Success(true)
  {
    var f := Fold(value);
    assert f[|f| - |value|..] == f;
    assert OccursAt(f, f, 0);
  }

  /** IsEquivalentTo is an equivalence on non-null strings. */
  lemma EquivalenceRelation(a: string, b: string, c: string)
    ensures IsEquivalentTo(a, Some(a))
    ensures IsEquivalentTo(a, Some(b)) ==> IsEquivalentTo(b, Some(a))
    ensures IsEquivalentTo(a, Some(b)) && IsEquivalentTo(b, Some(c)) ==> IsEquivalentTo(a, Some(c))
  {
  }

  // ---------------------------------------------------------------------------
  // SafeSubstring
  // ---------------------------------------------------------------------------

  /** string.Substring(startIndex, length) and its argument checks. */
  function Substring(s: string, startIndex: int, length: int): (r: Result<string>)
    ensures r.Success? <==> 0 <= startIndex && 0 <= length && startIndex + length <= |s|
    ensures r.Success? ==> r.value == s[startIndex..startIndex + length]
  {
    if startIndex < 0 || startIndex > |s| then Failure(ArgumentOutOfRange("startIndex"))
    else if length < 0 || startIndex > |s| - length then Failure(ArgumentOutOfRange("length"))
    else Success(s[startIndex..startIndex + length])
  }

  /** string.Substring(startIndex). */
  function SubstringFrom(s: string, startIndex: int): (r: Result<string>)
    ensures r.Success? <==> 0 <= startIndex <= |s|
    ensures r.Success? ==> r.value == s[startIndex..]
  {
    if startIndex < 0 || startIndex > |s| then Failure(ArgumentOutOfRange("startIndex"))
    else Success(s[startIndex..])
  }

  /** SafeSubstring exactly as written: the comparison uses the 32-bit sum
      startIndex + length, which wraps around to a negative number for large
      arguments. Where the sum fits in 32 bits it agrees with the corrected
      definition; where a positive sum wraps, it throws for every .NET-sized
      string that is not blank. */
  function SafeSubstringAsWritten(self: Option<string>, startIndex: int32, length: int32): (r: Result<string>)
    ensures -0x8000_0000 <= startIndex as int + length as int < 0x8000_0000 ==>
      r == SafeSubstring(self, startIndex, length)
    ensures (!IsNullOrWhiteSpace(self) && |self.value| < 0x8000_0000
             && startIndex as int + length as int >= 0x8000_0000) ==> r.Failure?
  {
    if IsNullOrWhiteSpace(self) then Success("")
    else if |self.value| >= Wrap32(startIndex as int + length as int) as int then
      Substring(self.value, startIndex as int, length as int)
    else if |self.value| >= startIndex as int then SubstringFrom(self.value, startIndex as int)
    else Success("")
  }

  /** SafeSubstring with the sum taken without overflow. A negative startIndex
      throws on either path, as does a negative length when the window ends
      inside the string. */
  function SafeSubstring(self: Option<string>, startIndex: int32, length: int32): (r: Result<string>)
    ensures IsNullOrWhiteSpace(self) ==> r == Success("")
    ensures r.Failure? <==>
      !IsNullOrWhiteSpace(self)
      && (startIndex < 0 || (length < 0 && startIndex as int + length as int <= |self.value|))
    ensures r.Failure? ==> r.error.ArgumentOutOfRange?
  {
    if IsNullOrWhiteSpace(self) then Success("")
    else if |self.value| >= startIndex as int + length as int then
      Substring(self.value, startIndex as int, length as int)
    else if |self.value| >= startIndex as int then SubstringFrom(self.value, startIndex as int)
    else Success("")
  }

  function Min(a: int, b: int): int
  {
    if a <= b then a else b
  }

  /** For non-negative arguments SafeSubstring is the window
      [startIndex, startIndex + length) clamped to the string: the exact slice
      when it fits, the suffix from startIndex when it runs past the end, and
      "" when startIndex is beyond the end. */
  lemma SafeSubstringClamps(self: string, startIndex: int32, length: int32)
    requires !IsNullOrWhiteSpace(Some(self)) && 0 <= startIndex && 0 <= length
    ensures SafeSubstring(Some(self), startIndex, length)
      == Success(self[Min(startIndex as int, |self|)..Min(startIndex as int + length as int, |self|)])
    ensures startIndex as int + length as int <= |self| ==>
      SafeSubstring(Some(self), startIndex, length) == Success(self[startIndex..startIndex as int + length as int])
    ensures startIndex as int <= |self| < startIndex as int + length as int ==>
      SafeSubstring(Some(self), startIndex, length) == Success(self[startIndex..])
    ensures |self| < startIndex as int ==> SafeSubstring(Some(self), startIndex, length) == Success("")
  {
    var st, en := startIndex as int, startIndex as int + length as int;
    if |self| < st {
      assert Min(st, |self|) == |self| && Min(en, |self|) == |self|;
      assert self[|self|..|self|] == "";
      assert SafeSubstring(Some(self), startIndex, length) == Success("");
    } else if |self| < en {
      assert Min(st, |self|) == st && Min(en, |self|) == |self|;
      assert self[st..|self|] == self[st..];
    }
  }

  /** The result is a piece of the input no longer than the requested length. */
  lemma {:induction false} SafeSubstringIsPiece(self: string, startIndex: int32, length: int32)
    requires 0 <= startIndex && 0 <= length
    ensures SafeSubstring(Some(self), startIndex, length).Success?
    ensures |SafeSubstring(Some(self), startIndex, length).value| <= length as int
    ensures ContainsSubstring(self, SafeSubstring(Some(self), startIndex, length).value)
  {
    var r := SafeSubstring(Some(self), startIndex, length).value;
    if IsNullOrWhiteSpace(Some(self)) {
      assert OccursAt(self, r, 0);
    } else {
      SafeSubstringClamps(self, startIndex, length);
      var i := Min(startIndex as int, |self|);
      assert OccursAt(self, r, i);
    }
  }

  /** The overflow: "abc".SafeSubstring(1, int.MaxValue) should be the suffix
      "bc", but the wrapped sum is negative, so Substring(1, int.MaxValue) is
      called and throws. */
  lemma SafeSubstringOverflow()
    ensures SafeSubstringAsWritten(Some("abc"), 1, 0x7FFF_FFFF) == Failure(ArgumentOutOfRange("length"))
    ensures SafeSubstring(Some("abc"), 1, 0x7FFF_FFFF) == Success("bc")
  {
    assert Wrap32(1 + 0x7FFF_FFFF) as int == -0x8000_0000;
    assert !IsNullOrWhiteSpace(Some("abc")) by {
      assert !IsWhiteSpace("abc"[0]);
    }
  }

  // ---------------------------------------------------------------------------
  // TrimWhiteSpace: Regex.Replace(self, @"\s{2,}", " ").Trim()
  // ---------------------------------------------------------------------------

  /** Length of the run of white space at the start of s. */
  function WhiteSpaceRun(s: string): (n: nat)
    ensures n <= |s|
    ensures forall i :: 0 <= i < n ==> IsWhiteSpace(s[i])
    ensures n < |s| ==> !IsWhiteSpace(s[n])
  {
    if s != [] && IsWhiteSpace(s[0]) then 1 + WhiteSpaceRun(s[1..]) else 0
  }

  /** Every maximal run of two or more white-space characters becomes one
      space; a lone white-space character stays as it is. */
  function Collapse(s: string): (r: string)
    ensures |r| <= |s|
    ensures s != [] ==> r != [] && (IsWhiteSpace(r[0]) <==> IsWhiteSpace(s[0]))
    decreases |s|
  {
    if s == [] then []
    else if IsWhiteSpace(s[0]) then
      var n := WhiteSpaceRun(s);
      (if n >= 2 then " " else [s[0]]) + Collapse(s[n..])
    else [s[0]] + Collapse(s[1..])
  }

  function TrimStart(s: string): (r: string)
    ensures |r| <= |s| && r == s[|s| - |r|..]
    ensures r == [] || !IsWhiteSpace(r[0])
  {
    if s != [] && IsWhiteSpace(s[0]) then TrimStart(s[1..]) else s
  }

  function TrimEnd(s: string): (r: string)
    ensures |r| <= |s| && r == s[..|r|]
    ensures r == [] || !IsWhiteSpace(r[|r| - 1])
  {
    if s != [] && IsWhiteSpace(s[|s| - 1]) then TrimEnd(s[..|s| - 1]) else s
  }

  /** string.Trim(). */
  function Trim(s: string): (r: string)
    ensures |r| <= |s|
    ensures NoOuterWhiteSpace(r)
    ensures NoOuterWhiteSpace(s) ==> r == s
  {
    TrimEnd(TrimStart(s))
  }

  /** self.TrimWhiteSpace(): the result starts and ends with a
      non-white-space character (or is empty) and never holds two
      white-space characters side by side. */
  function TrimWhiteSpace(self: string): (r: string)
    ensures NoOuterWhiteSpace(r)
    ensures NoAdjacentWhiteSpace(r)
  {
    CollapseNoAdjacent(self);
    TrimShape(Collapse(self));
    Trim(Collapse(self))
  }

  predicate NoOuterWhiteSpace(s: string)
  {
    s == [] || (!IsWhiteSpace(s[0]) && !IsWhiteSpace(s[|s| - 1]))
  }

  predicate NoAdjacentWhiteSpace(s: string)
  {
    forall i :: 0 <= i < |s| - 1 ==> !(IsWhiteSpace(s[i]) && IsWhiteSpace(s[i + 1]))
  }

  /** The characters of s that are not white space, in order. */
  function NonWhiteSpace(s: string): string
  {
    if s == [] then []
    else (if IsWhiteSpace(s[0]) then [] else [s[0]]) + NonWhiteSpace(s[1..])
  }

  lemma {:induction false} CollapseNoAdjacent(s: string)
    ensures NoAdjacentWhiteSpace(Collapse(s))
    decreases |s|
  {
    if s != [] {
      var r := Collapse(s);
      if IsWhiteSpace(s[0]) {
        var n := WhiteSpaceRun(s);
        var tail := s[n..];
        CollapseNoAdjacent(tail);
        var c := Collapse(tail);
        assert r == r[..1] + c;
        assert tail != [] ==> !IsWhiteSpace(tail[0]);
        assert forall i :: 1 <= i < |r| ==> r[i] == c[i - 1];
      } else {
        CollapseNoAdjacent(s[1..]);
        var c := Collapse(s[1..]);
        assert forall i :: 1 <= i < |r| ==> r[i] == c[i - 1];
      }
    }
  }

  lemma {:induction false} CollapseKeepsCollapsed(s: string)
    requires NoAdjacentWhiteSpace(s)
    ensures Collapse(s) == s
    decreases |s|
  {
    if s != [] {
      SliceNoAdjacent(s, 1, |s|);
      CollapseKeepsCollapsed(s[1..]);
      if IsWhiteSpace(s[0]) {
        assert WhiteSpaceRun(s) == 1 by {
          assert s[1..] != [] ==> !IsWhiteSpace(s[1..][0]);
        }
      }
    }
  }

  lemma SliceNoAdjacent(s: string, i: nat, j: nat)
    requires i <= j <= |s| && NoAdjacentWhiteSpace(s)
    ensures NoAdjacentWhiteSpace(s[i..j])
  {
    forall k | 0 <= k < j - i - 1
      ensures !(IsWhiteSpace(s[i..j][k]) && IsWhiteSpace(s[i..j][k + 1]))
    {
      assert s[i..j][k] == s[i + k] && s[i..j][k + 1] == s[i + k + 1];
    }
  }

  /** Trimming the ends keeps text free of adjacent white space. */
  lemma TrimShape(s: string)
    ensures NoAdjacentWhiteSpace(s) ==> NoAdjacentWhiteSpace(Trim(s))
  {
    var t := TrimStart(s);
    var r := TrimEnd(t);
    if NoAdjacentWhiteSpace(s) {
      SliceNoAdjacent(s, |s| - |t|, |s|);
      assert t == s[|s| - |t|..|s|];
      SliceNoAdjacent(t, 0, |r|);
    }
  }

  /** TrimWhiteSpace is idempotent. */
  lemma TrimWhiteSpaceIdempotent(self: string)
    ensures TrimWhiteSpace(TrimWhiteSpace(self)) == TrimWhiteSpace(self)
  {
    var r := TrimWhiteSpace(self);
    CollapseKeepsCollapsed(r);
    TrimShape(r);
  }

  lemma {:induction false} NonWhiteSpaceAppend(a: string, b: string)
    ensures NonWhiteSpace(a + b) == NonWhiteSpace(a) + NonWhiteSpace(b)
  {
    if a == [] {
      assert a + b == b;
    } else {
      assert (a + b)[1..] == a[1..] + b;
      NonWhiteSpaceAppend(a[1..], b);
    }
  }

  lemma {:induction false} NonWhiteSpaceOfBlank(s: string)
    requires forall i :: 0 <= i < |s| ==> IsWhiteSpace(s[i])
    ensures NonWhiteSpace(s) == []
  {
    if s != [] {
      NonWhiteSpaceOfBlank(s[1..]);
    }
  }

  lemma {:induction false} CollapseKeepsText(s: string)
    ensures NonWhiteSpace(Collapse(s)) == NonWhiteSpace(s)
    decreases |s|
  {
    if s != [] {
      if IsWhiteSpace(s[0]) {
        var n := WhiteSpaceRun(s);
        CollapseKeepsText(s[n..]);
        assert s == s[..n] + s[n..];
        NonWhiteSpaceAppend(s[..n], s[n..]);
        NonWhiteSpaceOfBlank(s[..n]);
        var head: string := if n >= 2 then " " else [s[0]];
        NonWhiteSpaceOfBlank(head);
        NonWhiteSpaceAppend(head, Collapse(s[n..]));
      } else {
        CollapseKeepsText(s[1..]);
      }
    }
  }

  lemma {:induction false} TrimStartKeepsText(s: string)
    ensures NonWhiteSpace(TrimStart(s)) == NonWhiteSpace(s)
  {
    if s != [] && IsWhiteSpace(s[0]) {
      TrimStartKeepsText(s[1..]);
    }
  }

  lemma {:induction false} TrimEndKeepsText(s: string)
    ensures NonWhiteSpace(TrimEnd(s)) == NonWhiteSpace(s)
  {
    if s != [] && IsWhiteSpace(s[|s| - 1]) {
      var p := s[..|s| - 1];
      TrimEndKeepsText(p);
      assert s == p + [s[|s| - 1]];
      NonWhiteSpaceAppend(p, [s[|s| - 1]]);
    }
  }

  /** Only white space is removed or replaced: the other characters survive, in order. */
  lemma TrimWhiteSpaceKeepsText(self: string)
    ensures NonWhiteSpace(TrimWhiteSpace(self)) == NonWhiteSpace(self)
  {
    CollapseKeepsText(self);
    TrimStartKeepsText(Collapse(self));
    TrimEndKeepsText(TrimStart(Collapse(self)));
  }

  // ---------------------------------------------------------------------------
  // Truncate to a UTF-8 byte budget
  // ---------------------------------------------------------------------------

  /** The most leading characters of s whose UTF-8 encoding fits in max bytes. */
  function CharsWithin(s: string, max: int): (k: nat)
    requires max >= 0
    ensures k <= |s|
    ensures |Utf8(s[..k])| <= max
    ensures k < |s| ==> |Utf8(s[..k + 1])| > max
  {
    if s == [] || |CharUtf8(s[0])| > max then
      assert s != [] ==> Utf8(s[..1]) == CharUtf8(s[0]) + Utf8([]) by {
        if s != [] {
          assert s[..1][1..] == [];
        }
      }
      0
    else
      var k := 1 + CharsWithin(s[1..], max - |CharUtf8(s[0])|);
      assert s[..k][1..] == s[1..][..k - 1];
      assert k < |s| ==> s[..k + 1][1..] == s[1..][..k];
      k
  }

  /** self.Truncate(maxBytesLength) as written: the string itself when its encoding
      fits; otherwise Encoding.UTF8.GetString of the first maxBytesLength
      bytes, which decodes the whole characters in that range and turns the
      bytes of a character cut in two into one U+FFFD. A negative budget
      below the byte count throws. */
  function TruncateAsWritten(self: string, maxBytesLength: int32): (r: Result<string>)
    ensures |Utf8(self)| <= maxBytesLength as int ==> r == Success(self)
    ensures r.Failure? <==> maxBytesLength < 0
    ensures r.Failure? ==> r.error == ArgumentOutOfRange("count")
  {
    if |Utf8(self)| <= maxBytesLength as int then Success(self)
    else if maxBytesLength < 0 then Failure(ArgumentOutOfRange("count"))
    else
      var k := CharsWithin(self, maxBytesLength as int);
      Success(self[..k] + if |Utf8(self[..k])| < maxBytesLength as int then [ReplacementChar] else [])
  }

  /** When the string does not fit, the result is the characters wholly
      inside the first maxBytesLength bytes, followed by one U+FFFD exactly
      when the budget ends inside a character. */
  lemma {:induction false} TruncateAsWrittenDecodesPrefix(self: string, maxBytesLength: int32)
    requires 0 <= maxBytesLength as int < |Utf8(self)|
    ensures var r := TruncateAsWritten(self, maxBytesLength).value;
      exists k :: 0 <= k < |self| && k <= |r|
        && r[..k] == self[..k]
        && |Utf8(self[..k])| <= maxBytesLength as int < |Utf8(self[..k + 1])|
        && r[k..] == (if |Utf8(self[..k])| < maxBytesLength as int then [ReplacementChar] else [])
  {
    var k := CharsWithin(self, maxBytesLength as int);
    assert self[..|self|] == self;
    var r := TruncateAsWritten(self, maxBytesLength).value;
    assert r[..k] == self[..k];
  }

  /** The decoded cut can be longer in bytes than the budget:
      "é" is two bytes, and "é".Truncate(1) as written is "�", three bytes. */
  lemma TruncateAsWrittenExceedsBudget()
    ensures TruncateAsWritten("\U{E9}", 1) == Success([ReplacementChar])
    ensures |Utf8([ReplacementChar])| == 3 > 1
  {
    var s := "\U{E9}";
    assert |CharUtf8(s[0])| == 2;
    assert Utf8(s) == CharUtf8(s[0]) + Utf8([]) by {
      assert s[1..] == [];
    }
    assert CharsWithin(s, 1) == 0;
    assert s[..0] == [];
    assert |Utf8(s[..0])| == 0;
    assert TruncateAsWritten(s, 1) == Success(s[..0] + [ReplacementChar]);
    assert s[..0] + [ReplacementChar] == [ReplacementChar];
    assert Utf8([ReplacementChar]) == CharUtf8(ReplacementChar) + Utf8([]) by {
      assert [ReplacementChar][1..] == [];
    }
  }

  /** self.Truncate(maxBytesLength) as intended: cut at the last character
      boundary within the budget. */
  function Truncate(self: string, maxBytesLength: int32): (r: Result<string>)
    ensures r.Failure? <==> maxBytesLength < 0 && |Utf8(self)| > maxBytesLength as int
    ensures |Utf8(self)| <= maxBytesLength as int ==> r == Success(self)
    ensures r.Success? ==> |Utf8(r.value)| <= maxBytesLength as int && r.value <= self
    ensures r.Success? && |r.value| < |self| ==> |Utf8(self[..|r.value| + 1])| > maxBytesLength as int
  {
    if |Utf8(self)| <= maxBytesLength as int then
      assert self[..|self|] == self;
      Success(self)
    else if maxBytesLength < 0 then Failure(ArgumentOutOfRange("count"))
    else Success(self[..CharsWithin(self, maxBytesLength as int)])
  }

  /** Both truncations keep the same whole characters; they differ only in
      the U+FFFD the decoder adds for a cut character. */
  lemma TruncationsAgreeOnWholeChars(self: string, maxBytesLength: int32)
    requires maxBytesLength >= 0
    ensures var a, b := TruncateAsWritten(self, maxBytesLength).value, Truncate(self, maxBytesLength).value;
      b <= a && |a| <= |b| + 1
  {
  }

  // ---------------------------------------------------------------------------
  // Early returns of the crypto and URL helpers; the codecs are parameters
  // ---------------------------------------------------------------------------

  /** string.Replace(oldValue, newValue): ordinal, left to right, without overlaps. */
  function Replace(s: string, oldValue: string, newValue: string): (r: string)
    requires |oldValue| >= 1
    ensures |newValue| <= |oldValue| ==> |r| <= |s|
    decreases |s|
  {
    if |s| < |oldValue| then s
    else if s[..|oldValue|] == oldValue then newValue + Replace(s[|oldValue|..], oldValue, newValue)
    else [s[0]] + Replace(s[1..], oldValue, newValue)
  }

  /** Replacing a character by text without it leaves no such character. */
  lemma {:induction false} ReplaceRemovesChar(s: string, c: char, newValue: string)
    requires c !in newValue
    ensures c !in Replace(s, [c], newValue)
    decreases |s|
  {
    if |s| >= 1 {
      ReplaceRemovesChar(s[1..], c, newValue);
    }
  }

  /** Text without an occurrence of oldValue is left as it is. */
  lemma {:induction false} ReplaceAbsent(s: string, oldValue: string, newValue: string)
    requires |oldValue| >= 1 && !ContainsSubstring(s, oldValue)
    ensures Replace(s, oldValue, newValue) == s
    decreases |s|
  {
    if |s| >= |oldValue| {
      assert !OccursAt(s, oldValue, 0);
      assert s[..|oldValue|] != oldValue;
      assert !ContainsSubstring(s[1..], oldValue) by {
        forall i | 0 <= i <= |s[1..]| - |oldValue|
          ensures !OccursAt(s[1..], oldValue, i)
        {
          var k := |oldValue|;
          var inTail, inWhole := s[1..][i..i + k], s[i + 1..i + 1 + k];
          forall j | 0 <= j < k
            ensures inTail[j] == inWhole[j]
          {
          }
          assert inTail == inWhole;
          assert !OccursAt(s, oldValue, i + 1);
        }
      }
      ReplaceAbsent(s[1..], oldValue, newValue);
    }
  }

  /** value.UrlEncode(): a blank value is returned; otherwise WebUtility's
      encoding, with every "+" turned into "%20". */
  function UrlEncode(value: Option<string>, webUrlEncode: string -> string): (r: Option<string>)
    ensures IsNullOrWhiteSpace(value) ==> r == value
    ensures !IsNullOrWhiteSpace(value) ==> r.Some? && '+' !in r.value
    ensures !IsNullOrWhiteSpace(value) && '+' !in webUrlEncode(value.value) ==> r == Some(webUrlEncode(value.value))
  {
    if IsNullOrWhiteSpace(value) then value
    else
      var encoded := webUrlEncode(value.value);
      ReplaceRemovesChar(encoded, '+', "%20");
      if '+' !in encoded then
        CharAbsentNoSubstring(encoded, '+');
        ReplaceAbsent(encoded, "+", "%20");
        Some(Replace(encoded, "+", "%20"))
      else Some(Replace(encoded, "+", "%20"))
  }

  /** A character that does not occur is not a one-character substring. */
  lemma CharAbsentNoSubstring(s: string, c: char)
    requires c !in s
    ensures !ContainsSubstring(s, [c])
  {
    forall i | 0 <= i <= |s| - 1
      ensures !OccursAt(s, [c], i)
    {
      assert s[i] != c;
      assert s[i..i + 1][0] == s[i];
    }
  }

  /** value.UrlDecode(): a blank value is returned; otherwise every "%20" becomes "+" before WebUtility decodes it. */
  function UrlDecode(value: Option<string>, webUrlDecode: string -> string): (r: Option<string>)
    ensures IsNullOrWhiteSpace(value) ==> r == value
    ensures !IsNullOrWhiteSpace(value) && !ContainsSubstring(value.value, "%20") ==>
      r == Some(webUrlDecode(value.value))
  {
    if IsNullOrWhiteSpace(value) then value
    else
      if !ContainsSubstring(value.value, "%20") then ReplaceAbsent(value.value, "%20", "+"); Some(webUrlDecode(Replace(value.value, "%20", "+")))
      else Some(webUrlDecode(Replace(value.value, "%20", "+")))
  }

  /** self.Encrypt(): a blank value is returned; otherwise the RC2/Base64 encryption of it. */
  function Encrypt(self: Option<string>, rc2Encrypt: string -> string): (r: Option<string>)
    ensures IsNullOrWhiteSpace(self) ==> r == self
    ensures !IsNullOrWhiteSpace(self) ==> r == Some(rc2Encrypt(self.value))
  {
    if IsNullOrWhiteSpace(self) then self else Some(rc2Encrypt(self.value))
  }

  predicate Base64Char(c: char)
  {
    ('A' <= c <= 'Z') || ('a' <= c <= 'z') || ('0' <= c <= '9') || c == '+' || c == '/'
  }

  /** Four Base64 characters. */
  predicate Quad(q: string)
  {
    |q| == 4 && Base64Char(q[0]) && Base64Char(q[1]) && Base64Char(q[2]) && Base64Char(q[3])
  }

  /** A final group with padding whose unused bits are zero (section 4 of RFC 4648). */
  predicate PaddedQuad(q: string)
  {
    |q| == 4 &&
    ((Base64Char(q[0]) && Base64Char(q[1]) && q[2] in "AEIMQUYcgkosw048" && q[3] == '=')
     || (Base64Char(q[0]) && q[1] in "AQgw" && q[2] == '=' && q[3] == '='))
  }

  /** The language of (?:[A-Za-z0-9+/]{4})*(?:padded group)?: whole groups,
      the last one optionally padded. */
  predicate Base64Shape(s: string)
    decreases |s|
  {
    s == [] || (|s| == 4 && PaddedQuad(s)) || (|s| >= 4 && Quad(s[..4]) && Base64Shape(s[4..]))
  }

  /** The validation regex's IsMatch. Its final `$` also matches in front of
      a final line feed, so a shape followed by "\n" matches too. */
  predicate ValidEncryptionMatch(s: string)
  {
    Base64Shape(s) || (|s| >= 1 && s[|s| - 1] == '\n' && Base64Shape(s[..|s| - 1]))
  }

  lemma {:induction false} Base64ShapeLength(s: string)
    requires Base64Shape(s)
    ensures |s| % 4 == 0
    decreases |s|
  {
    if !(s == [] || (|s| == 4 && PaddedQuad(s))) {
      Base64ShapeLength(s[4..]);
    }
  }

  /** Combined with the length check, the trailing-line-feed match of `$`
      makes no difference. */
  lemma ValidEncryptionMatchExact(s: string)
    requires |s| % 4 == 0
    ensures ValidEncryptionMatch(s) <==> Base64Shape(s)
  {
    if |s| >= 1 && s[|s| - 1] == '\n' && Base64Shape(s[..|s| - 1]) {
      Base64ShapeLength(s[..|s| - 1]);
    }
  }

  /** self.Decrypt(): the input is returned unless it is non-blank, a multiple
      of four long and Base64-shaped; only then is it decrypted. */
  function Decrypt(self: Option<string>, rc2Decrypt: string -> string): (r: Option<string>)
    ensures r != self ==> (r.Some? && self.Some? && !IsNullOrWhiteSpace(self)
      && Base64Shape(self.value) && r.value == rc2Decrypt(self.value))
    ensures !IsNullOrWhiteSpace(self) && Base64Shape(self.value) ==> r == Some(rc2Decrypt(self.value))
  {
    if IsNullOrWhiteSpace(self) || |self.value| % 4 != 0 || !ValidEncryptionMatch(self.value) then
      if !IsNullOrWhiteSpace(self) && Base64Shape(self.value) then Base64ShapeLength(self.value); self else self
    else
      ValidEncryptionMatchExact(self.value);
      Some(rc2Decrypt(self.value))
  }
}
