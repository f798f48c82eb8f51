/** DefaultKeyGenerator: a partition key that falls as time goes on, and a
    row key built from the event and a per-generator counter. */
module DefaultKeyGenerator {
  import opened Common
  import opened SerilogEvents

  /** DateTime.MaxValue.Ticks. */
  const MaxTicks: int := 3155378975999999999

  /** A clock reading: DateTime ticks, 100 ns since 0001-01-01. */
  type Ticks = t: int | 0 <= t <= MaxTicks

  /** DateTime.UtcNow: the clock gives its readings in turn. */
  class Clock {
    const readings: nat -> Ticks
    var readCount: nat

    constructor (readings: nat -> Ticks)
      ensures this.readings == readings && readCount == 0
    {
      this.readings := readings;
      readCount := 0;
    }

    method UtcNow() returns (now: Ticks)
      modifies this
      ensures now == readings(old(readCount)) && readCount == old(readCount) + 1
    {
      now := readings(readCount);
      readCount := readCount + 1;
    }
  }

  // ---------------------------------------------------------------------------
  // Partition key
  // ---------------------------------------------------------------------------

  /** Every tick count has at most 19 digits. */
  lemma MaxTicksFits()
    ensures MaxTicks < Pow10(19)
  {
    assert Pow10(10) == 10_000_000_000;
    assert Pow10(19) == 1_000_000_000 * Pow10(10);
  }

  /** (DateTime.MaxValue - utcNow).Ticks formatted "D19", for the clock
      reading utcNow; the event is not used. */
  function PartitionKeyAt(logEvent: LogEvent, utcNow: Ticks): (k: string)
    ensures |k| == 19 && IsDigits(k)
  {
    MaxTicksFits();
    PadDecimalIsFixed(MaxTicks - utcNow, 19);
    PadDecimal(MaxTicks - utcNow, 19)
  }

  /** The "D19" text of the remaining ticks is their low 19 digits. */
  lemma PartitionKeyDigits(logEvent: LogEvent, utcNow: Ticks)
    ensures PartitionKeyAt(logEvent, utcNow) == FixedDigits(MaxTicks - utcNow, 19)
    ensures MaxTicks - utcNow < Pow10(19)
  {
    MaxTicksFits();
    PadDecimalIsFixed(MaxTicks - utcNow, 19);
  }

  /** The key has exactly 19 digits and their value is the ticks left until
      DateTime.MaxValue; it does not depend on the event. */
  lemma PartitionKeyValue(logEvent: LogEvent, other: LogEvent, utcNow: Ticks)
    ensures var k := PartitionKeyAt(logEvent, utcNow);
      |k| == 19 && IsDigits(k) && DigitsValue(k) == MaxTicks - utcNow
      && k == PartitionKeyAt(other, utcNow)
  {
    PartitionKeyDigits(logEvent, utcNow);
    PartitionKeyDigits(other, utcNow);
    FixedDigitsValue(MaxTicks - utcNow, 19);
  }

  lemma ReverseTicksOrder(earlier: Ticks, later: Ticks)
    requires earlier < later
    ensures LexLess(FixedDigits(MaxTicks - later, 19), FixedDigits(MaxTicks - earlier, 19))
  {
    MaxTicksFits();
    var m, n := MaxTicks - later, MaxTicks - earlier;
    assert 0 <= m < n < Pow10(19);
    FixedDigitsOrder(m, n, 19);
  }

  /** Newer events sort first: a later clock reading gives a key that is
      ordinally smaller, and the same reading the same key. */
  lemma PartitionKeyOrder(e1: LogEvent, e2: LogEvent, earlier: Ticks, later: Ticks)
    requires earlier <= later
    ensures earlier == later ==> PartitionKeyAt(e2, later) == PartitionKeyAt(e1, earlier)
    ensures earlier < later ==> LexLess(PartitionKeyAt(e2, later), PartitionKeyAt(e1, earlier))
  {
    PartitionKeyDigits(e1, earlier);
    PartitionKeyDigits(e2, later);
    if earlier < later {
      ReverseTicksOrder(earlier, later);
    }
  }

  // ---------------------------------------------------------------------------
  // Row key
  // ---------------------------------------------------------------------------

  /** "{Level}|{MessageTemplate}|{n}". The counter can be read back from the
      key: whatever the events (their templates may contain '|' themselves),
      it is the text after the last '|'. */
  function RowKeyText(logEvent: LogEvent, n: int64): (k: string)
    ensures AfterLastBar(k) == IntDecimal(n as int)
  {
    AfterLastBarOf(LevelName(logEvent.level) + "|" + logEvent.messageTemplate, IntDecimal(n as int));
    LevelName(logEvent.level) + "|" + logEvent.messageTemplate + "|" + IntDecimal(n as int)
  }

  /** The text after the last '|' (all of it when there is none). */
  function AfterLastBar(s: string): (r: string)
    ensures '|' !in r
  {
    if s == [] then []
    else if s[|s| - 1] == '|' then []
    else AfterLastBar(s[..|s| - 1]) + [s[|s| - 1]]
  }

  lemma {:induction false} AfterLastBarOf(a: string, b: string)
    requires '|' !in b
    ensures AfterLastBar(a + "|" + b) == b
  {
    if b != [] {
      var s := a + "|" + b;
      assert s[..|s| - 1] == a + "|" + b[..|b| - 1];
      AfterLastBarOf(a, b[..|b| - 1]);
      assert b == b[..|b| - 1] + [b[|b| - 1]];
    } else {
      assert a + "|" + b == a + "|";
    }
  }

  /** Keys with different counter values differ. */
  lemma RowKeysDistinct(e1: LogEvent, e2: LogEvent, m: int64, n: int64)
    requires m != n
    ensures RowKeyText(e1, m) != RowKeyText(e2, n)
  {
    if RowKeyText(e1, m) == RowKeyText(e2, n) {
      IntDecimalInjective(m as int, n as int);
    }
  }

  /** A row-key function that never gives two different counter values the
      same key, whatever the events. */
  ghost predicate SeparatesCounters(rowKeyOf: (LogEvent, int64) -> string)
  {
    forall e1: LogEvent, e2: LogEvent, m: int64, n: int64 :: m != n ==> rowKeyOf(e1, m) != rowKeyOf(e2, n)
  }

  /** The default row keys separate counters. */
  lemma RowKeyTextSeparates()
    ensures SeparatesCounters(RowKeyText)
  {
    forall e1: LogEvent, e2: LogEvent, m: int64, n: int64 | m != n
      ensures RowKeyText(e1, m) != RowKeyText(e2, n)
    {
      RowKeysDistinct(e1, e2, m, n);
    }
  }

  /** Interlocked.Increment on a long: add one, wrapping from 2^63 - 1 to -2^63. */
  function Increment64(x: int64): (r: int64)
    ensures x as int < 0x7FFF_FFFF_FFFF_FFFF ==> r as int == x as int + 1
    ensures x as int == 0x7FFF_FFFF_FFFF_FFFF ==> r as int == -0x8000_0000_0000_0000
  {
    Wrap64(x as int + 1)
  }

  /** The counter after k further increments from start. */
  function IdAfter(start: int64, k: nat): int64
  {
    Wrap64(start as int + k)
  }

  /** Incrementing the counter after k increments gives the counter after k + 1. */
  lemma IdAfterStep(start: int64, k: nat)
    ensures Increment64(IdAfter(start, k)) == IdAfter(start, k + 1)
  {
    Wrap64Step(start as int + k);
  }

  /** Two different calls among the next 2^64 produce different counters, so
      one generator's row keys are pairwise distinct; without wrap-around the
      k-th call after construction embeds k itself. */
  lemma IdsDistinct(start: int64, i: nat, j: nat)
    requires i < j < 0x1_0000_0000_0000_0000 + i
    ensures IdAfter(start, i) != IdAfter(start, j)
  {
    Wrap64Distinct(start as int + i, start as int + j);
  }

  lemma IdsFromZero(k: nat)
    requires k < 0x8000_0000_0000_0000
    ensures IdAfter(0, k) as int == k
  {
  }

  /** A key generator as the sink sees it through IKeyGenerator: how it keys
      an event by a clock reading, how it keys an event by a counter value,
      and its RowId counter. The default generator's key functions are
      PartitionKeyAt and RowKeyText. */
  class DefaultKeyGenerator {
    const partitionKeyOf: (LogEvent, Ticks) -> string
    const rowKeyOf: (LogEvent, int64) -> string
    var rowId: int64

    constructor ()
      ensures partitionKeyOf == PartitionKeyAt && rowKeyOf == RowKeyText
      ensures rowId == 0
    {
      partitionKeyOf := PartitionKeyAt;
      rowKeyOf := RowKeyText;
      rowId := 0;
    }

    /** GeneratePartitionKey: reads the clock once and keys the event by
        that reading. */
    method GeneratePartitionKey(logEvent: LogEvent, clock: Clock) returns (key: string)
      modifies clock
      ensures key == partitionKeyOf(logEvent, clock.readings(old(clock.readCount)))
      ensures clock.readCount == old(clock.readCount) + 1
    {
      var utcNow := clock.UtcNow();
      key := partitionKeyOf(logEvent, utcNow);
    }

    /** Increments the counter and keys the event by its new value; the
        suffix is not used. */
    method GenerateRowKey(logEvent: LogEvent, suffix: Option<string>) returns (key: string)
      modifies this
      ensures rowId == Increment64(old(rowId))
      ensures key == rowKeyOf(logEvent, rowId)
    {
      rowId := Increment64(rowId);
      key := rowKeyOf(logEvent, rowId);
    }
  }
}
