/** Per-minute traffic rows of one account and the booking of an interval on
    them (steam_pumper/fleet.py, the `traffic` table and _add_interval_traffic). */
module TrafficRows {
  import opened Time

  datatype Quality = Ok | PendingGap | Recovered | Anomaly | Reset

  datatype Column = MeasuredUpload | MeasuredDownload | EstimatedUpload | EstimatedDownload
                  | UnknownSeconds | SampleSeconds | Interruptions

  /** One amount for each column. */
  datatype Amounts = Amounts(measuredUpload: int, measuredDownload: int, estimatedUpload: int,
                             estimatedDownload: int, unknownSeconds: int, sampleSeconds: int,
                             interruptions: int)
  {
    function Get(column: Column): int {
      match column
      case MeasuredUpload => measuredUpload
      case MeasuredDownload => measuredDownload
      case EstimatedUpload => estimatedUpload
      case EstimatedDownload => estimatedDownload
      case UnknownSeconds => unknownSeconds
      case SampleSeconds => sampleSeconds
      case Interruptions => interruptions
    }

    predicate NonNegative() {
      forall column: Column :: Get(column) >= 0
    }

    function Minus(other: Amounts): Amounts {
      Amounts(measuredUpload - other.measuredUpload, measuredDownload - other.measuredDownload,
              estimatedUpload - other.estimatedUpload, estimatedDownload - other.estimatedDownload,
              unknownSeconds - other.unknownSeconds, sampleSeconds - other.sampleSeconds,
              interruptions - other.interruptions)
    }

    /** What the upsert adds to a row: negative amounts count as zero. */
    function AddedTo(sums: Amounts): Amounts {
      Amounts(sums.measuredUpload + Max(0, measuredUpload), sums.measuredDownload + Max(0, measuredDownload),
              sums.estimatedUpload + Max(0, estimatedUpload), sums.estimatedDownload + Max(0, estimatedDownload),
              sums.unknownSeconds + Max(0, unknownSeconds), sums.sampleSeconds + Max(0, sampleSeconds),
              sums.interruptions + Max(0, interruptions))
    }

    /** The part of each amount that falls to `length` out of `elapsed`. */
    function Scale(length: int, elapsed: int): Amounts
      requires elapsed > 0
    {
      Amounts(Share(measuredUpload, length, elapsed), Share(measuredDownload, length, elapsed),
              Share(estimatedUpload, length, elapsed), Share(estimatedDownload, length, elapsed),
              Share(unknownSeconds, length, elapsed), Share(sampleSeconds, length, elapsed),
              Share(interruptions, length, elapsed))
    }
  }

  function Share(amount: int, length: int, elapsed: int): int
    requires elapsed > 0
  {
    amount * length / elapsed
  }

  const ZERO := Amounts(0, 0, 0, 0, 0, 0, 0)

  datatype Row = Row(sums: Amounts, programDownload: int, quality: Quality)
  {
    /** The upsert of interval amounts: sums grow, the first quality other than Ok stays. */
    function Plus(amounts: Amounts, newQuality: Quality): Row {
      Row(amounts.AddedTo(sums), programDownload, if quality == Ok then newQuality else quality)
    }
  }

  type Rows = map<int, Row>

  const EMPTY_ROW := Row(ZERO, 0, Ok)

  function RowAt(rows: Rows, minute: int): Row {
    if minute in rows then rows[minute] else EMPTY_ROW
  }

  function AddRow(rows: Rows, minute: int, amounts: Amounts, quality: Quality): Rows {
    rows[minute := RowAt(rows, minute).Plus(amounts, quality)]
  }

  /** The upsert of bytes the helper itself reports: a column of its own, quality Ok. */
  function AddDownload(rows: Rows, minute: int, amount: nat): Rows {
    var row := RowAt(rows, minute);
    rows[minute := row.(programDownload := row.programDownload + amount)]
  }

  function Total(rows: Rows, column: Column, low: int, high: int): int
    decreases high - low
  {
    if high <= low then 0
    else Total(rows, column, low, high - 1) + RowAt(rows, high - 1).sums.Get(column)
  }

  ghost predicate Sound(rows: Rows) {
    forall minute :: minute in rows ==> rows[minute].sums.NonNegative()
  }

  // ---- cutting an interval at minute boundaries

  datatype Segment = Segment(minute: int, length: int)

  function Segments(start: int, end: int): seq<Segment>
    decreases end - start
  {
    if end <= start then []
    else
      var boundary := Min(end, (MinuteOf(start) + 1) * MINUTE);
      [Segment(MinuteOf(start), boundary - start)] + Segments(boundary, end)
  }

  /** The cut after `start`: where the first segment ends. */
  function Boundary(start: int, end: int): int {
    Min(end, (MinuteOf(start) + 1) * MINUTE)
  }

  lemma NextMinute(start: int, end: int)
    requires start < end
    ensures start < Boundary(start, end) <= end
    ensures Boundary(start, end) < end ==> MinuteOf(Boundary(start, end)) == MinuteOf(start) + 1
    ensures Boundary(start, end) == end ==> MinuteOf(end - 1) == MinuteOf(start)
  {}

  lemma {:induction false} SegmentCount(start: int, end: int)
    requires start < end
    ensures |Segments(start, end)| == MinuteOf(end - 1) - MinuteOf(start) + 1
    decreases end - start
  {
    NextMinute(start, end);
    var boundary := Boundary(start, end);
    if boundary < end {
      SegmentCount(boundary, end);
    } else {
      assert Segments(boundary, end) == [];
    }
  }

  /** Every minute that [start, end) meets, in order and once, each with exactly its overlap. */
  lemma {:induction false} SegmentsTile(start: int, end: int, i: nat)
    requires start < end && i < |Segments(start, end)|
    ensures var segment := Segments(start, end)[i];
            && segment.minute == MinuteOf(start) + i
            && segment.length == Min(end, (segment.minute + 1) * MINUTE) - Max(start, segment.minute * MINUTE)
            && segment.length > 0
    decreases i
  {
    NextMinute(start, end);
    var boundary := Boundary(start, end);
    if i > 0 {
      assert boundary < end;
      assert Segments(start, end)[i] == Segments(boundary, end)[i - 1];
      SegmentsTile(boundary, end, i - 1);
    }
  }

  // ---- dividing amounts among the segments

  /** Every segment but the last takes its floored share; the last takes what is left. */
  function Split(values: Amounts, segments: seq<Segment>, rest: Amounts, elapsed: int): (parts: seq<Amounts>)
    requires elapsed > 0
    ensures |parts| == |segments|
  {
    if segments == [] then []
    else
      var part := if |segments| == 1 then rest else values.Scale(segments[0].length, elapsed);
      [part] + Split(values, segments[1..], rest.Minus(part), elapsed)
  }

  function Book(rows: Rows, segments: seq<Segment>, parts: seq<Amounts>, quality: Quality): Rows
    requires |parts| == |segments|
    decreases |segments|
  {
    if segments == [] then rows
    else Book(AddRow(rows, segments[0].minute, parts[0], quality), segments[1..], parts[1..], quality)
  }

  function AddInterval(rows: Rows, start: int, end: int, values: Amounts, quality: Quality): Rows {
    if end <= start then rows
    else
      var segments := Segments(start, end);
      Book(rows, segments, Split(values, segments, values, end - start), quality)
  }

  /** The two loops of the program: cut, then allocate and upsert. */
  method AddIntervalTraffic(rows: Rows, start: int, end: int, values: Amounts, quality: Quality) returns (booked: Rows)
    ensures booked == AddInterval(rows, start, end, values, quality)
  {
    booked := rows;
    var elapsed := Max(0, end - start);
    if elapsed <= 0 {
      return;
    }
    var segments: seq<Segment> := [];
    var cursor := start;
    while cursor < end
      invariant start <= cursor <= end
      invariant segments + Segments(cursor, end) == Segments(start, end)
      decreases end - cursor
    {
      NextMinute(cursor, end);
      var minute := MinuteOf(cursor);
      var segmentEnd := Min(end, (minute + 1) * MINUTE);
      ghost var rest := Segments(segmentEnd, end);
      assert Segments(cursor, end) == [Segment(minute, segmentEnd - cursor)] + rest;
      segments := segments + [Segment(minute, segmentEnd - cursor)];
      cursor := segmentEnd;
    }
    assert segments == Segments(start, end);
    booked := Allocate(rows, segments, values, elapsed, quality);
  }

  method Allocate(rows: Rows, segments: seq<Segment>, values: Amounts, elapsed: int, quality: Quality)
    returns (booked: Rows)
    requires elapsed > 0
    ensures booked == Book(rows, segments, Split(values, segments, values, elapsed), quality)
  {
    booked := rows;
    var remaining := values;
    for index := 0 to |segments|
      invariant Book(booked, segments[index..], Split(values, segments[index..], remaining, elapsed), quality)
             == Book(rows, segments, Split(values, segments, values, elapsed), quality)
    {
      ghost var left := segments[index..];
      assert left[1..] == segments[index + 1..];
      var part := if index == |segments| - 1 then remaining else values.Scale(segments[index].length, elapsed);
      assert Split(values, left, remaining, elapsed)
          == [part] + Split(values, left[1..], remaining.Minus(part), elapsed);
      booked := AddRow(booked, segments[index].minute, part, quality);
      remaining := remaining.Minus(part);
    }
  }

  // ---- fairness of the division

  /** One column of Split. */
  function SplitColumn(value: int, segments: seq<Segment>, rest: int, elapsed: int): (parts: seq<int>)
    requires elapsed > 0
    ensures |parts| == |segments|
  {
    if segments == [] then []
    else
      var part := if |segments| == 1 then rest else Share(value, segments[0].length, elapsed);
      [part] + SplitColumn(value, segments[1..], rest - part, elapsed)
  }

  lemma {:induction false} SplitByColumn(values: Amounts, segments: seq<Segment>, rest: Amounts, elapsed: int,
                                         column: Column, i: nat)
    requires elapsed > 0 && i < |segments|
    ensures Split(values, segments, rest, elapsed)[i].Get(column)
         == SplitColumn(values.Get(column), segments, rest.Get(column), elapsed)[i]
    decreases i
  {
    var part := if |segments| == 1 then rest else values.Scale(segments[0].length, elapsed);
    if i > 0 {
      SplitByColumn(values, segments[1..], rest.Minus(part), elapsed, column, i - 1);
    }
  }

  lemma ShareBounds(amount: int, length: int, elapsed: int)
    requires amount >= 0 && length >= 0 && elapsed > 0
    ensures 0 <= Share(amount, length, elapsed)
    ensures 0 <= amount * length - Share(amount, length, elapsed) * elapsed < elapsed
    ensures 0 <= amount * length
  {
    var product := amount * length;
    assert product == product / elapsed * elapsed + product % elapsed;
  }

  function SumLengths(segments: seq<Segment>): int {
    if segments == [] then 0 else segments[0].length + SumLengths(segments[1..])
  }

  function Sum(parts: seq<int>): int {
    if parts == [] then 0 else parts[0] + Sum(parts[1..])
  }

  /** By how much the part of segment i exceeds its exact proportion, in units of 1/elapsed. */
  function Excess(value: int, part: int, length: int, elapsed: int): int {
    part * elapsed - value * length
  }

  /** Nothing is lost or invented. */
  lemma {:induction false} SplitSums(value: int, segments: seq<Segment>, rest: int, elapsed: int)
    requires elapsed > 0 && segments != []
    ensures Sum(SplitColumn(value, segments, rest, elapsed)) == rest
    decreases |segments|
  {
    var part := if |segments| == 1 then rest else Share(value, segments[0].length, elapsed);
    var tail := SplitColumn(value, segments[1..], rest - part, elapsed);
    assert ([part] + tail)[1..] == tail;
    if |segments| > 1 {
      SplitSums(value, segments[1..], rest - part, elapsed);
    }
  }

  /** Every share but the last is the exact proportion rounded down. */
  lemma {:induction false} SplitRoundsDown(value: int, segments: seq<Segment>, rest: int, elapsed: int, i: nat)
    requires elapsed > 0 && value >= 0 && i < |segments| - 1 && segments[i].length > 0
    ensures SplitColumn(value, segments, rest, elapsed)[i] >= 0
    ensures -elapsed < Excess(value, SplitColumn(value, segments, rest, elapsed)[i], segments[i].length, elapsed) <= 0
    decreases i
  {
    var part := Share(value, segments[0].length, elapsed);
    var tail := SplitColumn(value, segments[1..], rest - part, elapsed);
    assert SplitColumn(value, segments, rest, elapsed) == [part] + tail;
    if i == 0 {
      ShareBounds(value, segments[0].length, elapsed);
    } else {
      SplitRoundsDown(value, segments[1..], rest - part, elapsed, i - 1);
    }
  }

  /** The last share exceeds its own proportion by less than one unit per other segment. */
  lemma {:induction false} SplitLast(value: int, segments: seq<Segment>, rest: int, elapsed: int, slack: int)
    requires elapsed > 0 && segments != [] && value >= 0
    requires forall i :: 0 <= i < |segments| ==> segments[i].length > 0
    requires 0 <= Excess(value, rest, SumLengths(segments), elapsed) <= slack
    ensures var last := |segments| - 1;
            0 <= Excess(value, SplitColumn(value, segments, rest, elapsed)[last], segments[last].length, elapsed)
              <= slack + last * (elapsed - 1)
    ensures SplitColumn(value, segments, rest, elapsed)[|segments| - 1] >= 0
    decreases |segments|
  {
    if |segments| == 1 {
      ShareBounds(value, segments[0].length, elapsed);
      NonNegativeFactor(rest, value * segments[0].length, elapsed);
      assert SumLengths(segments) == segments[0].length by { assert segments[1..] == []; }
    } else {
      var length, others := segments[0].length, SumLengths(segments[1..]);
      var part := Share(value, length, elapsed);
      ShareBounds(value, length, elapsed);
      Distribute(value, rest, part, length, others, elapsed);
      SplitLast(value, segments[1..], rest - part, elapsed, slack + (elapsed - 1));
      var tail := SplitColumn(value, segments[1..], rest - part, elapsed);
      assert SplitColumn(value, segments, rest, elapsed) == [part] + tail;
      assert segments[1..][|tail| - 1] == segments[|segments| - 1];
      OneMore(|tail|, elapsed - 1);
    }
  }

  lemma OneMore(n: int, step: int)
    ensures (n - 1) * step + step == n * step
  {}

  lemma NonNegativeFactor(part: int, product: int, elapsed: int)
    requires elapsed > 0 && product >= 0 && part * elapsed >= product
    ensures part >= 0
  {}

  lemma Distribute(value: int, rest: int, part: int, length: int, others: int, elapsed: int)
    ensures Excess(value, rest - part, others, elapsed)
         == Excess(value, rest, length + others, elapsed) - Excess(value, part, length, elapsed)
  {}

  // ---- what booking does to the table

  lemma {:induction false} AddRowTotal(rows: Rows, minute: int, amounts: Amounts, quality: Quality,
                                       column: Column, low: int, high: int)
    ensures Total(AddRow(rows, minute, amounts, quality), column, low, high)
         == Total(rows, column, low, high) + if low <= minute < high then Max(0, amounts.Get(column)) else 0
    decreases high - low
  {
    if low < high {
      AddRowTotal(rows, minute, amounts, quality, column, low, high - 1);
    }
  }

  lemma {:induction false} TotalNonNegative(rows: Rows, column: Column, low: int, high: int)
    requires Sound(rows)
    ensures Total(rows, column, low, high) >= 0
    decreases high - low
  {
    if low < high {
      TotalNonNegative(rows, column, low, high - 1);
    }
  }

  lemma {:induction false} TotalSplits(rows: Rows, column: Column, low: int, middle: int, high: int)
    requires low <= middle <= high
    ensures Total(rows, column, low, high) == Total(rows, column, low, middle) + Total(rows, column, middle, high)
    decreases high - middle
  {
    if middle < high {
      TotalSplits(rows, column, low, middle, high - 1);
    }
  }

  predicate Inside(segments: seq<Segment>, low: int, high: int) {
    forall i :: 0 <= i < |segments| ==> low <= segments[i].minute < high
  }

  predicate Outside(segments: seq<Segment>, low: int, high: int) {
    forall i :: 0 <= i < |segments| ==> !(low <= segments[i].minute < high)
  }

  lemma {:induction false} BookTotal(rows: Rows, segments: seq<Segment>, parts: seq<Amounts>, amounts: seq<int>,
                                     quality: Quality, column: Column, low: int, high: int)
    requires |parts| == |segments| == |amounts|
    requires forall i :: 0 <= i < |parts| ==> amounts[i] == parts[i].Get(column) && amounts[i] >= 0
    ensures var before := Total(rows, column, low, high);
            var after := Total(Book(rows, segments, parts, quality), column, low, high);
            && before <= after <= before + Sum(amounts)
            && (Inside(segments, low, high) ==> after == before + Sum(amounts))
            && (Outside(segments, low, high) ==> after == before)
    decreases |segments|
  {
    if segments != [] {
      AddRowTotal(rows, segments[0].minute, parts[0], quality, column, low, high);
      assert amounts[0] == parts[0].Get(column);
      BookTotal(AddRow(rows, segments[0].minute, parts[0], quality), segments[1..], parts[1..], amounts[1..],
                quality, column, low, high);
      SumNonNegative(amounts[1..]);
    }
  }

  lemma {:induction false} SumNonNegative(amounts: seq<int>)
    requires forall i :: 0 <= i < |amounts| ==> amounts[i] >= 0
    ensures Sum(amounts) >= 0
  {
    if amounts != [] {
      SumNonNegative(amounts[1..]);
    }
  }

  lemma {:induction false} BookKeys(rows: Rows, segments: seq<Segment>, parts: seq<Amounts>, quality: Quality,
                                    low: int, high: int)
    requires |parts| == |segments| && Inside(segments, low, high) && Sound(rows)
    ensures var after := Book(rows, segments, parts, quality);
            Sound(after) && rows.Keys <= after.Keys && forall m :: m in after && m !in rows ==> low <= m < high
    decreases |segments|
  {
    if segments != [] {
      var next := AddRow(rows, segments[0].minute, parts[0], quality);
      AddRowSound(rows, segments[0].minute, parts[0], quality);
      BookKeys(next, segments[1..], parts[1..], quality, low, high);
    }
  }

  lemma AddRowSound(rows: Rows, minute: int, amounts: Amounts, quality: Quality)
    requires Sound(rows)
    ensures Sound(AddRow(rows, minute, amounts, quality))
  {
    var sums := RowAt(rows, minute).sums;
    assert ZERO.NonNegative();
    forall column: Column ensures amounts.AddedTo(sums).Get(column) >= 0 {
      assert sums.Get(column) >= 0;
    }
  }

  lemma {:induction false} SumLengthsIsElapsed(start: int, end: int)
    requires start <= end
    ensures SumLengths(Segments(start, end)) == end - start
    decreases end - start
  {
    if start < end {
      NextMinute(start, end);
      SumLengthsIsElapsed(Boundary(start, end), end);
    }
  }

  lemma SegmentsInside(start: int, end: int)
    requires start < end
    ensures Inside(Segments(start, end), MinuteOf(start), MinuteOf(end - 1) + 1)
    ensures forall i :: 0 <= i < |Segments(start, end)| ==> Segments(start, end)[i].length > 0
  {
    var segments := Segments(start, end);
    SegmentCount(start, end);
    forall i | 0 <= i < |segments|
      ensures segments[i].length > 0 && MinuteOf(start) <= segments[i].minute <= MinuteOf(end - 1)
    {
      SegmentsTile(start, end, i);
    }
  }

  /** One column of the division of an interval. */
  function ColumnParts(start: int, end: int, value: int): seq<int>
    requires start < end
  {
    SplitColumn(value, Segments(start, end), value, end - start)
  }

  lemma IntervalIsFair(start: int, end: int, value: int)
    requires start < end && value >= 0
    ensures var segments, parts, elapsed := Segments(start, end), ColumnParts(start, end, value), end - start;
            && |parts| == |segments| == MinuteOf(end - 1) - MinuteOf(start) + 1
            && Sum(parts) == value
            && (forall i :: 0 <= i < |parts| ==> parts[i] >= 0)
            && (forall i :: 0 <= i < |parts| - 1 ==>
                  -elapsed < Excess(value, parts[i], segments[i].length, elapsed) <= 0)
            && var last := |parts| - 1;
               0 <= Excess(value, parts[last], segments[last].length, elapsed) <= last * (elapsed - 1)
  {
    SegmentsInside(start, end);
    SegmentCount(start, end);
    SumLengthsIsElapsed(start, end);
    var segments, elapsed := Segments(start, end), end - start;
    SplitSums(value, segments, value, elapsed);
    SplitLast(value, segments, value, elapsed, 0);
    var parts := ColumnParts(start, end, value);
    forall i | 0 <= i < |parts| - 1
      ensures parts[i] >= 0 && -elapsed < Excess(value, parts[i], segments[i].length, elapsed) <= 0
    {
      SplitRoundsDown(value, segments, value, elapsed, i);
    }
  }

  lemma ColumnOfSplit(start: int, end: int, values: Amounts, column: Column)
    requires start < end
    ensures var segments := Segments(start, end);
            var split := Split(values, segments, values, end - start);
            var parts := ColumnParts(start, end, values.Get(column));
            forall i :: 0 <= i < |segments| ==> parts[i] == split[i].Get(column)
  {
    var segments := Segments(start, end);
    forall i | 0 <= i < |segments|
      ensures ColumnParts(start, end, values.Get(column))[i]
              == Split(values, segments, values, end - start)[i].Get(column)
    {
      SplitByColumn(values, segments, values, end - start, column, i);
    }
  }

  lemma AddIntervalTotal(rows: Rows, start: int, end: int, values: Amounts, quality: Quality, column: Column,
                         low: int, high: int)
    requires values.Get(column) >= 0
    ensures var before := Total(rows, column, low, high);
            var after := Total(AddInterval(rows, start, end, values, quality), column, low, high);
            && before <= after <= before + values.Get(column)
            && (start < end && low <= MinuteOf(start) && MinuteOf(end - 1) < high
                ==> after == before + values.Get(column))
            && (high <= MinuteOf(start) || MinuteOf(end - 1) < low ==> after == before)
  {
    if start < end {
      var segments := Segments(start, end);
      SegmentsInside(start, end);
      IntervalIsFair(start, end, values.Get(column));
      ColumnOfSplit(start, end, values, column);
      BookTotal(rows, segments, Split(values, segments, values, end - start),
                ColumnParts(start, end, values.Get(column)),
                quality, column, low, high);
    }
  }

  lemma AddIntervalKeys(rows: Rows, start: int, end: int, values: Amounts, quality: Quality)
    requires Sound(rows)
    ensures var after := AddInterval(rows, start, end, values, quality);
            && Sound(after) && rows.Keys <= after.Keys
            && forall m :: m in after && m !in rows ==> start < end && MinuteOf(start) <= m <= MinuteOf(end - 1)
  {
    if start < end {
      var segments := Segments(start, end);
      SegmentsInside(start, end);
      BookKeys(rows, segments, Split(values, segments, values, end - start), quality, MinuteOf(start),
               MinuteOf(end - 1) + 1);
    }
  }

  /** How much of [start, end) lies in a minute. */
  function Overlap(start: int, end: int, minute: int): int {
    Max(0, Min(end, (minute + 1) * MINUTE) - Max(start, minute * MINUTE))
  }

  function Booked(rows: Rows, start: int, end: int, values: Amounts, quality: Quality, column: Column,
                  minute: int): int {
    var after := AddInterval(rows, start, end, values, quality);
    RowAt(after, minute).sums.Get(column) - RowAt(rows, minute).sums.Get(column)
  }

  /** The booking law, minute by minute, without reference to how it is computed: an amount
      lands only where the interval overlaps, each minute but the last takes its exact proportion
      rounded down, and the last is over by less than one unit for each other minute. */
  lemma BookedByMinute(rows: Rows, start: int, end: int, values: Amounts, quality: Quality, column: Column, minute: int)
    requires start < end && values.Get(column) >= 0
    ensures var value, elapsed := values.Get(column), end - start;
            var booked := Booked(rows, start, end, values, quality, column, minute);
            var excess := Excess(value, booked, Overlap(start, end, minute), elapsed);
            && booked >= 0
            && (Overlap(start, end, minute) == 0 ==> booked == 0)
            && (minute != MinuteOf(end - 1) ==> -elapsed < excess <= 0)
            && (minute == MinuteOf(end - 1) ==> 0 <= excess <= (MinuteOf(end - 1) - MinuteOf(start)) * (elapsed - 1))
  {
    if MinuteOf(start) <= minute <= MinuteOf(end - 1) {
      BookedInside(rows, start, end, values, quality, column, minute);
    } else {
      assert Overlap(start, end, minute) == 0;
      var after := AddInterval(rows, start, end, values, quality);
      AddIntervalTotal(rows, start, end, values, quality, column, minute, minute + 1);
      assert Total(rows, column, minute, minute) == 0 == Total(after, column, minute, minute);
    }
  }

  lemma BookedInside(rows: Rows, start: int, end: int, values: Amounts, quality: Quality, column: Column, minute: int)
    requires start < end && values.Get(column) >= 0 && MinuteOf(start) <= minute <= MinuteOf(end - 1)
    ensures var value, elapsed := values.Get(column), end - start;
            var booked := Booked(rows, start, end, values, quality, column, minute);
            var excess := Excess(value, booked, Overlap(start, end, minute), elapsed);
            && booked >= 0 && Overlap(start, end, minute) > 0
            && (minute != MinuteOf(end - 1) ==> -elapsed < excess <= 0)
            && (minute == MinuteOf(end - 1) ==> 0 <= excess <= (MinuteOf(end - 1) - MinuteOf(start)) * (elapsed - 1))
  {
    var value, i := values.Get(column), minute - MinuteOf(start);
    PartIsFair(start, end, value, i);
    BookedIsPart(rows, start, end, values, quality, column, i);
  }

  /** The i-th part of an amount, by the overlap of the interval with its minute. */
  lemma PartIsFair(start: int, end: int, value: int, i: nat)
    requires start < end && value >= 0 && i <= MinuteOf(end - 1) - MinuteOf(start)
    ensures i < |ColumnParts(start, end, value)|
    ensures var part, overlap := ColumnParts(start, end, value)[i], Overlap(start, end, MinuteOf(start) + i);
            var excess, others := Excess(value, part, overlap, end - start), MinuteOf(end - 1) - MinuteOf(start);
            && part >= 0 && overlap > 0
            && (i < others ==> -(end - start) < excess <= 0)
            && (i == others ==> 0 <= excess <= others * (end - start - 1))
  {
    IntervalIsFair(start, end, value);
    SegmentsTile(start, end, i);
    assert Segments(start, end)[i].length == Overlap(start, end, MinuteOf(start) + i);
  }

  /** What an interval books in its i-th minute is the i-th part. */
  lemma BookedIsPart(rows: Rows, start: int, end: int, values: Amounts, quality: Quality, column: Column, i: nat)
    requires start < end && values.Get(column) >= 0 && i <= MinuteOf(end - 1) - MinuteOf(start)
    ensures i < |ColumnParts(start, end, values.Get(column))|
    ensures Booked(rows, start, end, values, quality, column, MinuteOf(start) + i)
            == ColumnParts(start, end, values.Get(column))[i]
  {
    var segments := Segments(start, end);
    IntervalIsFair(start, end, values.Get(column));
    SplitByColumn(values, segments, values, end - start, column, i);
    forall k | 0 <= k < |segments| ensures segments[k].minute == MinuteOf(start) + k {
      SegmentsTile(start, end, k);
    }
    BookedAt(rows, segments, Split(values, segments, values, end - start), quality, column, i, MinuteOf(start));
  }

  /** Consecutive minutes: each part lands in its own row. */
  lemma {:induction false} BookedAt(rows: Rows, segments: seq<Segment>, parts: seq<Amounts>, quality: Quality,
                                    column: Column,
                                    i: nat, first: int)
    requires |parts| == |segments| && i < |segments|
    requires forall k :: 0 <= k < |segments| ==> segments[k].minute == first + k
    requires parts[i].Get(column) >= 0
    ensures RowAt(Book(rows, segments, parts, quality), first + i).sums.Get(column)
         == RowAt(rows, first + i).sums.Get(column) + parts[i].Get(column)
    decreases |segments|
  {
    var next := AddRow(rows, segments[0].minute, parts[0], quality);
    forall k | 0 <= k < |segments[1..]| ensures segments[1..][k].minute == first + 1 + k {
      assert segments[1..][k] == segments[k + 1];
    }
    if i == 0 {
      BookElsewhere(next, segments[1..], parts[1..], quality, first);
    } else {
      BookedAt(next, segments[1..], parts[1..], quality, column, i - 1, first + 1);
    }
  }

  lemma {:induction false} BookElsewhere(rows: Rows, segments: seq<Segment>, parts: seq<Amounts>, quality: Quality,
                                         minute: int)
    requires |parts| == |segments|
    requires forall k :: 0 <= k < |segments| ==> segments[k].minute != minute
    ensures RowAt(Book(rows, segments, parts, quality), minute) == RowAt(rows, minute)
    decreases |segments|
  {
    if segments != [] {
      BookElsewhere(AddRow(rows, segments[0].minute, parts[0], quality), segments[1..], parts[1..], quality, minute);
    }
  }

  // ---- clearing, pruning, and rows nothing was booked on

  /** The recovery update: unknown seconds of minutes first..last are forgotten. */
  function ClearUnknown(rows: Rows, first: int, last: int): Rows {
    map minute | minute in rows ::
      if first <= minute <= last then
        rows[minute].(sums := rows[minute].sums.(unknownSeconds := 0),
                      quality := if rows[minute].quality == PendingGap then Recovered else rows[minute].quality)
      else rows[minute]
  }

  function DropBefore(rows: Rows, minute: int): Rows {
    map m | m in rows && minute <= m :: rows[m]
  }

  /** Only minutes in [low, high) carry any amount. */
  ghost predicate Quiet(rows: Rows, low: int, high: int) {
    forall minute :: !(low <= minute < high) ==> RowAt(rows, minute).sums == ZERO
  }

  lemma {:induction false} ClearTotal(rows: Rows, first: int, last: int, column: Column, low: int, high: int)
    ensures var before := Total(rows, column, low, high);
            var after := Total(ClearUnknown(rows, first, last), column, low, high);
            && (column != UnknownSeconds || high <= first ==> after == before)
            && (column == UnknownSeconds && first <= low && high <= last + 1 ==> after == 0)
    decreases high - low
  {
    if low < high {
      ClearTotal(rows, first, last, column, low, high - 1);
    }
  }

  lemma ClearKeepsSound(rows: Rows, first: int, last: int, low: int, high: int)
    requires Sound(rows) && Quiet(rows, low, high)
    ensures Sound(ClearUnknown(rows, first, last)) && Quiet(ClearUnknown(rows, first, last), low, high)
  {
    var after := ClearUnknown(rows, first, last);
    forall minute | minute in after ensures after[minute].sums.NonNegative() {
      assert rows[minute].sums.NonNegative();
      forall column: Column ensures after[minute].sums.Get(column) >= 0 {
        assert rows[minute].sums.Get(column) >= 0;
      }
    }
    forall minute | !(low <= minute < high) ensures RowAt(after, minute).sums == ZERO {
      assert RowAt(rows, minute).sums == ZERO;
    }
  }

  lemma {:induction false} DropTotal(rows: Rows, minute: int, column: Column, low: int, high: int)
    requires Sound(rows)
    ensures Total(DropBefore(rows, minute), column, low, high) <= Total(rows, column, low, high)
    ensures minute <= low ==> Total(DropBefore(rows, minute), column, low, high) == Total(rows, column, low, high)
    decreases high - low
  {
    if low < high {
      DropTotal(rows, minute, column, low, high - 1);
      if high - 1 in rows {
        assert rows[high - 1].sums.Get(column) >= 0;
      }
    }
  }

  lemma {:induction false} QuietTotal(rows: Rows, column: Column, low: int, high: int)
    requires forall minute :: low <= minute < high ==> RowAt(rows, minute).sums == ZERO
    ensures Total(rows, column, low, high) == 0
    decreases high - low
  {
    if low < high {
      QuietTotal(rows, column, low, high - 1);
      assert RowAt(rows, high - 1).sums == ZERO;
    }
  }

  /** The total over the minutes that carry anything is the total over any wider range. */
  lemma WiderTotal(rows: Rows, column: Column, low: int, high: int, wider: int)
    requires Quiet(rows, low, high) && low <= high <= wider
    ensures Total(rows, column, low, wider) == Total(rows, column, low, high)
  {
    TotalSplits(rows, column, low, high, wider);
    QuietTotal(rows, column, high, wider);
  }

  lemma AddIntervalQuiet(rows: Rows, start: int, end: int, values: Amounts, quality: Quality, low: int, high: int)
    requires Quiet(rows, low, high)
    requires start < end ==> low <= MinuteOf(start) && MinuteOf(end - 1) < high
    ensures Quiet(AddInterval(rows, start, end, values, quality), low, high)
  {
    if start < end {
      var segments := Segments(start, end);
      SegmentsInside(start, end);
      forall minute | !(low <= minute < high)
        ensures RowAt(AddInterval(rows, start, end, values, quality), minute).sums == ZERO
      {
        BookElsewhere(rows, segments, Split(values, segments, values, end - start), quality, minute);
      }
    }
  }
}
