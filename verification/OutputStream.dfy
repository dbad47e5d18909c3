/** How a line engine reads its helper's output: splitting into lines and adding up byte counts
    (steam_pumper/engine.py). Text is single-byte, a read is a chunk of it. */
module OutputStream {

  const MAX: nat := 65_536

  /** The complete lines of a text, without their newlines. */
  function Lines(text: string): seq<string>
    decreases |text|
  {
    if text == "" then []
    else
      var n := |text| - 1;
      if text[n] == '\n' then Lines(text[..n]) + [Rest(text[..n])] else Lines(text[..n])
  }

  /** What follows the last newline. */
  function Rest(text: string): string
    decreases |text|
  {
    if text == "" then ""
    else
      var n := |text| - 1;
      if text[n] == '\n' then "" else Rest(text[..n]) + [text[n]]
  }

  /** The lines that are handed on; longer ones only leave an error. */
  function Short(lines: seq<string>): seq<string>
    decreases |lines|
  {
    if lines == [] then []
    else
      var n := |lines| - 1;
      Short(lines[..n]) + if |lines[n]| <= MAX then [lines[n]] else []
  }

  function Tail(text: string): string {
    if |text| <= MAX then text else text[|text| - MAX..]
  }

  /** The first newline at or after `from`; the length when there is none. */
  function FirstNewline(text: string, from: nat): nat
    requires from <= |text|
    decreases |text| - from
  {
    if from == |text| || text[from] == '\n' then from else FirstNewline(text, from + 1)
  }

  predicate OneLine(text: string) {
    forall i :: 0 <= i < |text| ==> text[i] != '\n'
  }

  lemma {:induction false} FirstNewlineIs(text: string, from: nat)
    requires from <= |text| && OneLine(text[..from])
    ensures from <= FirstNewline(text, from) <= |text| && OneLine(text[..FirstNewline(text, from)])
    ensures FirstNewline(text, from) < |text| ==> text[FirstNewline(text, from)] == '\n'
    decreases |text| - from
  {
    if from < |text| && text[from] != '\n' {
      assert text[..from + 1] == text[..from] + [text[from]];
      FirstNewlineIs(text, from + 1);
    }
  }

  lemma {:induction false} Unbroken(text: string)
    requires OneLine(text)
    ensures Lines(text) == [] && Rest(text) == text
    decreases |text|
  {
    if text != "" {
      Unbroken(text[..|text| - 1]);
    }
  }

  lemma {:induction false} RestUnbroken(text: string)
    ensures OneLine(Rest(text))
    decreases |text|
  {
    if text != "" {
      RestUnbroken(text[..|text| - 1]);
    }
  }

  /** Splitting goes on from the rest of what was split before. */
  lemma {:induction false} SplitOn(a: string, b: string)
    ensures Lines(a + b) == Lines(a) + Lines(Rest(a) + b)
    ensures Rest(a + b) == Rest(Rest(a) + b)
    decreases |b|
  {
    if b == "" {
      assert a + b == a && Rest(a) + b == Rest(a);
      RestUnbroken(a);
      Unbroken(Rest(a));
    } else {
      var n := |b| - 1;
      SplitOn(a, b[..n]);
      assert (a + b)[..|a + b| - 1] == a + b[..n];
      assert (Rest(a) + b)[..|Rest(a) + b| - 1] == Rest(a) + b[..n];
    }
  }

  lemma {:induction false} ShortOn(a: seq<string>, b: seq<string>)
    ensures Short(a + b) == Short(a) + Short(b)
    decreases |b|
  {
    if b == [] {
      assert a + b == a;
    } else {
      ShortOn(a, b[..|b| - 1]);
      assert (a + b)[..|a + b| - 1] == a + b[..|b| - 1];
    }
  }

  lemma EndOfLine(line: string)
    requires OneLine(line)
    ensures Lines(line + "\n") == [line] && Rest(line + "\n") == ""
  {
    assert (line + "\n")[..|line|] == line;
    Unbroken(line);
  }

  lemma LineBefore(line: string, rest: string)
    requires OneLine(line)
    ensures Lines(line + "\n" + rest) == [line] + Lines(rest) && Rest(line + "\n" + rest) == Rest(rest)
  {
    EndOfLine(line);
    SplitOn(line + "\n", rest);
    assert "" + rest == rest;
  }

  lemma CutAt(text: string, i: nat)
    requires i < |text| && text[i] == '\n'
    ensures text == text[..i] + "\n" + text[i + 1..]
  {
  }

  /** Taking the first line off, if there is one. */
  lemma TakeLine(text: string)
    ensures var i := FirstNewline(text, 0);
            if i < |text| then Lines(text) == [text[..i]] + Lines(text[i + 1..]) && Rest(text) == Rest(text[i + 1..])
            else i == |text| && Lines(text) == [] && Rest(text) == text
  {
    FirstNewlineIs(text, 0);
    var i := FirstNewline(text, 0);
    if i < |text| {
      CutAt(text, i);
      LineBefore(text[..i], text[i + 1..]);
    } else {
      assert text[..i] == text;
      Unbroken(text);
    }
  }

  lemma KeptIsUnbroken(text: string)
    ensures |Tail(Rest(text))| <= MAX && OneLine(Tail(Rest(text)))
  {
    RestUnbroken(text);
  }

  lemma NothingRead(buffer: string)
    requires |buffer| <= MAX && OneLine(buffer)
    ensures Short(Lines(buffer)) == [] && Tail(Rest(buffer)) == buffer
  {
    Unbroken(buffer);
  }

  lemma TakeShort(handed: seq<string>, line: string, lines: seq<string>)
    ensures handed + Short([line] + lines) == (if |line| <= MAX then handed + [line] else handed) + Short(lines)
  {
    ShortOn([line], lines);
    assert [line][..0] == [];
    assert Short([line]) == if |line| <= MAX then [line] else [];
  }

  /** The byte counters of a line: the total, what earlier processes contributed, and the count the
      current process last reported. */
  datatype Counters = Counters(total: nat, offset: nat, current: nat)

  function Reported(c: Counters, bytes: nat): Counters {
    Counters(c.offset + bytes, c.offset, bytes)
  }

  function Crashed(c: Counters): Counters {
    Counters(c.total, c.total, 0)
  }

  class OutputReader {
    var buffer: string
    // The lines handed on, in order.
    var handed: seq<string>
    var totalBytes: nat
    var byteOffset: nat
    var processBytes: nat

    function Bytes(): Counters
      reads this
    {
      Counters(totalBytes, byteOffset, processBytes)
    }

    /** The buffer holds the end of an unfinished line. */
    predicate Valid()
      reads this`buffer
    {
      |buffer| <= MAX && OneLine(buffer)
    }

    constructor ()
      ensures Valid() && buffer == "" && handed == [] && Bytes() == Counters(0, 0, 0)
    {
      buffer, handed, totalBytes, byteOffset, processBytes := "", [], 0, 0, 0;
    }

    method DrainOutput(chunk: string)
      requires Valid()
      modifies this`buffer, this`handed
      ensures Valid()
      ensures handed == old(handed) + Short(Lines(old(buffer) + chunk))
      ensures buffer == Tail(Rest(old(buffer) + chunk))
    {
      KeptIsUnbroken(buffer + chunk);
      if chunk == "" {
        NothingRead(buffer);
        assert buffer + chunk == buffer;
        return;
      }
      var buffered := buffer + chunk;
      ghost var all, rest := handed + Short(Lines(buffered)), Rest(buffered);
      var next := FirstNewline(buffered, 0);
      TakeLine(buffered);
      while next < |buffered|
        invariant next == FirstNewline(buffered, 0) <= |buffered|
        invariant handed + Short(Lines(buffered)) == all && Rest(buffered) == rest
        decreases |buffered|
      {
        TakeLine(buffered);
        var line := buffered[..next];
        TakeShort(handed, line, Lines(buffered[next + 1..]));
        if |line| <= MAX {
          handed := handed + [line];
        }
        buffered := buffered[next + 1..];
        next := FirstNewline(buffered, 0);
        TakeLine(buffered);
      }
      TakeLine(buffered);
      buffer := Tail(buffered);
    }

    /** The byte count of a status line. */
    method ConsumeStatus(bytes: int)
      modifies this`totalBytes, this`processBytes
      ensures Bytes() == if bytes >= 0 then Reported(old(Bytes()), bytes) else old(Bytes())
    {
      if bytes >= 0 {
        processBytes := bytes;
        totalBytes := byteOffset + processBytes;
      }
    }

    method ScheduleRestart()
      modifies this`byteOffset, this`processBytes
      ensures Bytes() == Crashed(old(Bytes()))
    {
      byteOffset := totalBytes;
      processBytes := 0;
    }
  }

  // ---- How the stream is cut does not matter ----

  function Joined(chunks: seq<string>): string
    decreases |chunks|
  {
    if chunks == [] then "" else Joined(chunks[..|chunks| - 1]) + chunks[|chunks| - 1]
  }

  /** The lines handed on after reading the chunks, and the buffer left. */
  function Fed(chunks: seq<string>): (seq<string>, string)
    decreases |chunks|
  {
    if chunks == [] then ([], "")
    else
      var (handed, buffer) := Fed(chunks[..|chunks| - 1]);
      var text := buffer + chunks[|chunks| - 1];
      (handed + Short(Lines(text)), Tail(Rest(text)))
  }

  predicate AllShort(lines: seq<string>) {
    forall i :: 0 <= i < |lines| ==> |lines[i]| <= 65_536
  }

  lemma {:induction false} ShortKeepsAll(lines: seq<string>)
    requires AllShort(lines)
    ensures Short(lines) == lines
    decreases |lines|
  {
    if lines != [] {
      ShortKeepsAll(lines[..|lines| - 1]);
    }
  }

  /** A line completed by a later chunk is at least as long as what was waiting for it. */
  lemma {:induction false} FirstLineHolds(rest: string, chunk: string)
    requires OneLine(rest)
    ensures Lines(rest + chunk) != [] ==> |Lines(rest + chunk)[0]| >= |rest|
    ensures Lines(rest + chunk) == [] ==> Rest(rest + chunk) == rest + chunk
    decreases |chunk|
  {
    if chunk == "" {
      assert rest + chunk == rest;
      Unbroken(rest);
    } else {
      var n := |chunk| - 1;
      FirstLineHolds(rest, chunk[..n]);
      assert (rest + chunk)[..|rest + chunk| - 1] == rest + chunk[..n];
    }
  }

  lemma TailTwice(rest: string, chunk: string)
    ensures Tail(Tail(rest) + chunk) == Tail(rest + chunk)
  {
  }

  lemma {:induction false} FedShort(chunks: seq<string>)
    requires AllShort(Lines(Joined(chunks)))
    ensures Fed(chunks).0 == Lines(Joined(chunks)) && Fed(chunks).1 == Tail(Rest(Joined(chunks)))
    decreases |chunks|
  {
    if chunks != [] {
      var before, chunk := chunks[..|chunks| - 1], chunks[|chunks| - 1];
      var text, rest := Joined(before), Rest(Joined(before));
      SplitOn(text, chunk);
      PrefixShort(Lines(text), Lines(rest + chunk));
      FedShort(before);
      NextChunk(rest, chunk, text);
    }
  }

  lemma PrefixShort(a: seq<string>, b: seq<string>)
    requires AllShort(a + b)
    ensures AllShort(a) && AllShort(b)
  {
    forall i | 0 <= i < |a| ensures |a[i]| <= MAX { assert (a + b)[i] == a[i]; }
    forall i | 0 <= i < |b| ensures |b[i]| <= MAX { assert (a + b)[|a| + i] == b[i]; }
  }

  /** Cutting the buffer loses nothing a short line needs. */
  lemma NextChunk(rest: string, chunk: string, text: string)
    requires rest == Rest(text) && AllShort(Lines(rest + chunk))
    ensures Short(Lines(Tail(rest) + chunk)) == Lines(rest + chunk)
    ensures Tail(Rest(Tail(rest) + chunk)) == Tail(Rest(rest + chunk))
  {
    RestUnbroken(text);
    FirstLineHolds(rest, chunk);
    if |rest| <= MAX {
      ShortKeepsAll(Lines(rest + chunk));
    } else {
      assert Lines(rest + chunk) == [];
      NoNewline(rest, chunk);
      Unbroken(Tail(rest) + chunk);
      TailTwice(rest, chunk);
    }
  }

  lemma {:induction false} NoNewline(rest: string, chunk: string)
    requires OneLine(rest) && Lines(rest + chunk) == []
    ensures OneLine(Tail(rest) + chunk)
    decreases |chunk|
  {
    if chunk != "" {
      var n := |chunk| - 1;
      assert (rest + chunk)[..|rest + chunk| - 1] == rest + chunk[..n];
      NoNewline(rest, chunk[..n]);
      assert Tail(rest) + chunk == Tail(rest) + chunk[..n] + [chunk[n]];
    }
  }

  // ---- Reading character by character ----

  function Characters(text: string): (r: seq<string>)
    decreases |text|
  {
    if text == "" then [] else Characters(text[..|text| - 1]) + [[text[|text| - 1]]]
  }

  lemma {:induction false} JoinedCharacters(text: string)
    ensures Joined(Characters(text)) == text
    decreases |text|
  {
    if text != "" {
      JoinedCharacters(text[..|text| - 1]);
    }
  }

  /** Character by character every line is handed on, cut if need be. */
  lemma {:induction false} CharactersHandAll(text: string)
    ensures |Fed(Characters(text)).0| == |Lines(text)|
    ensures OneLine(Fed(Characters(text)).1) && |Fed(Characters(text)).1| <= MAX
    decreases |text|
  {
    if text != "" {
      var n := |text| - 1;
      CharactersHandAll(text[..n]);
      var buffer := Fed(Characters(text[..n])).1;
      OneCharacter(buffer, text[n]);
    }
  }

  lemma OneCharacter(buffer: string, c: char)
    requires OneLine(buffer) && |buffer| <= MAX
    ensures |Short(Lines(buffer + [c]))| == if c == '\n' then 1 else 0
    ensures OneLine(Tail(Rest(buffer + [c])))
  {
    assert (buffer + [c])[..|buffer|] == buffer;
    Unbroken(buffer);
    RestUnbroken(buffer + [c]);
    if c == '\n' {
      assert Lines(buffer + [c]) == [buffer];
      ShortKeepsAll([buffer]);
    } else {
      assert Lines(buffer + [c]) == [];
    }
  }

  lemma {:induction false} ShortCounts(lines: seq<string>)
    ensures |Short(lines)| <= |lines| && (|Short(lines)| == |lines| ==> AllShort(lines))
    decreases |lines|
  {
    if lines != [] {
      var n := |lines| - 1;
      ShortCounts(lines[..n]);
      assert lines == lines[..n] + [lines[n]];
    }
  }

  /** Do all ways of cutting the text hand on the same lines? */
  ghost predicate CutFree(text: string) {
    forall a, b :: Joined(a) == text && Joined(b) == text ==> Fed(a).0 == Fed(b).0
  }

  /** How the stream is cut into reads matters exactly when some line is longer than 65536; when none
      is, precisely the lines of the stream are handed on. */
  lemma CuttingMattersOnlyForLongLines(text: string)
    ensures CutFree(text) <==> AllShort(Lines(text))
    ensures AllShort(Lines(text)) ==> forall chunks :: Joined(chunks) == text ==> Fed(chunks).0 == Lines(text)
  {
    if AllShort(Lines(text)) {
      forall chunks | Joined(chunks) == text ensures Fed(chunks).0 == Lines(text) {
        FedShort(chunks);
      }
    } else {
      var whole, single := [text], Characters(text);
      assert whole[..0] == [] && Joined(whole) == text && "" + text == text;
      JoinedCharacters(text);
      CharactersHandAll(text);
      ShortCounts(Lines(text));
      assert Fed(whole).0 == Short(Lines(text));
    }
  }

  /** Whatever is read, the buffer stays bounded. */
  lemma BufferBounded(chunks: seq<string>)
    ensures |Fed(chunks).1| <= 65_536
  {
  }

  // ---- Byte totals ----

  /** A report of the running process, its crash, or the engine stopping it and starting another. */
  datatype CountEvent = Report(bytes: nat) | Crash | Stop

  function Count(events: seq<CountEvent>): Counters
    decreases |events|
  {
    if events == [] then Counters(0, 0, 0)
    else
      var before := Count(events[..|events| - 1]);
      match events[|events| - 1]
      case Report(bytes) => Reported(before, bytes)
      case Crash => Crashed(before)
      case Stop => before
  }

  /** The last report of the running process; 0 when it has not reported. */
  function LastOfRunning(events: seq<CountEvent>): nat {
    if events == [] then 0
    else
      match events[|events| - 1]
      case Report(bytes) => bytes
      case _ => 0
  }

  /** The sum of the last reports of all processes that have ended. */
  function EndedBytes(events: seq<CountEvent>): nat
    decreases |events|
  {
    if events == [] then 0
    else
      var before := events[..|events| - 1];
      EndedBytes(before) + if events[|events| - 1].Report? then 0 else LastOfRunning(before)
  }

  /** The sum of each process's last report. */
  function SumOfLast(events: seq<CountEvent>): nat {
    EndedBytes(events) + LastOfRunning(events)
  }

  /** The sum of the last reports of the processes stopped since the last crash. */
  function StoppedBytes(events: seq<CountEvent>): nat
    decreases |events|
  {
    if events == [] then 0
    else
      var before := events[..|events| - 1];
      match events[|events| - 1]
      case Report(_) => StoppedBytes(before)
      case Crash => 0
      case Stop => StoppedBytes(before) + LastOfRunning(before)
  }

  /** The last report since the last crash, whichever process made it; 0 when there is none. */
  function LatestReport(events: seq<CountEvent>): nat
    decreases |events|
  {
    if events == [] then 0
    else
      match events[|events| - 1]
      case Report(bytes) => bytes
      case Crash => 0
      case Stop => LatestReport(events[..|events| - 1])
  }

  /** Some process reports while bytes of a process stopped before it, since the last crash, count. */
  ghost predicate Forgetful(events: seq<CountEvent>) {
    exists j :: 0 <= j < |events| && events[j].Report? && StoppedBytes(events[..j]) > 0
  }

  lemma ForgetfulStep(events: seq<CountEvent>)
    requires events != []
    ensures var (before, last) := (events[..|events| - 1], events[|events| - 1]);
            Forgetful(events) <==> Forgetful(before) || (last.Report? && StoppedBytes(before) > 0)
  {
    var before := events[..|events| - 1];
    assert forall j :: 0 <= j < |before| ==> before[j] == events[j] && before[..j] == events[..j];
  }

  /** The counters hold the latest report and what the last crash left, which is never too much, and
      they hold too little exactly after a forgetful report. */
  lemma {:induction false} CountFacts(events: seq<CountEvent>)
    ensures var c := Count(events);
            && c.total == c.offset + c.current && c.current == LatestReport(events)
            && c.offset + StoppedBytes(events) <= EndedBytes(events)
            && (if LastOfRunning(events) > 0 then c.current == LastOfRunning(events)
                else c.current <= StoppedBytes(events))
            && (c.total < SumOfLast(events) <==> Forgetful(events))
    decreases |events|
  {
    if events != [] {
      CountFacts(events[..|events| - 1]);
      ForgetfulStep(events);
    }
  }

  /** Over any sequence of reports, crashes and stops the total is at most the sum of each process's
      last report, and less exactly if some process reported while an earlier one, stopped since the
      last crash, had downloaded something. */
  lemma StopForgets(events: seq<CountEvent>)
    ensures Count(events).total <= SumOfLast(events)
    ensures Count(events).total == SumOfLast(events) <==> !Forgetful(events)
  {
    CountFacts(events);
  }

  /** A process stopped after five bytes and one that reports three: the five are forgotten. */
  lemma FiveBytesForgotten()
    ensures var events := [Report(5), Stop, Report(3)];
            Count(events).total == 3 && SumOfLast(events) == 8 && Forgetful(events)
  {
    var one, two, events := [Report(5)], [Report(5), Stop], [Report(5), Stop, Report(3)];
    assert one[..0] == [] && Count(one) == Counters(5, 0, 5);
    assert EndedBytes(one) == 0 && StoppedBytes(one) == 0 && LastOfRunning(one) == 5;
    assert two[..1] == one && Count(two) == Counters(5, 0, 5);
    assert EndedBytes(two) == 5 && StoppedBytes(two) == 5;
    assert events[..2] == two && Count(events) == Counters(3, 0, 3);
    assert EndedBytes(events) == 5 && LastOfRunning(events) == 3;
    assert events[2].Report?;
  }

  /** Across any number of crashes, without stops, the total is the sum of each process's last report. */
  lemma TotalIsSumOfLast(events: seq<CountEvent>)
    requires forall j :: 0 <= j < |events| ==> !events[j].Stop?
    ensures Count(events).total == SumOfLast(events)
  {
    forall j | 0 <= j < |events| ensures StoppedBytes(events[..j]) == 0 {
      NothingStopped(events[..j]);
    }
    StopForgets(events);
  }

  lemma {:induction false} NothingStopped(events: seq<CountEvent>)
    requires forall j :: 0 <= j < |events| ==> !events[j].Stop?
    ensures StoppedBytes(events) == 0
    decreases |events|
  {
    if events != [] {
      NothingStopped(events[..|events| - 1]);
    }
  }

  /** At each step the total falls exactly when a report is less than the latest one since the last
      crash: never while each process reports non-decreasing counts and none is stopped. */
  lemma TotalNeverFalls(events: seq<CountEvent>, i: nat)
    requires i < |events|
    ensures Count(events[..i + 1]).total < Count(events[..i]).total
            <==> events[i].Report? && events[i].bytes < LatestReport(events[..i])
  {
    assert events[..i + 1][..i] == events[..i];
    CountFacts(events[..i]);
  }
}
