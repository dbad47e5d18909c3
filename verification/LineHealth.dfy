/** The slow-line verdict over a bounded, pruned window of byte samples
    (steam_pumper/fleet.py, _poll_engines and _line_health_failure). */
module LineHealth {
  import opened Time

  const MAX_SAMPLES: nat := 400

  datatype Sample = Sample(at: int, bytes: int)

  datatype Limits = Limits(stall: int, slowWindow: int, minimumMbps: int)

  /** A bounded deque drops its oldest sample when full. */
  function Appended(samples: seq<Sample>, sample: Sample): seq<Sample> {
    (if |samples| >= MAX_SAMPLES then samples[1..] else samples) + [sample]
  }

  function Trimmed(samples: seq<Sample>, cutoff: int): seq<Sample> {
    if |samples| > 2 && samples[1].at <= cutoff then Trimmed(samples[1..], cutoff) else samples
  }

  /** Samples are dropped from the front only, never down to fewer than two, and only while the next
      one is at or before the cutoff as well. */
  method Trim(samples: seq<Sample>, cutoff: int) returns (trimmed: seq<Sample>)
    ensures trimmed == Trimmed(samples, cutoff)
    ensures |trimmed| <= |samples| && trimmed == samples[|samples| - |trimmed|..]
    ensures |trimmed| < |samples| ==> |trimmed| >= 2 && trimmed[0].at <= cutoff
    ensures |trimmed| > 2 ==> trimmed[1].at > cutoff
  {
    trimmed := samples;
    while |trimmed| > 2 && trimmed[1].at <= cutoff
      invariant |trimmed| <= |samples| && trimmed == samples[|samples| - |trimmed|..]
      invariant |trimmed| < |samples| ==> |trimmed| >= 2 && trimmed[0].at <= cutoff
      invariant Trimmed(trimmed, cutoff) == Trimmed(samples, cutoff)
      decreases |trimmed|
    {
      trimmed := trimmed[1..];
    }
  }

  /** Megabits a second is bits a microsecond. */
  predicate BelowMinimum(limits: Limits, from: Sample, to: Sample) {
    Max(0, to.bytes - from.bytes) * 8 < limits.minimumMbps * (to.at - from.at)
  }

  /** The verdict of the program, on the samples it still has. */
  predicate Slow(limits: Limits, samples: seq<Sample>) {
    && |samples| >= 2
    && samples[|samples| - 1].at - samples[0].at >= limits.slowWindow
    && BelowMinimum(limits, samples[0], samples[|samples| - 1])
  }

  // ---- the reference: the whole history

  function History(start: int, polls: seq<Sample>): seq<Sample> {
    [Sample(start, 0)] + polls
  }

  predicate InOrder(samples: seq<Sample>) {
    forall i, j :: 0 <= i < j < |samples| ==> samples[i].at <= samples[j].at
  }

  /** The newest sample at or before the cutoff, or -1. */
  function Newest(samples: seq<Sample>, cutoff: int): (i: int)
    ensures -1 <= i < |samples|
  {
    if samples == [] then -1
    else if samples[|samples| - 1].at <= cutoff then |samples| - 1
    else Newest(samples[..|samples| - 1], cutoff)
  }

  lemma {:induction false} NewestIs(samples: seq<Sample>, cutoff: int, k: nat)
    requires k < |samples|
    ensures k > Newest(samples, cutoff) ==> samples[k].at > cutoff
    ensures k == Newest(samples, cutoff) ==> samples[k].at <= cutoff
    decreases |samples|
  {
    if samples[|samples| - 1].at > cutoff && k < |samples| - 1 {
      NewestIs(samples[..|samples| - 1], cutoff, k);
    }
  }

  predicate SlowInFull(limits: Limits, history: seq<Sample>, now: int) {
    var i := Newest(history, now - limits.slowWindow);
    i >= 0 &&
    var from, to := history[i], history[|history| - 1];
    Max(0, to.bytes - from.bytes) * 8 * SECOND < limits.minimumMbps * 1_000_000 * (to.at - from.at)
  }

  function InsideWindow(limits: Limits, history: seq<Sample>, now: int): int {
    |history| - 1 - Newest(history, now - limits.slowWindow)
  }

  /** When the line last had more bytes to show than the time before; its start if never. */
  function LastProgress(history: seq<Sample>): int
    requires history != []
  {
    var n := |history| - 1;
    if n == 0 then history[0].at
    else if history[n].bytes > history[n - 1].bytes then history[n].at
    else LastProgress(history[..n])
  }

  // ---- the window of a polled line

  function Polled(limits: Limits, samples: seq<Sample>, sample: Sample): seq<Sample> {
    Trimmed(Appended(samples, sample), sample.at - limits.slowWindow)
  }

  function Window(limits: Limits, start: int, polls: seq<Sample>): seq<Sample> {
    if polls == [] then [Sample(start, 0)]
    else
      var last := polls[|polls| - 1];
      Polled(limits, Window(limits, start, polls[..|polls| - 1]), last)
  }

  lemma WindowStep(limits: Limits, start: int, polls: seq<Sample>, sample: Sample)
    ensures Window(limits, start, polls + [sample]) == Polled(limits, Window(limits, start, polls), sample)
  {
    assert (polls + [sample])[..|polls|] == polls;
  }

  /** The window is the end of the history, and nothing is gone that the verdict needs
      unless the deque is full. */
  ghost predicate Tracks(samples: seq<Sample>, history: seq<Sample>, cutoff: int) {
    Reaches(samples, history, Newest(history, cutoff))
  }

  /** The last samples of a history. */
  ghost predicate IsTail(samples: seq<Sample>, history: seq<Sample>) {
    && |samples| <= |history|
    && forall k :: 0 <= k < |samples| ==> samples[k] == history[|history| - |samples| + k]
  }

  ghost predicate Reaches(samples: seq<Sample>, history: seq<Sample>, newest: int) {
    && 1 <= |samples| <= |history| && |samples| <= MAX_SAMPLES
    && IsTail(samples, history)
    && (|history| - |samples| <= Max(0, newest) || |samples| == MAX_SAMPLES)
  }

  lemma NewestGrows(history: seq<Sample>, sample: Sample, cutoff: int, later: int)
    requires InOrder(history + [sample]) && cutoff <= later
    ensures Newest(history, cutoff) <= Newest(history + [sample], later)
  {
    var i := Newest(history, cutoff);
    if i >= 0 {
      NewestIs(history, cutoff, i);
      NewestIs(history + [sample], later, i);
    }
  }

  lemma TailWithout(samples: seq<Sample>, history: seq<Sample>)
    requires samples != [] && IsTail(samples, history)
    ensures IsTail(samples[1..], history)
  {
  }

  lemma TailWith(samples: seq<Sample>, history: seq<Sample>, sample: Sample)
    requires IsTail(samples, history)
    ensures IsTail(samples + [sample], history + [sample])
  {
    var longer, from := history + [sample], |history| - |samples|;
    forall k | 0 <= k < |samples| + 1 ensures (samples + [sample])[k] == longer[from + k] {
      if k < |samples| {
        assert samples[k] == history[from + k] == longer[from + k];
      }
    }
  }

  lemma AppendReaches(samples: seq<Sample>, history: seq<Sample>, sample: Sample, newest: int, later: int)
    requires Reaches(samples, history, newest) && newest <= later
    ensures Reaches(Appended(samples, sample), history + [sample], later)
  {
    if |samples| == MAX_SAMPLES {
      TailWithout(samples, history);
      TailWith(samples[1..], history, sample);
    } else {
      TailWith(samples, history, sample);
    }
  }

  lemma {:induction false} TrimTracks(samples: seq<Sample>, history: seq<Sample>, cutoff: int)
    requires Tracks(samples, history, cutoff)
    ensures Tracks(Trimmed(samples, cutoff), history, cutoff)
    ensures var t := Trimmed(samples, cutoff); |t| <= 2 || t[1].at > cutoff
    decreases |samples|
  {
    if |samples| > 2 && samples[1].at <= cutoff {
      var from := |history| - |samples|;
      assert samples[1] == history[from + 1];
      NewestIs(history, cutoff, from + 1);
      TailWithout(samples, history);
      TrimTracks(samples[1..], history, cutoff);
    }
  }

  lemma HistoryStep(start: int, polls: seq<Sample>)
    requires polls != [] && InOrder(History(start, polls))
    ensures var before := History(start, polls[..|polls| - 1]);
            && History(start, polls) == before + [polls[|polls| - 1]]
            && InOrder(before) && before[|before| - 1].at <= polls[|polls| - 1].at
  {
    var before, history := History(start, polls[..|polls| - 1]), History(start, polls);
    assert history == before + [polls[|polls| - 1]];
    forall i, j | 0 <= i < j < |before| ensures before[i].at <= before[j].at {
      assert before[i] == history[i] && before[j] == history[j];
    }
    assert history[|before| - 1].at <= history[|before|].at;
  }

  /** Tracks, at the cutoff of the newest sample. */
  ghost predicate Follows(limits: Limits, samples: seq<Sample>, history: seq<Sample>)
    requires history != []
  {
    Tracks(samples, history, history[|history| - 1].at - limits.slowWindow)
  }

  lemma PollFollows(limits: Limits, samples: seq<Sample>, history: seq<Sample>, sample: Sample)
    requires history != [] && InOrder(history + [sample]) && Follows(limits, samples, history)
    ensures Follows(limits, Polled(limits, samples, sample), history + [sample])
  {
    var longer := history + [sample];
    assert longer[|history| - 1] == history[|history| - 1] && longer[|history|] == sample;
    var cutoff, later := history[|history| - 1].at - limits.slowWindow, sample.at - limits.slowWindow;
    NewestGrows(history, sample, cutoff, later);
    AppendReaches(samples, history, sample, Newest(history, cutoff), Newest(longer, later));
    TrimTracks(Appended(samples, sample), longer, later);
  }

  lemma StartFollows(limits: Limits, start: int)
    ensures History(start, []) == [Sample(start, 0)]
    ensures Follows(limits, [Sample(start, 0)], [Sample(start, 0)])
  {
  }

  lemma {:induction false} WindowFollows(limits: Limits, start: int, polls: seq<Sample>)
    requires InOrder(History(start, polls))
    ensures Follows(limits, Window(limits, start, polls), History(start, polls))
    decreases |polls|
  {
    if |polls| == 0 {
      StartFollows(limits, start);
      assert polls == [];
    } else {
      HistoryStep(start, polls);
      var before, last := polls[..|polls| - 1], polls[|polls| - 1];
      WindowFollows(limits, start, before);
      PollFollows(limits, Window(limits, start, before), History(start, before), last);
      assert Window(limits, start, polls) == Polled(limits, Window(limits, start, before), last);
    }
  }

  /** A settled window starts at the newest sample before the cutoff when that is within reach. */
  lemma StartsAtNewest(samples: seq<Sample>, history: seq<Sample>, cutoff: int)
    requires history != [] && InOrder(history) && history[|history| - 1].at > cutoff
    requires Tracks(samples, history, cutoff)
    requires |samples| > 2 ==> samples[1].at > cutoff
    requires 0 <= Newest(history, cutoff) && |history| - 1 - Newest(history, cutoff) < MAX_SAMPLES
    ensures |history| - |samples| == Newest(history, cutoff) < |history| - 1
  {
    var from, newest := |history| - |samples|, Newest(history, cutoff);
    NewestIs(history, cutoff, newest);
    NewestIs(history, cutoff, |history| - 1);
    if |samples| > 2 {
      assert history[from + 1].at > cutoff >= history[newest].at;
      assert !(from + 1 <= newest);
    }
  }

  /** Otherwise it starts inside the window. */
  lemma StartsInside(samples: seq<Sample>, history: seq<Sample>, cutoff: int)
    requires Tracks(samples, history, cutoff)
    requires Newest(history, cutoff) < 0 || |history| - 1 - Newest(history, cutoff) >= MAX_SAMPLES
    ensures samples[0].at > cutoff
  {
    NewestIs(history, cutoff, |history| - |samples|);
  }

  /** The pruned window judges exactly as the whole history does while fewer than 400 samples
      fall inside the window, and never calls a line slow otherwise. */
  lemma WindowVerdict(limits: Limits, start: int, polls: seq<Sample>)
    requires polls != [] && InOrder(History(start, polls)) && limits.slowWindow > 0
    ensures var history, now := History(start, polls), polls[|polls| - 1].at;
            Slow(limits, Window(limits, start, polls))
            <==> SlowInFull(limits, history, now) && InsideWindow(limits, history, now) < 400
  {
    var history := History(start, polls);
    assert history[|history| - 1] == polls[|polls| - 1];
    WindowFollows(limits, start, polls);
    SettledWindow(limits, start, polls);
    VerdictOn(limits, Window(limits, start, polls), history);
  }

  /** The verdict on a settled end of a history, whatever produced it. */
  lemma VerdictOn(limits: Limits, samples: seq<Sample>, history: seq<Sample>)
    requires history != [] && InOrder(history) && limits.slowWindow > 0
    requires var cutoff := history[|history| - 1].at - limits.slowWindow;
             Tracks(samples, history, cutoff) && (|samples| <= 2 || samples[1].at > cutoff)
    ensures var now := history[|history| - 1].at;
            Slow(limits, samples)
            <==> SlowInFull(limits, history, now) && InsideWindow(limits, history, now) < 400
  {
    var cutoff := history[|history| - 1].at - limits.slowWindow;
    var newest := Newest(history, cutoff);
    if 0 <= newest && |history| - 1 - newest < MAX_SAMPLES {
      StartsAtNewest(samples, history, cutoff);
      NewestIs(history, cutoff, newest);
    } else {
      StartsInside(samples, history, cutoff);
    }
  }

  lemma SettledWindow(limits: Limits, start: int, polls: seq<Sample>)
    requires polls != [] && InOrder(History(start, polls)) && limits.slowWindow > 0
    ensures var samples, cutoff := Window(limits, start, polls), polls[|polls| - 1].at - limits.slowWindow;
            |samples| <= 2 || samples[1].at > cutoff
  {
    var before, last := polls[..|polls| - 1], polls[|polls| - 1];
    Settled(Appended(Window(limits, start, before), last), last.at - limits.slowWindow);
  }

  lemma {:induction false} Settled(samples: seq<Sample>, cutoff: int)
    ensures var t := Trimmed(samples, cutoff); |t| <= 2 || t[1].at > cutoff
    decreases |samples|
  {
    if |samples| > 2 && samples[1].at <= cutoff {
      Settled(samples[1..], cutoff);
    }
  }

  /** A byte a second, polled once a second. */
  function Trickle(n: nat): seq<Sample> {
    seq(n, k => Sample((k + 1) * SECOND, k + 1))
  }

  lemma TrickleAt(n: nat, k: nat)
    requires k <= n
    ensures |History(0, Trickle(n))| == n + 1 && History(0, Trickle(n))[k] == Sample(k * SECOND, k)
  {
  }

  lemma TrickleInOrder(n: nat)
    ensures InOrder(History(0, Trickle(n)))
  {
    forall i, j | 0 <= i < j < |History(0, Trickle(n))|
      ensures History(0, Trickle(n))[i].at <= History(0, Trickle(n))[j].at
    {
      TrickleAt(n, i);
      TrickleAt(n, j);
    }
  }

  lemma TrickleNewest(n: nat, w: nat)
    ensures Newest(History(0, Trickle(n)), (n - w) * SECOND) == if n >= w then n - w else -1
  {
    var history, cutoff := History(0, Trickle(n)), (n - w) * SECOND;
    var newest := Newest(history, cutoff);
    TrickleAt(n, 0);
    if newest >= 0 {
      NewestIs(history, cutoff, newest);
      TrickleAt(n, newest);
    }
    if n >= w {
      NewestIs(history, cutoff, n - w);
      TrickleAt(n, n - w);
    }
  }

  /** A window of 400 seconds or more, polled once a second, holds too many samples: a byte a second
      is below any minimum over the full history, and is never found slow. */
  lemma FullDequeMissesSlowLine(limits: Limits, w: nat, n: nat)
    requires limits.slowWindow == w * SECOND && w >= 400 && limits.minimumMbps >= 1 && n > 0
    ensures InOrder(History(0, Trickle(n)))
    ensures !Slow(limits, Window(limits, 0, Trickle(n)))
    ensures n >= w ==> SlowInFull(limits, History(0, Trickle(n)), n * SECOND)
  {
    TrickleInOrder(n);
    TrickleNewest(n, w);
    TrickleAt(n, n);
    assert Trickle(n)[n - 1].at == n * SECOND;
    WindowVerdict(limits, 0, Trickle(n));
    if n >= w {
      TrickleAt(n, n - w);
      AtLeastOnce(limits.minimumMbps, w * SECOND);
    }
  }

  lemma AtLeastOnce(times: int, amount: int)
    requires times >= 1 && amount >= 0
    ensures times * amount >= amount
  {
  }
}
