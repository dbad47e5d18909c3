/** The manifest document: how the publisher builds it (source_publisher/manifest.py) and when the
    downloader accepts it (steam_pumper/remote_sources.py). */
module Manifest {
  import opened Time
  import opened Wrappers
  import opened Ordering
  import opened Calendar

  type Url = string

  /** A measured speed in Mbit/s; a float may also be infinite or not comparable to any number from 0 on. */
  datatype Speed = Finite(mbps: real) | Infinite | NotANumber

  datatype Probe = Probe(url: Url, success: bool, checkedAt: int, speed: Speed)

  datatype Entry = Entry(url: Url, checkedAt: int, speed: Speed)

  datatype Document = Document(schema: int, revision: int, generatedAt: int, expiresAt: int, sources: seq<Entry>)

  datatype Source = Source(url: Url, checkedAt: int, mbps: real)

  datatype Manifest = Manifest(revision: int, generatedAt: int, expiresAt: int, sources: seq<Source>)

  /** `normalize` is the downloader's URL rule: None for one it refuses. */
  datatype Rules = Rules(minSources: int, normalize: Url -> Option<Url>)

  const MAX_SOURCES: nat := 100
  const VALIDITY: int := 72 * HOUR
  const SKEW: int := 10 * MINUTE

  function Urls(manifest: Manifest): seq<Url> {
    seq(|manifest.sources|, i requires 0 <= i < |manifest.sources| => manifest.sources[i].url)
  }

  // ---- The publisher's side ----

  predicate Healthy(probe: Probe) {
    probe.success && probe.speed.Finite? && probe.speed.mbps >= 0.0
  }

  function Mbps(speed: Speed): real {
    if speed.Finite? then speed.mbps else -1.0
  }

  /** Faster first, equal speeds by URL. */
  predicate FasterFirst(a: Probe, b: Probe) {
    Mbps(a.speed) > Mbps(b.speed) || (Mbps(a.speed) == Mbps(b.speed) && StringLe(a.url, b.url))
  }

  /** An instant as a document spells it. */
  function Timestamp(t: int): int {
    WholeSecond(t) * SECOND
  }

  /** To the nearest thousandth, halves to the even one. */
  function Rounded(x: real): real {
    var low := (x * 1000.0).Floor;
    var rest := x * 1000.0 - low as real;
    (if rest < 0.5 || (rest == 0.5 && low % 2 == 0) then low else low + 1) as real / 1000.0
  }

  function EntryOf(probe: Probe): Entry {
    Entry(probe.url, Timestamp(probe.checkedAt),
          if probe.speed.Finite? then Finite(Rounded(probe.speed.mbps)) else probe.speed)
  }

  function NextRevision(at: int, previous: int): int
    requires at >= 0
  {
    if Stamp(at) <= previous then previous + 1 else Stamp(at)
  }

  function Chosen(results: seq<Probe>, maxSources: nat): seq<Probe> {
    First(Sort(Filter(results, Healthy), FasterFirst), maxSources)
  }

  function Build(results: seq<Probe>, at: int, maxSources: nat, previous: int): Document
    requires at >= 0
  {
    var chosen := Chosen(results, maxSources);
    Document(1, NextRevision(at, previous), Timestamp(at), Timestamp(at + VALIDITY),
             seq(|chosen|, i requires 0 <= i < |chosen| => EntryOf(chosen[i])))
  }

  // ---- The downloader's side ----

  /** A check made between 24 hours before and 10 minutes after publication. */
  predicate CheckedInTime(generatedAt: int, checkedAt: int) {
    generatedAt - 24 * HOUR <= checkedAt <= generatedAt + SKEW
  }

  predicate AcceptableEntry(rules: Rules, document: Document, entry: Entry) {
    && rules.normalize(entry.url).Some?
    && CheckedInTime(document.generatedAt, entry.checkedAt)
    && entry.speed.Finite? && entry.speed.mbps >= 0.0
  }

  predicate AcceptableHeader(rules: Rules, document: Document, now: int, allowExpired: bool) {
    && document.schema == 1 && ValidRevision(document.revision)
    && document.generatedAt <= now + SKEW
    && document.expiresAt - document.generatedAt == VALIDITY
    && (allowExpired || now < document.expiresAt)
    && rules.minSources <= |document.sources| <= MAX_SOURCES
  }

  predicate DistinctNormalized(rules: Rules, sources: seq<Entry>) {
    forall i, j :: 0 <= i < j < |sources| ==> rules.normalize(sources[i].url) != rules.normalize(sources[j].url)
  }

  predicate Acceptable(rules: Rules, document: Document, now: int, allowExpired: bool) {
    && AcceptableHeader(rules, document, now, allowExpired)
    && (forall i :: 0 <= i < |document.sources| ==> AcceptableEntry(rules, document, document.sources[i]))
    && DistinctNormalized(rules, document.sources)
  }

  function SourceOf(rules: Rules, entry: Entry): Source {
    var url := rules.normalize(entry.url);
    Source(if url.Some? then url.value else entry.url, entry.checkedAt, Mbps(entry.speed))
  }

  function ManifestOf(rules: Rules, document: Document): Manifest {
    Manifest(document.revision, document.generatedAt, document.expiresAt,
             seq(|document.sources|, i requires 0 <= i < |document.sources| => SourceOf(rules, document.sources[i])))
  }

  /** What parsing must return. */
  function Parsed(rules: Rules, document: Document, now: int, allowExpired: bool): Option<Manifest> {
    if Acceptable(rules, document, now, allowExpired) then Some(ManifestOf(rules, document)) else None
  }

  method Parse(rules: Rules, document: Document, now: int, allowExpired: bool) returns (manifest: Option<Manifest>)
    ensures manifest == Parsed(rules, document, now, allowExpired)
  {
    if document.schema != 1 || !ValidRevision(document.revision) {
      return None;
    }
    if document.generatedAt > now + SKEW || document.expiresAt - document.generatedAt != VALIDITY {
      return None;
    }
    if !allowExpired && document.expiresAt <= now {
      return None;
    }
    if |document.sources| < rules.minSources || |document.sources| > MAX_SOURCES {
      return None;
    }
    var entries: seq<Source>, seen: set<Url> := [], {};
    for i := 0 to |document.sources|
      invariant Checked(rules, document, entries, seen, i)
    {
      var entry := document.sources[i];
      var url := rules.normalize(entry.url);
      if url.None? {
        assert !AcceptableEntry(rules, document, entry);
        return None;
      }
      if url.value in seen {
        SeenTwice(rules, document, entries, seen, i);
        return None;
      }
      if !CheckedInTime(document.generatedAt, entry.checkedAt) || !entry.speed.Finite? || entry.speed.mbps < 0.0 {
        assert !AcceptableEntry(rules, document, entry);
        return None;
      }
      CheckedNext(rules, document, entries, seen, i);
      seen := seen + {url.value};
      entries := entries + [Source(url.value, entry.checkedAt, entry.speed.mbps)];
    }
    AllChecked(rules, document, entries, seen);
    manifest := Some(Manifest(document.revision, document.generatedAt, document.expiresAt, entries));
  }

  /** The first `i` sources are acceptable and have become `entries`, whose URLs are `seen`. */
  ghost predicate Checked(rules: Rules, document: Document, entries: seq<Source>, seen: set<Url>, i: nat) {
    && |entries| == i <= |document.sources|
    && (forall k :: 0 <= k < i ==> AcceptableEntry(rules, document, document.sources[k]))
    && (forall k :: 0 <= k < i ==> entries[k] == SourceOf(rules, document.sources[k]))
    && DistinctNormalized(rules, document.sources[..i])
    && seen == set source | source in entries :: source.url
  }

  lemma CheckedNext(rules: Rules, document: Document, entries: seq<Source>, seen: set<Url>, i: nat)
    requires Checked(rules, document, entries, seen, i) && i < |document.sources|
    requires AcceptableEntry(rules, document, document.sources[i])
    requires rules.normalize(document.sources[i].url).value !in seen
    ensures var source := SourceOf(rules, document.sources[i]);
            Checked(rules, document, entries + [source], seen + {source.url}, i + 1)
  {
    var sources, source := document.sources, SourceOf(rules, document.sources[i]);
    forall k | 0 <= k < i ensures rules.normalize(sources[k].url) != rules.normalize(sources[i].url) {
      assert entries[k] in entries;
    }
    forall j, k | 0 <= j < k < i ensures rules.normalize(sources[j].url) != rules.normalize(sources[k].url) {
      assert sources[..i][j] == sources[j] && sources[..i][k] == sources[k];
    }
  }

  lemma SeenTwice(rules: Rules, document: Document, entries: seq<Source>, seen: set<Url>, i: nat)
    requires Checked(rules, document, entries, seen, i) && i < |document.sources|
    requires rules.normalize(document.sources[i].url).Some? && rules.normalize(document.sources[i].url).value in seen
    ensures !DistinctNormalized(rules, document.sources)
  {
    var source :| source in entries && source.url == rules.normalize(document.sources[i].url).value;
    var k :| 0 <= k < i && entries[k] == source;
    assert rules.normalize(document.sources[k].url) == rules.normalize(document.sources[i].url);
  }

  lemma AllChecked(rules: Rules, document: Document, entries: seq<Source>, seen: set<Url>)
    requires Checked(rules, document, entries, seen, |document.sources|)
    ensures forall k :: 0 <= k < |document.sources| ==> AcceptableEntry(rules, document, document.sources[k])
    ensures DistinctNormalized(rules, document.sources) && entries == ManifestOf(rules, document).sources
  {
    assert document.sources[..|document.sources|] == document.sources;
  }

  /** What may be wrong with a source: a URL that is refused, a check more than a day before or ten minutes
      after generation, or a speed that is no number from 0 on. */
  predicate GoodSource(rules: Rules, generatedAt: int, entry: Entry) {
    && rules.normalize(entry.url) != None
    && generatedAt - 24 * 60 * MINUTE <= entry.checkedAt && entry.checkedAt - generatedAt <= 10 * MINUTE
    && match entry.speed
       case Finite(mbps) => mbps >= 0.0
       case Infinite => false
       case NotANumber => false
  }

  /** Exactly what is accepted: a document of the first schema with an instant for a revision, generated at
      most ten minutes from now, valid for three days and, where that matters, still valid, with at least
      the minimum and at most a hundred good sources, no two of them the same. */
  lemma AcceptedWhen(rules: Rules, document: Document, now: int, allowExpired: bool)
    ensures Parsed(rules, document, now, allowExpired).Some? <==>
              && document.schema == 1 && ValidRevision(document.revision)
              && document.generatedAt - now <= 10 * MINUTE
              && document.expiresAt == document.generatedAt + 3 * DAY
              && (document.expiresAt > now || allowExpired)
              && |document.sources| >= rules.minSources && |document.sources| <= 100
              && (forall i :: 0 <= i < |document.sources| ==>
                    GoodSource(rules, document.generatedAt, document.sources[i]))
              && (forall i, j :: 0 <= i < j < |document.sources| ==>
                    rules.normalize(document.sources[i].url) != rules.normalize(document.sources[j].url))
  {
    forall i | 0 <= i < |document.sources|
      ensures GoodSource(rules, document.generatedAt, document.sources[i])
              <==> AcceptableEntry(rules, document, document.sources[i])
    {
    }
  }

  /** And what it then means: its own revision and times, and its sources in order, normalized. */
  lemma MeaningIs(rules: Rules, document: Document, now: int, allowExpired: bool, i: nat)
    requires Parsed(rules, document, now, allowExpired).Some? && i < |document.sources|
    ensures var manifest := Parsed(rules, document, now, allowExpired).value;
            && manifest.revision == document.revision && manifest.generatedAt == document.generatedAt
            && manifest.expiresAt == document.expiresAt && |manifest.sources| == |document.sources|
            && rules.normalize(document.sources[i].url) == Some(manifest.sources[i].url)
            && manifest.sources[i].checkedAt == document.sources[i].checkedAt
            && document.sources[i].speed == Finite(manifest.sources[i].mbps)
            && Urls(manifest)[i] == manifest.sources[i].url
  {
    assert AcceptableEntry(rules, document, document.sources[i]);
  }

  /** Once accepted, a document is accepted at every later time, at first as current and then as
      expired, and always means the same. */
  lemma AcceptedForGood(rules: Rules, document: Document, now: int, later: int, allowExpired: bool)
    requires Parsed(rules, document, now, allowExpired).Some? && now <= later
    ensures Parsed(rules, document, later, true) == Parsed(rules, document, now, allowExpired)
    ensures Parsed(rules, document, later, false).Some? <==> later < document.generatedAt + 72 * HOUR
  {
  }

  // ---- The two agree ----

  lemma FasterFirstTotal()
    ensures TotalPreorder(FasterFirst)
  {
    forall a, b ensures FasterFirst(a, b) || FasterFirst(b, a) {
      StringTotal(a.url, b.url);
    }
    forall a, b, c | FasterFirst(a, b) && FasterFirst(b, c) ensures FasterFirst(a, c) {
      if Mbps(a.speed) == Mbps(b.speed) == Mbps(c.speed) {
        StringTransitive(a.url, b.url, c.url);
      }
    }
  }

  /** Rounding moves no speed by more than half a thousandth and never turns an order around. */
  lemma RoundedFacts(x: real, y: real)
    ensures -0.0005 <= Rounded(x) - x <= 0.0005
    ensures x >= 0.0 ==> Rounded(x) >= 0.0
    ensures x <= y ==> Rounded(x) <= Rounded(y)
  {
    var low, high := (x * 1000.0).Floor, (y * 1000.0).Floor;
    assert low as real <= x * 1000.0 < low as real + 1.0;
    assert high as real <= y * 1000.0 < high as real + 1.0;
    if x <= y {
      assert x * 1000.0 <= y * 1000.0;
      assert low <= high;
    }
  }

  /** What the publisher's probes must satisfy: URLs the downloader takes for different sources, each
      checked between 24 hours before and 10 minutes after publication. */
  ghost predicate Publishable(rules: Rules, chosen: seq<Probe>, at: int) {
    && rules.minSources <= |chosen| <= 100
    && (forall i :: 0 <= i < |chosen| ==> rules.normalize(chosen[i].url).Some?)
    && (forall i :: 0 <= i < |chosen| ==>
          Timestamp(at) - 24 * HOUR <= Timestamp(chosen[i].checkedAt) <= Timestamp(at) + 10 * MINUTE)
    && forall i, j :: 0 <= i < j < |chosen| ==> rules.normalize(chosen[i].url) != rules.normalize(chosen[j].url)
  }

  lemma ChosenHealthy(results: seq<Probe>, maxSources: nat, i: nat)
    requires i < |Chosen(results, maxSources)|
    ensures Chosen(results, maxSources)[i] in results && Healthy(Chosen(results, maxSources)[i])
  {
    var sorted := Sort(Filter(results, Healthy), FasterFirst);
    assert sorted[i] in multiset(sorted);
    assert sorted[i] in Filter(results, Healthy);
  }

  /** The downloader accepts a built document exactly if its probes are publishable and its revision reads as
      an instant, and then from 10 minutes before its generation until 72 hours after. */
  lemma AcceptedUntilExpiry(rules: Rules, results: seq<Probe>, at: int, maxSources: nat, previous: int, now: int)
    requires at >= 0
    ensures Parsed(rules, Build(results, at, maxSources, previous), now, false).Some? <==>
              && Publishable(rules, Chosen(results, maxSources), at)
              && ValidRevision(NextRevision(at, previous))
              && Timestamp(at) - 10 * MINUTE <= now < Timestamp(at) + 72 * HOUR
  {
    BuiltEntries(rules, results, at, maxSources, previous);
    BuiltHeader(rules, Build(results, at, maxSources, previous), at, now);
  }

  lemma BuiltHeader(rules: Rules, document: Document, at: int, now: int)
    requires document.schema == 1
    requires document.generatedAt == Timestamp(at) && document.expiresAt == Timestamp(at + VALIDITY)
    ensures AcceptableHeader(rules, document, now, false) <==>
              && ValidRevision(document.revision) && rules.minSources <= |document.sources| <= 100
              && Timestamp(at) - 10 * MINUTE <= now < Timestamp(at) + 72 * HOUR
  {
    assert Timestamp(at + VALIDITY) == Timestamp(at) + VALIDITY;
  }

  lemma BuiltEntries(rules: Rules, results: seq<Probe>, at: int, maxSources: nat, previous: int)
    requires at >= 0
    ensures var (document, chosen) := (Build(results, at, maxSources, previous), Chosen(results, maxSources));
            && |document.sources| == |chosen|
            && (DistinctNormalized(rules, document.sources) <==>
                  forall i, j :: 0 <= i < j < |chosen| ==>
                    rules.normalize(chosen[i].url) != rules.normalize(chosen[j].url))
            && forall i :: 0 <= i < |chosen| ==>
                 (AcceptableEntry(rules, document, document.sources[i]) <==>
                    && rules.normalize(chosen[i].url).Some?
                    && Timestamp(at) - 24 * HOUR <= Timestamp(chosen[i].checkedAt) <= Timestamp(at) + 10 * MINUTE)
  {
    var document, chosen := Build(results, at, maxSources, previous), Chosen(results, maxSources);
    assert forall i :: 0 <= i < |chosen| ==> document.sources[i].url == chosen[i].url;
    forall i | 0 <= i < |chosen|
      ensures AcceptableEntry(rules, document, document.sources[i]) <==>
                && rules.normalize(chosen[i].url).Some?
                && Timestamp(at) - 24 * HOUR <= Timestamp(chosen[i].checkedAt) <= Timestamp(at) + 10 * MINUTE
    {
      ChosenHealthy(results, maxSources, i);
      RoundedFacts(chosen[i].speed.mbps, chosen[i].speed.mbps);
    }
  }

  /** When the revision reads as an instant: it is the clock's, or the previous one's seconds have
      room for one more. */
  lemma RevisionReadsAsInstant(at: int, previous: int)
    requires at >= 0 && DateOf(at).year <= 9999 && (previous < Stamp(at) || ValidRevision(previous))
    ensures NextRevision(at, previous) > previous
    ensures ValidRevision(NextRevision(at, previous)) <==> previous < Stamp(at) || previous % 100 < 59
  {
    StampValid(at);
    if previous >= Stamp(at) {
      Calendar.NextRevision(previous);
    }
  }

  /** A publisher whose clock has moved on by a second since its last revision. */
  lemma ClockMovedOn(last: int, at: int)
    requires 0 <= last && WholeSecond(last) < WholeSecond(at) && DateOf(at).year <= 9999
    ensures NextRevision(at, Stamp(last)) == Stamp(at) && ValidRevision(Stamp(at))
  {
    StampIncreases(last, at);
    StampValid(at);
  }

  /** A second publication in the last second of a minute is refused for good. */
  lemma SixtiethSecond(rules: Rules, results: seq<Probe>, at: int, maxSources: nat, now: int)
    requires at >= 0 && Stamp(at) <= 20260131235959
    ensures Build(results, at, maxSources, 20260131235959).revision == 20260131235960
    ensures ValidRevision(20260131235959)
            && Parsed(rules, Build(results, at, maxSources, 20260131235959), now, true).None?
  {
    SixtiethSecondInvalid();
  }

  /** The downloader sees the publisher's URLs and rounded speeds, the fastest first, expiring 72 hours
      after generation. */
  lemma OrderArrives(rules: Rules, results: seq<Probe>, at: int, maxSources: nat, previous: int, now: int)
    requires at >= 0
    requires Parsed(rules, Build(results, at, maxSources, previous), now, false).Some?
    ensures var (manifest, chosen) := (Parsed(rules, Build(results, at, maxSources, previous), now, false).value,
                                       Chosen(results, maxSources));
            && |Urls(manifest)| == |chosen|
            && manifest.expiresAt == manifest.generatedAt + 72 * HOUR
            && manifest.revision > previous
            && (forall i :: 0 <= i < |chosen| ==> rules.normalize(chosen[i].url) == Some(Urls(manifest)[i]))
            && (forall i :: 0 <= i < |chosen| ==> manifest.sources[i].mbps == Rounded(Mbps(chosen[i].speed)))
            && (forall i, j :: 0 <= i < j < |chosen| ==> manifest.sources[i].mbps >= manifest.sources[j].mbps)
  {
    var document, chosen := Build(results, at, maxSources, previous), Chosen(results, maxSources);
    var manifest := ManifestOf(rules, document);
    forall i | 0 <= i < |chosen| ensures manifest.sources[i].mbps == Rounded(Mbps(chosen[i].speed)) {
      ChosenHealthy(results, maxSources, i);
    }
    forall i, j | 0 <= i < j < |chosen| ensures manifest.sources[i].mbps >= manifest.sources[j].mbps {
      InSpeedOrder(results, maxSources, i, j);
      RoundedFacts(Mbps(chosen[j].speed), Mbps(chosen[i].speed));
    }
  }

  lemma InSpeedOrder(results: seq<Probe>, maxSources: nat, i: nat, j: nat)
    requires i < j < |Chosen(results, maxSources)|
    ensures Mbps(Chosen(results, maxSources)[i].speed) >= Mbps(Chosen(results, maxSources)[j].speed)
  {
    FasterFirstTotal();
    SortSorts(Filter(results, Healthy), FasterFirst);
    assert FasterFirst(Chosen(results, maxSources)[i], Chosen(results, maxSources)[j]);
  }

  /** The chosen probes succeeded with a speed from 0 on, and if there is room for all that did, all are
      chosen. */
  lemma ChosenWhen(results: seq<Probe>, maxSources: nat, probe: Probe)
    ensures probe in Chosen(results, maxSources) ==>
              probe in results && probe.success && probe.speed.Finite? && probe.speed.mbps >= 0.0
    ensures (probe in results && probe.success && probe.speed.Finite? && probe.speed.mbps >= 0.0
             && |Filter(results, Healthy)| <= maxSources) ==> probe in Chosen(results, maxSources)
    ensures |Chosen(results, maxSources)| <= maxSources
  {
    var healthy := Filter(results, Healthy);
    var sorted := Sort(healthy, FasterFirst);
    assert probe in multiset(sorted) <==> probe in multiset(healthy);
  }

  /** Halves are rounded to the even thousandth. */
  lemma HalvesToEven(n: int)
    ensures Rounded((n as real + 0.5) / 1000.0) * 1000.0 == (if n % 2 == 0 then n else n + 1) as real
  {
    var x := (n as real + 0.5) / 1000.0;
    assert x * 1000.0 == n as real + 0.5;
    assert (x * 1000.0).Floor == n;
  }

  /** No healthy source left out for want of room is faster than one that was taken. */
  lemma NoneFasterLeftOut(results: seq<Probe>, maxSources: nat, taken: Probe, left: Probe)
    requires taken in Chosen(results, maxSources) && left in results && Healthy(left)
             && left !in Chosen(results, maxSources)
    ensures Mbps(taken.speed) >= Mbps(left.speed)
  {
    FasterFirstTotal();
    FrontOfSorted(Filter(results, Healthy), FasterFirst, maxSources, taken, left);
  }
}
