/** The controller object: the scheduling rules carried out in place
    (steam_pumper/fleet.py, class FleetController). */
module FleetController {
  import opened Time
  import opened Ordering
  import opened LineHealth
  import opened FleetStore
  import opened TrafficLedger
  import opened FleetScheduler
  import opened FleetSchedulerLaws

  lemma FirstStep<T(!new)>(s: seq<T>, n: nat, x: T)
    ensures First(s + [x], n) == if |s| < n then First(s, n) + [x] else First(s, n)
  {}

  function KeptOf(lines: seq<Line>, keep: Line -> bool, n: nat): seq<string> {
    Ids(First(Filter(lines, keep), n))
  }

  /** One more line in order of insertion: it is kept if it may be and there is room. */
  lemma KeepNext(lines: seq<Line>, keep: Line -> bool, i: nat, n: nat)
    requires i < |lines|
    ensures var before := KeptOf(lines[..i], keep, n);
            KeptOf(lines[..i + 1], keep, n)
            == if keep(lines[i]) && |before| < n then before + [lines[i].account.id] else before
  {
    FilterStep(lines, keep, i);
    FirstStep(Filter(lines[..i], keep), n, lines[i]);
  }

  class FleetController {
    const settings: Settings
    var manualEnabled: bool
    var accounts: seq<Account>
    var quality: map<string, Verdict>
    var active: seq<Line>
    var cooldowns: map<string, int>

    constructor (settings: Settings, manualEnabled: bool, accounts: seq<Account>)
      requires DistinctIds(accounts)
      ensures this.settings == settings && Safe(State())
      ensures State() == Fleet(manualEnabled, accounts, map[], [], map[])
    {
      this.settings, this.manualEnabled, this.accounts := settings, manualEnabled, accounts;
      quality, active, cooldowns := map[], [], map[];
    }

    function State(): Fleet
      reads this
    {
      Fleet(manualEnabled, accounts, quality, active, cooldowns)
    }

    method StopAll()
      modifies this`active
      ensures State() == old(State()).(active := [])
    {
      active := [];
    }

    method SetManualEnabled(enabled: bool)
      modifies this`manualEnabled, this`active
      ensures Step(settings, old(State()), ManualSwitched(enabled), State())
    {
      manualEnabled := enabled;
      if !enabled {
        StopAll();
      }
    }

    method ImportAccounts(imported: seq<Account>)
      requires DistinctIds(imported)
      modifies this`accounts, this`active
      ensures Step(settings, old(State()), AccountsImported(imported), State())
    {
      StopAll();
      accounts := imported;
    }

    /** One line: account for the engine's report, then judge its health. */
    method PollOne(lines: seq<Line>, i: nat, reports: string -> Report, now: int) returns (outcome: LinePoll)
      requires i < |lines|
      ensures outcome == Outcomes(settings, lines, reports, now)[i]
    {
      var line := lines[i];
      var report := reports(line.account.id);
      var delta := Max(0, report.totalBytes - line.lastBytes);
      line := line.(lastBytes := report.totalBytes, samples := Appended(line.samples, Sample(now, report.totalBytes)));
      if delta > 0 {
        line := line.(lastProgressAt := now);
      }
      assert line == Updated(lines[i], report, now);
      if report.stopped {
        return Gone;
      }
      if Stalled(settings, line, now) {
        return Failed;
      }
      var trimmed := Trim(line.samples, now - settings.limits.slowWindow);
      outcome := if Slow(settings.limits, trimmed) then Failed else Healthy(line.(samples := trimmed));
    }

    /** Sweep over a snapshot of the lines; a line leaves `active` as soon as it is gone or failed. */
    method PollEngines(now: int, reports: string -> Report)
      modifies this`active, this`cooldowns
      ensures Step(settings, old(State()), EnginesPolled(now, reports), State())
    {
      var lines := active;
      ghost var outcomes, until := Outcomes(settings, lines, reports, now), now + settings.cooldown;
      SweepStarts(lines, outcomes, until, cooldowns);
      var done: seq<Line> := [];
      for i := 0 to |lines|
        invariant SweptSoFar(lines, outcomes, until, old(cooldowns), i, done, cooldowns)
      {
        SweepStep(lines, outcomes, until, old(cooldowns), i, done, cooldowns);
        var line := lines[i];
        var outcome := PollOne(lines, i, reports, now);
        match outcome {
          case Healthy(updated) =>
            done := done + [updated];
          case Gone =>
          case Failed =>
            cooldowns := cooldowns[line.account.id := now + settings.cooldown];
        }
        active := done + lines[i + 1..];
      }
      SweepEnds(lines, outcomes, until, old(cooldowns), done, cooldowns);
      active := done;
    }

    /** The lines kept for their youth, walked in order of insertion. */
    method KeepYoung(broken: set<string>, now: int) returns (keep: seq<string>)
      ensures keep == Kept(settings, State(), broken, now)
    {
      var desired, eligibleIds := Desired(now), EligibleIds(State(), now);
      ghost var guard := Guard(settings, State(), broken, now);
      keep := [];
      for i := 0 to |active|
        invariant keep == KeptOf(active[..i], guard, desired)
      {
        var line := active[i];
        KeepNext(active, guard, i, desired);
        if |keep| < desired {
          if line.account.enabled && line.account.id in eligibleIds && now - line.startedAt < settings.rotation
             && line.account.id !in broken
          {
            assert guard(line);
            keep := keep + [line.account.id];
          } else {
            assert !guard(line);
          }
        }
      }
      assert active[..|active|] == active;
    }

    method StopOthers(selected: set<string>)
      modifies this`active
      ensures active == Survivors(old(active), selected)
    {
      var lines := active;
      var remaining: seq<Line> := [];
      for i := 0 to |lines|
        invariant remaining == Survivors(lines[..i], selected)
      {
        FilterStep(lines, (line: Line) => line.account.id in selected, i);
        if lines[i].account.id in selected {
          remaining := remaining + [lines[i]];
        }
        active := remaining + lines[i + 1..];
      }
      assert lines[..|lines|] == lines;
      active := remaining;
    }

    method StartMissing(ids: set<string>, now: int) returns (ghost launched: seq<Line>)
      requires ids <= Elements(AccountIds(accounts)) && ids !! ActiveIds(State())
      modifies this`active
      ensures Started(launched, accounts, ids, now)
      ensures active == old(active) + launched
    {
      launched := [];
      var todo := ids;
      while todo != {}
        invariant todo <= ids
        invariant Started(launched, accounts, ids - todo, now)
        invariant active == old(active) + launched
        decreases todo
      {
        var id :| id in todo;
        var i :| 0 <= i < |accounts| && AccountIds(accounts)[i] == id;
        var line := NewLine(accounts[i], now);
        StartOne(launched, accounts, ids - todo, now, accounts[i]);
        assert ids - (todo - {id}) == (ids - todo) + {id};
        launched := launched + [line];
        active := active + [line];
        todo := todo - {id};
      }
      assert ids - {} == ids;
    }

    method Select(now: int, broken: set<string>, standings: string -> Standing) returns (selected: set<string>)
      ensures selected == Selected(settings, State(), broken, standings, now)
    {
      var keep := KeepYoung(broken, now);
      var candidates := Candidates(settings, State(), broken, standings, now);
      var chosen := First(candidates, Max(0, Desired(now) - |keep|));
      selected := Elements(keep) + Elements(AccountIds(chosen));
    }

    method Schedule(now: int, broken: set<string>, standings: string -> Standing)
      requires Safe(State())
      modifies this`active, this`cooldowns
      ensures Step(settings, old(State()), SchedulerRan(now, broken, standings), State())
      ensures Safe(State())
    {
      ghost var before := State();
      if !manualEnabled || forall i :: 0 <= i < |accounts| ==> !accounts[i].enabled {
        StopAll();
        assert Scheduled(settings, before, broken, standings, now, State());
      } else {
        var selected := Select(now, broken, standings);
        SelectedExist(settings, before, broken, standings, now);
        cooldowns := Unexpired(cooldowns, now);
        StopOthers(selected);
        SurvivingIds(before, selected);
        ghost var launched := StartMissing(selected - Elements(Ids(active)), now);
        Settle(settings, before, broken, standings, now, State(), launched);
      }
      ScheduleKeepsSafe(settings, before, broken, standings, now, State());
    }
  }

  lemma Settle(settings: Settings, fleet: Fleet, broken: set<string>, standings: string -> Standing, now: int,
               after: Fleet, launched: seq<Line>)
    requires fleet.manualEnabled && exists account :: account in fleet.accounts && account.enabled
    requires var selected := Selected(settings, fleet, broken, standings, now);
             && Started(launched, fleet.accounts, selected - ActiveIds(fleet), now)
             && after == fleet.(active := Survivors(fleet.active, selected) + launched,
                                cooldowns := Unexpired(fleet.cooldowns, now))
    ensures Scheduled(settings, fleet, broken, standings, now, after)
  {}

  /** The sweep of all lines is what is done plus the sweep of the rest. */
  predicate SweptSoFar(lines: seq<Line>, outcomes: seq<LinePoll>, until: int, start: map<string, int>,
                       i: nat, done: seq<Line>, cooldowns: map<string, int>)
    requires i <= |lines| == |outcomes|
  {
    var rest := Sweep(lines[i..], outcomes[i..], until, cooldowns);
    var whole := Sweep(lines, outcomes, until, start);
    whole.0 == done + rest.0 && whole.1 == rest.1
  }

  lemma SweepStarts(lines: seq<Line>, outcomes: seq<LinePoll>, until: int, start: map<string, int>)
    requires |lines| == |outcomes|
    ensures SweptSoFar(lines, outcomes, until, start, 0, [], start)
  {
    assert lines[0..] == lines && outcomes[0..] == outcomes;
  }

  lemma SweepEnds(lines: seq<Line>, outcomes: seq<LinePoll>, until: int, start: map<string, int>,
                  done: seq<Line>, cooldowns: map<string, int>)
    requires |lines| == |outcomes| && SweptSoFar(lines, outcomes, until, start, |lines|, done, cooldowns)
    ensures var whole := Sweep(lines, outcomes, until, start);
            whole.0 == done && whole.1 == cooldowns
  {}

  lemma SweepStep(lines: seq<Line>, outcomes: seq<LinePoll>, until: int, start: map<string, int>,
                  i: nat, done: seq<Line>, cooldowns: map<string, int>)
    requires i < |lines| == |outcomes| && SweptSoFar(lines, outcomes, until, start, i, done, cooldowns)
    ensures SweptSoFar(lines, outcomes, until, start, i + 1,
                       if outcomes[i].Healthy? then done + [outcomes[i].line] else done,
                       if outcomes[i] == Failed then cooldowns[lines[i].account.id := until] else cooldowns)
  {
    assert lines[i..][1..] == lines[i + 1..] && outcomes[i..][1..] == outcomes[i + 1..];
  }

  lemma StartOne(launched: seq<Line>, accounts: seq<Account>, ids: set<string>, now: int, account: Account)
    requires Started(launched, accounts, ids, now) && account in accounts && account.id !in ids
    ensures Started(launched + [NewLine(account, now)], accounts, ids + {account.id}, now)
  {
    var longer := launched + [NewLine(account, now)];
    assert Ids(longer) == Ids(launched) + [account.id];
    forall line | line in launched ensures line.account.id != account.id {
      IdIn(launched, line);
    }
  }

  lemma SelectedExist(settings: Settings, fleet: Fleet, broken: set<string>, standings: string -> Standing, now: int)
    requires Safe(fleet)
    ensures Selected(settings, fleet, broken, standings, now) <= Elements(AccountIds(fleet.accounts))
  {
    SelectedFacts(settings, fleet, broken, standings, now);
    forall id | id in EligibleIds(fleet, now) ensures id in Elements(AccountIds(fleet.accounts)) {
      var account := AccountOf(Eligible(fleet, now), id);
      AccountIdIn(fleet.accounts, account);
    }
  }

  lemma SurvivingIds(fleet: Fleet, selected: set<string>)
    ensures selected - Elements(Ids(Survivors(fleet.active, selected))) == selected - ActiveIds(fleet)
  {
    forall id | id in selected
      ensures id in Elements(Ids(Survivors(fleet.active, selected))) <==> id in ActiveIds(fleet)
    {
      if id in ActiveIds(fleet) {
        var line := LineOf(fleet.active, id);
        IdIn(Survivors(fleet.active, selected), line);
      }
      if id in Elements(Ids(Survivors(fleet.active, selected))) {
        var line := LineOf(Survivors(fleet.active, selected), id);
        IdIn(fleet.active, line);
      }
    }
  }
}
