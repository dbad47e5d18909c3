/** What the fleet scheduler guarantees, step by step and over every run. */
module FleetSchedulerLaws {
  import opened Time
  import opened Wrappers
  import opened Ordering
  import opened LineHealth
  import opened FleetStore
  import TrafficLedger
  import opened FleetScheduler

  // ---- accounts and their ids

  lemma IdIn(lines: seq<Line>, line: Line)
    requires line in lines
    ensures line.account.id in Elements(Ids(lines))
  {
    var i :| 0 <= i < |lines| && lines[i] == line;
    assert Ids(lines)[i] == line.account.id;
  }

  lemma LineOf(lines: seq<Line>, id: string) returns (line: Line)
    requires id in Elements(Ids(lines))
    ensures line in lines && line.account.id == id
  {
    var i :| 0 <= i < |Ids(lines)| && Ids(lines)[i] == id;
    line := lines[i];
  }

  lemma AccountIdIn(accounts: seq<Account>, account: Account)
    requires account in accounts
    ensures account.id in Elements(AccountIds(accounts))
  {
    var i :| 0 <= i < |accounts| && accounts[i] == account;
    assert AccountIds(accounts)[i] == account.id;
  }

  lemma AccountOf(accounts: seq<Account>, id: string) returns (account: Account)
    requires id in Elements(AccountIds(accounts))
    ensures account in accounts && account.id == id
  {
    var i :| 0 <= i < |AccountIds(accounts)| && AccountIds(accounts)[i] == id;
    account := accounts[i];
  }

  lemma {:induction false} FilteredAccounts(accounts: seq<Account>, keep: Account -> bool)
    requires DistinctIds(accounts)
    ensures DistinctIds(Filter(accounts, keep))
  {
    if accounts != [] {
      FilteredAccounts(accounts[1..], keep);
      var tail := Filter(accounts[1..], keep);
      forall account | account in tail ensures account.id != accounts[0].id {
        assert account in accounts[1..];
      }
    }
  }

  lemma {:induction false} FilteredLines(lines: seq<Line>, keep: Line -> bool)
    requires DistinctLines(lines)
    ensures DistinctLines(Filter(lines, keep))
  {
    if lines != [] {
      FilteredLines(lines[1..], keep);
      var tail := Filter(lines[1..], keep);
      forall line | line in tail ensures line.account.id != lines[0].account.id {
        assert line in lines[1..];
      }
    }
  }

  lemma DistinctIdsCount(accounts: seq<Account>)
    requires DistinctIds(accounts)
    ensures |Elements(AccountIds(accounts))| == |accounts| && Distinct(AccountIds(accounts))
  {
    DistinctCount(AccountIds(accounts));
  }

  lemma SortedAccounts(accounts: seq<Account>, le: (Account, Account) -> bool)
    requires DistinctIds(accounts)
    ensures DistinctIds(Sort(accounts, le))
    ensures Elements(AccountIds(Sort(accounts, le))) == Elements(AccountIds(accounts))
  {
    var sorted := Sort(accounts, le);
    forall account ensures account in sorted <==> account in accounts {
      assert account in multiset(sorted) <==> account in multiset(accounts);
    }
    forall id ensures id in Elements(AccountIds(sorted)) <==> id in Elements(AccountIds(accounts)) {
      if id in Elements(AccountIds(sorted)) {
        var account := AccountOf(sorted, id);
        AccountIdIn(accounts, account);
      }
      if id in Elements(AccountIds(accounts)) {
        var account := AccountOf(accounts, id);
        AccountIdIn(sorted, account);
      }
    }
    DistinctIdsCount(accounts);
    assert Elements(AccountIds(sorted)) == Elements(AccountIds(accounts));
    CountDistinct(AccountIds(sorted));
    forall i, j | 0 <= i < j < |sorted| ensures sorted[i].id != sorted[j].id {
      assert AccountIds(sorted)[i] != AccountIds(sorted)[j];
    }
  }

  // ---- the choice

  lemma KeptFacts(settings: Settings, fleet: Fleet, broken: set<string>, now: int)
    requires DistinctLines(fleet.active)
    ensures var kept := Kept(settings, fleet, broken, now);
            && Distinct(kept) && |kept| == Min(Desired(now), |ProtectedLines(settings, fleet, broken, now)|)
            && Elements(kept) <= EligibleIds(fleet, now) && Elements(kept) <= ActiveIds(fleet)
  {
    var shielded := ProtectedLines(settings, fleet, broken, now);
    FilteredLines(fleet.active, Guard(settings, fleet, broken, now));
    var kept := Kept(settings, fleet, broken, now);
    assert forall i :: 0 <= i < |kept| ==> kept[i] == Ids(shielded)[i];
    forall id | id in Elements(kept) ensures id in EligibleIds(fleet, now) && id in ActiveIds(fleet) {
      var i :| 0 <= i < |kept| && kept[i] == id;
      assert shielded[i] in fleet.active;
      IdIn(fleet.active, shielded[i]);
    }
  }

  lemma CandidateFacts(settings: Settings, fleet: Fleet, broken: set<string>, standings: string -> Standing, now: int)
    requires DistinctLines(fleet.active) && DistinctIds(fleet.accounts)
    ensures var kept := Kept(settings, fleet, broken, now);
            var candidates := Candidates(settings, fleet, broken, standings, now);
            && DistinctIds(candidates)
            && (forall account :: account in candidates <==> account in Eligible(fleet, now) && account.id !in kept)
            && |candidates| == |EligibleIds(fleet, now)| - |kept|
  {
    var kept, eligible := Kept(settings, fleet, broken, now), Eligible(fleet, now);
    FilteredAccounts(fleet.accounts, account => Usable(fleet, account, now));
    KeptFacts(settings, fleet, broken, now);
    OthersCount(eligible, kept);
    var unsorted := Filter(eligible, (account: Account) => account.id !in kept);
    SortedAccounts(unsorted, Before(settings, standings));
    var candidates := Candidates(settings, fleet, broken, standings, now);
    forall account ensures account in candidates <==> account in unsorted {
      assert account in multiset(candidates) <==> account in multiset(unsorted);
    }
  }

  lemma OthersCount(accounts: seq<Account>, ids: seq<string>)
    requires DistinctIds(accounts) && Distinct(ids) && Elements(ids) <= Elements(AccountIds(accounts))
    ensures var others := Filter(accounts, (account: Account) => account.id !in ids);
            DistinctIds(others) && |others| == |Elements(AccountIds(accounts))| - |ids|
  {
    var others := Filter(accounts, (account: Account) => account.id !in ids);
    FilteredAccounts(accounts, (account: Account) => account.id !in ids);
    DistinctIdsCount(others);
    DistinctCount(ids);
    forall id
      ensures id in Elements(AccountIds(others)) <==> id in Elements(AccountIds(accounts)) && id !in Elements(ids)
    {
      if id in Elements(AccountIds(others)) {
        var account := AccountOf(others, id);
        AccountIdIn(accounts, account);
      }
      if id in Elements(AccountIds(accounts)) && id !in Elements(ids) {
        var account := AccountOf(accounts, id);
        AccountIdIn(others, account);
      }
    }
    assert Elements(AccountIds(others)) == Elements(AccountIds(accounts)) - Elements(ids);
  }

  lemma ChosenIsEligible(settings: Settings, fleet: Fleet, broken: set<string>, standings: string -> Standing,
                         now: int, id: string)
    requires DistinctLines(fleet.active) && DistinctIds(fleet.accounts)
    requires id in Elements(AccountIds(Chosen(settings, fleet, broken, standings, now)))
    ensures id in EligibleIds(fleet, now) && id !in Elements(Kept(settings, fleet, broken, now))
  {
    CandidateFacts(settings, fleet, broken, standings, now);
    var account := AccountOf(Chosen(settings, fleet, broken, standings, now), id);
    assert account in Candidates(settings, fleet, broken, standings, now);
    AccountIdIn(Eligible(fleet, now), account);
  }

  /** The selection is as large as quota and eligibility allow, and only eligible. */
  lemma SelectedFacts(settings: Settings, fleet: Fleet, broken: set<string>, standings: string -> Standing, now: int)
    requires DistinctLines(fleet.active) && DistinctIds(fleet.accounts)
    ensures var selected := Selected(settings, fleet, broken, standings, now);
            && selected <= EligibleIds(fleet, now)
            && |selected| == Min(Desired(now), |EligibleIds(fleet, now)|)
  {
    KeptFacts(settings, fleet, broken, now);
    ChosenFacts(settings, fleet, broken, standings, now);
    Together(Kept(settings, fleet, broken, now), Elements(AccountIds(Chosen(settings, fleet, broken, standings, now))),
             EligibleIds(fleet, now), Desired(now));
  }

  lemma Together(kept: seq<string>, chosen: set<string>, eligible: set<string>, desired: nat)
    requires Distinct(kept) && Elements(kept) <= eligible && |kept| <= desired
    requires chosen <= eligible && Elements(kept) !! chosen && |chosen| == Min(desired - |kept|, |eligible| - |kept|)
    ensures Elements(kept) + chosen <= eligible && |Elements(kept) + chosen| == Min(desired, |eligible|)
  {
    DistinctCount(kept);
  }

  /** As many accounts are chosen as fit beside the kept ones, none of which they are. */
  lemma ChosenFacts(settings: Settings, fleet: Fleet, broken: set<string>, standings: string -> Standing, now: int)
    requires DistinctLines(fleet.active) && DistinctIds(fleet.accounts)
    ensures var kept := Kept(settings, fleet, broken, now);
            var chosen := Elements(AccountIds(Chosen(settings, fleet, broken, standings, now)));
            && chosen <= EligibleIds(fleet, now) && Elements(kept) !! chosen
            && |chosen| == Min(Max(0, Desired(now) - |kept|), |EligibleIds(fleet, now)| - |kept|)
  {
    CandidateFacts(settings, fleet, broken, standings, now);
    FrontIds(Candidates(settings, fleet, broken, standings, now),
             Max(0, Desired(now) - |Kept(settings, fleet, broken, now)|));
    forall id | id in Elements(AccountIds(Chosen(settings, fleet, broken, standings, now)))
      ensures id in EligibleIds(fleet, now) && id !in Elements(Kept(settings, fleet, broken, now))
    {
      ChosenIsEligible(settings, fleet, broken, standings, now, id);
    }
  }

  lemma FrontIds(accounts: seq<Account>, n: nat)
    requires DistinctIds(accounts)
    ensures |Elements(AccountIds(First(accounts, n)))| == Min(n, |accounts|)
  {
    DistinctIdsCount(First(accounts, n));
  }

  // ---- what eligibility, quota and rank mean

  /** An account is eligible exactly if it is listed and enabled, its cooldown, if any, is over, and the
      last poll of its interface, if any, did not find it offline, missing or ambiguous. */
  lemma EligibleWhen(fleet: Fleet, now: int, account: Account)
    requires DistinctIds(fleet.accounts) && account in fleet.accounts
    ensures account.id in EligibleIds(fleet, now) <==>
              && account.enabled
              && (account.id in fleet.cooldowns ==> fleet.cooldowns[account.id] <= now)
              && (account.id in fleet.quality
                  ==> fleet.quality[account.id] !in {TrafficLedger.Offline, TrafficLedger.Missing,
                                                     TrafficLedger.Ambiguous})
  {
    if account.id in EligibleIds(fleet, now) {
      var found := AccountOf(Eligible(fleet, now), account.id);
      AccountsById(fleet.accounts, found, account);
    }
    if account in Eligible(fleet, now) {
      AccountIdIn(Eligible(fleet, now), account);
    }
  }

  lemma AccountsById(accounts: seq<Account>, a: Account, b: Account)
    requires DistinctIds(accounts) && a in accounts && b in accounts && a.id == b.id
    ensures a == b
  {
  }

  /** Only listed accounts are eligible. */
  lemma EligibleIsListed(fleet: Fleet, now: int, id: string) returns (account: Account)
    requires id in EligibleIds(fleet, now)
    ensures account in fleet.accounts && account.id == id
  {
    account := AccountOf(Eligible(fleet, now), id);
  }

  /** By the clock in Shanghai, in seconds of the day: ten lines until one, twenty until seven, ten until
      18:00, and none in the evening. */
  lemma QuotaByTheClock(now: int)
    ensures var second := (now / SECOND + 8 * 3600) % 86400;
            Desired(now) == if second < 3600 then 10 else if second < 7 * 3600 then 20
                            else if second < 18 * 3600 then 10 else 0
  {
    HourOfSecond(now);
  }

  lemma HourOfSecond(now: int)
    ensures LocalHour(now) == (now / SECOND + 8 * 3600) % 86400 / 3600
  {
    var local := now + SHANGHAI;
    assert local / SECOND == now / SECOND + 8 * 3600;
    SecondOfDayIs(local);
    HourOfDayIs(local % DAY);
  }

  lemma SecondOfDayIs(local: int)
    ensures local % DAY / SECOND == local / SECOND % 86400
  {
    var day, second := local / DAY, local % DAY / SECOND;
    assert local / SECOND == day * 86400 + second && 0 <= second < 86400;
  }

  lemma HourOfDayIs(time: int)
    requires 0 <= time < DAY
    ensures time / HOUR == time / SECOND / 3600
  {
  }

  /** The debt is the least download that, with what was downloaded, reaches the target share of the upload. */
  lemma DebtReachesTarget(settings: Settings, s: Standing)
    ensures var target := s.upload as real * settings.targetRatio;
            && Debt(settings, s) >= 0
            && (s.download + Debt(settings, s)) as real >= target
            && (Debt(settings, s) > 0 ==> (s.download + Debt(settings, s) - 1) as real < target)
  {
    var due := s.upload as real * settings.targetRatio;
    var down := (-due).Floor;
    assert down as real <= -due < down as real + 1.0;
  }

  /** The whole rank: the deeper debt first, then who was served less, then who was started longer ago,
      then the smaller id. */
  lemma RankIs(settings: Settings, a: string, sa: Standing, b: string, sb: Standing)
    ensures var (da, db) := (Debt(settings, sa), Debt(settings, sb));
            KeyLe(Priority(settings, a, sa), Priority(settings, b, sb)) <==>
              || da > db
              || (da == db && (|| sa.served < sb.served
                               || (sa.served == sb.served && (|| sa.lastStarted < sb.lastStarted
                                                              || (sa.lastStarted == sb.lastStarted
                                                                  && StringLe(a, b))))))
  {
    DebtIsOwing(settings, sa);
    DebtIsOwing(settings, sb);
  }

  /** The rotation minimum protects a running line of an enabled, eligible account whose helper works
      while it is younger than that. */
  lemma ProtectedWhen(settings: Settings, fleet: Fleet, broken: set<string>, now: int, line: Line)
    ensures line in ProtectedLines(settings, fleet, broken, now) <==>
              && line in fleet.active && line.account.enabled && line.account.id in EligibleIds(fleet, now)
              && line.startedAt > now - settings.rotation && line.account.id !in broken
  {
  }

  /** A scheduling step that chooses lines forgets exactly the cooldowns that are over. */
  lemma CooldownsEnd(settings: Settings, fleet: Fleet, broken: set<string>, standings: string -> Standing, now: int,
                     after: Fleet, id: string)
    requires Scheduled(settings, fleet, broken, standings, now, after)
    requires fleet.manualEnabled && exists account :: account in fleet.accounts && account.enabled
    ensures id in after.cooldowns <==> id in fleet.cooldowns && now < fleet.cooldowns[id]
    ensures id in after.cooldowns ==> after.cooldowns[id] == fleet.cooldowns[id]
  {
  }

  /** Only polling and scheduling touch cooldowns; switching on and new poll verdicts touch no line. */
  lemma OtherEventsKeep(settings: Settings, fleet: Fleet, event: FleetEvent, after: Fleet)
    requires Step(settings, fleet, event, after) && !event.EnginesPolled? && !event.SchedulerRan?
    ensures after.cooldowns == fleet.cooldowns
    ensures after.active == if event.AccountsImported?
            || (event.ManualSwitched? && !event.enabled) then [] else fleet.active
    ensures after.accounts == if event.AccountsImported? then event.accounts else fleet.accounts
    ensures after.manualEnabled == if event.ManualSwitched? then event.enabled else fleet.manualEnabled
    ensures after.quality == if event.QualityRecorded? then event.quality else fleet.quality
  {
  }

  // ---- one scheduling step

  lemma NothingEnabled(fleet: Fleet, now: int)
    requires forall account :: account in fleet.accounts ==> !account.enabled
    ensures EligibleIds(fleet, now) == {}
  {
    if id :| id in EligibleIds(fleet, now) {
      var account := AccountOf(Eligible(fleet, now), id);
      assert false;
    }
  }

  lemma SurvivorsAndStarted(fleet: Fleet, selected: set<string>, launched: seq<Line>, now: int)
    requires DistinctLines(fleet.active) && Started(launched, fleet.accounts, selected - ActiveIds(fleet), now)
    ensures var active := Survivors(fleet.active, selected) + launched;
            DistinctLines(active) && Elements(Ids(active)) == selected
  {
    var survivors := Survivors(fleet.active, selected);
    var active := survivors + launched;
    FilteredLines(fleet.active, (line: Line) => line.account.id in selected);
    forall id ensures id in Elements(Ids(active)) <==> id in selected {
      if id in Elements(Ids(active)) {
        var line := LineOf(active, id);
        if line in launched { IdIn(launched, line); }
      }
      if id in selected {
        if id in ActiveIds(fleet) {
          var line := LineOf(fleet.active, id);
          assert line in survivors;
          IdIn(active, line);
        } else {
          var line := LineOf(launched, id);
          IdIn(active, line);
        }
      }
    }
    forall i, j | 0 <= i < |survivors| <= j < |active| ensures active[i].account.id != active[j].account.id {
      assert survivors[i] in fleet.active && active[j] == launched[j - |survivors|];
      IdIn(fleet.active, survivors[i]);
      IdIn(launched, active[j]);
    }
    forall i, j | 0 <= i < j < |active| ensures active[i].account.id != active[j].account.id {
      if i >= |survivors| {
        assert active[i] == launched[i - |survivors|] && active[j] == launched[j - |survivors|];
      }
    }
  }

  lemma LineCount(lines: seq<Line>)
    requires DistinctLines(lines)
    ensures |Elements(Ids(lines))| == |lines|
  {
    DistinctCount(Ids(lines));
  }

  /** With downloads enabled, exactly min(quota, eligible) eligible accounts are active. */
  lemma ScheduleFillsQuota(settings: Settings, fleet: Fleet, broken: set<string>, standings: string -> Standing,
                           now: int, after: Fleet)
    requires DistinctLines(fleet.active) && DistinctIds(fleet.accounts) && fleet.manualEnabled
    requires Scheduled(settings, fleet, broken, standings, now, after)
    ensures DistinctLines(after.active) && ActiveIds(after) <= EligibleIds(fleet, now)
    ensures |after.active| == |ActiveIds(after)| == Min(Desired(now), |EligibleIds(fleet, now)|)
  {
    if forall account :: account in fleet.accounts ==> !account.enabled {
      NothingEnabled(fleet, now);
    } else {
      var selected := Selected(settings, fleet, broken, standings, now);
      var launched :| Started(launched, fleet.accounts, selected - ActiveIds(fleet), now)
                      && after.active == Survivors(fleet.active, selected) + launched;
      SurvivorsAndStarted(fleet, selected, launched, now);
      SelectedFacts(settings, fleet, broken, standings, now);
      LineCount(after.active);
    }
  }

  lemma KeyLeTotal()
    ensures TotalPreorder(KeyLe)
  {
    forall a, b ensures KeyLe(a, b) || KeyLe(b, a) {
      StringTotal(a.id, b.id);
    }
    forall a, b, c | KeyLe(a, b) && KeyLe(b, c) ensures KeyLe(a, c) {
      if StringLe(a.id, b.id) && StringLe(b.id, c.id) {
        StringTransitive(a.id, b.id, c.id);
      }
    }
  }

  /** A line started, or kept beyond the rotation minimum, is never outranked by one left out. */
  lemma NobodyOvertaken(settings: Settings, fleet: Fleet, broken: set<string>, standings: string -> Standing, now: int,
                        chosen: Account, passed: Account)
    requires chosen in Chosen(settings, fleet, broken, standings, now)
    requires passed in Eligible(fleet, now) && passed.id !in Selected(settings, fleet, broken, standings, now)
    ensures KeyLe(Priority(settings, chosen.id, standings(chosen.id)),
                  Priority(settings, passed.id, standings(passed.id)))
  {
    BeforeTotal(settings, standings);
    var kept := Kept(settings, fleet, broken, now);
    var unsorted := Filter(Eligible(fleet, now), (account: Account) => account.id !in kept);
    var picked := Chosen(settings, fleet, broken, standings, now);
    if passed in picked {
      AccountIdIn(picked, passed);
    }
    FrontOfSorted(unsorted, Before(settings, standings), Max(0, Desired(now) - |kept|), chosen, passed);
  }

  lemma BeforeTotal(settings: Settings, standings: string -> Standing)
    ensures TotalPreorder(Before(settings, standings))
  {
    KeyLeTotal();
    var le := Before(settings, standings);
    forall a, b ensures le(a, b) || le(b, a) {
      assert KeyLe(Priority(settings, a.id, standings(a.id)), Priority(settings, b.id, standings(b.id)))
          || KeyLe(Priority(settings, b.id, standings(b.id)), Priority(settings, a.id, standings(a.id)));
    }
    forall a, b, c | le(a, b) && le(b, c) ensures le(a, c) {
      assert KeyLe(Priority(settings, a.id, standings(a.id)), Priority(settings, b.id, standings(b.id)));
      assert KeyLe(Priority(settings, b.id, standings(b.id)), Priority(settings, c.id, standings(c.id)));
    }
  }

  /** The tuple puts debtors first, the deepest in debt before all others. */
  lemma DebtComesFirst(settings: Settings, a: string, sa: Standing, b: string, sb: Standing)
    ensures Owes(settings, sa) <==> Debt(settings, sa) > 0
    ensures Debt(settings, sa) > Debt(settings, sb) ==>
              KeyLe(Priority(settings, a, sa), Priority(settings, b, sb))
              && !KeyLe(Priority(settings, b, sb), Priority(settings, a, sa))
  {
    DebtIsOwing(settings, sa);
    DebtIsOwing(settings, sb);
  }

  lemma DebtIsOwing(settings: Settings, s: Standing)
    ensures Owes(settings, s) <==> Debt(settings, s) > 0
  {
    var due := s.upload as real * settings.targetRatio;
    var down := (-due).Floor;
    assert down as real <= -due < down as real + 1.0;
    if s.upload == 0 {
      assert due == 0.0;
    }
  }

  /** When the protected lines fit the quota, none of them is stopped or touched. */
  lemma ProtectedLinesStay(settings: Settings, fleet: Fleet, broken: set<string>, standings: string -> Standing,
                           now: int,                            after: Fleet, line: Line)
    requires fleet.manualEnabled && Scheduled(settings, fleet, broken, standings, now, after)
    requires line in ProtectedLines(settings, fleet, broken, now)
    requires |ProtectedLines(settings, fleet, broken, now)| <= Desired(now)
    ensures line in after.active
  {
    var shielded := ProtectedLines(settings, fleet, broken, now);
    IdIn(shielded, line);
    if forall account :: account in fleet.accounts ==> !account.enabled {
      NothingEnabled(fleet, now);
    } else {
      var selected := Selected(settings, fleet, broken, standings, now);
      assert line in Survivors(fleet.active, selected);
    }
  }

  /** Lines already running go on unchanged; every other line starts now. */
  lemma OldOrNew(settings: Settings, fleet: Fleet, broken: set<string>, standings: string -> Standing, now: int,
                 after: Fleet, line: Line)
    requires Scheduled(settings, fleet, broken, standings, now, after) && line in after.active
    ensures line in fleet.active || (line.account.id !in ActiveIds(fleet) && line == NewLine(line.account, now))
  {
    if line !in fleet.active {
      var selected := Selected(settings, fleet, broken, standings, now);
      var launched :| Started(launched, fleet.accounts, selected - ActiveIds(fleet), now)
                      && after.active == Survivors(fleet.active, selected) + launched;
      assert line in launched;
      IdIn(launched, line);
    }
  }

  // ---- the sweep over the engines

  ghost predicate Faithful(lines: seq<Line>, outcomes: seq<LinePoll>) {
    && |outcomes| == |lines|
    && forall i :: 0 <= i < |lines| && outcomes[i].Healthy? ==> outcomes[i].line.account == lines[i].account
  }

  predicate Rested(lines: seq<Line>, cooldowns: map<string, int>) {
    forall i :: 0 <= i < |lines| ==> lines[i].account.id !in cooldowns
  }

  /** Cooldowns only grow, by the failed lines and with the one deadline. */
  lemma {:induction false} SweepCooldowns(lines: seq<Line>, outcomes: seq<LinePoll>, until: int,
                                          cooldowns: map<string, int>, id: string)
    requires |outcomes| == |lines| && DistinctLines(lines) && Rested(lines, cooldowns)
    ensures var after := Sweep(lines, outcomes, until, cooldowns).1;
            && (id in cooldowns ==> id in after && after[id] == cooldowns[id])
            && (id !in cooldowns ==>
                 (id in after <==> exists i :: 0 <= i < |lines| && outcomes[i] == Failed && lines[i].account.id == id))
            && (id !in cooldowns && id in after ==> after[id] == until)
  {
    if lines != [] {
      var marked := if outcomes[0] == Failed then cooldowns[lines[0].account.id := until] else cooldowns;
      SweepCooldowns(lines[1..], outcomes[1..], until, marked, id);
      var after := Sweep(lines, outcomes, until, cooldowns).1;
      assert after == Sweep(lines[1..], outcomes[1..], until, marked).1;
      if id !in cooldowns {
        if id in after && id !in marked {
          var i :| 0 <= i < |lines[1..]| && outcomes[1..][i] == Failed && lines[1..][i].account.id == id;
          assert outcomes[i + 1] == Failed && lines[i + 1].account.id == id;
        }
        if i :| 0 <= i < |lines| && outcomes[i] == Failed && lines[i].account.id == id && i > 0 {
          assert outcomes[1..][i - 1] == Failed && lines[1..][i - 1].account.id == id;
        }
      }
    }
  }

  /** A line cools down after a sweep exactly if it failed. */
  lemma SweepMarks(lines: seq<Line>, outcomes: seq<LinePoll>, until: int, cooldowns: map<string, int>, i: nat)
    requires |outcomes| == |lines| && DistinctLines(lines) && Rested(lines, cooldowns) && i < |lines|
    ensures var after, id := Sweep(lines, outcomes, until, cooldowns).1, lines[i].account.id;
            if outcomes[i] == Failed then id in after && after[id] == until else id !in after
  {
    var id := lines[i].account.id;
    assert id !in cooldowns;
    SweepCooldowns(lines, outcomes, until, cooldowns, id);
    forall k | 0 <= k < |lines| && lines[k].account.id == id ensures k == i {
    }
  }

  /** Every healthy line remains. */
  lemma {:induction false} SweepKeepsHealthy(lines: seq<Line>, outcomes: seq<LinePoll>, until: int,
                                             cooldowns: map<string, int>, i: nat)
    requires |outcomes| == |lines| && i < |lines| && outcomes[i].Healthy?
    ensures outcomes[i].line in Sweep(lines, outcomes, until, cooldowns).0
    decreases |lines|
  {
    var marked := if outcomes[0] == Failed then cooldowns[lines[0].account.id := until] else cooldowns;
    if i > 0 {
      SweepKeepsHealthy(lines[1..], outcomes[1..], until, marked, i - 1);
    }
  }

  /** Nothing but the healthy lines remains, one for each account. */
  lemma {:induction false} SweepSurvivors(lines: seq<Line>, outcomes: seq<LinePoll>, until: int,
                                          cooldowns: map<string, int>)
    requires Faithful(lines, outcomes) && DistinctLines(lines)
    ensures var rest := Sweep(lines, outcomes, until, cooldowns).0;
            && DistinctLines(rest) && |rest| <= |lines|
            && forall line :: line in rest ==>
                 exists i :: 0 <= i < |lines| && outcomes[i].Healthy? && line == outcomes[i].line
  {
    if lines != [] {
      var marked := if outcomes[0] == Failed then cooldowns[lines[0].account.id := until] else cooldowns;
      SweepSurvivors(lines[1..], outcomes[1..], until, marked);
      var tail := Sweep(lines[1..], outcomes[1..], until, marked).0;
      var rest := Sweep(lines, outcomes, until, cooldowns).0;
      assert rest == (if outcomes[0].Healthy? then [outcomes[0].line] else []) + tail;
      forall line | line in tail
        ensures line.account.id != lines[0].account.id
        ensures exists i :: 0 <= i < |lines| && outcomes[i].Healthy? && line == outcomes[i].line
      {
        var i :| 0 <= i < |lines[1..]| && outcomes[1..][i].Healthy? && line == outcomes[1..][i].line;
        assert outcomes[i + 1].Healthy? && line == outcomes[i + 1].line && lines[i + 1] == lines[1..][i];
      }
    }
  }

  lemma OutcomesFaithful(settings: Settings, lines: seq<Line>, reports: string -> Report, now: int)
    ensures Faithful(lines, Outcomes(settings, lines, reports, now))
  {}

  lemma SafeIsRested(fleet: Fleet)
    requires Safe(fleet)
    ensures Rested(fleet.active, fleet.cooldowns)
  {
    forall i | 0 <= i < |fleet.active| ensures fleet.active[i].account.id !in fleet.cooldowns {
      assert fleet.active[i] in fleet.active;
    }
  }

  /** A line left after a sweep was there before and was found healthy. */
  lemma SweptOrigin(settings: Settings, fleet: Fleet, reports: string -> Report, now: int, line: Line)
    returns (before: Line)
    requires Safe(fleet) && line in EnginesSwept(settings, fleet, reports, now).active
    ensures before in fleet.active && before.account.id == line.account.id
    ensures PollLine(settings, before, reports(line.account.id), now) == Healthy(line)
  {
    var outcomes := Outcomes(settings, fleet.active, reports, now);
    OutcomesFaithful(settings, fleet.active, reports, now);
    SweepSurvivors(fleet.active, outcomes, now + settings.cooldown, fleet.cooldowns);
    var i :| 0 <= i < |fleet.active| && outcomes[i].Healthy? && line == outcomes[i].line;
    before := fleet.active[i];
  }

  lemma SweepKeepsSafe(settings: Settings, fleet: Fleet, reports: string -> Report, now: int)
    requires Safe(fleet)
    ensures Safe(EnginesSwept(settings, fleet, reports, now))
  {
    var outcomes, until := Outcomes(settings, fleet.active, reports, now), now + settings.cooldown;
    OutcomesFaithful(settings, fleet.active, reports, now);
    SweepSurvivors(fleet.active, outcomes, until, fleet.cooldowns);
    var after := EnginesSwept(settings, fleet, reports, now);
    forall line | line in after.active ensures line.account.id !in after.cooldowns {
      var before := SweptOrigin(settings, fleet, reports, now, line);
      NoFailureNoMark(settings, fleet, reports, now, before);
    }
  }

  /** What every run keeps. */
  ghost predicate Safe(fleet: Fleet) {
    && DistinctIds(fleet.accounts) && DistinctLines(fleet.active)
    && (forall line :: line in fleet.active ==> line.account.id !in fleet.cooldowns)
    && |fleet.active| <= 20
    && (!fleet.manualEnabled ==> fleet.active == [])
  }

  lemma NewFleetIsSafe(manualEnabled: bool, accounts: seq<Account>)
    requires DistinctIds(accounts)
    ensures Safe(NewFleet(manualEnabled, accounts))
  {
  }

  lemma ScheduleKeepsSafe(settings: Settings, fleet: Fleet, broken: set<string>, standings: string -> Standing,
                          now: int, after: Fleet)
    requires Safe(fleet) && Scheduled(settings, fleet, broken, standings, now, after)
    ensures Safe(after)
  {
    if fleet.manualEnabled {
      ScheduleFillsQuota(settings, fleet, broken, standings, now, after);
      forall line | line in after.active ensures line.account.id !in Unexpired(fleet.cooldowns, now) {
        IdIn(after.active, line);
        var account := AccountOf(Eligible(fleet, now), line.account.id);
      }
    }
  }

  lemma StepKeepsSafe(settings: Settings, fleet: Fleet, event: FleetEvent, after: Fleet)
    requires Safe(fleet) && Step(settings, fleet, event, after)
    ensures Safe(after)
  {
    match event
    case EnginesPolled(now, reports) => SweepKeepsSafe(settings, fleet, reports, now);
    case SchedulerRan(now, broken, standings) => ScheduleKeepsSafe(settings, fleet, broken, standings, now, after);
    case _ =>
  }

  /** In every reachable state: no active account is cooling down, at most twenty lines are
      active, no account has two, and none runs while downloads are switched off. */
  lemma {:induction false} RunsAreSafe(settings: Settings, states: seq<Fleet>, events: seq<FleetEvent>, i: nat)
    requires IsRun(settings, states, events) && i < |states|
    ensures Safe(states[i])
  {
    if i == 0 {
      NewFleetIsSafe(states[0].manualEnabled, states[0].accounts);
    } else {
      RunsAreSafe(settings, states, events, i - 1);
      assert StepAt(settings, states, events, i - 1);
      StepKeepsSafe(settings, states[i - 1], events[i - 1], states[i]);
    }
  }

  /** After a scheduling step from 18:00 to 24:00 nothing is active. */
  lemma EveningIsQuiet(settings: Settings, fleet: Fleet, event: FleetEvent, after: Fleet)
    requires Safe(fleet) && Step(settings, fleet, event, after)
    requires event.SchedulerRan? && LocalHour(event.now) >= 18
    ensures after.active == []
  {
    if fleet.manualEnabled {
      ScheduleFillsQuota(settings, fleet, event.broken, event.standings, event.now, after);
    }
  }

  lemma CooldownStep(settings: Settings, fleet: Fleet, event: FleetEvent, after: Fleet, id: string)
    requires Safe(fleet) && Step(settings, fleet, event, after) && id in fleet.cooldowns
    requires event.SchedulerRan? ==> event.now < fleet.cooldowns[id]
    ensures id in after.cooldowns && after.cooldowns[id] == fleet.cooldowns[id]
  {
    if event.EnginesPolled? {
      SafeIsRested(fleet);
      SweepCooldowns(fleet.active, Outcomes(settings, fleet.active, event.reports, event.now),
                     event.now + settings.cooldown, fleet.cooldowns, id);
    }
  }

  /** A quarantined account stays out of service, its deadline unmoved, until a scheduling
      step at or after that deadline: it is never restarted before. */
  lemma {:induction false} QuarantineHolds(settings: Settings, states: seq<Fleet>, events: seq<FleetEvent>, i: nat,
                                           k: nat, id: string)
    requires IsRun(settings, states, events) && i <= k < |states|
    requires id in states[i].cooldowns
    requires forall j :: i <= j < k && events[j].SchedulerRan? ==> events[j].now < states[i].cooldowns[id]
    ensures id in states[k].cooldowns && states[k].cooldowns[id] == states[i].cooldowns[id]
    ensures id !in ActiveIds(states[k])
    decreases k
  {
    RunsAreSafe(settings, states, events, k);
    if k > i {
      QuarantineHolds(settings, states, events, i, k - 1, id);
      RunsAreSafe(settings, states, events, k - 1);
      assert StepAt(settings, states, events, k - 1);
      CooldownStep(settings, states[k - 1], events[k - 1], states[k], id);
    }
    if id in ActiveIds(states[k]) {
      var line := LineOf(states[k].active, id);
      assert false;
    }
  }

  /** A failing line is taken out at once and cools down for the configured time; every other
      cooldown is left as it was. */
  lemma FailureQuarantines(settings: Settings, fleet: Fleet, reports: string -> Report, now: int, line: Line)
    requires Safe(fleet) && line in fleet.active && PollLine(settings, line, reports(line.account.id), now) == Failed
    ensures var after := EnginesSwept(settings, fleet, reports, now);
            line.account.id in after.cooldowns && after.cooldowns[line.account.id] == now + settings.cooldown
            && line.account.id !in ActiveIds(after)
  {
    SweepKeepsSafe(settings, fleet, reports, now);
    FailureMarks(settings, fleet, reports, now, line);
    var after := EnginesSwept(settings, fleet, reports, now);
    if line.account.id in ActiveIds(after) {
      var left := LineOf(after.active, line.account.id);
      assert false;
    }
  }

  lemma FailureMarks(settings: Settings, fleet: Fleet, reports: string -> Report, now: int, line: Line)
    requires Safe(fleet) && line in fleet.active && PollLine(settings, line, reports(line.account.id), now) == Failed
    ensures var after := EnginesSwept(settings, fleet, reports, now);
            line.account.id in after.cooldowns && after.cooldowns[line.account.id] == now + settings.cooldown
  {
    var i :| 0 <= i < |fleet.active| && fleet.active[i] == line;
    SafeIsRested(fleet);
    var outcomes, until := Outcomes(settings, fleet.active, reports, now), now + settings.cooldown;
    SweepMarks(fleet.active, outcomes, until, fleet.cooldowns, i);
  }

  /** The line remembers the end of its history: the last count, and when it last grew. */
  predicate Remembers(line: Line, history: seq<Sample>)
    requires history != []
  {
    line.lastBytes == history[|history| - 1].bytes && line.lastProgressAt == LastProgress(history)
  }

  /** Nothing new for as long as the stall limit, or slow over the window with fewer than 400 samples. */
  predicate Unhealthy(limits: Limits, history: seq<Sample>, now: int)
    requires history != []
  {
    || Max(0, now - LastProgress(history)) >= limits.stall
    || (SlowInFull(limits, history, now) && InsideWindow(limits, history, now) < 400)
  }

  lemma UpdatedRemembers(line: Line, history: seq<Sample>, report: Report, now: int)
    requires history != [] && Remembers(line, history)
    ensures Remembers(Updated(line, report, now), history + [Sample(now, report.totalBytes)])
  {
    var longer := history + [Sample(now, report.totalBytes)];
    assert longer[..|history|] == history && longer[|history| - 1] == history[|history| - 1];
  }

  /** The health check of a line that has been polled ever since it started: it fails exactly when its
      whole history is unhealthy, and otherwise it remembers that history and its window stays the
      faithful end of it. */
  lemma HealthFollowsHistory(settings: Settings, line: Line, polls: seq<Sample>, report: Report, now: int)
    requires !report.stopped && settings.limits.slowWindow > 0
    requires line.samples == Window(settings.limits, line.startedAt, polls)
    requires Remembers(line, History(line.startedAt, polls))
    requires InOrder(History(line.startedAt, polls + [Sample(now, report.totalBytes)]))
    ensures var longer := polls + [Sample(now, report.totalBytes)];
            var history, polled := History(line.startedAt, longer), PollLine(settings, line, report, now);
            && (polled == Failed <==> Unhealthy(settings.limits, history, now))
            && (polled != Failed ==>
                  && polled.Healthy? && Remembers(polled.line, history)
                  && polled.line.samples == Window(settings.limits, line.startedAt, longer))
  {
    var sample := Sample(now, report.totalBytes);
    var longer := polls + [sample];
    assert longer[..|longer| - 1] == polls;
    assert History(line.startedAt, longer) == History(line.startedAt, polls) + [sample];
    UpdatedRemembers(line, History(line.startedAt, polls), report, now);
    WindowVerdict(settings.limits, line.startedAt, longer);
    PollVerdict(settings, line, report, now, Window(settings.limits, line.startedAt, longer),
                History(line.startedAt, longer));
  }

  /** The health check in terms of the line's trimmed window and of what the line remembers. */
  lemma PollVerdict(settings: Settings, line: Line, report: Report, now: int, window: seq<Sample>,
                    history: seq<Sample>)
    requires !report.stopped && history != [] && Remembers(Updated(line, report, now), history)
    requires window == Polled(settings.limits, line.samples, Sample(now, report.totalBytes))
    requires Slow(settings.limits, window)
             <==> SlowInFull(settings.limits, history, now) && InsideWindow(settings.limits, history, now) < 400
    ensures var polled := PollLine(settings, line, report, now);
            && (polled == Failed <==> Unhealthy(settings.limits, history, now))
            && (polled != Failed ==>
                  polled.Healthy? && Remembers(polled.line, history) && polled.line.samples == window)
  {
  }

  // ---- the health check over whole runs

  /** What the line of an account has reported since it last started, whenever it is active. */
  function PollsOf(states: seq<Fleet>, events: seq<FleetEvent>, i: nat, id: string): seq<Sample>
    requires |states| == |events| + 1 && i < |states|
  {
    if i == 0 then []
    else
      var before := PollsOf(states, events, i - 1, id);
      match events[i - 1]
      case EnginesPolled(now, reports) => before + [Sample(now, reports(id).totalBytes)]
      case SchedulerRan(_, _, _) => if id in ActiveIds(states[i - 1]) then before else []
      case _ => before
  }

  /** Where an active line comes from: it was polled and found healthy, it starts now, or nothing
      happened to it. */
  lemma LineOrigin(settings: Settings, fleet: Fleet, event: FleetEvent, after: Fleet, line: Line) returns (before: Line)
    requires Safe(fleet) && Step(settings, fleet, event, after) && line in after.active
    ensures before.account.id == line.account.id
    ensures if event.EnginesPolled? then
              before in fleet.active
              && PollLine(settings, before, event.reports(line.account.id), event.now) == Healthy(line)
            else
              before == line &&
              if line in fleet.active then line.account.id in ActiveIds(fleet)
              else
                event.SchedulerRan? && line.account.id !in ActiveIds(fleet) && line == NewLine(line.account, event.now)
  {
    before := line;
    if event.EnginesPolled? {
      before := SweptOrigin(settings, fleet, event.reports, event.now, line);
    } else {
      if event.SchedulerRan? {
        OldOrNew(settings, fleet, event.broken, event.standings, event.now, after, line);
      }
      if line in fleet.active {
        IdIn(fleet.active, line);
      }
    }
  }

  /** The same in a run: None when the line starts now. */
  lemma OriginAt(settings: Settings, states: seq<Fleet>, events: seq<FleetEvent>, i: nat, line: Line)
    returns (before: Option<Line>)
    requires IsRun(settings, states, events) && 0 < i < |states| && line in states[i].active
    ensures before.Some? ==>
              && before.value in states[i - 1].active && line.account.id in ActiveIds(states[i - 1])
              && before.value.account.id == line.account.id && before.value.startedAt == line.startedAt
              && (!events[i - 1].EnginesPolled? ==> before.value == line)
    ensures before.Some? && events[i - 1].EnginesPolled? ==>
              line.samples == Polled(settings.limits, before.value.samples,
                                     Sample(events[i - 1].now, events[i - 1].reports(line.account.id).totalBytes))
    ensures before.Some? && events[i - 1].EnginesPolled? ==>
              var updated := Updated(before.value, events[i - 1].reports(line.account.id), events[i - 1].now);
              line.lastBytes == updated.lastBytes && line.lastProgressAt == updated.lastProgressAt
    ensures before.None? ==>
              && events[i - 1].SchedulerRan? && line.account.id !in ActiveIds(states[i - 1])
              && line.startedAt == events[i - 1].now && line.samples == [Sample(line.startedAt, 0)]
              && line.lastBytes == 0 && line.lastProgressAt == line.startedAt
  {
    RunsAreSafe(settings, states, events, i - 1);
    var event := events[i - 1];
    assert StepAt(settings, states, events, i - 1);
    var origin := LineOrigin(settings, states[i - 1], event, states[i], line);
    before := if origin in states[i - 1].active then Some(origin) else None;
    if origin in states[i - 1].active {
      IdIn(states[i - 1].active, origin);
    }
    if event.EnginesPolled? {
      HealthyLine(settings, origin, event.reports(line.account.id), event.now, line);
    }
  }

  /** Over every run the samples of an active line are the window of all it has reported. */
  lemma {:induction false} SamplesAreWindow(settings: Settings, states: seq<Fleet>, events: seq<FleetEvent>, i: nat,
                                            line: Line)
    requires IsRun(settings, states, events) && i < |states| && line in states[i].active
    ensures line.samples == Window(settings.limits, line.startedAt, PollsOf(states, events, i, line.account.id))
    decreases i
  {
    if i > 0 {
      var before := OriginAt(settings, states, events, i, line);
      if before.Some? {
        SamplesAreWindow(settings, states, events, i - 1, before.value);
      }
      var earlier := if before.Some? then before.value.samples else [];
      WindowMoves(settings.limits, states, events, i, line.account.id, line.startedAt, earlier, line.samples);
    }
  }

  /** How one event takes the window of a line on. */
  lemma WindowMoves(limits: Limits, states: seq<Fleet>, events: seq<FleetEvent>, i: nat, id: string, start: int,
                    earlier: seq<Sample>, samples: seq<Sample>)
    requires |states| == |events| + 1 && 0 < i < |states|
    requires var event, polls := events[i - 1], PollsOf(states, events, i - 1, id);
             if event.EnginesPolled? then
               earlier == Window(limits, start, polls)
               && samples == Polled(limits, earlier, Sample(event.now, event.reports(id).totalBytes))
             else if event.SchedulerRan? && id !in ActiveIds(states[i - 1]) then samples == [Sample(start, 0)]
             else samples == Window(limits, start, polls)
    ensures samples == Window(limits, start, PollsOf(states, events, i, id))
  {
    var event := events[i - 1];
    PollsNow(states, events, i, id);
    if event.EnginesPolled? {
      WindowStep(limits, start, PollsOf(states, events, i - 1, id), Sample(event.now, event.reports(id).totalBytes));
    }
  }

  /** A healthy line has its window polled once more, and nothing else of it is the window's business. */
  lemma HealthyLine(settings: Settings, before: Line, report: Report, now: int, line: Line)
    requires PollLine(settings, before, report, now) == Healthy(line)
    ensures line.samples == Polled(settings.limits, before.samples, Sample(now, report.totalBytes))
    ensures line.startedAt == before.startedAt
    ensures line == Updated(before, report, now).(samples := line.samples)
  {
  }

  /** Over every run an active line remembers the end of its history. */
  lemma {:induction false} HistoryIsRemembered(settings: Settings, states: seq<Fleet>, events: seq<FleetEvent>, i: nat,
                                               line: Line)
    requires IsRun(settings, states, events) && i < |states| && line in states[i].active
    ensures Remembers(line, History(line.startedAt, PollsOf(states, events, i, line.account.id)))
    decreases i
  {
    if i > 0 {
      var before := OriginAt(settings, states, events, i, line);
      if before.Some? {
        HistoryIsRemembered(settings, states, events, i - 1, before.value);
      }
      MemoryMoves(states, events, i, before, line);
    }
  }

  /** How one event takes the memory of a line on. */
  lemma MemoryMoves(states: seq<Fleet>, events: seq<FleetEvent>, i: nat, before: Option<Line>, line: Line)
    requires |states| == |events| + 1 && 0 < i < |states|
    requires var event, polls := events[i - 1], PollsOf(states, events, i - 1, line.account.id);
             if event.EnginesPolled? then
               && before.Some? && before.value.startedAt == line.startedAt
               && Remembers(before.value, History(line.startedAt, polls))
               && var updated := Updated(before.value, event.reports(line.account.id), event.now);
                  line.lastBytes == updated.lastBytes && line.lastProgressAt == updated.lastProgressAt
             else if event.SchedulerRan? && line.account.id !in ActiveIds(states[i - 1]) then
               line.lastBytes == 0 && line.lastProgressAt == line.startedAt
             else Remembers(line, History(line.startedAt, polls))
    ensures Remembers(line, History(line.startedAt, PollsOf(states, events, i, line.account.id)))
  {
    var event, id := events[i - 1], line.account.id;
    var polls := PollsOf(states, events, i - 1, id);
    PollsNow(states, events, i, id);
    if event.EnginesPolled? {
      var sample := Sample(event.now, event.reports(id).totalBytes);
      UpdatedRemembers(before.value, History(line.startedAt, polls), event.reports(id), event.now);
      assert History(line.startedAt, polls + [sample]) == History(line.startedAt, polls) + [sample];
    }
  }

  predicate InTime(events: seq<FleetEvent>) {
    forall j, k :: 0 <= j < k < |events| && Timed(events[j]) && Timed(events[k]) ==> events[j].now <= events[k].now
  }

  predicate NoneAfter(events: seq<FleetEvent>, i: nat, time: int)
    requires i <= |events|
  {
    forall j :: 0 <= j < i && Timed(events[j]) ==> events[j].now <= time
  }

  /** In time: in order, and with no sample after `time`. */
  ghost predicate Until(history: seq<Sample>, time: int) {
    InOrder(history) && forall k :: 0 <= k < |history| ==> history[k].at <= time
  }

  lemma LongerHistory(start: int, polls: seq<Sample>, sample: Sample)
    requires Until(History(start, polls), sample.at)
    ensures Until(History(start, polls + [sample]), sample.at)
  {
    assert History(start, polls + [sample]) == History(start, polls) + [sample];
  }

  lemma PollsNow(states: seq<Fleet>, events: seq<FleetEvent>, i: nat, id: string)
    requires |states| == |events| + 1 && 0 < i < |states|
    ensures var before, now, event := PollsOf(states, events, i - 1, id), PollsOf(states, events, i, id), events[i - 1];
            if event.EnginesPolled? then now == before + [Sample(event.now, event.reports(id).totalBytes)]
            else if event.SchedulerRan? && id !in ActiveIds(states[i - 1]) then now == []
            else now == before
  {
  }

  lemma EarlierEvents(events: seq<FleetEvent>, i: nat)
    requires InTime(events) && 0 < i <= |events| && Timed(events[i - 1])
    ensures NoneAfter(events, i - 1, events[i - 1].now)
  {
  }

  /** How one event takes the history of a line on. */
  lemma HistoryMoves(states: seq<Fleet>, events: seq<FleetEvent>, i: nat, id: string, start: int, time: int)
    requires |states| == |events| + 1 && 0 < i < |states| && NoneAfter(events, i, time)
    requires var event, polls := events[i - 1], PollsOf(states, events, i - 1, id);
             if event.EnginesPolled? then Until(History(start, polls), event.now)
             else if event.SchedulerRan? && id !in ActiveIds(states[i - 1]) then start <= time
             else Until(History(start, polls), time)
    ensures Until(History(start, PollsOf(states, events, i, id)), time)
  {
    var event := events[i - 1];
    PollsNow(states, events, i, id);
    if event.EnginesPolled? {
      LongerHistory(start, PollsOf(states, events, i - 1, id), Sample(event.now, event.reports(id).totalBytes));
    }
  }

  /** The history of an active line is in order, and no sample of it lies after `time`. */
  lemma {:induction false} HistoryInTime(settings: Settings, states: seq<Fleet>, events: seq<FleetEvent>, i: nat,
                                         line: Line, time: int)
    requires IsRun(settings, states, events) && InTime(events) && i < |states| && line in states[i].active
    requires NoneAfter(events, i, time)
    ensures Until(History(line.startedAt, PollsOf(states, events, i, line.account.id)), time)
    decreases i
  {
    if i > 0 {
      var event := events[i - 1];
      var before := OriginAt(settings, states, events, i, line);
      if before.Some? {
        if event.EnginesPolled? {
          EarlierEvents(events, i);
          HistoryInTime(settings, states, events, i - 1, before.value, event.now);
        } else {
          HistoryInTime(settings, states, events, i - 1, before.value, time);
        }
      }
      HistoryMoves(states, events, i, line.account.id, line.startedAt, time);
    }
  }

  /** Over every run in time, a polled line whose helper has not stopped is quarantined exactly when all
      it has reported since its start shows no progress for the stall limit, or is slow over fewer than
      400 samples. */
  lemma QuarantineIsExact(settings: Settings, states: seq<Fleet>, events: seq<FleetEvent>, i: nat, line: Line)
    requires IsRun(settings, states, events) && InTime(events) && settings.limits.slowWindow > 0
    requires i < |events| && events[i].EnginesPolled? && line in states[i].active
             && !events[i].reports(line.account.id).stopped
    ensures var (id, now) := (line.account.id, events[i].now);
            var history := History(line.startedAt, PollsOf(states, events, i + 1, id));
            id in states[i + 1].cooldowns <==> Unhealthy(settings.limits, history, now)
  {
    var id, now, report := line.account.id, events[i].now, events[i].reports(line.account.id);
    var polls := PollsOf(states, events, i, id);
    assert StepAt(settings, states, events, i);
    RunsAreSafe(settings, states, events, i);
    SamplesAreWindow(settings, states, events, i, line);
    HistoryIsRemembered(settings, states, events, i, line);
    HistoryInTime(settings, states, events, i, line, now);
    LongerHistory(line.startedAt, polls, Sample(now, report.totalBytes));
    HealthFollowsHistory(settings, line, polls, report, now);
    CooledIfFailed(settings, states[i], events[i].reports, now, line);
  }

  /** A line whose helper has stopped leaves without a quarantine. */
  lemma StoppedJustLeaves(settings: Settings, fleet: Fleet, reports: string -> Report, now: int, line: Line)
    requires Safe(fleet) && line in fleet.active && reports(line.account.id).stopped
    ensures var after := EnginesSwept(settings, fleet, reports, now);
            line.account.id !in ActiveIds(after) && line.account.id !in after.cooldowns
  {
    CooledIfFailed(settings, fleet, reports, now, line);
    SweepKeepsSafe(settings, fleet, reports, now);
    var after := EnginesSwept(settings, fleet, reports, now);
    if line.account.id in ActiveIds(after) {
      var left := LineOf(after.active, line.account.id);
      var before := SweptOrigin(settings, fleet, reports, now, left);
      assert false;
    }
  }

  lemma CooledIfFailed(settings: Settings, fleet: Fleet, reports: string -> Report, now: int, line: Line)
    requires Safe(fleet) && line in fleet.active
    ensures line.account.id in EnginesSwept(settings, fleet, reports, now).cooldowns
            <==> PollLine(settings, line, reports(line.account.id), now) == Failed
  {
    if PollLine(settings, line, reports(line.account.id), now) == Failed {
      FailureMarks(settings, fleet, reports, now, line);
    } else {
      NoFailureNoMark(settings, fleet, reports, now, line);
    }
  }

  lemma NoFailureNoMark(settings: Settings, fleet: Fleet, reports: string -> Report, now: int, line: Line)
    requires Safe(fleet) && line in fleet.active && PollLine(settings, line, reports(line.account.id), now) != Failed
    ensures line.account.id !in EnginesSwept(settings, fleet, reports, now).cooldowns
  {
    var i :| 0 <= i < |fleet.active| && fleet.active[i] == line;
    SafeIsRested(fleet);
    var outcomes, until := Outcomes(settings, fleet.active, reports, now), now + settings.cooldown;
    SweepMarks(fleet.active, outcomes, until, fleet.cooldowns, i);
  }

  // ---- a slow line no run catches

  /** The line of an account after n seconds of a byte a second, started at 0. */
  function TrickleLine(limits: Limits, account: Account, n: nat): Line {
    Line(account, 0, n, n * SECOND, Window(limits, 0, Trickle(n)))
  }

  function TrickleFleet(limits: Limits, account: Account, n: nat): Fleet {
    NewFleet(true, [account]).(active := [TrickleLine(limits, account, n)])
  }

  function TricklePoll(n: nat): FleetEvent {
    EnginesPolled((n + 1) * SECOND, _ => Report(n + 1, false))
  }

  /** At the start, eight in the morning in Shanghai, the quota is ten and the only account is chosen. */
  lemma TrickleStarts(settings: Settings, account: Account, standings: string -> Standing)
    requires account.enabled
    ensures Scheduled(settings, NewFleet(true, [account]), {}, standings, 0, TrickleFleet(settings.limits, account, 0))
  {
    var fleet := NewFleet(true, [account]);
    assert LocalHour(0) == 8 && Desired(0) == 10;
    assert Usable(fleet, account, 0);
    assert Filter([account], (a: Account) => Usable(fleet, a, 0)) == [account] by {
      FilterOne(account, (a: Account) => Usable(fleet, a, 0));
    }
    assert Kept(settings, fleet, {}, 0) == [];
    FilterOne(account, (a: Account) => a.id !in []);
    assert Candidates(settings, fleet, {}, standings, 0) == [account];
    var launched := [NewLine(account, 0)];
    assert AccountIds([account]) == [account.id] == Ids(launched);
    assert Selected(settings, fleet, {}, standings, 0) == {account.id};
    assert Started(launched, fleet.accounts, {account.id} - ActiveIds(fleet), 0);
    assert Trickle(0) == [] && Unexpired(map[], 0) == map[];
    assert TrickleFleet(settings.limits, account, 0) == fleet.(active := Survivors([], {account.id}) + launched);
  }

  lemma FilterOne<T(!new)>(x: T, keep: T -> bool)
    requires keep(x)
    ensures Filter([x], keep) == [x]
  {
    assert [x][1..] == [];
  }

  /** A poll of such a line finds it healthy, whatever window of 400 seconds or more is set. */
  lemma TrickleGoesOn(settings: Settings, account: Account, w: nat, n: nat)
    requires settings.limits.slowWindow == w * SECOND && w >= 400
    requires settings.limits.minimumMbps >= 1 && settings.limits.stall > 0
    ensures EnginesSwept(settings, TrickleFleet(settings.limits, account, n), TricklePoll(n).reports, (n + 1) * SECOND)
         == TrickleFleet(settings.limits, account, n + 1)
  {
    var limits, line, now := settings.limits, TrickleLine(settings.limits, account, n), (n + 1) * SECOND;
    FullDequeMissesSlowLine(limits, w, n + 1);
    TricklePolled(settings, account, n);
    OneLineSweep(line, Healthy(TrickleLine(limits, account, n + 1)), now + settings.cooldown, map[]);
    assert Outcomes(settings, [line], TricklePoll(n).reports, now) == [Healthy(TrickleLine(limits, account, n + 1))];
  }

  /** One more byte is progress, so the line has not stalled; the rest is the window. */
  lemma TricklePolled(settings: Settings, account: Account, n: nat)
    requires settings.limits.stall > 0 && !Slow(settings.limits, Window(settings.limits, 0, Trickle(n + 1)))
    ensures PollLine(settings, TrickleLine(settings.limits, account, n), Report(n + 1, false), (n + 1) * SECOND)
         == Healthy(TrickleLine(settings.limits, account, n + 1))
  {
    var now := (n + 1) * SECOND;
    assert Trickle(n + 1) == Trickle(n) + [Sample(now, n + 1)];
    WindowStep(settings.limits, 0, Trickle(n), Sample(now, n + 1));
  }

  lemma OneLineSweep(line: Line, outcome: LinePoll, until: int, cooldowns: map<string, int>)
    requires outcome.Healthy?
    ensures Sweep([line], [outcome], until, cooldowns).0 == [outcome.line]
    ensures Sweep([line], [outcome], until, cooldowns).1 == cooldowns
  {
    assert [line][1..] == [] && [outcome][1..] == [];
  }

  lemma LongerRun(settings: Settings, states: seq<Fleet>, events: seq<FleetEvent>, event: FleetEvent, after: Fleet)
    requires IsRun(settings, states, events) && Step(settings, states[|events|], event, after)
    ensures IsRun(settings, states + [after], events + [event])
  {
    forall i | 0 <= i < |events| + 1 ensures StepAt(settings, states + [after], events + [event], i) {
      assert i < |events| ==> StepAt(settings, states, events, i);
    }
  }

  lemma TrickleBegins(settings: Settings, account: Account, standings: string -> Standing)
    returns (states: seq<Fleet>, events: seq<FleetEvent>)
    requires settings.limits.slowWindow > 0 && account.enabled
    ensures IsRun(settings, states, events) && InTime(events) && |events| == 1
    ensures Timed(events[0]) ==> events[0].now == 0
    ensures states[1] == TrickleFleet(settings.limits, account, 0)
    ensures PollsOf(states, events, 1, account.id) == Trickle(0)
  {
    TrickleStarts(settings, account, standings);
    states := [NewFleet(true, [account]), TrickleFleet(settings.limits, account, 0)];
    events := [SchedulerRan(0, {}, standings)];
    assert DistinctIds([account]);
    assert Trickle(0) == [];
  }

  /** A run of n polls, one a second, of a line that delivers a byte a second. */
  lemma {:induction false} TrickleRun(settings: Settings, account: Account, standings: string -> Standing,
                                      w: nat, n: nat)
    returns (states: seq<Fleet>, events: seq<FleetEvent>)
    requires settings.limits.slowWindow == w * SECOND && w >= 400
    requires settings.limits.minimumMbps >= 1 && settings.limits.stall > 0 && account.enabled
    ensures IsRun(settings, states, events) && InTime(events) && |events| == n + 1
    ensures forall k :: 0 <= k <= n && Timed(events[k]) ==> events[k].now <= n * SECOND
    ensures states[n + 1] == TrickleFleet(settings.limits, account, n)
    ensures PollsOf(states, events, n + 1, account.id) == Trickle(n)
    decreases n
  {
    if n == 0 {
      states, events := TrickleBegins(settings, account, standings);
    } else {
      var before, past := TrickleRun(settings, account, standings, w, n - 1);
      TrickleGoesOn(settings, account, w, n - 1);
      states, events := before + [TrickleFleet(settings.limits, account, n)], past + [TricklePoll(n - 1)];
      LongerRun(settings, before, past, TricklePoll(n - 1), TrickleFleet(settings.limits, account, n));
      PollsOfLonger(before, past, states, events, n, account.id);
      PollsNow(states, events, n + 1, account.id);
      assert Trickle(n) == Trickle(n - 1) + [Sample(n * SECOND, n)];
    }
  }

  /** With any slow window of 400 seconds or more, under settings the program accepts, there are runs
      of any length in which a line that delivers a byte a second stays active, although from the end
      of the window on its history is slow. */
  lemma SlowLineStaysActive(settings: Settings, account: Account, standings: string -> Standing, w: nat, n: nat)
    returns (states: seq<Fleet>, events: seq<FleetEvent>)
    requires settings.limits.slowWindow == w * SECOND && w >= 400
    requires settings.limits.minimumMbps >= 1 && settings.limits.stall > 0 && account.enabled
    ensures IsRun(settings, states, events) && InTime(events) && |events| == n + 1
    ensures forall k :: 0 <= k <= n && Timed(events[k]) ==> events[k].now <= n * SECOND
    ensures states[n + 1].active == [TrickleLine(settings.limits, account, n)]
    ensures states[n + 1] == TrickleFleet(settings.limits, account, n)
    ensures PollsOf(states, events, n + 1, account.id) == Trickle(n)
    ensures n >= w ==> SlowInFull(settings.limits, History(0, PollsOf(states, events, n + 1, account.id)), n * SECOND)
  {
    states, events := TrickleRun(settings, account, standings, w, n);
    if n > 0 {
      FullDequeMissesSlowLine(settings.limits, w, n);
    }
  }

  /** What was polled is a matter of the past. */
  lemma {:induction false} PollsOfLonger(before: seq<Fleet>, past: seq<FleetEvent>, states: seq<Fleet>,
                                         events: seq<FleetEvent>,
                                         i: nat, id: string)
    requires |before| == |past| + 1 <= |states| == |events| + 1 && i < |before|
    requires states[..|before|] == before && events[..|past|] == past
    ensures PollsOf(states, events, i, id) == PollsOf(before, past, i, id)
  {
    if i > 0 {
      PollsOfLonger(before, past, states, events, i - 1, id);
      assert events[i - 1] == past[i - 1] && states[i - 1] == before[i - 1];
    }
  }
}
