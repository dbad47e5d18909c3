/** The store of the fleet: the ledgers of all accounts, updated in place by one
    SNMP walk (steam_pumper/fleet.py, class FleetStore). */
module FleetStore {
  import opened Time
  import opened Wrappers
  import opened TrafficRows
  import opened TrafficLedger
  import BusinessHours

  datatype Account = Account(id: string, bindIp: string, snmpInterface: string, enabled: bool)

  predicate Bears(item: Interface, name: string) {
    name != "" && (item.name == name || item.alias == name)
  }

  /** The interfaces that bear a name as name or alias, in walk order. */
  function Matching(interfaces: seq<Interface>, name: string): seq<Interface> {
    if interfaces == [] then []
    else
      var last := interfaces[|interfaces| - 1];
      Matching(interfaces[..|interfaces| - 1], name) + if Bears(last, name) then [last] else []
  }

  predicate DistinctIds(accounts: seq<Account>) {
    forall i, j :: 0 <= i < j < |accounts| ==> accounts[i].id != accounts[j].id
  }

  function Named(index: map<string, seq<Interface>>, name: string): seq<Interface> {
    if name in index then index[name] else []
  }

  function Filed(index: map<string, seq<Interface>>, name: string, item: Interface): map<string, seq<Interface>> {
    if name == "" then index else index[name := Named(index, name) + [item]]
  }

  lemma FiledUnder(index: map<string, seq<Interface>>, name: string, item: Interface, other: string)
    ensures Named(Filed(index, name, item), other)
         == if other == name && name != "" then Named(index, other) + [item] else Named(index, other)
  {
    if other == name {} else {}
  }

  /** An interface is filed once under each of its distinct non-empty identities. */
  function FiledItem(index: map<string, seq<Interface>>, item: Interface): map<string, seq<Interface>> {
    var named := Filed(index, item.name, item);
    if item.alias == item.name then named else Filed(named, item.alias, item)
  }

  lemma FiledOnce(index: map<string, seq<Interface>>, item: Interface, other: string)
    ensures Named(FiledItem(index, item), other) == Named(index, other) + if Bears(item, other) then [item] else []
  {
    FiledUnder(index, item.name, item, other);
    FiledUnder(Filed(index, item.name, item), item.alias, item, other);
  }

  lemma MatchingStep(interfaces: seq<Interface>, i: nat, name: string)
    requires i < |interfaces|
    ensures Matching(interfaces[..i + 1], name)
         == Matching(interfaces[..i], name) + if Bears(interfaces[i], name) then [interfaces[i]] else []
  {
    assert interfaces[..i + 1][..i] == interfaces[..i];
  }

  method IndexByIdentity(interfaces: seq<Interface>) returns (index: map<string, seq<Interface>>)
    ensures forall name :: Named(index, name) == Matching(interfaces, name)
  {
    index := map[];
    for i := 0 to |interfaces|
      invariant forall name :: Named(index, name) == Matching(interfaces[..i], name)
    {
      ghost var before := index;
      index := FiledItem(index, interfaces[i]);
      forall name ensures Named(index, name) == Matching(interfaces[..i + 1], name) {
        FiledOnce(before, interfaces[i], name);
        MatchingStep(interfaces, i, name);
      }
    }
    assert interfaces[..|interfaces|] == interfaces;
  }

  function LedgerIn(traffic: map<string, Rows>, cursors: map<string, Cursor>, id: string): Ledger {
    TrafficLedger.Ledger(if id in traffic then traffic[id] else map[],
                         if id in cursors then Some(cursors[id]) else None)
  }

  class FleetStore {
    const cfg: Config
    var accounts: seq<Account>
    var traffic: map<string, Rows>
    var cursors: map<string, Cursor>

    constructor (cfg: Config)
      ensures this.cfg == cfg && accounts == [] && forall id :: Ledger(id) == NEW_LEDGER
    {
      this.cfg := cfg;
      accounts, traffic, cursors := [], map[], map[];
    }

    function RowsOf(id: string): Rows
      reads this
    {
      if id in traffic then traffic[id] else map[]
    }

    function Ledger(id: string): Ledger
      reads this
    {
      LedgerIn(traffic, cursors, id)
    }

    twostate predicate OnlyChanged(id: string)
      reads this
    {
      && accounts == old(accounts)
      && forall other :: other != id ==> Ledger(other) == old(Ledger(other))
    }

    method AddIntervalTraffic(id: string, start: int, end: int, values: Amounts, quality: Quality)
      modifies this`traffic
      ensures OnlyChanged(id)
      ensures Ledger(id) == old(Ledger(id)).(rows := AddInterval(old(RowsOf(id)), start, end, values, quality))
    {
      var booked := TrafficRows.AddIntervalTraffic(RowsOf(id), start, end, values, quality);
      traffic := traffic[id := booked];
    }

    method RecordDownload(id: string, amount: int, at: int)
      modifies this`traffic
      ensures OnlyChanged(id)
      ensures Ledger(id) == Apply(cfg, old(Ledger(id)), Downloaded(amount, at))
    {
      if amount <= 0 {
        return;
      }
      traffic := traffic[id := AddDownload(RowsOf(id), MinuteOf(at), amount)];
    }

    method SaveCursor(id: string, item: Interface, now: int, valid: bool, uptime: Option<int>)
      modifies this`cursors
      ensures OnlyChanged(id)
      ensures Ledger(id) == old(Ledger(id)).(cursor := Some(SavedCursor(item, now, valid, uptime)))
    {
      cursors := cursors[id := SavedCursor(item, now, valid, uptime)];
    }

    method SaveMissingCursor(id: string, now: int)
      modifies this`cursors
      ensures OnlyChanged(id)
      ensures Ledger(id) == old(Ledger(id)).(cursor := Some(MissingCursor(old(Ledger(id)).cursor, now)))
    {
      cursors := cursors[id := MissingCursor(Ledger(id).cursor, now)];
    }

    method ClearPendingUnknown(id: string, start: int, end: int)
      modifies this`traffic
      ensures OnlyChanged(id)
      ensures Ledger(id) == old(Ledger(id)).(rows := ClearUnknown(old(RowsOf(id)), MinuteOf(start), MinuteOf(end)))
    {
      traffic := traffic[id := ClearUnknown(RowsOf(id), MinuteOf(start), MinuteOf(end))];
    }

    method EstimatedBytes(id: string, start: int, end: int, column: Column) returns (estimate: Option<int>)
      ensures estimate == Estimate(RowsOf(id), start, end, column)
    {
      var (bytes, seconds) := RecentBytesAndSeconds(RowsOf(id), start, column, 30 * MINUTE);
      if seconds <= 0 {
        return None;
      }
      var cappedEnd := Min(end, start + 30 * MINUTE);
      var micros := Max(0, cappedEnd - start);
      if column == MeasuredUpload {
        micros := BusinessHours.BusinessSeconds(start, cappedEnd);
      }
      estimate := Some(bytes * micros / (seconds * SECOND));
    }

    method RecordEstimatedGap(id: string, start: int, end: int, quality: Quality)
      modifies this`traffic
      ensures OnlyChanged(id)
      ensures Ledger(id) == old(Ledger(id)).(rows :=
                AddInterval(old(RowsOf(id)), start, end, EstimatedGap(old(RowsOf(id)), start, end), quality))
    {
      var elapsed := Max(0, end - start) / SECOND;
      var upload := EstimatedBytes(id, start, end, MeasuredUpload);
      var download := EstimatedBytes(id, start, end, MeasuredDownload);
      var capped := Min(elapsed, 30 * 60);
      var unknown := Max(0, elapsed - capped);
      if upload.None? || download.None? {
        unknown := elapsed;
      }
      AddIntervalTraffic(id, start, end, Amounts(0, 0, OrZero(upload), OrZero(download), unknown, capped, 1), quality);
    }

    /** The counted case of one poll: neither device nor counters were reset. */
    method RecordCounted(id: string, c: Cursor, item: Interface, start: int, now: int) returns (quality: Quality)
      requires c.inOctets.Some? && c.outOctets.Some?
      modifies this`traffic
      ensures OnlyChanged(id)
      ensures quality == CountedQuality(cfg, c, item, Max(0, now - start))
      ensures Ledger(id) == old(Ledger(id)).(rows :=
                AddInterval(old(RowsOf(id)), start, now, CountedAmounts(cfg, old(RowsOf(id)), c, item, start, now),
                            quality))
    {
      var elapsed := Max(0, now - start);
      var upload, download := UploadOf(cfg, c, item), DownloadOf(cfg, c, item);
      var uploadValid, downloadValid := UploadValid(cfg, c, item, elapsed), DownloadValid(cfg, c, item, elapsed);
      var estimatedUpload, estimatedDownload := Some(0), Some(0);
      if !uploadValid {
        estimatedUpload := EstimatedBytes(id, start, now, MeasuredUpload);
      }
      if !downloadValid {
        estimatedDownload := EstimatedBytes(id, start, now, MeasuredDownload);
      }
      var unknown := if estimatedUpload.None? || estimatedDownload.None? then elapsed / SECOND else 0;
      quality := if !c.valid then Recovered else if uploadValid && downloadValid then Quality.Ok else Anomaly;
      AddIntervalTraffic(id, start, now,
                         Amounts(if uploadValid then upload else 0, if downloadValid then download else 0,
                                 OrZero(estimatedUpload), OrZero(estimatedDownload), unknown, elapsed / SECOND, 0),
                         quality);
    }

    method RecordAccount(id: string, matches: seq<Interface>, now: int, uptime: Option<int>) returns (verdict: Verdict)
      modifies this`traffic, this`cursors
      ensures OnlyChanged(id)
      ensures (Ledger(id), verdict) == Poll(cfg, old(Ledger(id)), matches, now, uptime)
    {
      var observed := Observed(matches);
      if id !in cursors {
        if observed.Some? {
          SaveCursor(id, observed.value, now, true, uptime);
          return Baseline;
        }
        SaveMissingCursor(id, now);
        return Unavailable(matches);
      }
      var prior := cursors[id];
      if observed.None? {
        var since := prior.sampledAt * SECOND;
        AddIntervalTraffic(id, since, now, PendingGapAmounts(since, now), PendingGap);
        SaveMissingCursor(id, now);
        return Unavailable(matches);
      }
      var item, start := observed.value, BaselineSecond(prior) * SECOND;
      ClearPendingUnknown(id, start, now);
      if Fell(prior.uptime, uptime) || CounterReset(prior, item) {
        RecordEstimatedGap(id, start, now, Quality.Reset);
        SaveCursor(id, item, now, true, uptime);
        return ResetSeen;
      }
      var quality := RecordCounted(id, prior, item, start, now);
      SaveCursor(id, item, now, true, uptime);
      return Counted(quality);
    }

    method Prune(now: int)
      modifies this`traffic
      ensures accounts == old(accounts)
      ensures forall id :: Ledger(id) == Pruned(cfg, old(Ledger(id)), now)
    {
      traffic := map id | id in traffic :: DropBefore(traffic[id], PruneMinute(cfg, now));
      forall id ensures Ledger(id) == Pruned(cfg, old(Ledger(id)), now) {
        assert DropBefore(map[], PruneMinute(cfg, now)) == map[];
      }
    }

    method PollAccounts(index: map<string, seq<Interface>>, now: int, uptime: Option<int>)
      returns (results: map<string, Verdict>)
      requires DistinctIds(accounts)
      modifies this`traffic, this`cursors
      ensures accounts == old(accounts)
      ensures results.Keys == set account | account in accounts :: account.id
      ensures forall k :: 0 <= k < |accounts| ==>
                (Ledger(accounts[k].id), results[accounts[k].id])
                == Poll(cfg, old(Ledger(accounts[k].id)), Named(index, accounts[k].snmpInterface), now, uptime)
      ensures forall id :: id !in results ==> Ledger(id) == old(Ledger(id))
    {
      ghost var rows0, cursors0 := traffic, cursors;
      results := map[];
      for i := 0 to |accounts|
        invariant accounts == old(accounts)
        invariant results.Keys == set k | 0 <= k < i :: accounts[k].id
        invariant forall k :: 0 <= k < i ==>
                    (Ledger(accounts[k].id), results[accounts[k].id])
                    == Poll(cfg, LedgerIn(rows0, cursors0, accounts[k].id), Named(index, accounts[k].snmpInterface),
                            now, uptime)
        invariant forall id :: id !in results ==> Ledger(id) == LedgerIn(rows0, cursors0, id)
      {
        var account := accounts[i];
        assert account.id !in results && Ledger(account.id) == LedgerIn(rows0, cursors0, account.id);
        var verdict := RecordAccount(account.id, Named(index, account.snmpInterface), now, uptime);
        results := results[account.id := verdict];
      }
    }

    /** One walk polls every account once, each on its own ledger; rows of accounts no longer
        listed are only pruned. */
    method RecordSnmp(interfaces: seq<Interface>, now: int, uptime: Option<int>) returns (results: map<string, Verdict>)
      requires DistinctIds(accounts)
      modifies this`traffic, this`cursors
      ensures accounts == old(accounts)
      ensures results.Keys == set account | account in accounts :: account.id
      ensures forall k :: 0 <= k < |accounts| ==>
                var id, matches := accounts[k].id, Matching(interfaces, accounts[k].snmpInterface);
                && results[id] == Poll(cfg, old(Ledger(id)), matches, now, uptime).1
                && Ledger(id) == Apply(cfg, old(Ledger(id)), Polled(now, matches, uptime))
      ensures forall id :: id !in results ==> Ledger(id) == Pruned(cfg, old(Ledger(id)), now)
    {
      var index := IndexByIdentity(interfaces);
      results := PollAccounts(index, now, uptime);
      Prune(now);
    }
  }
}
