/**
 internal/api/agent_cost.go: the aggregation pass. It refreshes every mapped
 session from its newest transcript through a cache keyed by path and mtime,
 prunes the status store, rolls the costs up and checks the budgets. A pass reads
 the clock once; a file's stat and its parse see the same file.
 */
module AgentAggregator {
  import opened Options
  import opened MapSum
  import opened AgentCost
  import opened AgentStatus
  import AgentBudget
  import Text

  datatype Entry = Entry(path: string, mtime: int, summary: Summary, cc: string)
  type Cache = map<string, Entry>

  /** What a pass finds on disk: the newest transcript of each directory, and each file's mtime and contents. */
  datatype Disk = Disk(newest: map<string, string>, mtimes: map<string, int>, files: map<string, Transcript>)

  function FileAt(disk: Disk, path: string): (t: Transcript) {
    if path in disk.files then disk.files[path] else Unopenable
  }

  /** The base name of a transcript without its ".jsonl". */
  function SessionId(path: string): (id: string) {
    var parts := Text.Split(path, '/');
    var base := parts[|parts| - 1];
    if |base| >= 6 && base[|base| - 6..] == ".jsonl" then base[..|base| - 6] else base
  }

  /** The id of a transcript is its file name without the extension, whatever directory it is in. */
  lemma SessionIdOfPath(dir: string, id: string)
    requires '/' !in id
    ensures SessionId(dir + "/" + id + ".jsonl") == id
  {
    var base := id + ".jsonl";
    Text.SplitConcat(dir, base, '/');
    Text.SplitNoSeparator(base, '/');
    assert dir + "/" + id + ".jsonl" == dir + ['/'] + base;
    assert base[|base| - 6..] == ".jsonl" && base[..|base| - 6] == id;
  }

  /** The transcript a session resolves to: its path and mtime, or nothing when there is none or stat fails. */
  function Located(cwd: string, disk: Disk): (at: Option<(string, int)>) {
    if cwd !in disk.newest || disk.newest[cwd] == "" || disk.newest[cwd] !in disk.mtimes then None
    else Some((disk.newest[cwd], disk.mtimes[disk.newest[cwd]]))
  }

  predicate CacheHit(cache: Cache, name: string, at: (string, int)) {
    name in cache && cache[name].path == at.0 && cache[name].mtime == at.1
  }

  /** The entry a pass publishes for a session: cached if path and mtime match, else parsed, else nothing. */
  ghost function Current(cache: Cache, name: string, cwd: string, disk: Disk): (e: Option<Entry>) {
    var at := Located(cwd, disk);
    if at.None? then None
    else if CacheHit(cache, name, at.value) then Some(cache[name])
    else
      var parsed := ParseResult(FileAt(disk, at.value.0));
      if parsed.Err? then None
      else Some(Entry(at.value.0, at.value.1, parsed.value, SessionId(at.value.0)))
  }

  /** The cache after the sessions in `done` were refreshed. */
  ghost function Refreshed(cache: Cache, cwds: map<string, string>, done: set<string>, disk: Disk): (c: Cache)
    requires done <= cwds.Keys
  {
    map name | name in cache.Keys + done
             && (name in cache || (name in done && Current(cache, name, cwds[name], disk).Some?))
      :: if name in done && Current(cache, name, cwds[name], disk).Some?
         then Current(cache, name, cwds[name], disk).value else cache[name]
  }

  /** The status map after the tokens of the sessions in `done` were published. */
  ghost function Published(m: map<string, Status>, cache: Cache, cwds: map<string, string>, done: set<string>,
                           disk: Disk, now: int): (m': map<string, Status>)
    requires done <= cwds.Keys
  {
    map name | name in m.Keys + done
             && (name in m || (name in done && name != "" && Current(cache, name, cwds[name], disk).Some?))
      :: if name in done && name != "" && Current(cache, name, cwds[name], disk).Some?
         then var e := Current(cache, name, cwds[name], disk).value;
              WithTokens(Lookup(m, name), e.summary.total, e.summary.cost, e.cc, now)
         else m[name]
  }

  lemma RefreshedStep(cache: Cache, cwds: map<string, string>, done: set<string>, disk: Disk, name: string)
    requires done + {name} <= cwds.Keys
    ensures Refreshed(cache, cwds, done + {name}, disk)
         == var r := Refreshed(cache, cwds, done, disk);
            var e := Current(cache, name, cwds[name], disk);
            if e.Some? then r[name := e.value] else r
  {
    hide Current;
  }

  lemma NothingRefreshed(m: map<string, Status>, cache: Cache, cwds: map<string, string>, disk: Disk, now: int)
    ensures Refreshed(cache, cwds, {}, disk) == cache && Published(m, cache, cwds, {}, disk, now) == m
  {
    hide Current, WithTokens;
  }

  lemma NotYetRefreshed(cache: Cache, cwds: map<string, string>, done: set<string>, disk: Disk, name: string)
    requires done <= cwds.Keys && name !in done
    ensures name in Refreshed(cache, cwds, done, disk) <==> name in cache
    ensures name in cache ==> Refreshed(cache, cwds, done, disk)[name] == cache[name]
  {
    hide Current;
  }

  lemma PublishedStep(m: map<string, Status>, cache: Cache, cwds: map<string, string>, done: set<string>, disk: Disk,
                      now: int, name: string)
    requires done + {name} <= cwds.Keys && name !in done
    ensures Published(m, cache, cwds, done + {name}, disk, now)
         == var p := Published(m, cache, cwds, done, disk, now);
            var e := Current(cache, name, cwds[name], disk);
            if e.Some? && name != ""
            then p[name := WithTokens(Lookup(p, name), e.value.summary.total, e.value.summary.cost, e.value.cc, now)]
            else p
  {
    hide Current, WithTokens;
  }

  /** Only sessions that are still mapped keep a cache entry. */
  ghost function CacheAfter(cache: Cache, cwds: map<string, string>, disk: Disk): (c: Cache) {
    var r := Refreshed(cache, cwds, cwds.Keys, disk);
    map name | name in r && name in cwds :: r[name]
  }

  ghost function StatusAfter(m: map<string, Status>, cache: Cache, cwds: map<string, string>, disk: Disk, now: int)
    : (m': map<string, Status>)
  {
    Pruned(Published(m, cache, cwds, cwds.Keys, disk, now), cwds.Keys, now)
  }

  // ---------------------------------------------------------------- roll-up

  predicate InMonth(date: string, month: string)
    ensures InMonth(date, month) <==> |month| <= |date| && forall i | 0 <= i < |month| :: date[i] == month[i]
  {
    month <= date
  }

  ghost function DayShare(byDay: map<string, real>, today: string): (usd: real) {
    Sum(map date | date in byDay && date == today :: byDay[date])
  }

  ghost function MonthShare(byDay: map<string, real>, month: string): (usd: real) {
    Sum(map date | date in byDay && InMonth(date, month) :: byDay[date])
  }

  ghost function DayShares(cache: Cache, today: string): (shares: map<string, real>) {
    map name | name in cache :: DayShare(cache[name].summary.byDay, today)
  }

  ghost function MonthShares(cache: Cache, month: string): (shares: map<string, real>) {
    map name | name in cache :: MonthShare(cache[name].summary.byDay, month)
  }

  ghost function Totals(cache: Cache, today: string, month: string): (t: AgentBudget.Totals) {
    AgentBudget.Totals(Sum(DayShares(cache, today)), Sum(MonthShares(cache, month)),
                       map name | name in cache :: cache[name].summary.cost)
  }

  lemma SumOneMore(byDay: map<string, real>, keep: set<string>, todo: set<string>, date: string)
    requires date in todo && todo <= byDay.Keys
    ensures Sum(map d | d in byDay && d in keep && d !in todo - {date} :: byDay[d])
         == Sum(map d | d in byDay && d in keep && d !in todo :: byDay[d])
            + (if date in keep then byDay[date] else 0.0)
  {
    var before := map d | d in byDay && d in keep && d !in todo :: byDay[d];
    var after := map d | d in byDay && d in keep && d !in todo - {date} :: byDay[d];
    if date in keep {
      SumUpdate(before, date, byDay[date]);
      assert after == before[date := byDay[date]];
    } else {
      assert after == before;
    }
  }

  method ShareOf(byDay: map<string, real>, today: string, month: string) returns (day: real, inMonth: real)
    ensures day == DayShare(byDay, today) && inMonth == MonthShare(byDay, month)
  {
    ghost var days := set d | d in byDay && d == today;
    ghost var months := set d | d in byDay && InMonth(d, month);
    var todo := byDay.Keys;
    day, inMonth := 0.0, 0.0;
    assert (map d | d in byDay && d in days && d !in todo :: byDay[d]) == map[];
    assert (map d | d in byDay && d in months && d !in todo :: byDay[d]) == map[];
    while todo != {}
      invariant todo <= byDay.Keys
      invariant day == Sum(map d | d in byDay && d in days && d !in todo :: byDay[d])
      invariant inMonth == Sum(map d | d in byDay && d in months && d !in todo :: byDay[d])
      decreases |todo|
    {
      var date :| date in todo;
      SumOneMore(byDay, days, todo, date);
      SumOneMore(byDay, months, todo, date);
      if date == today {
        day := day + byDay[date];
      }
      if month <= date {
        inMonth := inMonth + byDay[date];
      }
      todo := todo - {date};
    }
    assert (map d | d in byDay && d in days && d !in todo :: byDay[d])
        == map d | d in byDay && d == today :: byDay[d];
    assert (map d | d in byDay && d in months && d !in todo :: byDay[d])
        == map d | d in byDay && InMonth(d, month) :: byDay[d];
  }

  method RollUp(cache: Cache, today: string, month: string) returns (t: AgentBudget.Totals)
    ensures t == Totals(cache, today, month)
  {
    hide DayShare, MonthShare;
    ghost var days, months := DayShares(cache, today), MonthShares(cache, month);
    var todo := cache.Keys;
    var day, inMonth := 0.0, 0.0;
    assert days - todo == map[] && months - todo == map[];
    while todo != {}
      invariant todo <= cache.Keys && day == Sum(days - todo) && inMonth == Sum(months - todo)
      decreases |todo|
    {
      var name :| name in todo;
      SumStep(days, todo, name);
      SumStep(months, todo, name);
      var d, m := ShareOf(cache[name].summary.byDay, today, month);
      day, inMonth := day + d, inMonth + m;
      todo := todo - {name};
    }
    assert days - todo == days && months - todo == months;
    t := AgentBudget.Totals(day, inMonth, map name | name in cache :: cache[name].summary.cost);
  }

  // ---------------------------------------------------------------- the pass

  class Aggregator {
    var cache: Cache
    const store: StatusStore
    const alerts: AgentBudget.BudgetAlerts

    constructor (store: StatusStore, alerts: AgentBudget.BudgetAlerts)
      ensures cache == map[] && this.store == store && this.alerts == alerts
    {
      cache := map[];
      this.store := store;
      this.alerts := alerts;
    }

    method RefreshOne(name: string, cwd: string, disk: Disk, now: int)
      modifies this, store
      ensures
        var e := Current(old(cache), name, cwd, disk);
        && cache == (if e.Some? then old(cache)[name := e.value] else old(cache))
        && store.m == (if e.Some? && name != ""
                       then old(store.m)[name := WithTokens(Lookup(old(store.m), name), e.value.summary.total,
                                                            e.value.summary.cost, e.value.cc, now)]
                       else old(store.m))
    {
      hide ParseResult;
      var at := Located(cwd, disk);
      if at.None? { return; }
      var (path, mtime) := at.value;
      if CacheHit(cache, name, at.value) {
        var c := cache[name];
        store.SetTokens(name, c.summary.total, c.summary.cost, c.cc, now);
        return;
      }
      var parsed := ParseTranscript(FileAt(disk, path));
      if parsed.Err? { return; }
      var e := Entry(path, mtime, parsed.value, SessionId(path));
      cache := cache[name := e];
      store.SetTokens(name, e.summary.total, e.summary.cost, e.cc, now);
    }

    method RefreshAll(cwds: map<string, string>, disk: Disk, now: int)
      modifies this, store
      ensures cache == Refreshed(old(cache), cwds, cwds.Keys, disk)
      ensures store.m == Published(old(store.m), old(cache), cwds, cwds.Keys, disk, now)
    {
      hide Current, WithTokens, Refreshed, Published;
      var todo := cwds.Keys;
      assert cwds.Keys - todo == {};
      NothingRefreshed(store.m, cache, cwds, disk, now);
      while todo != {}
        invariant todo <= cwds.Keys
        invariant cache == Refreshed(old(cache), cwds, cwds.Keys - todo, disk)
        invariant store.m == Published(old(store.m), old(cache), cwds, cwds.Keys - todo, disk, now)
        decreases |todo|
      {
        var name :| name in todo;
        ghost var done := cwds.Keys - todo;
        NotYetRefreshed(old(cache), cwds, done, disk, name);
        CurrentIsLocal(cache, old(cache), name, cwds[name], disk);
        RefreshedStep(old(cache), cwds, done, disk, name);
        PublishedStep(old(store.m), old(cache), cwds, done, disk, now, name);
        RefreshOne(name, cwds[name], disk, now);
        todo := todo - {name};
        assert cwds.Keys - todo == done + {name};
      }
      assert cwds.Keys - todo == cwds.Keys;
    }

    method DropUnmapped(cwds: map<string, string>)
      modifies this
      ensures cache == map name | name in old(cache) && name in cwds :: old(cache)[name]
    {
      var todo := cache.Keys;
      while todo != {}
        invariant todo <= cache.Keys <= old(cache).Keys
        invariant forall name | name in cache :: cache[name] == old(cache)[name]
        invariant forall name | name in old(cache) && name !in todo :: name in cache <==> name in cwds
        decreases |todo|
      {
        var name :| name in todo;
        if name !in cwds {
          cache := cache - {name};
        }
        todo := todo - {name};
      }
    }

    method Pass(cwds: map<string, string>, disk: Disk, now: int, today: string, month: string,
                caps: AgentBudget.Caps, available: bool)
      modifies this, store, alerts
      ensures cache == CacheAfter(old(cache), cwds, disk)
      ensures store.m == StatusAfter(old(store.m), old(cache), cwds, disk, now)
      ensures AgentBudget.Fired(old(alerts.View()),
                                AgentBudget.Due(AgentBudget.Check(caps, available, Totals(cache, today, month), today, month)),
                                alerts.View())
    {
      hide Refreshed, Published, Pruned, Totals, AgentBudget.Fired, AgentBudget.Due;
      RefreshAll(cwds, disk, now);
      DropUnmapped(cwds);
      store.Prune(cwds.Keys, now);
      var totals := RollUp(cache, today, month);
      alerts.CheckBudgets(AgentBudget.Check(caps, available, totals, today, month));
    }
  }

  /** What is published for a session depends on that session's own cache entry only. */
  lemma CurrentIsLocal(c1: Cache, c2: Cache, name: string, cwd: string, disk: Disk)
    requires name in c1 <==> name in c2
    requires name in c1 ==> c1[name] == c2[name]
    ensures Current(c1, name, cwd, disk) == Current(c2, name, cwd, disk)
  {
  }

  // ---------------------------------------------------------------- the cache agrees with a fresh parse

  /** The lines a transcript has at a given mtime. */
  type Contents = (string, int) -> seq<Line>

  /** Whenever a file reads to its end, its lines are those that belong to its path and mtime. */
  ghost predicate Faithful(disk: Disk, contents: Contents) {
    forall path | path in disk.mtimes && ParseResult(FileAt(disk, path)).Ok?
      :: FileAt(disk, path).lines == contents(path, disk.mtimes[path])
  }

  /** What parsing the file now would give. */
  ghost function FreshEntry(at: (string, int), contents: Contents): (e: Entry) {
    Entry(at.0, at.1, Parsed(contents(at.0, at.1)), SessionId(at.0))
  }

  ghost predicate CacheCoherent(cache: Cache, contents: Contents) {
    forall name | name in cache :: cache[name] == FreshEntry((cache[name].path, cache[name].mtime), contents)
  }

  /** What happens to the stores between passes and in them. */
  datatype Step =
    | Hook(session: string, state: string, cc: string, at: int)
    | Aggregate(cwds: map<string, string>, disk: Disk, at: int, budget: Budget)

  /** What a pass holds its totals against: the calendar, the caps in force and whether there is a notifier. */
  datatype Budget = Budget(today: string, month: string, caps: AgentBudget.Caps, available: bool)

  datatype State = State(cache: Cache, status: map<string, Status>)

  ghost function Next(s: State, step: Step): (s': State) {
    match step
    case Hook(session, state, cc, at) =>
      if session == "" then s
      else s.(status := s.status[session := WithState(Lookup(s.status, session), state, cc, at)])
    case Aggregate(cwds, disk, at, _) =>
      State(CacheAfter(s.cache, cwds, disk), StatusAfter(s.status, s.cache, cwds, disk, at))
  }

  ghost function Run(s: State, steps: seq<Step>): (s': State) {
    if steps == [] then s else Next(Run(s, steps[..|steps| - 1]), steps[|steps| - 1])
  }

  ghost predicate FaithfulRun(steps: seq<Step>, contents: Contents) {
    forall step | step in steps && step.Aggregate? :: Faithful(step.disk, contents)
  }

  lemma CurrentIsFresh(cache: Cache, name: string, cwd: string, disk: Disk, contents: Contents)
    requires CacheCoherent(cache, contents) && Faithful(disk, contents)
    ensures Current(cache, name, cwd, disk).Some? ==>
              Located(cwd, disk).Some?
              && Current(cache, name, cwd, disk).value == FreshEntry(Located(cwd, disk).value, contents)
  {
    hide Parsed;
  }

  /** In every run, each cache entry is what a fresh parse of its transcript would give. */
  lemma {:induction false} CacheStaysCoherent(s: State, steps: seq<Step>, contents: Contents)
    requires CacheCoherent(s.cache, contents) && FaithfulRun(steps, contents)
    ensures CacheCoherent(Run(s, steps).cache, contents)
  {
    hide Current, FreshEntry;
    if steps != [] {
      var before, step := steps[..|steps| - 1], steps[|steps| - 1];
      CacheStaysCoherent(s, before, contents);
      var mid := Run(s, before);
      if step.Aggregate? {
        forall name | name in CacheAfter(mid.cache, step.cwds, step.disk)
          ensures var e := CacheAfter(mid.cache, step.cwds, step.disk)[name];
                  e == FreshEntry((e.path, e.mtime), contents)
        {
          CurrentIsFresh(mid.cache, name, step.cwds[name], step.disk, contents);
          FreshEntryPlace(Located(step.cwds[name], step.disk), contents);
        }
      }
    }
  }

  lemma FreshEntryPlace(at: Option<(string, int)>, contents: Contents)
    ensures at.Some? ==> var e := FreshEntry(at.value, contents); (e.path, e.mtime) == at.value
  {
  }

  /** After the last pass of every run: only mapped sessions are cached or shown, and a mapped session whose newest
      transcript can be read shows exactly a fresh parse, unless it was pruned as stale; it is never pruned in the
      pass that changed its totals. */
  lemma PassPublishesFreshTotals(s: State, steps: seq<Step>, contents: Contents)
    requires CacheCoherent(s.cache, contents) && FaithfulRun(steps, contents)
    requires steps != [] && steps[|steps| - 1].Aggregate?
    ensures
      var before, pass, after := Run(s, steps[..|steps| - 1]), steps[|steps| - 1], Run(s, steps);
      && after.cache.Keys <= pass.cwds.Keys && after.status.Keys <= pass.cwds.Keys
      && forall name | name in pass.cwds && name != "" && Located(pass.cwds[name], pass.disk).Some?
                     && ParseResult(FileAt(pass.disk, Located(pass.cwds[name], pass.disk).value.0)).Ok? ::
           var parse := FreshEntry(Located(pass.cwds[name], pass.disk).value, contents);
           var was := Lookup(before.status, name);
           && name in after.cache && after.cache[name] == parse
           && (name in after.status ==>
                 after.status[name].tokens == Some(parse.summary.total) && after.status[name].cost == parse.summary.cost)
           && (name !in after.status <==> was.tokens == Some(parse.summary.total) && Stale(was, pass.at))
  {
    hide FreshEntry, Parsed;
    var k := |steps| - 1;
    var before, pass := Run(s, steps[..k]), steps[k];
    CacheStaysCoherent(s, steps[..k], contents);
    forall name | name in pass.cwds
      ensures Current(before.cache, name, pass.cwds[name], pass.disk).Some? ==>
                Located(pass.cwds[name], pass.disk).Some?
                && Current(before.cache, name, pass.cwds[name], pass.disk).value
                   == FreshEntry(Located(pass.cwds[name], pass.disk).value, contents)
    {
      CurrentIsFresh(before.cache, name, pass.cwds[name], pass.disk, contents);
    }
  }

  // ---------------------------------------------------------------- what the caps are compared with

  /** The dated charges whose day is kept, in order. */
  function OnDates(cs: seq<Charge>, keep: string -> bool): (kept: seq<Charge>) {
    if cs == [] then []
    else
      var before, c := OnDates(cs[..|cs| - 1], keep), cs[|cs| - 1];
      if Dated(c) && keep(DateOf(c)) then before + [c] else before
  }

  ghost function KeptDays(days: PerDay, keep: string -> bool): (costs: map<string, real>) {
    map date | date in days && keep(date) :: Bill(days[date])
  }

  lemma KeptAfterCharge(days: PerDay, c: Charge, keep: string -> bool)
    requires Coherent(c.tokens)
    requires forall date, model | date in days && model in days[date] :: Coherent(days[date][model])
    ensures Sum(KeptDays(AddToDay(days, c), keep))
         == Sum(KeptDays(days, keep)) + (if Dated(c) && keep(DateOf(c)) then CostForModel(c.model, c.tokens) else 0.0)
  {
    hide CostForModel, Bill;
    if Dated(c) {
      var date := DateOf(c);
      var before := if date in days then days[date] else map[];
      BillAfterCharge(before, c);
      EmptyBill();
      var after := Bill(AddTo(before, c));
      if keep(date) {
        SumUpdate(KeptDays(days, keep), date, after);
        assert KeptDays(AddToDay(days, c), keep) == KeptDays(days, keep)[date := after];
      } else {
        assert KeptDays(AddToDay(days, c), keep) == KeptDays(days, keep);
      }
    }
  }

  /** For any choice of days, their buckets together cost what the lines of those days cost, one by one. */
  lemma {:induction false} KeptDaysCostTheirLines(cs: seq<Charge>, keep: string -> bool)
    requires AllCoherent(cs)
    ensures Sum(KeptDays(GroupByDay(cs), keep)) == LineCosts(OnDates(cs, keep))
  {
    hide CostForModel, Bill;
    if cs != [] {
      var before, c := cs[..|cs| - 1], cs[|cs| - 1];
      KeptDaysCostTheirLines(before, keep);
      DayGroupsStayCoherent(before);
      KeptAfterCharge(GroupByDay(before), c, keep);
      LineCostsStep(OnDates(before, keep), c);
    } else {
      assert KeptDays(map[], keep) == map[];
    }
  }

  lemma SharesAreTheirLines(ls: seq<Line>, today: string, month: string)
    requires NonNegative(ls)
    ensures DayShare(Parsed(ls).byDay, today) == LineCosts(OnDates(Charges(ls), date => date == today))
    ensures MonthShare(Parsed(ls).byDay, month) == LineCosts(OnDates(Charges(ls), date => InMonth(date, month)))
  {
    hide LineCosts, Bill;
    var byDay, cs := Parsed(ls).byDay, Charges(ls);
    var isToday, inMonth := (date: string) => date == today, (date: string) => InMonth(date, month);
    NonNegativeIsCoherent(ls);
    KeptDaysCostTheirLines(cs, isToday);
    KeptDaysCostTheirLines(cs, inMonth);
    assert KeptDays(GroupByDay(cs), isToday) == map date | date in byDay && date == today :: byDay[date];
    assert KeptDays(GroupByDay(cs), inMonth) == map date | date in byDay && InMonth(date, month) :: byDay[date];
  }

  /** What the counted lines of some days cost, session by session, priced line by line. */
  ghost function LinesPerSession(cache: Cache, keep: string -> bool, contents: Contents): (costs: map<string, real>) {
    map name | name in cache :: LineCosts(OnDates(Charges(contents(cache[name].path, cache[name].mtime)), keep))
  }

  /** What the counted lines dated on a day, or in a month, cost over all cached sessions, priced one by one. */
  ghost function DaySpend(cache: Cache, day: string, contents: Contents): (usd: real) {
    Sum(LinesPerSession(cache, date => date == day, contents))
  }

  ghost function MonthSpend(cache: Cache, month: string, contents: Contents): (usd: real) {
    Sum(LinesPerSession(cache, date => InMonth(date, month), contents))
  }

  /** What all counted lines of a cached session cost, priced one by one. */
  ghost function SessionSpend(cache: Cache, name: string, contents: Contents): (usd: real)
    requires name in cache
  {
    LineCosts(Charges(contents(cache[name].path, cache[name].mtime)))
  }

  /** The figures a reader of the transcripts would hold against the caps: counted lines priced one by one, those of
      today and of this month over all sessions, and all of them session by session. */
  ghost function LineTotals(cache: Cache, today: string, month: string, contents: Contents): (t: AgentBudget.Totals) {
    AgentBudget.Totals(DaySpend(cache, today, contents), MonthSpend(cache, month, contents),
                       map name | name in cache :: SessionSpend(cache, name, contents))
  }

  /** The figures held against the caps are the price of exactly the counted lines of today, of this month and of each
      session in the cached transcripts, line by line. */
  lemma CapsAreHeldAgainstTheLines(cache: Cache, today: string, month: string, contents: Contents)
    requires CacheCoherent(cache, contents)
    requires forall name | name in cache :: NonNegative(contents(cache[name].path, cache[name].mtime))
    ensures Totals(cache, today, month) == LineTotals(cache, today, month, contents)
  {
    hide LinesPerSession, DayShares, MonthShares, Sum, LineCosts, Charges, CacheCoherent;
    SharesOfAll(cache, today, month, contents);
    forall name | name in cache
      ensures cache[name].summary.cost == LineCosts(Charges(contents(cache[name].path, cache[name].mtime)))
    {
      SessionIsItsLines(cache, name, contents);
    }
  }

  lemma SharesOfAll(cache: Cache, today: string, month: string, contents: Contents)
    requires CacheCoherent(cache, contents)
    requires forall name | name in cache :: NonNegative(contents(cache[name].path, cache[name].mtime))
    ensures DayShares(cache, today) == LinesPerSession(cache, date => date == today, contents)
    ensures MonthShares(cache, month) == LinesPerSession(cache, date => InMonth(date, month), contents)
  {
    hide LineCosts, OnDates, Charges, DayShare, MonthShare, Parsed;
    forall name | name in cache
      ensures DayShares(cache, today)[name] == LinesPerSession(cache, date => date == today, contents)[name]
      ensures MonthShares(cache, month)[name] == LinesPerSession(cache, date => InMonth(date, month), contents)[name]
    {
      SharesAreTheirLines(contents(cache[name].path, cache[name].mtime), today, month);
    }
  }

  lemma SessionIsItsLines(cache: Cache, name: string, contents: Contents)
    requires CacheCoherent(cache, contents) && name in cache
    requires NonNegative(contents(cache[name].path, cache[name].mtime))
    ensures cache[name].summary.cost == LineCosts(Charges(contents(cache[name].path, cache[name].mtime)))
  {
    hide Parsed, LineCosts, Charges;
    ParsedConserves(contents(cache[name].path, cache[name].mtime));
  }

  // ---------------------------------------------------------------- alerts over runs of passes

  ghost function CheckOf(totals: AgentBudget.Totals, b: Budget): (c: AgentBudget.Check) {
    AgentBudget.Check(b.caps, b.available, totals, b.today, b.month)
  }

  /** The cache as step `k` of a run left it. */
  ghost function CacheAt(s: State, steps: seq<Step>, k: nat): (cache: Cache)
    requires k < |steps|
  {
    Run(s, steps[..k + 1]).cache
  }

  /** states[k] holds the alerts before step `k`; each pass fires what its own totals make due. */
  ghost predicate AlertRun(states: seq<AgentBudget.Alerts>, s: State, steps: seq<Step>) {
    && |states| == |steps| + 1 && states[0] == AgentBudget.NO_ALERTS
    && forall k | 0 <= k < |steps| ::
         if steps[k].Hook? then states[k + 1] == states[k]
         else
           var b := steps[k].budget;
           AgentBudget.Fired(states[k], AgentBudget.Due(CheckOf(Totals(CacheAt(s, steps, k), b.today, b.month), b)),
                             states[k + 1])
  }

  /** What the lines, priced one by one, make due at a pass. */
  ghost predicate DueByLines(s: State, steps: seq<Step>, contents: Contents, k: nat, key: string)
    requires k < |steps|
  {
    && steps[k].Aggregate?
    && var b := steps[k].budget;
       key in AgentBudget.Due(CheckOf(LineTotals(CacheAt(s, steps, k), b.today, b.month, contents), b))
  }

  lemma {:induction false} DispatchedByLines(s: State, steps: seq<Step>, contents: Contents,
                                             states: seq<AgentBudget.Alerts>, i: nat, key: string)
    requires CacheCoherent(s.cache, contents) && FaithfulRun(steps, contents)
    requires forall path, mtime :: NonNegative(contents(path, mtime))
    requires AlertRun(states, s, steps) && i < |states|
    ensures AgentBudget.OncePerKey(states[i])
    ensures key in states[i].dispatched <==> exists k | 0 <= k < i :: DueByLines(s, steps, contents, k, key)
  {
    hide CacheCoherent, FaithfulRun, NonNegative, AgentBudget.Due, Totals, LineTotals, Run;
    if i > 0 {
      var k := i - 1;
      DispatchedByLines(s, steps, contents, states, k, key);
      if steps[k].Aggregate? {
        TotalsAtPass(s, steps, contents, k);
        assert key in states[i].notified <==> key in states[k].notified || DueByLines(s, steps, contents, k, key);
      }
    }
  }

  lemma TotalsAtPass(s: State, steps: seq<Step>, contents: Contents, k: nat)
    requires CacheCoherent(s.cache, contents) && FaithfulRun(steps, contents) && k < |steps| && steps[k].Aggregate?
    requires forall path, mtime :: NonNegative(contents(path, mtime))
    ensures var b := steps[k].budget;
      Totals(CacheAt(s, steps, k), b.today, b.month) == LineTotals(CacheAt(s, steps, k), b.today, b.month, contents)
  {
    hide CacheCoherent, NonNegative, Totals, LineTotals, Run;
    var b := steps[k].budget;
    assert FaithfulRun(steps[..k + 1], contents);
    CacheStaysCoherent(s, steps[..k + 1], contents);
    CapsAreHeldAgainstTheLines(CacheAt(s, steps, k), b.today, b.month, contents);
  }

  /** Step `k` is a pass of that day at which the day's lines cost more than the positive daily cap. */
  ghost predicate DailyBreach(s: State, steps: seq<Step>, contents: Contents, k: nat, day: string)
    requires k < |steps|
  {
    && steps[k].Aggregate? && steps[k].budget.available && steps[k].budget.today == day
    && 0.0 < steps[k].budget.caps.daily < DaySpend(CacheAt(s, steps, k), day, contents)
  }

  /** Step `k` is a pass of that month at which the month's lines cost more than the positive monthly cap. */
  ghost predicate MonthlyBreach(s: State, steps: seq<Step>, contents: Contents, k: nat, month: string)
    requires k < |steps|
  {
    && steps[k].Aggregate? && steps[k].budget.available && steps[k].budget.month == month
    && 0.0 < steps[k].budget.caps.monthly < MonthSpend(CacheAt(s, steps, k), month, contents)
  }

  /** Step `k` is a pass of that day at which a session's lines, of whatever day, cost more than the positive cap. */
  ghost predicate SessionBreach(s: State, steps: seq<Step>, contents: Contents, k: nat, name: string, day: string)
    requires k < |steps|
  {
    && steps[k].Aggregate? && steps[k].budget.available && steps[k].budget.today == day && name in CacheAt(s, steps, k)
    && 0.0 < steps[k].budget.caps.session < SessionSpend(CacheAt(s, steps, k), name, contents)
  }

  lemma BreachIsDue(s: State, steps: seq<Step>, contents: Contents, k: nat, day: string, month: string, name: string)
    requires k < |steps| && |day| == 10 && (steps[k].Aggregate? ==> |steps[k].budget.today| == 10)
    ensures DailyBreach(s, steps, contents, k, day) <==> DueByLines(s, steps, contents, k, "agent-budget:daily:" + day)
    ensures MonthlyBreach(s, steps, contents, k, month) <==> DueByLines(s, steps, contents, k, "agent-budget:monthly:" + month)
    ensures SessionBreach(s, steps, contents, k, name, day) <==>
              DueByLines(s, steps, contents, k, "agent-budget:session:" + name + ":" + day)
  {
    hide AgentBudget.Due, Run, DaySpend, MonthSpend, SessionSpend, CacheAt;
    if steps[k].Aggregate? {
      var b := steps[k].budget;
      AgentBudget.DueExactly(CheckOf(LineTotals(CacheAt(s, steps, k), b.today, b.month, contents), b), day, month, name, "");
    }
  }

  /** Over every run of passes, with non-negative counters: by step `i` the alert of a day, of a month or of a session
      and a day has been dispatched if and only if at an earlier pass of that day or month the counted lines of that day,
      of that month or of that session, priced one by one, cost more than the positive cap; and no alert goes out twice. */
  lemma AlertsFollowTheLines(s: State, steps: seq<Step>, contents: Contents, states: seq<AgentBudget.Alerts>, i: nat,
                             day: string, month: string, name: string)
    requires CacheCoherent(s.cache, contents) && FaithfulRun(steps, contents)
    requires forall path, mtime :: NonNegative(contents(path, mtime))
    requires |day| == 10 && forall step | step in steps && step.Aggregate? :: |step.budget.today| == 10
    requires AlertRun(states, s, steps) && i < |states|
    ensures "agent-budget:daily:" + day in states[i].dispatched <==>
              exists k | 0 <= k < i :: DailyBreach(s, steps, contents, k, day)
    ensures "agent-budget:monthly:" + month in states[i].dispatched <==>
              exists k | 0 <= k < i :: MonthlyBreach(s, steps, contents, k, month)
    ensures "agent-budget:session:" + name + ":" + day in states[i].dispatched <==>
              exists k | 0 <= k < i :: SessionBreach(s, steps, contents, k, name, day)
    ensures AgentBudget.OncePerKey(states[i])
  {
    hide CacheCoherent, FaithfulRun, NonNegative, DailyBreach, MonthlyBreach, SessionBreach, DueByLines, AlertRun,
         AgentBudget.OncePerKey;
    DispatchedByLines(s, steps, contents, states, i, "agent-budget:daily:" + day);
    DispatchedByLines(s, steps, contents, states, i, "agent-budget:monthly:" + month);
    DispatchedByLines(s, steps, contents, states, i, "agent-budget:session:" + name + ":" + day);
    assert |steps| + 1 == |states| by { Lengths(s, steps, states); }
    forall k | 0 <= k < |steps|
      ensures DailyBreach(s, steps, contents, k, day) <==> DueByLines(s, steps, contents, k, "agent-budget:daily:" + day)
      ensures MonthlyBreach(s, steps, contents, k, month) <==>
                DueByLines(s, steps, contents, k, "agent-budget:monthly:" + month)
      ensures SessionBreach(s, steps, contents, k, name, day) <==>
                DueByLines(s, steps, contents, k, "agent-budget:session:" + name + ":" + day)
    {
      assert steps[k] in steps;
      BreachIsDue(s, steps, contents, k, day, month, name);
    }
  }

  lemma Lengths(s: State, steps: seq<Step>, states: seq<AgentBudget.Alerts>)
    requires AlertRun(states, s, steps)
    ensures |states| == |steps| + 1
  {
  }

  // ---------------------------------------------------------------- what the cache is for

  /** A session whose newest transcript has not changed since it was cached is published from the cache, whatever a
      parse would find now. */
  lemma UnchangedIsNotParsed(s: State, step: Step, name: string)
    requires step.Aggregate? && name in step.cwds && name in s.cache
    requires var cwd := step.cwds[name];
      && cwd in step.disk.newest && step.disk.newest[cwd] == s.cache[name].path != ""
      && s.cache[name].path in step.disk.mtimes && step.disk.mtimes[s.cache[name].path] == s.cache[name].mtime
    ensures var after := Next(s, step);
      && name in after.cache && after.cache[name] == s.cache[name]
      && (name in after.status && name != "" ==>
            after.status[name].tokens == Some(s.cache[name].summary.total)
            && after.status[name].cost == s.cache[name].summary.cost)
  {
    hide ParseResult;
  }

  /** A session whose newest transcript cannot be found or read keeps the figures it had; it only ages. */
  lemma UnreadableKeepsTheFigures(s: State, step: Step, name: string)
    requires step.Aggregate? && name in step.cwds
    requires var cwd, disk := step.cwds[name], step.disk;
      || cwd !in disk.newest || disk.newest[cwd] == "" || disk.newest[cwd] !in disk.mtimes
      || (&& (disk.newest[cwd] !in disk.files || disk.files[disk.newest[cwd]].Unopenable? || disk.files[disk.newest[cwd]].scanFailed)
          && !(name in s.cache && s.cache[name].path == disk.newest[cwd] && s.cache[name].mtime == disk.mtimes[disk.newest[cwd]]))
    ensures var after := Next(s, step);
      && (name in after.cache <==> name in s.cache) && (name in s.cache ==> after.cache[name] == s.cache[name])
      && (name in after.status ==> name in s.status && after.status[name] == s.status[name])
      && (name in s.status && name !in after.status ==>
            s.status[name].updated != 0 && step.at - s.status[name].updated > 86400)
  {
    hide Parsed;
  }
}
