/** `fetch_all_sources`: every source expands into its actions, each action is
    either skipped as recently downloaded or handed to the fetcher its format
    selects, and its outcome is recorded under its action id. The download
    records found on disk before the run and the fetchers' own results are
    injected; a fetcher that returns `True` has just rewritten the
    `last_download.json` of its path, which later actions of the run see. */
module FetchAll {
  import opened Wrappers
  import opened Text
  import opened FetchPlan

  /** A value of the results dictionary: the fetcher's `True`/`False`, or "skipped". */
  datatype FetchStatus = Fetched(ok: bool) | Skipped

  /** One action of one source, in the order the loops visit them. */
  datatype PlanItem = PlanItem(sourceId: string, cfg: SourceConfig, pair: ActionPair)

  /** The run's settings and its view of the outside world: the data root,
      `force_refresh`, `max_age_days`, the `last_download.json` found under
      each path when the run starts, and what the fetcher of a kind returns
      for an action id and data link. */
  datatype Env = Env(
    root: string,
    forceRefresh: bool,
    maxAgeDays: int,
    records: string -> DownloadRecord,
    fetcher: (FetchKind, string, Link) -> bool)

  /** The items of one source: one per resolved action. */
  function SourceItems(sourceId: string, cfg: SourceConfig): (r: seq<PlanItem>)
    ensures |r| == |ResolveActions(cfg)| >= 1
    ensures forall i :: 0 <= i < |r| ==> r[i] == PlanItem(sourceId, cfg, ResolveActions(cfg)[i])
  {
    var acts := ResolveActions(cfg);
    seq(|acts|, i requires 0 <= i < |acts| => PlanItem(sourceId, cfg, acts[i]))
  }

  /** The items of all sources, source by source in dictionary order. */
  function Plan(sources: seq<(string, SourceConfig)>): (r: seq<PlanItem>)
    ensures |r| >= |sources|
    ensures forall s, a :: 0 <= s < |sources| && 0 <= a < |ResolveActions(sources[s].1)| ==>
              PlanItem(sources[s].0, sources[s].1, ResolveActions(sources[s].1)[a]) in r
  {
    if |sources| == 0 then []
    else SourceItems(sources[0].0, sources[0].1) + Plan(sources[1..])
  }

  function ItemId(it: PlanItem): string {
    ActionId(it.sourceId, it.pair.action)
  }

  /** The path whose `last_download.json` decides freshness. */
  function ItemPath(env: Env, it: PlanItem): string {
    SourcePath(env.root, SourceName(it.cfg, it.sourceId), it.pair.action)
  }

  /** What an action that is not skipped gets: the selected fetcher's
      result, and `False` for an unsupported format. */
  function Attempt(env: Env, it: PlanItem): (r: FetchStatus)
    ensures r.Fetched?
    ensures KindOf(it.cfg.format) == Unsupported ==> r == Fetched(false)
    ensures r.ok ==> KindOf(it.cfg.format) != Unsupported
  {
    var kind := KindOf(it.cfg.format);
    if kind == Unsupported then Fetched(false)
    else Fetched(env.fetcher(kind, ItemId(it), EffectiveLink(it.pair, it.cfg)))
  }

  /** The outcome of one action, given the download record of its path as
      it is when the loop reaches it: skipped when fresh and not forced,
      otherwise its attempt. */
  function ItemStatus(env: Env, record: DownloadRecord, it: PlanItem): (r: FetchStatus)
    ensures r == Skipped <==> ShouldSkip(env.forceRefresh, record, env.maxAgeDays)
    ensures r != Skipped ==> r == Attempt(env, it)
  {
    if ShouldSkip(env.forceRefresh, record, env.maxAgeDays) then Skipped else Attempt(env, it)
  }

  /** An action as the bookkeeping of the loop sees it: the path whose record
      it reads and what it gets when not skipped. */
  datatype Step = Step(path: string, attempt: FetchStatus)

  function Steps(env: Env, plan: seq<PlanItem>): (r: seq<Step>)
    ensures |r| == |plan|
    ensures forall i :: 0 <= i < |plan| ==> r[i] == Step(ItemPath(env, plan[i]), Attempt(env, plan[i]))
  {
    seq(|plan|, i requires 0 <= i < |plan| => Step(ItemPath(env, plan[i]), Attempt(env, plan[i])))
  }

  /** The record under `path` when the loop reaches step `n`: a successful
      fetch has `_create_metadata` rewrite the record of its path, and since
      the time the rest of the run takes is not measured, that record has
      age zero. */
  function RecordIn(env: Env, steps: seq<Step>, n: nat, path: string): DownloadRecord
    requires n <= |steps|
    decreases n, 0
  {
    if n == 0 then env.records(path)
    else if steps[n - 1].path == path && StatusIn(env, steps, n - 1) == Fetched(true) then Recorded(0)
    else RecordIn(env, steps, n - 1, path)
  }

  /** The outcome of step `i`, given the records the earlier steps left. */
  function StatusIn(env: Env, steps: seq<Step>, i: nat): FetchStatus
    requires i < |steps|
    decreases i, 1
  {
    if ShouldSkip(env.forceRefresh, RecordIn(env, steps, i, steps[i].path), env.maxAgeDays) then Skipped
    else steps[i].attempt
  }

  /** Some step before `n` at `path` was fetched successfully. */
  predicate RefreshedIn(env: Env, steps: seq<Step>, n: nat, path: string)
    requires n <= |steps|
  {
    n > 0
    && (RefreshedIn(env, steps, n - 1, path)
        || (steps[n - 1].path == path && StatusIn(env, steps, n - 1) == Fetched(true)))
  }

  /** A successful fetch at step `j` leaves a record of age zero under its
      path for every later step. */
  lemma {:induction false} FetchSeenLater(env: Env, steps: seq<Step>, j: nat, n: nat)
    requires j < n <= |steps|
    requires StatusIn(env, steps, j) == Fetched(true)
    ensures RecordIn(env, steps, n, steps[j].path) == Recorded(0)
  {
    if j != n - 1 {
      FetchSeenLater(env, steps, j, n - 1);
    }
  }

  /** The record a step sees under a path is the fresh one written by an
      earlier successful fetch at that path, and otherwise the one on disk
      before the run. */
  lemma {:induction false} RecordSeen(env: Env, steps: seq<Step>, n: nat, path: string)
    requires n <= |steps|
    ensures RecordIn(env, steps, n, path) == (if RefreshedIn(env, steps, n, path) then Recorded(0) else env.records(path))
  {
    if n > 0 {
      RecordSeen(env, steps, n - 1, path);
    }
  }

  /** The records the loop sees when it reaches item `n` of the plan. */
  function RecordAt(env: Env, plan: seq<PlanItem>, n: nat, path: string): DownloadRecord
    requires n <= |plan|
  {
    RecordIn(env, Steps(env, plan), n, path)
  }

  /** The outcome of item `i` in the run: its status against the record its
      path has when the loop reaches it. */
  function StatusAt(env: Env, plan: seq<PlanItem>, i: nat): (r: FetchStatus)
    requires i < |plan|
    ensures r == ItemStatus(env, RecordAt(env, plan, i, ItemPath(env, plan[i])), plan[i])
  {
    StatusIn(env, Steps(env, plan), i)
  }

  /** Some item before `n` at `path` was fetched successfully. */
  predicate RefreshedBefore(env: Env, plan: seq<PlanItem>, n: nat, path: string)
    requires n <= |plan|
  {
    RefreshedIn(env, Steps(env, plan), n, path)
  }

  /** Each item's id with its outcome, in plan order. */
  function Outcomes(env: Env, plan: seq<PlanItem>): (r: seq<(string, FetchStatus)>)
    ensures |r| == |plan|
    ensures forall i :: 0 <= i < |plan| ==> r[i] == (ItemId(plan[i]), StatusAt(env, plan, i))
  {
    seq(|plan|, i requires 0 <= i < |plan| => (ItemId(plan[i]), StatusAt(env, plan, i)))
  }

  /** The results dictionary after the first `n` assignments `results[id] = status`. */
  function Record(outcomes: seq<(string, FetchStatus)>, n: nat): map<string, FetchStatus>
    requires n <= |outcomes|
  {
    if n == 0 then map[] else Record(outcomes, n - 1)[outcomes[n - 1].0 := outcomes[n - 1].1]
  }

  lemma {:induction false} RecordKeys(outcomes: seq<(string, FetchStatus)>, n: nat)
    requires n <= |outcomes|
    ensures Record(outcomes, n).Keys == set i | 0 <= i < n :: outcomes[i].0
  {
    if n > 0 {
      RecordKeys(outcomes, n - 1);
      var prev := set i | 0 <= i < n - 1 :: outcomes[i].0;
      var all := set i | 0 <= i < n :: outcomes[i].0;
      assert all == prev + {outcomes[n - 1].0};
    }
  }

  lemma {:induction false} RecordLastWins(outcomes: seq<(string, FetchStatus)>, n: nat, i: nat)
    requires i < n <= |outcomes|
    requires forall j :: i < j < n ==> outcomes[j].0 != outcomes[i].0
    ensures outcomes[i].0 in Record(outcomes, n) && Record(outcomes, n)[outcomes[i].0] == outcomes[i].1
  {
    if i < n - 1 {
      RecordLastWins(outcomes, n - 1, i);
    }
  }

  lemma {:induction false} RecordFrom(outcomes: seq<(string, FetchStatus)>, n: nat, k: string)
    requires n <= |outcomes|
    requires k in Record(outcomes, n)
    ensures exists i :: 0 <= i < n && outcomes[i].0 == k && Record(outcomes, n)[k] == outcomes[i].1
  {
    if outcomes[n - 1].0 != k {
      RecordFrom(outcomes, n - 1, k);
    }
  }

  /** The results dictionary: each item assigns its id, so a later item with
      the same id overwrites an earlier one. */
  function Results(env: Env, plan: seq<PlanItem>): map<string, FetchStatus> {
    Record(Outcomes(env, plan), |plan|)
  }

  /** `fetch_all_sources(sources, force_refresh, max_age_days)`. */
  function FetchAllSources(env: Env, sources: seq<(string, SourceConfig)>): (r: map<string, FetchStatus>)
    ensures r.Keys == set i | 0 <= i < |Plan(sources)| :: ItemId(Plan(sources)[i])
    ensures env.forceRefresh ==> forall k :: k in r ==> r[k] != Skipped
  {
    ResultsKeys(env, Plan(sources));
    ForcedResults(env, Plan(sources));
    Results(env, Plan(sources))
  }

  /** The result keys are exactly the ids of the planned items. */
  lemma ResultsKeys(env: Env, plan: seq<PlanItem>)
    ensures Results(env, plan).Keys == set i | 0 <= i < |plan| :: ItemId(plan[i])
  {
    var o := Outcomes(env, plan);
    RecordKeys(o, |plan|);
    OutcomeIds(o, plan);
  }

  lemma OutcomeIds(o: seq<(string, FetchStatus)>, plan: seq<PlanItem>)
    requires |o| == |plan|
    requires forall i :: 0 <= i < |plan| ==> o[i].0 == ItemId(plan[i])
    ensures (set i | 0 <= i < |plan| :: o[i].0) == set i | 0 <= i < |plan| :: ItemId(plan[i])
  {
  }

  /** An item no later item shares its id with has the final say on its id. */
  lemma ResultsLastWins(env: Env, plan: seq<PlanItem>, i: nat)
    requires i < |plan|
    requires forall j :: i < j < |plan| ==> ItemId(plan[j]) != ItemId(plan[i])
    ensures ItemId(plan[i]) in Results(env, plan)
    ensures Results(env, plan)[ItemId(plan[i])] == StatusAt(env, plan, i)
  {
    RecordLastWins(Outcomes(env, plan), |plan|, i);
  }

  /** Every value in the results is the status of some item with that id. */
  lemma ResultsFromItems(env: Env, plan: seq<PlanItem>, k: string)
    requires k in Results(env, plan)
    ensures exists i :: 0 <= i < |plan| && ItemId(plan[i]) == k && Results(env, plan)[k] == StatusAt(env, plan, i)
  {
    RecordFrom(Outcomes(env, plan), |plan|, k);
  }

  /** With `force_refresh` no result of a plan is skipped. */
  lemma ForcedResults(env: Env, plan: seq<PlanItem>)
    ensures env.forceRefresh ==> forall k :: k in Results(env, plan) ==> Results(env, plan)[k] != Skipped
  {
    forall k | env.forceRefresh && k in Results(env, plan)
      ensures Results(env, plan)[k] != Skipped
    {
      ResultsFromItems(env, plan, k);
    }
  }

  /** With `force_refresh` nothing is skipped. */
  lemma ForceNeverSkips(env: Env, sources: seq<(string, SourceConfig)>, k: string)
    requires env.forceRefresh
    requires k in FetchAllSources(env, sources)
    ensures FetchAllSources(env, sources)[k] != Skipped
  {
    var plan := Plan(sources);
    ResultsFromItems(env, plan, k);
  }

  /** Without forcing, an action whose path no earlier action of the run
      refreshed, and whose last download before the run is at most
      `max_age_days` old, is skipped (when no later action shares its id). */
  lemma FreshActionSkipped(env: Env, plan: seq<PlanItem>, i: nat)
    requires i < |plan|
    requires forall j :: i < j < |plan| ==> ItemId(plan[j]) != ItemId(plan[i])
    requires !env.forceRefresh
    requires !RefreshedBefore(env, plan, i, ItemPath(env, plan[i]))
    requires env.records(ItemPath(env, plan[i])).Recorded?
    requires env.records(ItemPath(env, plan[i])).ageMicros <= env.maxAgeDays * MicrosPerDay
    ensures ItemId(plan[i]) in Results(env, plan)
    ensures Results(env, plan)[ItemId(plan[i])] == Skipped
  {
    RecordSeen(env, Steps(env, plan), i, ItemPath(env, plan[i]));
    ResultsLastWins(env, plan, i);
  }

  /** Without forcing and with a non-negative `max_age_days`, an action whose
      path an earlier action of the same run fetched successfully is skipped:
      two sources sharing a `source_name` and an action download once. */
  lemma RefreshedPathSkipped(env: Env, plan: seq<PlanItem>, j: nat, i: nat)
    requires j < i < |plan|
    requires forall k :: i < k < |plan| ==> ItemId(plan[k]) != ItemId(plan[i])
    requires !env.forceRefresh && env.maxAgeDays >= 0
    requires ItemPath(env, plan[j]) == ItemPath(env, plan[i])
    requires StatusAt(env, plan, j) == Fetched(true)
    ensures ItemId(plan[i]) in Results(env, plan)
    ensures Results(env, plan)[ItemId(plan[i])] == Skipped
  {
    FetchSeenLater(env, Steps(env, plan), j, i);
    ResultsLastWins(env, plan, i);
  }

  /** Each source contributes every one of its resolved actions to the plan;
      a corollary of `Plan`'s contract, for one source and action. */
  lemma PlanHasSourceActions(sources: seq<(string, SourceConfig)>, s: nat, a: nat)
    requires s < |sources|
    requires a < |ResolveActions(sources[s].1)|
    ensures PlanItem(sources[s].0, sources[s].1, ResolveActions(sources[s].1)[a]) in Plan(sources)
  {
  }

  /** Every planned item is a resolved action of some source. */
  lemma {:induction false} PlanOnlySourceActions(sources: seq<(string, SourceConfig)>, it: PlanItem)
    requires it in Plan(sources)
    ensures exists s :: 0 <= s < |sources| && it.sourceId == sources[s].0 && it.cfg == sources[s].1
                        && it.pair in ResolveActions(sources[s].1)
  {
    var head := SourceItems(sources[0].0, sources[0].1);
    if it in head {
      var i :| 0 <= i < |head| && head[i] == it;
      assert ResolveActions(sources[0].1)[i] in ResolveActions(sources[0].1);
    } else {
      PlanOnlySourceActions(sources[1..], it);
      var s :| 0 <= s < |sources[1..]| && it.sourceId == sources[1..][s].0 && it.cfg == sources[1..][s].1 &&
        it.pair in ResolveActions(sources[1..][s].1);
      assert sources[1..][s] == sources[s + 1];
    }
  }
}
