/** How the fetcher plans the work for one configured source before any
    network traffic: which (action, data link) pairs it processes, how each is
    named on disk and in the result table, whether a recent download lets it
    skip, what the downloaded file is called, which fetch strategy the format
    selects and whether TLS certificates are checked. */
module FetchPlan {
  import opened Wrappers
  import opened Text

  /** A `data_link` value: Python `None` or a string (possibly empty). */
  datatype Link = NoLink | Url(text: string) {
    /** Python truthiness of the value. */
    predicate Truthy() {
      Url? && text != ""
    }
  }

  /** One element of a source's `actions` list. A dict records whether its
      "name" and "data_link" keys are present and, when present, their values. */
  datatype ActionEntry =
    | NotADict
    | ActionDict(name: Option<string>, dataLink: Option<Link>)

  /** The `actions` key of a source configuration. */
  datatype ActionsField = NoActions | NotAList | ActionList(entries: seq<ActionEntry>)

  /** The configuration keys the fetcher reads. Missing string keys take the
      defaults the fetcher gives to `get`: "" for `action`, `None` otherwise. */
  datatype SourceConfig = SourceConfig(
    sourceName: Option<string>,
    action: string,
    actions: ActionsField,
    dataLink: Link,
    format: Option<string>,
    skipSslVerify: Option<string>)

  /** One unit of fetch work: an action name ("" for none) and its data link. */
  datatype ActionPair = ActionPair(action: string, dataLink: Link)

  /** An `actions` entry the fetcher keeps: a dict with both required keys. */
  predicate IsListed(e: ActionEntry) {
    e.ActionDict? && e.name.Some? && e.dataLink.Some?
  }

  function PairOf(e: ActionEntry): ActionPair
    requires IsListed(e)
  {
    ActionPair(e.name.value, e.dataLink.value)
  }

  /** The pairs taken from an `actions` list: the listed entries, in order. */
  function ListedActions(entries: seq<ActionEntry>): (r: seq<ActionPair>)
    ensures |r| <= |entries|
    ensures r == [] <==> forall i :: 0 <= i < |entries| ==> !IsListed(entries[i])
    ensures forall i :: 0 <= i < |entries| && IsListed(entries[i]) ==> PairOf(entries[i]) in r
  {
    if |entries| == 0 then []
    else (if IsListed(entries[0]) then [PairOf(entries[0])] else []) + ListedActions(entries[1..])
  }

  /** Filtering the list distributes over concatenation, so the kept pairs
      appear in the order of their entries. */
  lemma {:induction false} ListedActionsAppend(a: seq<ActionEntry>, b: seq<ActionEntry>)
    ensures ListedActions(a + b) == ListedActions(a) + ListedActions(b)
    decreases |a|
  {
    if |a| > 0 {
      assert (a + b)[0] == a[0];
      assert (a + b)[1..] == a[1..] + b;
      ListedActionsAppend(a[1..], b);
    } else {
      assert a + b == b;
    }
  }

  /** Nothing is invented: every pair comes from a listed entry. */
  lemma {:induction false} ListedActionsOnlyListed(entries: seq<ActionEntry>, p: ActionPair)
    requires p in ListedActions(entries)
    ensures exists i :: 0 <= i < |entries| && IsListed(entries[i]) && PairOf(entries[i]) == p
    decreases |entries|
  {
    if IsListed(entries[0]) && p == PairOf(entries[0]) {
      assert IsListed(entries[0]) && PairOf(entries[0]) == p;
    } else {
      ListedActionsOnlyListed(entries[1..], p);
      var i :| 0 <= i < |entries[1..]| && IsListed(entries[1..][i]) && PairOf(entries[1..][i]) == p;
      assert entries[i + 1] == entries[1..][i];
    }
  }

  function ListedOf(f: ActionsField): seq<ActionPair> {
    match f
    case ActionList(entries) => ListedActions(entries)
    case _ => []
  }

  /** The (action, data link) pairs a source is fetched as: the listed actions
      when there are any; otherwise one pair for a non-empty top-level action;
      otherwise one pair with no action. Both fallbacks use the top-level link. */
  function ResolveActions(cfg: SourceConfig): (r: seq<ActionPair>)
    ensures |r| >= 1
    ensures ListedOf(cfg.actions) != [] ==> r == ListedOf(cfg.actions)
    ensures ListedOf(cfg.actions) == [] ==> r == [ActionPair(cfg.action, cfg.dataLink)]
  {
    var listed := ListedOf(cfg.actions);
    if cfg.action != "" && listed == [] then [ActionPair(cfg.action, cfg.dataLink)]
    else if listed == [] then [ActionPair("", cfg.dataLink)]
    else listed
  }

  /** The link actually fetched for a pair: its own when truthy, else the
      source's top-level link. */
  function EffectiveLink(p: ActionPair, cfg: SourceConfig): (r: Link)
    ensures r == p.dataLink || r == cfg.dataLink
    ensures p.dataLink.Truthy() ==> r == p.dataLink
    ensures !p.dataLink.Truthy() ==> r == cfg.dataLink
  {
    if p.dataLink.Truthy() then p.dataLink else cfg.dataLink
  }

  /** The result key of a source+action, also the base of every output file
      name: the source id, followed by "_" and the action when there is one. */
  function ActionId(sourceId: string, action: string): (r: string)
    ensures StartsWith(r, sourceId)
    ensures action == "" ==> r == sourceId
    ensures action != "" ==> |r| == |sourceId| + 1 + |action|
    ensures action != "" ==> r[|sourceId|] == '_' && r[|sourceId| + 1..] == action
  {
    if action != "" then sourceId + "_" + action else sourceId
  }

  /** For a fixed source id the action can be read back from the identifier. */
  lemma ActionIdInjective(sourceId: string, a: string, b: string)
    requires ActionId(sourceId, a) == ActionId(sourceId, b)
    ensures a == b
  {
  }

  /** Across sources the identifier is not injective: the plain source "a_b"
      and action "b" of source "a" share a result key. */
  lemma ActionIdCollision()
    ensures ActionId("a_b", "") == ActionId("a", "b")
  {
  }

  /** The directory name: the configured `source_name`, else the source id. */
  function SourceName(cfg: SourceConfig, sourceId: string): string {
    cfg.sourceName.GetOr(sourceId)
  }

  /** `os.path.join(a, b)` on POSIX for two components. */
  function PathJoin(a: string, b: string): (r: string)
    ensures EndsWith(r, b)
    ensures !StartsWith(b, "/") ==> StartsWith(r, a)
  {
    if StartsWith(b, "/") then b
    else if a == "" || EndsWith(a, "/") then a + b
    else a + "/" + b
  }

  /** `raw/<source>` with `/<action>` added only when the action is not blank. */
  function SourcePath(root: string, sourceName: string, action: string): (r: string)
    ensures Strip(action) == "" ==> r == PathJoin(root, sourceName)
    ensures Strip(action) != "" ==> r == PathJoin(PathJoin(root, sourceName), action)
  {
    var p := PathJoin(root, sourceName);
    if action != "" && Strip(action) != "" then PathJoin(p, action) else p
  }

  /** A whitespace-only action shares the directory of the plain source. */
  lemma SourcePathBlankAction(root: string, sourceName: string, action: string)
    requires AllSpace(action)
    ensures SourcePath(root, sourceName, action) == SourcePath(root, sourceName, "")
  {
    StripEmptyIff(action);
    StripEmptyIff("");
  }

  lemma PathJoinPlain(a: string, b: string)
    requires a != "" && !EndsWith(a, "/") && !StartsWith(b, "/")
    ensures PathJoin(a, b) == a + "/" + b
  {
  }

  lemma LastCharOfJoin(a: string, b: string)
    requires b != "" && !EndsWith(b, "/")
    ensures !EndsWith(a + b, "/")
  {
    assert (a + b)[|a + b| - 1..] == b[|b| - 1..];
  }

  /** With ordinary relative components the path is `root/source[/action]`. */
  lemma SourcePathShape(root: string, sourceName: string, action: string)
    requires root != "" && !EndsWith(root, "/")
    requires sourceName != "" && !StartsWith(sourceName, "/") && !EndsWith(sourceName, "/")
    requires !StartsWith(action, "/")
    ensures !AllSpace(action) ==> SourcePath(root, sourceName, action) == root + "/" + sourceName + "/" + action
    ensures AllSpace(action) ==> SourcePath(root, sourceName, action) == root + "/" + sourceName
  {
    StripEmptyIff(action);
    PathJoinPlain(root, sourceName);
    var p := root + "/" + sourceName;
    LastCharOfJoin(root + "/", sourceName);
    if !AllSpace(action) {
      PathJoinPlain(p, action);
    }
  }

  /** The state of `last_download.json` for a source+action directory, with
      the record's age measured by an injected clock, in microseconds. */
  datatype DownloadRecord = NoRecord | Unreadable | Recorded(ageMicros: int)

  const MicrosPerDay: int := 86_400_000_000

  /** A download is recent when its record exists, parses, and is at most
      `maxAgeDays` old; the bound is inclusive. */
  function IsRecentlyDownloaded(rec: DownloadRecord, maxAgeDays: int): (r: bool)
    ensures r ==> rec.Recorded?
    ensures rec.Recorded? && rec.ageMicros <= 0 && maxAgeDays >= 0 ==> r
    ensures rec.Recorded? && rec.ageMicros >= 0 && maxAgeDays < 0 ==> !r
    ensures rec.Recorded? && rec.ageMicros > maxAgeDays * MicrosPerDay ==> !r
  {
    rec.Recorded? && rec.ageMicros <= maxAgeDays * MicrosPerDay
  }

  /** The skip decision for one source+action. */
  function ShouldSkip(forceRefresh: bool, rec: DownloadRecord, maxAgeDays: int): (r: bool)
    ensures r ==> !forceRefresh && rec.Recorded?
    ensures r <==> !forceRefresh && rec.Recorded? && rec.ageMicros <= maxAgeDays * MicrosPerDay
  {
    !forceRefresh && IsRecentlyDownloaded(rec, maxAgeDays)
  }

  /** A longer allowance never turns a fresh download stale, and a younger
      record is fresh whenever an older one is. */
  lemma FreshnessMonotone(age1: int, age2: int, days1: int, days2: int)
    requires age2 <= age1 && days1 <= days2
    requires IsRecentlyDownloaded(Recorded(age1), days1)
    ensures IsRecentlyDownloaded(Recorded(age2), days2)
  {
  }

  /** `os.path.basename`: the longest suffix of `p` holding no "/". */
  function Basename(p: string): (r: string)
    ensures |r| <= |p| && r == p[|p| - |r|..]
    ensures '/' !in r
    ensures |r| < |p| ==> p[|p| - |r| - 1] == '/'
  {
    if |p| == 0 || p[|p| - 1] == '/' then ""
    else
      var q := p[..|p| - 1];
      var b := Basename(q);
      assert p[|p| - |b| - 1..] == q[|q| - |b|..] + [p[|p| - 1]];
      b + [p[|p| - 1]]
  }

  /** The extension given to a file whose URL names none: "xlsx" for the
      excel formats, else the lower-cased format (default "csv"). */
  function Extension(format: Option<string>): (r: string)
    ensures var f := Lower(format.GetOr("csv"));
      (f == "excel" || f == "xlsx" ==> r == "xlsx") && (f != "excel" && f != "xlsx" ==> r == f)
  {
    var f := Lower(format.GetOr("csv"));
    if f == "excel" || f == "xlsx" then "xlsx" else f
  }

  /** The name of a downloaded file: the last segment of the URL path when it
      is not empty, otherwise `<action id>.<extension>`. */
  function FileName(urlPath: string, format: Option<string>, sourceId: string, action: string): (r: string)
    ensures Basename(urlPath) != "" ==> r == Basename(urlPath)
    ensures Basename(urlPath) == "" ==> r == ActionId(sourceId, action) + "." + Extension(format)
  {
    var b := Basename(urlPath);
    if b != "" then b else ActionId(sourceId, action) + "." + Extension(format)
  }

  /** The fetch strategy a source's `format` selects. */
  datatype FetchKind = FileDownload | ApiFetch | HtmlScrape | Unsupported

  function KindOf(format: Option<string>): (r: FetchKind)
    ensures var f := Lower(format.GetOr(""));
      && (r == FileDownload <==> f in ["csv", "excel", "xlsx"])
      && (r == ApiFetch <==> f == "api")
      && (r == HtmlScrape <==> f == "html")
  {
    var f := Lower(format.GetOr(""));
    if f in ["csv", "excel", "xlsx"] then FileDownload
    else if f == "api" then ApiFetch
    else if f == "html" then HtmlScrape
    else Unsupported
  }

  /** The spellings of a true `skip_ssl_verify`. */
  const TrueSpellings: seq<string> := ["true", "1", "yes", "y", "t"]

  /** Whether certificates are verified initially. The flag is ON exactly when
      `skip_ssl_verify` reads as true, whatever its name suggests. */
  function VerifySsl(skipSslVerify: Option<string>): (r: bool)
    ensures r <==> Lower(skipSslVerify.GetOr("False")) in TrueSpellings
  {
    Lower(skipSslVerify.GetOr("False")) in TrueSpellings
  }

  /** A source that does not set `skip_ssl_verify` is fetched without
      certificate verification. */
  lemma DefaultDisablesVerification()
    ensures !VerifySsl(None)
  {
    assert Lower("False") == "false";
  }

  /** The flag ignores letter case. */
  lemma VerifySslIgnoresCase(s: string)
    ensures VerifySsl(Some(s)) == VerifySsl(Some(Lower(s)))
  {
    LowerIdempotent(s);
  }
}
