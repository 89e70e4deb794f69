/** The column mapper: for one source, pick the latest download directory,
    gather the CSV files (converting Excel or JSON files when there are none),
    and for each file obtain a column-to-ontology mapping from the cache or
    from a language model, saving non-empty mappings. File contents, the
    model's replies and `eval` are injected; the ontology is a parameter. */
module ColumnMapper {
  import opened Wrappers
  import opened Text
  import opened StringOrder
  import opened Fences
  import opened MappingCache
  import opened SourceFiles

  /** The placeholder target the model may use for "no match". */
  const NullTarget: string := "null"

  /** Keeps the entries whose target is an ontology field or "null". */
  function Validate(mapping: map<string, string>, ontology: set<string>): (r: map<string, string>)
    ensures forall k :: k in r <==> k in mapping && (mapping[k] in ontology || mapping[k] == NullTarget)
    ensures forall k :: k in r ==> r[k] == mapping[k]
  {
    map k | k in mapping && (mapping[k] in ontology || mapping[k] == NullTarget) :: mapping[k]
  }

  /** Validating a validated mapping changes nothing. */
  lemma ValidateIdempotent(mapping: map<string, string>, ontology: set<string>)
    ensures Validate(Validate(mapping, ontology), ontology) == Validate(mapping, ontology)
  {
  }

  /** A mapping that already respects the ontology passes untouched. */
  lemma ValidateKeepsValid(mapping: map<string, string>, ontology: set<string>)
    requires forall k :: k in mapping ==> mapping[k] in ontology || mapping[k] == NullTarget
    ensures Validate(mapping, ontology) == mapping
  {
  }

  /** One chat-completion call: it raised, or it returned a message text. */
  datatype LlmCall = CallFailed | Replied(text: string)

  /** `eval` of the cleaned reply: an error, a non-dictionary value, or a
      dictionary of strings. */
  datatype Evaluated = EvalError | NotADict | Dict(entries: map<string, string>)

  /** What one attempt yields: the validated mapping, or `None` when it raised. */
  function AttemptMapping(call: LlmCall, evaluate: string -> Evaluated, ontology: set<string>): (r: Option<map<string, string>>)
    ensures r.Some? <==> call.Replied? && evaluate(CleanLlmResponse(Strip(call.text))).Dict?
    ensures r.Some? ==> r.value == Validate(evaluate(CleanLlmResponse(Strip(call.text))).entries, ontology)
  {
    match call
    case CallFailed => None
    case Replied(text) =>
      match evaluate(CleanLlmResponse(Strip(text)))
      case Dict(m) => Some(Validate(m, ontology))
      case _ => None
  }

  const LlmAttempts: nat := 3

  function CallAt(calls: seq<LlmCall>, i: nat): LlmCall {
    if i < |calls| then calls[i] else CallFailed
  }

  /** What each of the three attempts would yield. */
  function AttemptResults(calls: seq<LlmCall>, evaluate: string -> Evaluated, ontology: set<string>): (r: seq<Option<map<string, string>>>)
    ensures |r| == LlmAttempts
    ensures forall i :: 0 <= i < LlmAttempts ==> r[i] == AttemptMapping(CallAt(calls, i), evaluate, ontology)
  {
    seq(LlmAttempts, i requires 0 <= i < LlmAttempts => AttemptMapping(CallAt(calls, i), evaluate, ontology))
  }

  /** The mapping the model produced, the number of calls made, and the
      seconds slept between them. */
  datatype LlmTrace = LlmTrace(mapping: map<string, string>, callsMade: nat, waits: seq<nat>)

  /** The retry loop from attempt `attempt` on, over the attempts' results. */
  function LlmLoop(results: seq<Option<map<string, string>>>, attempt: nat): (t: LlmTrace)
    requires attempt < |results|
    decreases |results| - attempt
    ensures attempt < t.callsMade <= |results|
    ensures |t.waits| == t.callsMade - 1 - attempt
    ensures forall j :: 0 <= j < |t.waits| ==> t.waits[j] == Pow2(attempt + j)
    ensures forall i :: attempt <= i < t.callsMade - 1 ==> results[i].None?
    ensures results[t.callsMade - 1].Some? ==> t.mapping == results[t.callsMade - 1].value
    ensures results[t.callsMade - 1].None? ==> t.callsMade == |results| && t.mapping == map[]
  {
    match results[attempt]
    case Some(m) => LlmTrace(m, attempt + 1, [])
    case None =>
      if attempt < |results| - 1 then
        var rest := LlmLoop(results, attempt + 1);
        LlmTrace(rest.mapping, rest.callsMade, [Pow2(attempt)] + rest.waits)
      else
        LlmTrace(map[], attempt + 1, [])
  }

  /** `_get_column_mapping_from_llm` after the prompt is built: up to three
      attempts with 1 s and 2 s pauses; the first that evaluates to a
      dictionary wins, and when all fail the mapping is empty. */
  function MappingFromLlm(calls: seq<LlmCall>, evaluate: string -> Evaluated, ontology: set<string>): (t: LlmTrace)
    ensures 1 <= t.callsMade <= LlmAttempts
    ensures t.waits == [1, 2][..t.callsMade - 1]
    ensures forall i :: 0 <= i < t.callsMade - 1 ==> AttemptMapping(CallAt(calls, i), evaluate, ontology).None?
    ensures var last := AttemptMapping(CallAt(calls, t.callsMade - 1), evaluate, ontology);
      && (last.Some? ==> t.mapping == last.value)
      && (last.None? ==> t.callsMade == LlmAttempts && t.mapping == map[])
    ensures forall k :: k in t.mapping ==> t.mapping[k] in ontology || t.mapping[k] == NullTarget
  {
    var results := AttemptResults(calls, evaluate, ontology);
    var t := LlmLoop(results, 0);
    BackoffFromStart(t.waits);
    assert results[t.callsMade - 1] == AttemptMapping(CallAt(calls, t.callsMade - 1), evaluate, ontology);
    t
  }

  /** The pauses 2^0, 2^1 of the first two retries are 1 s and 2 s. */
  lemma BackoffFromStart(waits: seq<nat>)
    requires |waits| < LlmAttempts
    requires forall j :: 0 <= j < |waits| ==> waits[j] == Pow2(j)
    ensures waits == [1, 2][..|waits|]
  {
    assert Pow2(1) == 2;
  }

  /** A first-row cell: missing (`None` or NaN) or present, as `str()` renders it. */
  datatype Cell = Missing | Value(text: string)

  /** The columns and, when the file has any data row, its first row. */
  datatype Frame = Frame(columns: seq<string>, firstRow: Option<seq<Cell>>)

  /** pandas gives distinct column names and rows as wide as the header. */
  predicate WellFormed(f: Frame) {
    && (forall i, j :: 0 <= i < j < |f.columns| ==> f.columns[i] != f.columns[j])
    && (f.firstRow.Some? ==> |f.firstRow.value| == |f.columns|)
  }

  /** The length of the run of present cells at the start of the row. */
  function PresentPrefix(row: seq<Cell>): (n: nat)
    ensures n <= |row|
    ensures forall i :: 0 <= i < n ==> row[i].Value?
    ensures n < |row| ==> row[n].Missing?
  {
    if |row| == 0 || row[0].Missing? then 0 else 1 + PresentPrefix(row[1..])
  }

  /** The example values of the prompt: first-row values of the columns before
      the first missing one, since the loop breaks there. */
  function ColumnExamples(columns: seq<string>, row: seq<Cell>): (r: map<string, string>)
    requires |row| == |columns|
    requires forall i, j :: 0 <= i < j < |columns| ==> columns[i] != columns[j]
    ensures forall i :: 0 <= i < |columns| ==> (columns[i] in r <==> i < PresentPrefix(row))
    ensures forall i :: 0 <= i < PresentPrefix(row) ==> r[columns[i]] == row[i].text
    ensures forall k :: k in r ==> k in columns
  {
    var n := PresentPrefix(row);
    map i | 0 <= i < n :: columns[i] := row[i].text
  }

  /** The prompt's column lines: "* name: example" or just "* name". */
  function ColumnLines(columns: seq<string>, examples: map<string, string>): (r: seq<string>)
    ensures |r| == |columns|
    ensures forall i :: 0 <= i < |columns| && columns[i] in examples ==> r[i] == "* " + columns[i] + ": " + examples[columns[i]]
    ensures forall i :: 0 <= i < |columns| && columns[i] !in examples ==> r[i] == "* " + columns[i]
  {
    seq(|columns|, i requires 0 <= i < |columns| =>
      if columns[i] in examples then "* " + columns[i] + ": " + examples[columns[i]] else "* " + columns[i])
  }

  /** `df.columns.any()`: some column name is non-empty. */
  predicate ColumnsAny(columns: seq<string>) {
    exists i :: 0 <= i < |columns| && columns[i] != ""
  }

  /** The outcome of one CSV file: it raised, had no (non-empty) column
      names, was already mapped, had a non-empty mapping whose save raised
      after leaving a truncated file, or got an empty mapping that was not saved. */
  datatype FileOutcome = FileErrored | NoColumns | AlreadyMapped | SaveFailed(mapping: map<string, string>) | MappingEmpty

  /** The result of one file: its outcome, the cache afterwards, and the
      number of model calls it made. */
  datatype FileRun = FileRun(outcome: FileOutcome, store: Store, llmCalls: nat)

  /** The loop body of `map_source` for one file. `frame` is `None` when the
      reader returned `[]` (then `.columns` raises). The cache is consulted
      before the model even when forced; a model call on a file without data
      rows raises when it reads the first row. */
  function ProcessFile(store: Store, source: string, frame: Option<Frame>, force: bool,
                       calls: seq<LlmCall>, evaluate: string -> Evaluated, ontology: set<string>): (r: FileRun)
    ensures r.llmCalls <= LlmAttempts
    ensures r.outcome.SaveFailed? ==> frame.Some? && |r.outcome.mapping| > 0 && r.store == Save(store, source, frame.value.columns, r.outcome.mapping)
    ensures !r.outcome.SaveFailed? ==> r.store == store
    ensures r.outcome == AlreadyMapped <==>
      frame.Some? && ColumnsAny(frame.value.columns) && MappingExists(store, source, frame.value.columns) && !force
    ensures r.llmCalls > 0 ==> frame.Some? && CachedMapping(store, source, frame.value.columns).None?
  {
    if frame.None? then FileRun(FileErrored, store, 0)
    else
      var cols := frame.value.columns;
      if !ColumnsAny(cols) then FileRun(NoColumns, store, 0)
      else if MappingExists(store, source, cols) && !force then FileRun(AlreadyMapped, store, 0)
      else
        var cached := CachedMapping(store, source, cols);
        if cached.None? && frame.value.firstRow.None? then FileRun(FileErrored, store, 0)
        else
          var (mapping, n) :=
            if cached.Some? then (cached.value, 0)
            else var t := MappingFromLlm(calls, evaluate, ontology); (t.mapping, t.callsMade);
          if |mapping| > 0 then FileRun(SaveFailed(mapping), Save(store, source, cols, mapping), n)
          else FileRun(MappingEmpty, store, n)
  }

  /** Without a readable cached mapping, a file with columns and a first row
      that is not skipped asks the model: the calls are those the retry loop
      makes, and its mapping is saved exactly when it is non-empty. */
  lemma CacheMissCallsModel(store: Store, source: string, f: Frame, force: bool,
                            calls: seq<LlmCall>, evaluate: string -> Evaluated, ontology: set<string>)
    requires ColumnsAny(f.columns)
    requires !(MappingExists(store, source, f.columns) && !force)
    requires CachedMapping(store, source, f.columns).None?
    requires f.firstRow.Some?
    ensures var t := MappingFromLlm(calls, evaluate, ontology);
      var r := ProcessFile(store, source, Some(f), force, calls, evaluate, ontology);
      && r.llmCalls == t.callsMade
      && (r.outcome.SaveFailed? <==> |t.mapping| > 0)
      && (|t.mapping| > 0 ==> r.outcome == SaveFailed(t.mapping) && r.store == Save(store, source, f.columns, t.mapping))
      && (|t.mapping| == 0 ==> r.outcome == MappingEmpty && r.store == store)
  {
    var t := MappingFromLlm(calls, evaluate, ontology);
    assert ProcessFile(store, source, Some(f), force, calls, evaluate, ontology)
        == if |t.mapping| > 0 then FileRun(SaveFailed(t.mapping), Save(store, source, f.columns, t.mapping), t.callsMade)
           else FileRun(MappingEmpty, store, t.callsMade);
  }

  /** A readable cached mapping that is not skipped is used without a model
      call, and saved again when it is non-empty. */
  lemma CachedMappingReused(store: Store, source: string, f: Frame, force: bool, m: map<string, string>,
                            calls: seq<LlmCall>, evaluate: string -> Evaluated, ontology: set<string>)
    requires ColumnsAny(f.columns)
    requires !(MappingExists(store, source, f.columns) && !force)
    requires CachedMapping(store, source, f.columns) == Some(m)
    ensures var r := ProcessFile(store, source, Some(f), force, calls, evaluate, ontology);
      && r.llmCalls == 0
      && (|m| > 0 ==> r.outcome == SaveFailed(m) && r.store == Save(store, source, f.columns, m))
      && (|m| == 0 ==> r.outcome == MappingEmpty && r.store == store)
  {
  }

  /** A cache miss on a file without data rows raises before any model call. */
  lemma CacheMissWithoutRowErrors(store: Store, source: string, f: Frame, force: bool,
                                  calls: seq<LlmCall>, evaluate: string -> Evaluated, ontology: set<string>)
    requires ColumnsAny(f.columns)
    requires !(MappingExists(store, source, f.columns) && !force)
    requires CachedMapping(store, source, f.columns).None? && f.firstRow.None?
    ensures ProcessFile(store, source, Some(f), force, calls, evaluate, ontology) == FileRun(FileErrored, store, 0)
  {
  }

  /** Forcing does not bypass a readable cached mapping: it goes to
      `save_mapping` again without a model call. */
  lemma ForcedWithCacheMakesNoCall(store: Store, source: string, f: Frame, m: map<string, string>,
                                   calls: seq<LlmCall>, evaluate: string -> Evaluated, ontology: set<string>)
    requires ColumnsAny(f.columns)
    requires CachedMapping(store, source, f.columns) == Some(m) && |m| > 0
    ensures ProcessFile(store, source, Some(f), true, calls, evaluate, ontology)
      == FileRun(SaveFailed(m), Save(store, source, f.columns, m), 0)
  {
  }

  /** A forced run over a file whose cached mapping reads replaces that file
      with a truncated one: the mapping is lost to later runs. */
  lemma ForcedRunSpoilsCache(store: Store, source: string, f: Frame, m: map<string, string>,
                             calls: seq<LlmCall>, evaluate: string -> Evaluated, ontology: set<string>)
    requires ColumnsAny(f.columns)
    requires CachedMapping(store, source, f.columns) == Some(m) && |m| > 0
    ensures MappingExists(ProcessFile(store, source, Some(f), true, calls, evaluate, ontology).store, source, f.columns)
    ensures CachedMapping(ProcessFile(store, source, Some(f), true, calls, evaluate, ontology).store, source, f.columns) == None
  {
    ForcedWithCacheMakesNoCall(store, source, f, m, calls, evaluate, ontology);
    SaveLeavesUnreadable(store, source, f.columns, m, f.columns);
  }

  /** An existing mapping makes an unforced run skip the file without a call. */
  lemma ExistingMappingSkipped(store: Store, source: string, f: Frame,
                               calls: seq<LlmCall>, evaluate: string -> Evaluated, ontology: set<string>)
    requires ColumnsAny(f.columns) && MappingExists(store, source, f.columns)
    ensures ProcessFile(store, source, Some(f), false, calls, evaluate, ontology) == FileRun(AlreadyMapped, store, 0)
  {
  }

  /** An unforced run makes no model call for an unreadable file or one whose
      columns are already mapped. */
  lemma MappedFileMakesNoCall(store: Store, source: string, frame: Option<Frame>,
                              calls: seq<LlmCall>, evaluate: string -> Evaluated, ontology: set<string>)
    requires frame.Some? ==> MappingExists(store, source, frame.value.columns)
    ensures ProcessFile(store, source, frame, false, calls, evaluate, ontology).llmCalls == 0
  {
  }

  /** What `map_source` sees of the source: the sub-directories of its raw
      directory (`None` when that is not a directory), each directory's
      listing, whether each conversion succeeds, what the reader returns for
      each file name, and the model's replies for the file at each position. */
  datatype SourceInputs = SourceInputs(
    subdirs: Option<seq<string>>,
    listing: string -> seq<string>,
    converts: string -> bool,
    frames: string -> Option<Frame>,
    calls: nat -> seq<LlmCall>)

  /** The state after the first files: the cache, the outcomes, the calls made. */
  datatype FilesRun = FilesRun(store: Store, outcomes: seq<FileOutcome>, llmCalls: nat)

  /** The file loop over the first `n` candidates, each file seeing the cache
      the earlier ones left. */
  function ProcessPrefix(store: Store, source: string, files: seq<string>, n: nat, force: bool,
                         inputs: SourceInputs, evaluate: string -> Evaluated, ontology: set<string>): (r: FilesRun)
    requires n <= |files|
    ensures |r.outcomes| == n
    ensures forall source2, columns :: MappingExists(store, source2, columns) ==> MappingExists(r.store, source2, columns)
  {
    if n == 0 then FilesRun(store, [], 0)
    else
      var prev := ProcessPrefix(store, source, files, n - 1, force, inputs, evaluate, ontology);
      var fr := ProcessFile(prev.store, source, inputs.frames(files[n - 1]), force, inputs.calls(n - 1), evaluate, ontology);
      ProcessFileKeepsAll(prev.store, source, inputs.frames(files[n - 1]), force, inputs.calls(n - 1), evaluate, ontology);
      FilesRun(fr.store, prev.outcomes + [fr.outcome], prev.llmCalls + fr.llmCalls)
  }

  /** The result of `map_source`: its boolean, and the file loop's state. */
  datatype MapRun = MapRun(ok: bool, files: FilesRun)

  /** `map_source(source, force)`. It returns `True` as soon as there is a
      directory to read and at least one CSV candidate, whatever happens to
      the individual files. */
  function MapSource(store: Store, source: string, inputs: SourceInputs, force: bool,
                     evaluate: string -> Evaluated, ontology: set<string>): (r: MapRun)
    ensures r.ok <==> (inputs.subdirs.Some? && LatestDirectory(inputs.subdirs.value).Some?
                       && |CandidateFiles(inputs.listing(LatestDirectory(inputs.subdirs.value).value), force, inputs.converts)| > 0)
    ensures !r.ok ==> r.files == FilesRun(store, [], 0)
    ensures r.ok ==>
      |r.files.outcomes| == |CandidateFiles(inputs.listing(LatestDirectory(inputs.subdirs.value).value), force, inputs.converts)|
    ensures r.ok ==>
      var files := CandidateFiles(inputs.listing(LatestDirectory(inputs.subdirs.value).value), force, inputs.converts);
      r.files == ProcessPrefix(store, source, files, |files|, force, inputs, evaluate, ontology)
  {
    if inputs.subdirs.None? then MapRun(false, FilesRun(store, [], 0))
    else
      var latest := LatestDirectory(inputs.subdirs.value);
      if latest.None? then MapRun(false, FilesRun(store, [], 0))
      else
        var files := CandidateFiles(inputs.listing(latest.value), force, inputs.converts);
        if |files| == 0 then MapRun(false, FilesRun(store, [], 0))
        else MapRun(true, ProcessPrefix(store, source, files, |files|, force, inputs, evaluate, ontology))
  }

  /** The file loop only adds mappings. */
  lemma {:induction false} ProcessPrefixKeeps(store: Store, source: string, files: seq<string>, n: nat, force: bool,
                                              inputs: SourceInputs, evaluate: string -> Evaluated, ontology: set<string>,
                                              source2: string, columns: seq<string>)
    requires n <= |files|
    requires MappingExists(store, source2, columns)
    ensures MappingExists(ProcessPrefix(store, source, files, n, force, inputs, evaluate, ontology).store, source2, columns)
  {
    if n > 0 {
      ProcessPrefixKeeps(store, source, files, n - 1, force, inputs, evaluate, ontology, source2, columns);
    }
  }

  /** A file whose mapping went to `save_mapping` leaves a file in the cache
      that counts as an existing mapping but cannot be read back. */
  lemma ProcessFileSaves(store: Store, source: string, frame: Option<Frame>, force: bool,
                         calls: seq<LlmCall>, evaluate: string -> Evaluated, ontology: set<string>)
    requires ProcessFile(store, source, frame, force, calls, evaluate, ontology).outcome.SaveFailed?
    ensures frame.Some? && ColumnsAny(frame.value.columns)
    ensures MappingExists(ProcessFile(store, source, frame, force, calls, evaluate, ontology).store, source, frame.value.columns)
    ensures CachedMapping(ProcessFile(store, source, frame, force, calls, evaluate, ontology).store, source, frame.value.columns).None?
  {
    var r := ProcessFile(store, source, frame, force, calls, evaluate, ontology);
    SaveLeavesUnreadable(store, source, frame.value.columns, r.outcome.mapping, frame.value.columns);
  }

  /** Processing a file never removes a mapping. */
  lemma ProcessFileKeeps(store: Store, source: string, frame: Option<Frame>, force: bool,
                         calls: seq<LlmCall>, evaluate: string -> Evaluated, ontology: set<string>,
                         source2: string, columns: seq<string>)
    requires MappingExists(store, source2, columns)
    ensures MappingExists(ProcessFile(store, source, frame, force, calls, evaluate, ontology).store, source2, columns)
  {
  }

  /** Processing a file never removes a mapping, for every source and column list at once. */
  lemma ProcessFileKeepsAll(store: Store, source: string, frame: Option<Frame>, force: bool,
                            calls: seq<LlmCall>, evaluate: string -> Evaluated, ontology: set<string>)
    ensures forall source2, columns :: MappingExists(store, source2, columns) ==>
              MappingExists(ProcessFile(store, source, frame, force, calls, evaluate, ontology).store, source2, columns)
  {
    forall source2, columns | MappingExists(store, source2, columns)
      ensures MappingExists(ProcessFile(store, source, frame, force, calls, evaluate, ontology).store, source2, columns)
    {
      ProcessFileKeeps(store, source, frame, force, calls, evaluate, ontology, source2, columns);
    }
  }

  /** One more file keeps what the loop saved so far and adds its own saved mapping. */
  lemma ProcessPrefixStep(store: Store, source: string, files: seq<string>, n: nat, force: bool,
                          inputs: SourceInputs, evaluate: string -> Evaluated, ontology: set<string>)
    requires 0 < n <= |files|
    ensures var prev := ProcessPrefix(store, source, files, n - 1, force, inputs, evaluate, ontology);
      var fr := ProcessFile(prev.store, source, inputs.frames(files[n - 1]), force, inputs.calls(n - 1), evaluate, ontology);
      ProcessPrefix(store, source, files, n, force, inputs, evaluate, ontology) == FilesRun(fr.store, prev.outcomes + [fr.outcome], prev.llmCalls + fr.llmCalls)
  {
  }

  /** Every mapping the loop saved is in the cache when the loop ends. */
  lemma {:induction false} SavedMappingsPersist(store: Store, source: string, files: seq<string>, n: nat, force: bool,
                                                inputs: SourceInputs, evaluate: string -> Evaluated, ontology: set<string>, k: nat)
    requires k < n <= |files|
    requires ProcessPrefix(store, source, files, n, force, inputs, evaluate, ontology).outcomes[k].SaveFailed?
    ensures inputs.frames(files[k]).Some?
    ensures ColumnsAny(inputs.frames(files[k]).value.columns)
    ensures MappingExists(ProcessPrefix(store, source, files, n, force, inputs, evaluate, ontology).store, source,
                          inputs.frames(files[k]).value.columns)
  {
    var prev := ProcessPrefix(store, source, files, n - 1, force, inputs, evaluate, ontology);
    var fr := ProcessFile(prev.store, source, inputs.frames(files[n - 1]), force, inputs.calls(n - 1), evaluate, ontology);
    ProcessPrefixStep(store, source, files, n, force, inputs, evaluate, ontology);
    if k < n - 1 {
      assert prev.outcomes[k] == (prev.outcomes + [fr.outcome])[k];
      SavedMappingsPersist(store, source, files, n - 1, force, inputs, evaluate, ontology, k);
      ProcessFileKeeps(prev.store, source, inputs.frames(files[n - 1]), force, inputs.calls(n - 1), evaluate, ontology,
                       source, inputs.frames(files[k]).value.columns);
    } else {
      assert fr.outcome == (prev.outcomes + [fr.outcome])[k];
      ProcessFileSaves(prev.store, source, inputs.frames(files[n - 1]), force, inputs.calls(n - 1), evaluate, ontology);
    }
  }

  /** When every readable file's columns are already mapped, an unforced loop
      makes no model call: the second run over unchanged files is free. */
  lemma {:induction false} MappedFilesMakeNoCalls(store: Store, source: string, files: seq<string>, n: nat,
                                                  inputs: SourceInputs, evaluate: string -> Evaluated, ontology: set<string>)
    requires n <= |files|
    requires forall k :: 0 <= k < n && inputs.frames(files[k]).Some? ==>
      MappingExists(store, source, inputs.frames(files[k]).value.columns)
    ensures ProcessPrefix(store, source, files, n, false, inputs, evaluate, ontology).llmCalls == 0
  {
    if n > 0 {
      var prev := ProcessPrefix(store, source, files, n - 1, false, inputs, evaluate, ontology);
      var frame := inputs.frames(files[n - 1]);
      var fr := ProcessFile(prev.store, source, frame, false, inputs.calls(n - 1), evaluate, ontology);
      MappedFilesMakeNoCalls(store, source, files, n - 1, inputs, evaluate, ontology);
      assert prev.llmCalls == 0;
      if frame.Some? {
        assert MappingExists(store, source, frame.value.columns);
        ProcessPrefixKeeps(store, source, files, n - 1, false, inputs, evaluate, ontology, source, frame.value.columns);
      }
      MappedFileMakesNoCall(prev.store, source, frame, inputs.calls(n - 1), evaluate, ontology);
      assert fr.llmCalls == 0;
      ProcessPrefixStep(store, source, files, n, false, inputs, evaluate, ontology);
    }
  }
}
