# OpenJordi ingestion core in Dafny

OpenJordi collects research-grant datasets from many funders and maps their
columns onto a grant ontology. This project models the deterministic core of
that pipeline and proves properties of the model:

- **Fetching** (`scripts/fetch_data.py`). Each configured source is resolved
  into (action, data link) pairs. Each pair gets a result id and a directory.
  A pair is skipped when its last download is recent enough. A file download
  runs a bounded retry loop with exponential backoff and a one-time fallback to
  unverified TLS. The LLM reply of the HTML extractor has its code fences
  stripped. The OpenAIRE fetcher pages through the API until a stop rule fires.
- **Column mapping** (`scripts/clean_data.py`). The mapper picks the latest
  download directory and gathers its CSV files, converting Excel or JSON files
  when there are none. For each file it reuses a cached mapping or asks a
  language model, at most three times. Replies are cleaned of fences and
  braced, and only targets in the ontology (or "null") are kept. A mapping is
  written under a digest of the sorted, comma-joined column names. As the code
  stands that write fails halfway (see Findings), so the file exists but never
  reads back.
- **Source import** (`scripts/import_sources.py`). Spreadsheet rows become
  source configurations keyed by a cleaned `<name>-<action>` id. The text of
  the generated configuration module is produced line by line.
- **Renaming** (`tests/mapping_dataset_name.py`). Investigator names are split
  on a space. A fold over the mapping dictionary writes each new column at most
  once, from the first mapping entry whose source column is present.

The outside world enters as parameters. These include the download records
with their ages, each attempt's outcome, each API page, the model's replies,
`eval`'s result, directory listings, whether each conversion succeeds, and the
frame each file reads as. Sleeps are recorded as numbers of seconds (the
download backoff, the OpenAIRE pause after each page, the model backoff).

Modules: `Wrappers`, `Text` (strip, lower, split/join on ASCII),
`StringOrder` (Python string order and `sorted`), `FetchPlan`, `Download`,
`FetchAll`, `Fences`, `OpenAire`, `MappingCache`, `SourceFiles`,
`ColumnMapper`, `ImportSources`, `Rename`.

Two behaviours differ from what the docstrings and option names suggest. The
model follows the code:

- `force_remapping` ("remap columns even if mapping exists",
  `scripts/clean_data.py:157`) does not always call the model.
  `get_column_mapping` reads the cache first, so a readable cached mapping is
  handed to `save_mapping` again without a call
  (`ColumnMapper.ForcedWithCacheMakesNoCall`). That write fails like any other
  and leaves the mapping unreadable (`ColumnMapper.ForcedRunSpoilsCache`).
- `skip_ssl_verify` set to a true spelling turns certificate verification ON.
  The default `"False"` turns it off (`FetchPlan.DefaultDisablesVerification`).

## Model

| member | source | states |
|---|---|---|
| FetchPlan.ListedActions | scripts/fetch_data.py:157-178 | only dict entries that have both "name" and "data_link" are kept; the result is empty exactly when no entry qualifies, and every qualifying entry's pair is present |
| FetchPlan.ListedActionsAppend | scripts/fetch_data.py:170-176 | filtering distributes over concatenation, so the kept pairs stay in entry order |
| FetchPlan.ListedActionsOnlyListed | scripts/fetch_data.py:170-176 | every kept pair comes from a qualifying entry; nothing is invented |
| FetchPlan.ResolveActions | scripts/fetch_data.py:95-105 | the listed actions when there are any; otherwise a single pair with the top-level action (possibly "") and the top-level link; never empty |
| FetchPlan.EffectiveLink | scripts/fetch_data.py:125-128 | the pair's own link when it is truthy, else the source's top-level link |
| FetchPlan.ActionId | scripts/fetch_data.py:113 | the id is the source id when the action is empty, else source id, "_" and the action |
| FetchPlan.ActionIdInjective | scripts/fetch_data.py:113 | for one source id, the action can be read back from the id |
| FetchPlan.ActionIdCollision | scripts/fetch_data.py:113 | across sources ids collide: source "a_b" with no action and source "a" with action "b" |
| FetchPlan.SourcePath | scripts/fetch_data.py:180-197 | `root/source`, with `/action` added only when the action is non-empty after stripping |
| FetchPlan.SourcePathBlankAction | scripts/fetch_data.py:193-194 | a whitespace-only action uses the plain source directory |
| FetchPlan.SourcePathShape | scripts/fetch_data.py:191-195 | with plain relative components the path is exactly `root/source/action` or `root/source` |
| FetchPlan.IsRecentlyDownloaded | scripts/fetch_data.py:1171-1212 | a missing or unreadable record is never recent; a record of age zero is recent for any non-negative allowance; a record older than `max_age_days` days, or any record under a negative allowance, is not |
| FetchPlan.ShouldSkip | scripts/fetch_data.py:1185-1212 | skip iff not forced and a readable record exists whose age is at most `max_age_days` (inclusive) |
| FetchPlan.FreshnessMonotone | scripts/fetch_data.py:1201 | a younger record or a longer allowance never turns a fresh download stale |
| FetchPlan.Basename | scripts/fetch_data.py:711 | the longest slash-free suffix of the URL path |
| FetchPlan.FileName | scripts/fetch_data.py:709-717 | the URL's basename when non-empty, else `<action id>.<extension>` |
| FetchPlan.Extension | scripts/fetch_data.py:713-714 | "xlsx" for the excel formats, else the lower-cased format, "csv" by default |
| FetchPlan.KindOf | scripts/fetch_data.py:133-143 | csv/excel/xlsx select the file download, api the API fetch, html the scraper, anything else is unsupported |
| FetchPlan.VerifySsl | scripts/fetch_data.py:722 | verification is on iff the lower-cased flag is one of true, 1, yes, y, t |
| FetchPlan.DefaultDisablesVerification | scripts/fetch_data.py:722 | a source without the flag is fetched without certificate checks |
| FetchPlan.VerifySslIgnoresCase | scripts/fetch_data.py:722 | the flag's letter case does not matter |
| Download.Run | scripts/fetch_data.py:728-788 | the loop from one attempt on: every attempt before the last one made failed its request, it stops at the first saved file or after the last attempt, and it downloads iff that file is non-empty or parseable |
| Download.RunFlags | scripts/fetch_data.py:780-783 | verification stays as configured on every attempt except the last, which runs unverified exactly when a certificate failure hit the second-to-last attempt with verification on |
| Download.RunWaits | scripts/fetch_data.py:780-785 | after a retried attempt the loop sleeps 2^attempt seconds, except after the switch to unverified TLS, where it does not sleep |
| Download.Download | scripts/fetch_data.py:728-788 | at most `retries` attempts, all but the last failed requests; success iff the last attempt saved a non-empty or parseable file; exact TLS flags and waits per attempt |
| Download.ExhaustedRetries | scripts/fetch_data.py:784-788 | failures on every attempt make all attempts, sleep 2^j after attempt j, and fail |
| Download.FetchFile | scripts/fetch_data.py:703-788 | no request is made iff the data link is not truthy; otherwise the file name is the URL's basename or `<action id>.<extension>`, and the download runs with the source's TLS flag |
| Download.FetchFileSucceeds | scripts/fetch_data.py:703-788 | `True` iff the link is truthy and, within the retry budget, the first attempt that saves a file saves one that is non-empty or parses |
| Download.FirstSaveDecides | scripts/fetch_data.py:728-788 | the verdict read off the attempt that ends the loop is the existence of a first saved file that counts |
| FetchAll.SourceItems | scripts/fetch_data.py:107-110 | one item per resolved action, in order |
| FetchAll.Attempt | scripts/fetch_data.py:131-145 | an unsupported format gives `False`; `True` only from a supported fetcher |
| FetchAll.ItemStatus | scripts/fetch_data.py:119-145 | "skipped" iff the skip rule holds on the record the item sees; otherwise its attempt |
| FetchAll.StatusAt | scripts/fetch_data.py:114-145 | an item's outcome is its status against the record its path has when the loop reaches it |
| FetchAll.FetchSeenLater | scripts/fetch_data.py:1153-1166 | after a successful fetch every later item sees a record of age zero under that path |
| FetchAll.RecordSeen | scripts/fetch_data.py:1153-1166 | the record an item sees is age zero iff an earlier item fetched that path successfully, else the record from before the run |
| FetchAll.ResultsKeys | scripts/fetch_data.py:121-145 | the result keys are exactly the ids of the planned items |
| FetchAll.ResultsLastWins | scripts/fetch_data.py:121-145 | an item whose id no later item shares has its in-run status in the results |
| FetchAll.ResultsFromItems | scripts/fetch_data.py:121-145 | every result is the in-run status of some item with that id |
| FetchAll.FetchAllSources | scripts/fetch_data.py:67-155 | the result keys are exactly the ids of the planned actions, and with `force_refresh` no result is "skipped"; `ResultsLastWins` and `ResultsFromItems` give the values |
| FetchAll.ForcedResults | scripts/fetch_data.py:119-145 | with `force_refresh` no entry of a plan's results is "skipped" |
| FetchAll.ForceNeverSkips | scripts/fetch_data.py:119 | with `force_refresh` no result is "skipped" |
| FetchAll.FreshActionSkipped | scripts/fetch_data.py:119-123 | without forcing, an action whose path no earlier action refreshed and whose record from before the run is fresh ends up "skipped" |
| FetchAll.RefreshedPathSkipped | scripts/fetch_data.py:119-123 | without forcing, an action whose path an earlier action fetched successfully in the same run ends up "skipped" |
| FetchAll.Plan | scripts/fetch_data.py:87-110 | every resolved action of every source is planned, and there is at least one item per source |
| FetchAll.PlanHasSourceActions | scripts/fetch_data.py:87-108 | every resolved action of every source is planned |
| FetchAll.PlanOnlySourceActions | scripts/fetch_data.py:87-108 | every planned item is a resolved action of some source |
| Fences.StripFences | scripts/fetch_data.py:981-988 | the result is trimmed and no longer than the reply |
| Fences.CutOpeningFetcher | scripts/fetch_data.py:982-985 | drops "```json" (7 characters), else "```", else nothing |
| Fences.StripFencesPlain | scripts/fetch_data.py:981-988 | a reply without fences is only stripped |
| Fences.StripFencesJsonRoundTrip | scripts/fetch_data.py:982-988 | a payload in a "```json" fence, with any padding, comes back stripped |
| Fences.StripFencesBareRoundTrip | scripts/fetch_data.py:984-988 | the same for a bare "```" fence around a payload not starting "json" |
| Fences.CutOpening | scripts/clean_data.py:566-569 | a "```json" prefix drops 9 characters, a bare "```" drops 3 |
| Fences.CutClosing | scripts/clean_data.py:571-572 | a trailing "```" is cut, otherwise the text is unchanged |
| Fences.Brace | scripts/clean_data.py:577-580 | the result starts with "{" and ends with "}"; a text already starting with "{" gets at most a "}" appended, a text already ending with "}" gets at most a "{" prepended, and a text with both is unchanged |
| Fences.CleanLlmResponse | scripts/clean_data.py:555-582 | the cleaned reply always starts with "{" and ends with "}" |
| Fences.CleanKeepsBraced | scripts/clean_data.py:555-582 | a trimmed braced reply passes unchanged |
| Fences.CleanIdempotent | scripts/clean_data.py:555-582 | cleaning twice is cleaning once |
| Fences.CleanFencedJsonRestoresBrace | scripts/clean_data.py:566-580 | on "```json\n{...}\n```" the 9-character cut eats the newline and the brace, and the brace is put back |
| Fences.CleanDropsPayloadCharacter | scripts/clean_data.py:566-580 | without the newline the cut loses the payload's second character, where the fetcher's 7-character cut keeps the payload |
| OpenAire.Items | scripts/fetch_data.py:530-537 | a list is used as is, a single truthy record as a list of one, anything else as no records |
| OpenAire.PageCount | scripts/fetch_data.py:553 | `(total + 99) // 100` is the least page count covering `total` records |
| OpenAire.TotalPagesOf | scripts/fetch_data.py:540-556 | an absent total reads as 0 pages; a parseable one gives its page count; an unparseable one leaves the count unknown |
| OpenAire.KnownTotalStable | scripts/fetch_data.py:540 | once the page count is known it never changes |
| OpenAire.FetchOpenAire | scripts/fetch_data.py:505-586 | `False` iff the first request fails; otherwise stops at the first page where an empty page, the total+5 cap or the 1000-page cap applies, with the records of the pages before it in order and a one-second pause after each processed page |
| OpenAire.PageStep | scripts/fetch_data.py:520-586 | one pass of the loop body either ends the call with what the function promises or moves to the next page with the pages so far processed, none of them stopping the loop, and no cap applying yet |
| OpenAire.CollectedNonEmpty | scripts/fetch_data.py:582-586 | a later failure keeps what earlier pages collected, which is never empty |
| OpenAire.CapBoundsPages | scripts/fetch_data.py:571-573 | with a non-zero page count t, at most t+5 pages are processed |
| OpenAire.AbsentTotalNeverCaps | scripts/fetch_data.py:571 | a missing total (0 pages) disables the total-based cap |
| MappingCache.ColumnKey | scripts/clean_data.py:339 | the empty column list keys on the hash of "", a single column on the hash of its name; `ColumnKeySorted`, `ColumnKeyPermutation` and `ColumnKeyInjective` give the general case |
| MappingCache.ColumnKeySorted | scripts/clean_data.py:339 | the key is the hash of the comma-joined columns in any sorted arrangement of them |
| MappingCache.MappingExists | scripts/clean_data.py:332-342 | whether the source directory and the key's file exist does not depend on the order of the columns |
| MappingCache.CachedMapping | scripts/clean_data.py:364-394 | a mapping is returned iff the key's file exists and reads |
| MappingCache.Save | scripts/clean_data.py:396-425 | the source directory and the key's file exist afterwards |
| MappingCache.SaveLeavesUnreadable | scripts/clean_data.py:414-423 | after a save the key's file exists under any order of the columns, but no mapping reads back from it |
| MappingCache.SaveIntended | scripts/clean_data.py:396-425 | the corrected save: the source directory and the key's file exist afterwards |
| MappingCache.ColumnKeyPermutation | scripts/clean_data.py:339 | the key does not depend on column order |
| MappingCache.ColumnKeyInjective | scripts/clean_data.py:339 | for non-empty comma-free column lists, equal keys mean the same columns |
| MappingCache.ColumnKeyCollisions | scripts/clean_data.py:339 | a comma inside a name, or an empty list against [""], gives colliding keys |
| MappingCache.SaveThenCached | scripts/clean_data.py:382-423 | with the corrected save, a saved mapping is found again under any order of the same columns |
| MappingCache.SaveKeepsOthers | scripts/clean_data.py:396-425 | saving changes no other source's or key's lookup |
| SourceFiles.LatestDirectory | scripts/clean_data.py:168-183 | "latest" when present; else the greatest non-hidden directory other than "latest"; none exactly when there is no candidate |
| SourceFiles.SplitExtStem | scripts/clean_data.py:201 | `splitext(name)[0]`: the name up to its last dot, unless the part before it is all dots |
| SourceFiles.SplitExtStemOf | scripts/clean_data.py:201 | "stem.ext" gives back "stem" |
| SourceFiles.Convert | scripts/clean_data.py:196-209 | the conversion loop only appends to the list it is given, and every file whose conversion succeeds has its CSV name in the result |
| SourceFiles.ConvertEmptyIff | scripts/clean_data.py:196-209 | the loop appends nothing iff no conversion succeeds |
| SourceFiles.ConvertOrigins | scripts/clean_data.py:196-209 | each appended name is the CSV name of a file whose conversion succeeded |
| SourceFiles.ConvertDistinct | scripts/clean_data.py:196-209 | without forcing, no CSV name is appended twice |
| SourceFiles.CandidateFiles | scripts/clean_data.py:187-240 | the listing's CSV files when any; otherwise, when some Excel conversion succeeds, exactly the CSV names of converted Excel files, each converted one present; otherwise the same for the JSON files; no repeats unforced |
| SourceFiles.Fallback | scripts/clean_data.py:194-240 | the Excel conversions when any succeeds, else the JSON conversions, each made of CSV names of converted files |
| SourceFiles.CandidatesAreCsv | scripts/clean_data.py:187-240 | every candidate has a ".csv" name in any letter case |
| SourceFiles.SharedCsvName | scripts/clean_data.py:194-209 | two convertible files with the same CSV name: a forced run lists that name twice, an unforced run once |
| SourceFiles.ForcedConversionRepeats | scripts/clean_data.py:194-209 | a forced run over "a.xlsx" and "a.xls" lists "a.csv" twice |
| SourceFiles.FirstNonEmptyList | scripts/clean_data.py:230-237 | the first non-empty list among an object's values, none iff there is none |
| SourceFiles.ShapeRows | scripts/clean_data.py:228-240 | a list gives its records; an object gives its first non-empty list or itself as one row; anything else is one row |
| ColumnMapper.Validate | scripts/clean_data.py:531-536 | keeps exactly the entries whose target is an ontology field or "null", unchanged |
| ColumnMapper.ValidateIdempotent | scripts/clean_data.py:531-536 | validating twice is validating once |
| ColumnMapper.ValidateKeepsValid | scripts/clean_data.py:531-536 | a mapping within the ontology passes untouched |
| ColumnMapper.AttemptMapping | scripts/clean_data.py:516-539 | an attempt yields a mapping iff the call returned and the cleaned reply evaluates to a dictionary, and that mapping is the dictionary with its invalid targets dropped |
| ColumnMapper.LlmLoop | scripts/clean_data.py:501-550 | stops at the first successful attempt; earlier attempts failed; backoff 2^attempt between attempts |
| ColumnMapper.MappingFromLlm | scripts/clean_data.py:501-553 | one to three calls, waits [1, 2] cut to the calls made, the first dictionary wins, three failures give the empty mapping, every target is valid |
| ColumnMapper.PresentPrefix | scripts/clean_data.py:442-447 | the run of present first-row values before the first missing one |
| ColumnMapper.ColumnExamples | scripts/clean_data.py:440-447 | a column has an example iff it comes before the first missing value, and the example is its first-row text |
| ColumnMapper.ColumnLines | scripts/clean_data.py:451-456 | one line per column, with ": example" exactly when it has one |
| ColumnMapper.ProcessFile | scripts/clean_data.py:252-283 | at most three calls; saves only a non-empty mapping, and the save ends the file in the exception handler; skips iff the mapping exists and not forced; calls the model only without a readable cached mapping |
| ColumnMapper.CacheMissCallsModel | scripts/clean_data.py:272-280 | without a readable cached mapping, a file that is not skipped and has a first row makes exactly the retry loop's calls, and its mapping goes to the save iff it is non-empty |
| ColumnMapper.CachedMappingReused | scripts/clean_data.py:272-280 | a readable cached mapping is used without a model call, and goes to the save iff it is non-empty |
| ColumnMapper.CacheMissWithoutRowErrors | scripts/clean_data.py:272-283 | a cache miss on a file without data rows ends in the exception handler before any call |
| ColumnMapper.ProcessFileSaves | scripts/clean_data.py:274-283 | a file that reaches the save has columns, and afterwards its mapping file exists but does not read |
| ColumnMapper.ForcedWithCacheMakesNoCall | scripts/clean_data.py:344-362 | forced with a readable cached mapping, the file goes to the save again with no model call |
| ColumnMapper.ForcedRunSpoilsCache | scripts/clean_data.py:264-283 | a forced run over a file with a readable cached mapping leaves that mapping unreadable |
| ColumnMapper.ExistingMappingSkipped | scripts/clean_data.py:264-268 | an existing mapping skips the file unforced, with no call and no save |
| ColumnMapper.MapSource | scripts/clean_data.py:151-285 | `True` iff there is a latest directory with at least one candidate file, whatever happens to the files; the files are then processed in candidate order, one outcome per candidate, each seeing the cache the earlier ones left |
| ColumnMapper.ProcessPrefix | scripts/clean_data.py:250-283 | one outcome per file processed, and every mapping present before the loop is still present after it |
| ColumnMapper.ProcessFileKeepsAll | scripts/clean_data.py:252-283 | one file's processing keeps every mapping of every source |
| ColumnMapper.ProcessPrefixKeeps | scripts/clean_data.py:250-283 | the file loop never removes a mapping |
| ColumnMapper.SavedMappingsPersist | scripts/clean_data.py:250-283 | every mapping file written by the loop exists at its end |
| ColumnMapper.MappedFilesMakeNoCalls | scripts/clean_data.py:264-268 | when every readable file is already mapped, an unforced run makes no model call |
| ImportSources.CleanChars | scripts/import_sources.py:172-173 | only alphanumerics and "_" remain, and the result is no longer than the input |
| ImportSources.CleanCharsAppend | scripts/import_sources.py:172-173 | cleaning works character by character: it distributes over concatenation |
| ImportSources.CleanCharsKeepsIds | scripts/import_sources.py:172-173 | a string of id characters is unchanged |
| ImportSources.CleanSourceId | scripts/import_sources.py:158-175 | a non-string or empty value gives ""; otherwise the cleaned characters |
| ImportSources.CleanSourceIdIdempotent | scripts/import_sources.py:158-175 | cleaning a cleaned id changes nothing |
| ImportSources.SourceId | scripts/import_sources.py:76-79 | the id always holds a dash and is never empty, so the `if not source_id` skip never fires |
| ImportSources.SourceIdParts | scripts/import_sources.py:76 | the dash is the first one in the id, so the id splits back into its two cleaned parts |
| ImportSources.SourceIdInjective | scripts/import_sources.py:76 | rows share an id only if their cleaned names and cleaned actions agree |
| ImportSources.DetermineParserType | scripts/import_sources.py:178-199 | excel/xlsx/xls give excel, api gives api, html gives html, everything else standard_csv |
| ImportSources.ParserTypeIgnoresCase | scripts/import_sources.py:188 | matching ignores letter case |
| ImportSources.ConfigValues | scripts/import_sources.py:82-100 | thirteen values: each plain column is read with its own default ("Not started" for status, False for skip_ssl_verify, "" otherwise); format is the lower-cased text of the Format cell and the parser follows it |
| ImportSources.Upsert | scripts/import_sources.py:86 | a new id is appended; a present id keeps its place and gets the new value; ids stay distinct |
| ImportSources.AssignIds | scripts/import_sources.py:74-86 | the dictionary's ids are exactly the assigned ids |
| ImportSources.LastAssignmentWins | scripts/import_sources.py:74-86 | the last assignment to an id is the value kept |
| ImportSources.BuildSourcesIds | scripts/import_sources.py:74-100 | the sources are exactly the rows' ids |
| ImportSources.LastRowWins | scripts/import_sources.py:74-100 | a later row with the same id overwrites the configuration of an earlier one |
| ImportSources.Missing | scripts/import_sources.py:39 | a column is reported iff it is required and absent |
| ImportSources.MissingEverything | scripts/import_sources.py:39 | with no columns, all required columns are reported, in order |
| ImportSources.EmitValue | scripts/import_sources.py:117-120 | None and anything whose text is "nan" are written as empty, anything else as its text |
| ImportSources.NanTextIsDropped | scripts/import_sources.py:117-118 | an empty cell and the literal text "nan" are written alike |
| ImportSources.EntryLines | scripts/import_sources.py:114-121 | an opening line with the id, one line per key in order, a closing line |
| ImportSources.EntriesLines | scripts/import_sources.py:113-121 | the blocks of all sources, each in its slot, in dictionary order |
| ImportSources.GeneratedLines | scripts/import_sources.py:103-155 | the header, then each source's block in order, then the footer |
| ImportSources.ImportSourcesFromCsv | scripts/import_sources.py:19-59 | `False` without a file; `False` with the missing columns listed iff a required column is absent; otherwise the generated lines |
| Rename.ExtractInvestigatorNames | tests/mapping_dataset_name.py:14-18 | names exist iff the text has a space; neither name has a space; given, space and family begin the text, which either ends there or goes on with a space |
| Rename.NamesRoundTrip | tests/mapping_dataset_name.py:14-18 | "Given Family" with one space gives back both names |
| Rename.Fold | tests/mapping_dataset_name.py:59-70 | written columns were unmarked, their sources are present, each is written once, and each comes from a mapping pair |
| Rename.FoldFirstWriterWins | tests/mapping_dataset_name.py:59-70 | a column is written from a source iff it was not marked and that source is the first present one targeting it |
| Rename.AbsentColumnsIgnored | tests/mapping_dataset_name.py:63-68 | mapping pairs whose source column is absent contribute nothing |
| Rename.ApplyAndRename | tests/mapping_dataset_name.py:33-72 | new columns are distinct, never pre-marked, and copied from present columns |
| Rename.ApplyAndRenameSpec | tests/mapping_dataset_name.py:33-72 | the renamed frame column by column against the first-present reference |
| Rename.ResearchTitleWins | tests/mapping_dataset_name.py:21-23 | "Research Project Title" wins `project_title` over "Project Title (English)" |
| Rename.PeriodDropsDates | tests/mapping_dataset_name.py:38-41 | with a period column the renamed frame has no date columns |

## Left out

- HTTP sessions, file and JSON writes, metadata files, directory creation and the `latest` symlink are I/O. Their results are inputs of the model.
- `_verify_file`, CSV sniffing, `extract_columns_from_file`, `extract_file`, `pd.read_csv`, `json_normalize` and DataFrame conversion are library behaviour. Each file's frame and each conversion's success are inputs.
- Language-model calls, BeautifulSoup, the 32000-character truncation and the prompt text are left out. `eval` of the reply is an injected function.
- Dates and clocks: a download record carries its age in microseconds from an injected clock. `time.sleep` is recorded as seconds and never performed.
- md5 is a constructor of its input text, so the key is injective in the hashed text.
- OpenAire.FetchOpenAire: the flattening of "$"-keyed records is left out; records are opaque strings.
- The unreachable block after `return fetch_dir` in `_prepare_source_directory`, `initialize_from_csv`, `_fetch_api` and `_fetch_html` are not modelled. Their results enter as the fetcher parameter of `FetchAll.Env`.
- `map_all_sources`, `check_status.py`, `load_data.py`, the API app and the configuration module are not part of this model.
- Per-source exception handlers in `fetch_all_sources` are not modelled.
- ColumnMapper.ProcessFile uses the save as written, so its mapping files never read back. The corrected save is modelled by itself (`MappingCache.SaveIntended`) and is not threaded through the file loop.
- Download.Download: `REQUEST_RETRIES` lives in a configuration module that is not part of this model, so it is the parameter `retries`.
- ColumnMapper.Validate: the ontology `crossref_metadata` is not part of this model; it is the parameter `ontology`.
- Text.IsAlnum, Text.IsSpace and Text.Lower are the ASCII cases of Python's Unicode `isalnum`, `isspace` and `lower`.
- Rename.ApplyAndRename: only which column is copied where is modelled. Cell values, `parse_date` and the date split are left out, and so are the errors they raise, all in tests/mapping_dataset_name.py: with "Project Period (FY)" present, an empty frame makes `zip(*…)` yield nothing and the two-target unpack at line 39 raises `ValueError`; so does a frame whose shortest split of the period has other than two parts; a non-string period cell raises at `x.split` on line 39; a non-string "Principal Investigator" cell raises at `name_str.split` (line 15, called from line 45). The model always returns the renamed frame.
- ImportSources.ImportSourcesFromCsv: the generated lines are returned rather than joined with newlines and written. Exceptions from reading the CSV are not modelled.
- ColumnMapper.ProcessFile: a reader failure is folded into `FileErrored` together with the empty-frame and `[]` cases.
- FetchAll.ItemStatus: a source whose `format` is explicitly `None` would raise inside the loop; the model reads a missing format as "", which is unsupported.
- FetchAll.RecordAt: the time a run takes is not modelled. A record written earlier in the same run has age zero, so it is fresh for any non-negative `max_age_days`.
- FetchAll.Env: a fetcher's result is a bool. The `None` that `_fetch_file` returns when `REQUEST_RETRIES` is 0 is falsy and is read as `False`. The file fetcher of `FetchAll.Env` is a parameter and is not tied to `Download.FetchFile`.

## Findings

| source | as written | input that shows it | evidently intended | confidence | as-written member | corrected member |
|---|---|---|---|---|---|---|
| scripts/clean_data.py:414-423 | the record passed to `json.dump` holds `df.columns`, a pandas Index, which `json` cannot serialise; the dump has already written the opening of the record when the `TypeError` is raised, and the handler at lines 282-283 swallows it | any file with a non-empty mapping, including a forced run over a file whose cached mapping reads | store the columns as a list, so the file reads back and later runs reuse it | high, not executed | MappingCache.SaveLeavesUnreadable | MappingCache.SaveThenCached |
