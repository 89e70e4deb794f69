/** Which files of a source the column mapper reads: the latest download
    directory, its CSV files, and, when it has none, the CSV files made by
    converting its Excel files or else its JSON files. Directory listings and
    whether each conversion succeeds are injected. */
module SourceFiles {
  import opened Wrappers
  import opened Text
  import opened StringOrder

  /** The elements of `s` that satisfy `p`, in order. */
  function Filter(s: seq<string>, p: string -> bool): (r: seq<string>)
    ensures |r| <= |s|
    ensures forall x :: x in r <==> x in s && p(x)
  {
    if |s| == 0 then []
    else (if p(s[0]) then [s[0]] else []) + Filter(s[1..], p)
  }

  const Latest: string := "latest"

  /** A download directory the fallback may choose: not "latest", not hidden. */
  predicate IsDownloadDir(d: string) {
    d != Latest && !StartsWith(d, ".")
  }

  /** The directory `map_source` reads from, given the sub-directories of the
      source: "latest" when present, else the greatest other name that does
      not start with a dot, else none. */
  function LatestDirectory(subdirs: seq<string>): (r: Option<string>)
    ensures r == Some(Latest) <==> Latest in subdirs
    ensures r.None? <==> Latest !in subdirs && forall d :: d in subdirs ==> !IsDownloadDir(d)
    ensures r.Some? ==> r.value in subdirs
    ensures r.Some? && r.value != Latest ==>
      IsDownloadDir(r.value) && forall d :: d in subdirs && IsDownloadDir(d) ==> LexLe(d, r.value)
  {
    if Latest in subdirs then Some(Latest)
    else
      var candidates := Filter(subdirs, IsDownloadDir);
      if |candidates| == 0 then None
      else
        var m := Max(candidates);
        assert forall d :: d in candidates ==> LexLe(d, m) by {
          forall d | d in candidates ensures LexLe(d, m) {
            var i :| 0 <= i < |candidates| && candidates[i] == d;
          }
        }
        Some(m)
  }

  /** The position of the last '.' in `s`. */
  function LastDot(s: string): (r: Option<nat>)
    ensures r.Some? ==> r.value < |s| && s[r.value] == '.' && '.' !in s[r.value + 1..]
    ensures r.None? ==> '.' !in s
  {
    if |s| == 0 then None
    else if s[|s| - 1] == '.' then Some(|s| - 1)
    else
      var r := LastDot(s[..|s| - 1]);
      assert s == s[..|s| - 1] + [s[|s| - 1]];
      if r.Some? then
        assert s[r.value + 1..] == s[..|s| - 1][r.value + 1..] + [s[|s| - 1]];
        r
      else r
  }

  /** A dot with no dot after it is the last dot. */
  lemma {:induction false} LastDotAt(s: string, k: nat)
    requires k < |s| && s[k] == '.' && '.' !in s[k + 1..]
    ensures LastDot(s) == Some(k)
    decreases |s|
  {
    if k < |s| - 1 {
      assert s[|s| - 1] == s[k + 1..][|s| - 2 - k];
      assert s[..|s| - 1][k + 1..] == s[k + 1..][..|s| - 2 - k];
      LastDotAt(s[..|s| - 1], k);
    }
  }

  predicate HasNonDot(s: string) {
    exists j :: 0 <= j < |s| && s[j] != '.'
  }

  /** `os.path.splitext(name)[0]` for a bare file name: everything before the
      last dot, unless only dots come before it (".xlsx" has no extension). */
  function SplitExtStem(name: string): (r: string)
    ensures r == name || (|r| < |name| && r == name[..|r|] && name[|r|] == '.' && '.' !in name[|r| + 1..] && HasNonDot(r))
  {
    match LastDot(name)
    case None => name
    case Some(i) => if HasNonDot(name[..i]) then name[..i] else name
  }

  /** The stem of "stem.ext" is `stem` when the extension has no dot and the
      stem is not all dots; `ext` here includes its leading dot. */
  lemma SplitExtStemOf(stem: string, ext: string)
    requires HasNonDot(stem) && |ext| > 0 && ext[0] == '.' && '.' !in ext[1..]
    ensures SplitExtStem(stem + ext) == stem
  {
    var name := stem + ext;
    assert name[|stem|] == '.';
    assert name[|stem| + 1..] == ext[1..];
    LastDotAt(name, |stem|);
    assert name[..|stem|] == stem;
  }

  /** The CSV name a conversion writes: the stem with ".csv". */
  function CsvNameOf(name: string): string {
    SplitExtStem(name) + ".csv"
  }

  predicate IsCsvName(n: string) {
    EndsWith(Lower(n), ".csv")
  }

  predicate IsExcelName(n: string) {
    EndsWith(Lower(n), ".xlsx") || EndsWith(Lower(n), ".xls")
  }

  predicate IsJsonName(n: string) {
    EndsWith(Lower(n), ".json") && n != "metadata.json"
  }

  /** Every name past the first `from` is the CSV of a file converted successfully. */
  predicate ConvertedFrom(r: seq<string>, from: nat, files: seq<string>, converts: string -> bool) {
    forall i :: from <= i < |r| ==> exists f :: f in files && converts(f) && r[i] == CsvNameOf(f)
  }

  /** The conversion loop: each file is converted when its CSV was not made
      earlier in the loop or the run is forced, and a successful conversion
      appends the CSV name. */
  function Convert(files: seq<string>, created: seq<string>, force: bool, converts: string -> bool): (r: seq<string>)
    ensures |created| <= |r| && r[..|created|] == created
    ensures forall f :: f in files && converts(f) ==> CsvNameOf(f) in r
  {
    if |files| == 0 then created
    else
      var c := CsvNameOf(files[0]);
      var next := if (c !in created || force) && converts(files[0]) then created + [c] else created;
      var rest := Convert(files[1..], next, force, converts);
      assert rest[..|created|] == rest[..|next|][..|created|];
      assert converts(files[0]) ==> c in next && c in rest[..|next|];
      assert forall f :: f in files ==> f == files[0] || f in files[1..];
      rest
  }

  /** Each appended name is the CSV of a file whose conversion succeeded. */
  lemma {:induction false} ConvertOrigins(files: seq<string>, created: seq<string>, force: bool, converts: string -> bool)
    ensures ConvertedFrom(Convert(files, created, force, converts), |created|, files, converts)
    decreases |files|
  {
    if |files| > 0 {
      var c := CsvNameOf(files[0]);
      var next := if (c !in created || force) && converts(files[0]) then created + [c] else created;
      var rest := Convert(files[1..], next, force, converts);
      assert rest == Convert(files, created, force, converts);
      ConvertOrigins(files[1..], next, force, converts);
      assert ConvertedFrom(rest, |next|, files[1..], converts);
      forall i | |created| <= i < |rest| ensures exists f :: f in files && converts(f) && rest[i] == CsvNameOf(f) {
        if i < |next| {
          assert next == created + [c] && converts(files[0]);
          assert rest[i] == rest[..|next|][i] == next[i] == c;
          assert files[0] in files;
        } else {
          assert |next| <= i < |rest|;
          var f :| f in files[1..] && converts(f) && rest[i] == CsvNameOf(f);
          assert f in files;
        }
      }
      assert ConvertedFrom(rest, |created|, files, converts);
    }
  }

  predicate Distinct(s: seq<string>) {
    forall i, j :: 0 <= i < j < |s| ==> s[i] != s[j]
  }

  /** Without forcing, no CSV name is produced twice. */
  lemma {:induction false} ConvertDistinct(files: seq<string>, created: seq<string>, converts: string -> bool)
    requires Distinct(created)
    ensures Distinct(Convert(files, created, false, converts))
    decreases |files|
  {
    if |files| > 0 {
      var c := CsvNameOf(files[0]);
      var next := if c !in created && converts(files[0]) then created + [c] else created;
      assert Distinct(next) by {
        if next != created {
          forall i, j | 0 <= i < j < |next| ensures next[i] != next[j] {
            if j == |created| {
              assert next[i] == created[i];
            }
          }
        }
      }
      ConvertDistinct(files[1..], next, converts);
    }
  }

  /** The CSV files `map_source` processes: the listing's CSV files when there
      are any; else the CSVs converted from its Excel files; and when that
      yields nothing, the CSVs converted from its JSON files. */
  function CandidateFiles(listing: seq<string>, force: bool, converts: string -> bool): (r: seq<string>)
    ensures (exists n :: n in listing && IsCsvName(n)) ==> r == Filter(listing, IsCsvName)
    ensures !force && (forall n :: n in listing ==> !IsCsvName(n)) ==> Distinct(r)
    ensures (forall n :: n in listing ==> !IsCsvName(n)) && (exists f :: f in listing && IsExcelName(f) && converts(f)) ==>
      ConvertedFrom(r, 0, Filter(listing, IsExcelName), converts)
      && (forall f :: f in listing && IsExcelName(f) && converts(f) ==> CsvNameOf(f) in r)
    ensures (forall n :: n in listing ==> !IsCsvName(n)) && (forall f :: f in listing && IsExcelName(f) ==> !converts(f)) ==>
      ConvertedFrom(r, 0, Filter(listing, IsJsonName), converts)
      && (forall f :: f in listing && IsJsonName(f) && converts(f) ==> CsvNameOf(f) in r)
  {
    var csv := Filter(listing, IsCsvName);
    if |csv| > 0 then
      assert csv[0] in csv;
      csv
    else
      var excel := Filter(listing, IsExcelName);
      var json := Filter(listing, IsJsonName);
      assert forall f :: f in listing && IsExcelName(f) ==> f in excel;
      Fallback(excel, json, force, converts)
  }

  /** The conversions when no CSV is listed: the Excel files' CSVs when any
      Excel conversion succeeds, else the JSON files' CSVs. */
  function Fallback(excel: seq<string>, json: seq<string>, force: bool, converts: string -> bool): (r: seq<string>)
    ensures !force ==> Distinct(r)
    ensures (exists f :: f in excel && converts(f)) ==> r == Convert(excel, [], force, converts) && ConvertedFrom(r, 0, excel, converts)
    ensures (forall f :: f in excel ==> !converts(f)) ==> r == Convert(json, [], force, converts) && ConvertedFrom(r, 0, json, converts)
  {
    var fromExcel := Convert(excel, [], force, converts);
    var fromJson := Convert(json, [], force, converts);
    ConvertOrigins(excel, [], force, converts);
    ConvertOrigins(json, [], force, converts);
    ConvertEmptyIff(excel, force, converts);
    assert !force ==> Distinct(fromExcel) && Distinct(fromJson) by {
      if !force {
        ConvertDistinct(excel, [], converts);
        ConvertDistinct(json, [], converts);
      }
    }
    if |fromExcel| > 0 then fromExcel else fromJson
  }

  /** No CSV comes out of the loop exactly when no conversion succeeds. */
  lemma ConvertEmptyIff(files: seq<string>, force: bool, converts: string -> bool)
    ensures |Convert(files, [], force, converts)| == 0 <==> forall f :: f in files ==> !converts(f)
  {
    var r := Convert(files, [], force, converts);
    ConvertOrigins(files, [], force, converts);
    if |r| > 0 {
      var f :| f in files && converts(f) && r[0] == CsvNameOf(f);
    }
  }

  /** A converted name is a CSV name. */
  lemma CsvNameIsCsv(f: string)
    ensures IsCsvName(CsvNameOf(f))
  {
    var n := CsvNameOf(f);
    var m := |n|;
    var low := Lower(n);
    assert n[m - 4..] == ".csv";
    forall i | 0 <= i < 4 ensures low[m - 4..][i] == ".csv"[i] {
      assert n[m - 4 + i] == n[m - 4..][i];
    }
  }

  /** Every candidate has a ".csv" name, in any letter case. */
  lemma CandidatesAreCsv(listing: seq<string>, force: bool, converts: string -> bool)
    ensures forall i :: 0 <= i < |CandidateFiles(listing, force, converts)| ==> IsCsvName(CandidateFiles(listing, force, converts)[i])
  {
    var r := CandidateFiles(listing, force, converts);
    forall i | 0 <= i < |r| ensures IsCsvName(r[i]) {
      if exists n :: n in listing && IsCsvName(n) {
        assert r[i] in Filter(listing, IsCsvName);
      } else {
        var f :| (f in Filter(listing, IsExcelName) || f in Filter(listing, IsJsonName)) && r[i] == CsvNameOf(f);
        CsvNameIsCsv(f);
      }
    }
  }

  /** A forced run converts again a file whose CSV an earlier conversion in
      the same loop already wrote, so the CSV is listed twice. */
  lemma ForcedConversionRepeats(stem: string, converts: string -> bool)
    requires HasNonDot(stem)
    requires converts(stem + ".xlsx") && converts(stem + ".xls")
    ensures Convert([stem + ".xlsx", stem + ".xls"], [], true, converts) == [stem + ".csv", stem + ".csv"]
    ensures Convert([stem + ".xlsx", stem + ".xls"], [], false, converts) == [stem + ".csv"]
  {
    SameStemConversions(stem);
    SharedCsvName(stem + ".xlsx", stem + ".xls", converts);
  }

  /** Two convertible files with the same CSV name: forcing lists it twice,
      otherwise once. */
  lemma SharedCsvName(x: string, y: string, converts: string -> bool)
    requires CsvNameOf(x) == CsvNameOf(y)
    requires converts(x) && converts(y)
    ensures Convert([x, y], [], true, converts) == [CsvNameOf(x), CsvNameOf(x)]
    ensures Convert([x, y], [], false, converts) == [CsvNameOf(x)]
  {
    var files := [x, y];
    var c := CsvNameOf(x);
    assert files[1..] == [y];
    assert [y][1..] == [];
    ConvertStep(files, [], true, converts);
    ConvertStep([y], [c], true, converts);
    ConvertStep(files, [], false, converts);
    ConvertStep([y], [c], false, converts);
  }

  lemma SameStemConversions(stem: string)
    requires HasNonDot(stem)
    ensures CsvNameOf(stem + ".xlsx") == stem + ".csv"
    ensures CsvNameOf(stem + ".xls") == stem + ".csv"
  {
    SplitExtStemOf(stem, ".xlsx");
    SplitExtStemOf(stem, ".xls");
  }

  /** One turn of the conversion loop. */
  lemma ConvertStep(files: seq<string>, created: seq<string>, force: bool, converts: string -> bool)
    requires |files| > 0
    ensures var c := CsvNameOf(files[0]);
      Convert(files, created, force, converts)
      == Convert(files[1..], if (c !in created || force) && converts(files[0]) then created + [c] else created, force, converts)
  {
  }

  /** The JSON value a file holds, as `json.load` returns it. */
  datatype Json =
    | JNull
    | JBool(b: bool)
    | JNumber(n: int)
    | JString(s: string)
    | JList(items: seq<Json>)
    | JObject(fields: seq<(string, Json)>)

  /** The rows the JSON conversion builds a table from: a list of records, or
      the value itself as a single record. */
  datatype Rows = RecordList(items: seq<Json>) | SingleRecord(record: Json)

  /** The first non-empty list among an object's values. */
  function FirstNonEmptyList(fields: seq<(string, Json)>): (r: Option<seq<Json>>)
    ensures r.Some? ==> |r.value| > 0 && exists i :: 0 <= i < |fields| && fields[i].1 == JList(r.value)
    ensures r.Some? ==> exists i :: 0 <= i < |fields| && fields[i].1 == JList(r.value)
                                    && forall j :: 0 <= j < i ==> !(fields[j].1.JList? && |fields[j].1.items| > 0)
    ensures r.None? <==> forall i :: 0 <= i < |fields| ==> !(fields[i].1.JList? && |fields[i].1.items| > 0)
  {
    if |fields| == 0 then None
    else if fields[0].1.JList? && |fields[0].1.items| > 0 then Some(fields[0].1.items)
    else
      var r := FirstNonEmptyList(fields[1..]);
      if r.Some? then
        var i :| 0 <= i < |fields[1..]| && fields[1..][i].1 == JList(r.value)
          && forall j :: 0 <= j < i ==> !(fields[1..][j].1.JList? && |fields[1..][j].1.items| > 0);
        assert fields[i + 1].1 == JList(r.value);
        r
      else r
  }

  /** The shape rule of the JSON conversion: a list is the records; an object
      with a non-empty list value uses the first such list; anything else,
      including an object whose lists are all empty, is one record. */
  function ShapeRows(data: Json): (r: Rows)
    ensures data.JList? ==> r == RecordList(data.items)
    ensures !data.JList? && !data.JObject? ==> r == SingleRecord(data)
    ensures data.JObject? ==> (r.SingleRecord? <==> FirstNonEmptyList(data.fields).None?)
    ensures r.SingleRecord? ==> r.record == data
    ensures r.RecordList? && data.JObject? ==> |r.items| > 0 && exists i :: 0 <= i < |data.fields| && data.fields[i].1 == JList(r.items)
  {
    match data
    case JList(items) => RecordList(items)
    case JObject(fields) =>
      var first := FirstNonEmptyList(fields);
      if first.Some? then RecordList(first.value) else SingleRecord(data)
    case _ => SingleRecord(data)
  }
}
