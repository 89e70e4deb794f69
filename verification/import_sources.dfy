/** The sources importer: read the sources spreadsheet, check its required
    columns, turn each row into a source configuration keyed by a cleaned
    "<source name>-<action>" id, and emit the text of the generated
    configuration module. Reading the CSV and writing the file are left to
    the caller; the rows arrive as cell maps. */
module ImportSources {
  import opened Wrappers
  import opened Text

  /** A spreadsheet cell as pandas yields it: a string, `None`, NaN (an empty
      cell), or another value given by its `str()`. */
  datatype CellValue = Str(s: string) | NoneValue | NaNValue | Other(repr: string)

  /** `str(value)`. */
  function CellText(v: CellValue): string {
    match v
    case Str(s) => s
    case NoneValue => "None"
    case NaNValue => "nan"
    case Other(r) => r
  }

  /** A row: the cells of the columns the file has. */
  type Row = map<string, CellValue>

  /** `row.get(column, default)`. */
  function Get(row: Row, column: string, default: CellValue): CellValue {
    if column in row then row[column] else default
  }

  predicate IdChar(c: char) {
    IsAlnum(c) || c == '_'
  }

  /** Spaces become underscores, then every other character that is neither
      alphanumeric nor an underscore is dropped. */
  function CleanChars(s: string): (r: string)
    ensures |r| <= |s|
    ensures forall i :: 0 <= i < |r| ==> IdChar(r[i])
  {
    if |s| == 0 then ""
    else
      var c := if s[0] == ' ' then '_' else s[0];
      (if IdChar(c) then [c] else []) + CleanChars(s[1..])
  }

  /** Cleaning distributes over concatenation. */
  lemma {:induction false} CleanCharsAppend(a: string, b: string)
    ensures CleanChars(a + b) == CleanChars(a) + CleanChars(b)
    decreases |a|
  {
    if |a| > 0 {
      assert (a + b)[1..] == a[1..] + b;
      CleanCharsAppend(a[1..], b);
    } else {
      assert a + b == b;
    }
  }

  /** A string of id characters is already clean. */
  lemma {:induction false} CleanCharsKeepsIds(s: string)
    requires forall i :: 0 <= i < |s| ==> IdChar(s[i])
    ensures CleanChars(s) == s
    decreases |s|
  {
    if |s| > 0 {
      CleanCharsKeepsIds(s[1..]);
      assert s == [s[0]] + s[1..];
    }
  }

  /** `clean_source_id`: "" for an empty or non-string value, otherwise the
      cleaned characters. */
  function CleanSourceId(v: CellValue): (r: string)
    ensures forall i :: 0 <= i < |r| ==> IdChar(r[i])
    ensures !v.Str? ==> r == ""
    ensures v.Str? ==> r == CleanChars(v.s)
  {
    if v.Str? && v.s != "" then CleanChars(v.s) else ""
  }

  /** Cleaning a cleaned id changes nothing. */
  lemma CleanSourceIdIdempotent(v: CellValue)
    ensures CleanSourceId(Str(CleanSourceId(v))) == CleanSourceId(v)
  {
    CleanCharsKeepsIds(CleanSourceId(v));
  }

  /** The id of a row: the cleaned source name and the cleaned action joined
      by a dash. */
  function SourceId(row: Row): (r: string)
    ensures r != ""
    ensures '-' in r
  {
    var id := CleanSourceId(Get(row, "Source_name", Str(""))) + "-" + CleanSourceId(Get(row, "Action", Str("")));
    assert id[|CleanSourceId(Get(row, "Source_name", Str("")))|] == '-';
    id
  }

  /** The position of the first dash. */
  function FirstDash(s: string): (r: nat)
    requires '-' in s
    ensures r < |s| && s[r] == '-'
  {
    if s[0] == '-' then 0 else FirstDash(s[1..])  + 1
  }

  lemma {:induction false} FirstDashAfter(a: string, b: string)
    requires forall i :: 0 <= i < |a| ==> IdChar(a[i])
    ensures FirstDash(a + "-" + b) == |a|
    decreases |a|
  {
    var s := a + "-" + b;
    assert s[|a|] == '-';
    if |a| > 0 {
      assert s[1..] == a[1..] + "-" + b;
      FirstDashAfter(a[1..], b);
    }
  }

  /** The dash is the only one in the id, so the id gives back both parts:
      rows with different cleaned names or actions never share an id. */
  lemma SourceIdParts(a1: string, b1: string, a2: string, b2: string)
    requires forall i :: 0 <= i < |a1| ==> IdChar(a1[i])
    requires forall i :: 0 <= i < |a2| ==> IdChar(a2[i])
    requires a1 + "-" + b1 == a2 + "-" + b2
    ensures a1 == a2 && b1 == b2
  {
    var s := a1 + "-" + b1;
    FirstDashAfter(a1, b1);
    FirstDashAfter(a2, b2);
    assert |a1| == |a2|;
    assert a1 == s[..|a1|] == a2;
    assert b1 == s[|a1| + 1..] == b2;
  }

  /** The rows' different parts give different ids. */
  lemma SourceIdInjective(r1: Row, r2: Row)
    requires SourceId(r1) == SourceId(r2)
    ensures CleanSourceId(Get(r1, "Source_name", Str(""))) == CleanSourceId(Get(r2, "Source_name", Str("")))
    ensures CleanSourceId(Get(r1, "Action", Str(""))) == CleanSourceId(Get(r2, "Action", Str("")))
  {
    SourceIdParts(CleanSourceId(Get(r1, "Source_name", Str(""))), CleanSourceId(Get(r1, "Action", Str(""))),
                  CleanSourceId(Get(r2, "Source_name", Str(""))), CleanSourceId(Get(r2, "Action", Str(""))));
  }

  datatype ParserType = StandardCsv | ExcelParser | ApiParser | HtmlParser {
    function Name(): string {
      match this
      case StandardCsv => "standard_csv"
      case ExcelParser => "excel"
      case ApiParser => "api"
      case HtmlParser => "html"
    }
  }

  /** `determine_parser_type`: lower-case the format and map it to a parser;
      anything unknown reads as standard CSV. */
  function DetermineParserType(format: string): (r: ParserType)
    ensures r == ExcelParser <==> Lower(format) in ["excel", "xlsx", "xls"]
    ensures r == ApiParser <==> Lower(format) == "api"
    ensures r == HtmlParser <==> Lower(format) == "html"
    ensures r == StandardCsv <==> Lower(format) !in ["excel", "xlsx", "xls", "api", "html"]
  {
    var f := Lower(format);
    if f == "csv" then StandardCsv
    else if f in ["excel", "xlsx", "xls"] then ExcelParser
    else if f == "api" then ApiParser
    else if f == "html" then HtmlParser
    else StandardCsv
  }

  /** The parser does not depend on letter case. */
  lemma ParserTypeIgnoresCase(format: string)
    ensures DetermineParserType(format) == DetermineParserType(Lower(format))
  {
    LowerIdempotent(format);
  }

  /** The keys of a source configuration, in the order they are written. */
  const ConfigKeys: seq<string> := ["funder", "action", "source_name", "country", "type", "status", "web_link",
                                    "data_link", "format", "size", "notes", "skip_ssl_verify", "parser"]

  /** For each key of `ConfigKeys`, the spreadsheet column it is read from
      and the default when the row lacks it; `None` for the two derived keys,
      "format" and "parser". */
  const ConfigColumns: seq<Option<(string, CellValue)>> := [
    Some(("Funder", Str(""))), Some(("Action", Str(""))), Some(("Source_name", Str(""))),
    Some(("Country", Str(""))), Some(("Type", Str(""))), Some(("Status", Str("Not started"))),
    Some(("Link to web", Str(""))), Some(("Link to dump", Str(""))), None,
    Some(("Size", Str(""))), Some(("Notes", Str(""))), Some(("skip_ssl_verify", Other("False"))), None]

  /** The configuration values of a row, one per key of `ConfigKeys`: the
      cells with their defaults, the lower-cased format text, and the parser. */
  function ConfigValues(row: Row): (r: seq<CellValue>)
    ensures |r| == |ConfigKeys| == |ConfigColumns|
    ensures forall i :: 0 <= i < |ConfigColumns| && ConfigColumns[i].Some? ==>
      r[i] == Get(row, ConfigColumns[i].value.0, ConfigColumns[i].value.1)
    ensures r[8] == Str(Lower(CellText(Get(row, "Format", Str("")))))
    ensures r[12] == Str(DetermineParserType(r[8].s).Name())
    ensures r[11] == Get(row, "skip_ssl_verify", Other("False"))
    ensures r[5] == Get(row, "Status", Str("Not started"))
  {
    var format := Lower(CellText(Get(row, "Format", Str(""))));
    seq(|ConfigColumns|, i requires 0 <= i < |ConfigColumns| =>
      match ConfigColumns[i]
      case Some((column, default)) => Get(row, column, default)
      case None => if i == 8 then Str(format) else Str(DetermineParserType(format).Name()))
  }

  /** A dictionary from id to configuration values, in insertion order. */
  type Entries = seq<(string, seq<CellValue>)>

  function Ids(entries: Entries): (r: seq<string>)
    ensures |r| == |entries|
    ensures forall i :: 0 <= i < |entries| ==> r[i] == entries[i].0
  {
    seq(|entries|, i requires 0 <= i < |entries| => entries[i].0)
  }

  predicate DistinctIds(entries: Entries) {
    forall i, j :: 0 <= i < j < |entries| ==> entries[i].0 != entries[j].0
  }

  predicate WellSized(entries: Entries) {
    forall i :: 0 <= i < |entries| ==> |entries[i].1| == |ConfigKeys|
  }

  /** `d[id] = values`: a new id is appended, a present id keeps its place
      and gets the new value. */
  function Upsert(entries: Entries, id: string, values: seq<CellValue>): (r: Entries)
    requires DistinctIds(entries)
    ensures DistinctIds(r)
    ensures Ids(r) == if id in Ids(entries) then Ids(entries) else Ids(entries) + [id]
    ensures WellSized(entries) && |values| == |ConfigKeys| ==> WellSized(r)
    ensures exists i :: 0 <= i < |r| && r[i] == (id, values)
    ensures forall i :: 0 <= i < |r| && r[i].0 != id ==> r[i] == entries[i]
  {
    if id in Ids(entries) then
      var r := seq(|entries|, i requires 0 <= i < |entries| => if entries[i].0 == id then (id, values) else entries[i]);
      assert Ids(r) == Ids(entries);
      var k :| 0 <= k < |entries| && Ids(entries)[k] == id;
      assert r[k] == (id, values);
      r
    else
      var r := entries + [(id, values)];
      assert Ids(r) == Ids(entries) + [id];
      assert r[|entries|] == (id, values);
      r
  }

  /** The assignments `d[id] = values` of the first `n` pairs, in order. */
  function Assign(pairs: Entries, n: nat): (r: Entries)
    requires n <= |pairs|
    ensures DistinctIds(r)
    ensures WellSized(pairs) ==> WellSized(r)
  {
    if n == 0 then [] else Upsert(Assign(pairs, n - 1), pairs[n - 1].0, pairs[n - 1].1)
  }

  /** The ids of the dictionary are exactly the assigned ids. */
  lemma {:induction false} AssignIds(pairs: Entries, n: nat)
    requires n <= |pairs|
    ensures forall id :: id in Ids(Assign(pairs, n)) <==> id in Ids(pairs[..n])
  {
    if n > 0 {
      AssignIds(pairs, n - 1);
      UpsertIds(Assign(pairs, n - 1), pairs[n - 1].0, pairs[n - 1].1);
      PrefixIds(pairs, n);
    }
  }

  /** An upsert adds its id to the ids and removes none. */
  lemma UpsertIds(entries: Entries, id: string, values: seq<CellValue>)
    requires DistinctIds(entries)
    ensures forall x :: x in Ids(Upsert(entries, id, values)) <==> x in Ids(entries) || x == id
  {
    var r := Upsert(entries, id, values);
    if id !in Ids(entries) {
      forall x ensures x in Ids(r) <==> x in Ids(entries) || x == id {
        assert Ids(r) == Ids(entries) + [id];
      }
    }
  }

  /** The ids of the first `n` pairs are those of the first `n - 1` and the `n`-th. */
  lemma PrefixIds(pairs: Entries, n: nat)
    requires 0 < n <= |pairs|
    ensures forall x :: x in Ids(pairs[..n]) <==> x in Ids(pairs[..n - 1]) || x == pairs[n - 1].0
  {
    assert Ids(pairs[..n]) == Ids(pairs[..n - 1]) + [pairs[n - 1].0];
  }

  /** For each id the value of the last assignment to it is kept. */
  lemma {:induction false} LastAssignmentWins(pairs: Entries, n: nat, k: nat)
    requires k < n <= |pairs|
    requires forall j :: k < j < n ==> pairs[j].0 != pairs[k].0
    ensures pairs[k] in Assign(pairs, n)
  {
    var r := Assign(pairs, n);
    if k < n - 1 {
      LastAssignmentWins(pairs, n - 1, k);
      var prev := Assign(pairs, n - 1);
      var i :| 0 <= i < |prev| && prev[i] == pairs[k];
      assert Ids(r)[i] == Ids(prev)[i];
      assert r[i] == prev[i];
    }
  }

  /** The id and configuration values of one row. */
  function RowEntry(row: Row): (string, seq<CellValue>) {
    (SourceId(row), ConfigValues(row))
  }

  /** The `sources_dict` built from the rows. */
  function BuildSources(rows: seq<Row>): (r: Entries)
    ensures DistinctIds(r) && WellSized(r)
  {
    var pairs := seq(|rows|, i requires 0 <= i < |rows| => RowEntry(rows[i]));
    assert WellSized(pairs);
    Assign(pairs, |rows|)
  }

  /** Every row's id is a source of the dictionary, and every source is some row's id. */
  lemma BuildSourcesIds(rows: seq<Row>)
    ensures forall id :: id in Ids(BuildSources(rows)) <==> exists k :: 0 <= k < |rows| && SourceId(rows[k]) == id
  {
    var pairs := seq(|rows|, i requires 0 <= i < |rows| => RowEntry(rows[i]));
    AssignIds(pairs, |rows|);
    assert pairs[..|rows|] == pairs;
    forall id ensures id in Ids(pairs) <==> exists k :: 0 <= k < |rows| && SourceId(rows[k]) == id {
      if id in Ids(pairs) {
        var k :| 0 <= k < |rows| && Ids(pairs)[k] == id;
        assert SourceId(rows[k]) == id;
      }
      if exists k :: 0 <= k < |rows| && SourceId(rows[k]) == id {
        var k :| 0 <= k < |rows| && SourceId(rows[k]) == id;
        assert Ids(pairs)[k] == id;
      }
    }
  }

  /** A row with no later row of the same id has its configuration written. */
  lemma LastRowWins(rows: seq<Row>, k: nat)
    requires k < |rows|
    requires forall j :: k < j < |rows| ==> SourceId(rows[j]) != SourceId(rows[k])
    ensures (SourceId(rows[k]), ConfigValues(rows[k])) in BuildSources(rows)
  {
    var pairs := seq(|rows|, i requires 0 <= i < |rows| => RowEntry(rows[i]));
    LastAssignmentWins(pairs, |rows|, k);
  }

  const RequiredColumns: seq<string> := ["Funder", "Source_name", "Country", "Type", "Link to dump", "Format"]

  /** The required columns the file lacks, in the required order. */
  function Missing(required: seq<string>, columns: set<string>): (r: seq<string>)
    ensures |r| <= |required|
    ensures forall c :: c in r <==> c in required && c !in columns
  {
    if |required| == 0 then []
    else (if required[0] in columns then [] else [required[0]]) + Missing(required[1..], columns)
  }

  /** With none of the columns present, every required one is reported, in order. */
  lemma {:induction false} MissingEverything(required: seq<string>)
    ensures Missing(required, {}) == required
  {
    if |required| > 0 {
      MissingEverything(required[1..]);
      assert required == [required[0]] + required[1..];
    }
  }

  /** The text written for one value: empty for `None` and for anything whose
      `str()` is "nan" (an empty cell, but also the literal text "nan"). */
  function EmitValue(v: CellValue): (r: string)
    ensures v.NoneValue? || CellText(v) == "nan" ==> r == ""
    ensures !v.NoneValue? && CellText(v) != "nan" ==> r == CellText(v)
  {
    if v.NoneValue? || CellText(v) == "nan" then "" else CellText(v)
  }

  /** An empty cell and a literal "nan" are written alike. */
  lemma NanTextIsDropped()
    ensures EmitValue(NaNValue) == EmitValue(Str("nan")) == EmitValue(NoneValue) == ""
  {
  }

  function KeyLine(key: string, v: CellValue): string {
    "        \"" + key + "\": \"" + EmitValue(v) + "\","
  }

  /** The block of one source: its opening line, one line per key, the closing line. */
  function EntryLines(id: string, values: seq<CellValue>): (r: seq<string>)
    requires |values| == |ConfigKeys|
    ensures |r| == |ConfigKeys| + 2
    ensures r[0] == "    \"" + id + "\": {" && r[|r| - 1] == "    },"
    ensures forall i :: 0 <= i < |ConfigKeys| ==> r[i + 1] == KeyLine(ConfigKeys[i], values[i])
  {
    ["    \"" + id + "\": {"]
    + seq(|ConfigKeys|, i requires 0 <= i < |ConfigKeys| => KeyLine(ConfigKeys[i], values[i]))
    + ["    },"]
  }

  const HeaderLines: seq<string> := [
    "\"\"\"",
    "Configuration file for data sources in OpenJordi.",
    "This file defines the structure and access information for all grant data sources.",
    "\"\"\"",
    "",
    "# Data sources configuration",
    "DATA_SOURCES = {"]

  const FooterLines: seq<string> := [
    "}",
    "",
    "# Add more data sources as needed",
    "",
    "# Parser definitions - specify how to handle different data formats",
    "PARSER_CONFIGS = {",
    "    \"standard_csv\": {",
    "        \"encoding\": \"utf-8\",",
    "        \"delimiter\": \",\",",
    "        \"quotechar\": '\"',",
    "        \"date_format\": \"%Y-%m-%d\"",
    "    },",
    "    \"excel\": {",
    "        \"sheet_name\": 0,  # Default to first sheet",
    "        \"date_format\": \"%Y-%m-%d\"",
    "    },",
    "    \"api\": {",
    "        \"auth_required\": False,",
    "        \"pagination\": False,",
    "        \"rate_limit\": 60  # requests per minute",
    "    },",
    "    \"html\": {",
    "        \"use_selenium\": False,",
    "        \"wait_time\": 2,",
    "        \"selectors\": {}",
    "    }",
    "}"]

  /** The blocks of all sources, in dictionary order. */
  function EntriesLines(entries: Entries): (r: seq<string>)
    requires WellSized(entries)
    ensures |r| == (|ConfigKeys| + 2) * |entries|
    ensures forall i :: 0 <= i < |entries| ==>
      r[(|ConfigKeys| + 2) * i..(|ConfigKeys| + 2) * (i + 1)] == EntryLines(entries[i].0, entries[i].1)
  {
    if |entries| == 0 then []
    else
      var head := EntryLines(entries[0].0, entries[0].1);
      var rest := EntriesLines(entries[1..]);
      BlocksAfterHead(entries, head, rest);
      head + rest
  }

  /** Putting the first source's block before the blocks of the others puts
      every block in its place. */
  lemma BlocksAfterHead(entries: Entries, head: seq<string>, rest: seq<string>)
    requires |entries| > 0 && WellSized(entries)
    requires head == EntryLines(entries[0].0, entries[0].1)
    requires |rest| == (|ConfigKeys| + 2) * (|entries| - 1)
    requires forall i :: 0 <= i < |entries[1..]| ==>
      rest[(|ConfigKeys| + 2) * i..(|ConfigKeys| + 2) * (i + 1)] == EntryLines(entries[1..][i].0, entries[1..][i].1)
    ensures forall i :: 0 <= i < |entries| ==>
      (head + rest)[(|ConfigKeys| + 2) * i..(|ConfigKeys| + 2) * (i + 1)] == EntryLines(entries[i].0, entries[i].1)
  {
    var w := |ConfigKeys| + 2;
    assert w == 15;
    forall i | 0 <= i < |entries|
      ensures (head + rest)[w * i..w * (i + 1)] == EntryLines(entries[i].0, entries[i].1)
    {
      if i == 0 {
        assert (head + rest)[..w] == head;
      } else {
        assert entries[1..][i - 1] == entries[i];
        SliceAfter(head, rest, w * i, w * (i + 1));
      }
    }
  }

  /** A slice lying past `a` in `a + b` is a slice of `b`. */
  lemma SliceAfter<T>(a: seq<T>, b: seq<T>, i: int, j: int)
    requires |a| <= i <= j <= |a| + |b|
    ensures (a + b)[i..j] == b[i - |a|..j - |a|]
  {
  }

  /** The whole generated module: header, one block per source, footer. */
  function GeneratedLines(entries: Entries): (r: seq<string>)
    requires WellSized(entries)
    ensures |r| == |HeaderLines| + (|ConfigKeys| + 2) * |entries| + |FooterLines|
    ensures r[..|HeaderLines|] == HeaderLines
    ensures r[|r| - |FooterLines|..] == FooterLines
    ensures forall i :: 0 <= i < |entries| ==>
      r[|HeaderLines| + (|ConfigKeys| + 2) * i..|HeaderLines| + (|ConfigKeys| + 2) * (i + 1)] == EntryLines(entries[i].0, entries[i].1)
  {
    var body := EntriesLines(entries);
    var r := HeaderLines + body + FooterLines;
    BlocksAfterHeader(entries, body, r);
    r
  }

  /** Putting the header before the blocks and the footer after them keeps
      every block in its place, shifted by the header's length. */
  lemma BlocksAfterHeader(entries: Entries, body: seq<string>, r: seq<string>)
    requires WellSized(entries)
    requires |body| == (|ConfigKeys| + 2) * |entries|
    requires forall i :: 0 <= i < |entries| ==>
      body[(|ConfigKeys| + 2) * i..(|ConfigKeys| + 2) * (i + 1)] == EntryLines(entries[i].0, entries[i].1)
    requires r == HeaderLines + body + FooterLines
    ensures r[..|HeaderLines|] == HeaderLines
    ensures r[|r| - |FooterLines|..] == FooterLines
    ensures forall i :: 0 <= i < |entries| ==>
      r[|HeaderLines| + (|ConfigKeys| + 2) * i..|HeaderLines| + (|ConfigKeys| + 2) * (i + 1)] == EntryLines(entries[i].0, entries[i].1)
  {
    var w := |ConfigKeys| + 2;
    assert w == 15;
    assert r == HeaderLines + (body + FooterLines);
    forall i | 0 <= i < |entries|
      ensures r[|HeaderLines| + w * i..|HeaderLines| + w * (i + 1)] == EntryLines(entries[i].0, entries[i].1)
    {
      SliceAfter(HeaderLines, body + FooterLines, |HeaderLines| + w * i, |HeaderLines| + w * (i + 1));
      assert (body + FooterLines)[w * i..w * (i + 1)] == body[w * i..w * (i + 1)];
    }
  }

  /** The outcome of `import_sources_from_csv`: no file, missing columns
      (listed), or the lines of the generated module, joined by newlines. */
  datatype ImportResult = CsvNotFound | MissingRequired(columns: seq<string>) | Written(lines: seq<string>)

  /** `import_sources_from_csv`, given whether the file exists, its column
      names and its rows. */
  function ImportSourcesFromCsv(fileExists: bool, columns: set<string>, rows: seq<Row>): (r: ImportResult)
    ensures r == CsvNotFound <==> !fileExists
    ensures r.MissingRequired? <==> fileExists && exists c :: c in RequiredColumns && c !in columns
    ensures r.MissingRequired? ==> r.columns == Missing(RequiredColumns, columns)
    ensures r.Written? ==> r.lines == GeneratedLines(BuildSources(rows))
  {
    if !fileExists then CsvNotFound
    else
      var missing := Missing(RequiredColumns, columns);
      if |missing| > 0 then
        assert missing[0] in missing;
        MissingRequired(missing)
      else
        assert forall c :: c !in missing;
        Written(GeneratedLines(BuildSources(rows)))
  }
}
