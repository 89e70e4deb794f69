/** The column renaming of the dataset-name mapping script: investigator
    names split on a space, then a fold over the mapping dictionary that
    writes each ontology field at most once, from the first mapping entry
    whose source column the frame has. Only column provenance is modelled:
    the renamed frame is the list of (new column, source column) pairs in
    the order the columns are created. */
module Rename {
  import opened Wrappers
  import opened Text

  /** The result of `extract_investigator_names`. */
  datatype Names = Names(given: Option<string>, family: Option<string>)

  /** A string with more than one space-separated part contains a space. */
  lemma SplitManyIff(s: string, d: char)
    ensures |Split(s, d)| > 1 <==> d in s
  {
    var r := Split(s, d);
    if |r| > 1 {
      assert s == r[0] + [d] + Join(r[1..], d);
      assert s[|r[0]|] == d;
    } else {
      assert s == r[0];
    }
  }

  /** `extract_investigator_names`: the first two space-separated parts as
      given and family name, or no names when the text has no space. */
  function ExtractInvestigatorNames(s: string): (r: Names)
    ensures r.given.Some? <==> ' ' in s
    ensures r.given.Some? <==> r.family.Some?
    ensures r.given.Some? ==> ' ' !in r.given.value && StartsWith(s, r.given.value + " " + r.family.value)
    ensures r.family.Some? ==> ' ' !in r.family.value
    ensures r.given.Some? ==>
      var n := |r.given.value| + 1 + |r.family.value|;
      n == |s| || (n < |s| && s[n] == ' ')
  {
    var parts := Split(s, ' ');
    SplitManyIff(s, ' ');
    if |parts| > 1 then
      SplitPrefixJoin(parts);
      Names(Some(parts[0]), Some(parts[1]))
    else
      Names(None, None)
  }

  /** The first two parts, with their separator, begin the joined text. */
  lemma SplitPrefixJoin(parts: seq<string>)
    requires |parts| > 1
    ensures StartsWith(Join(parts, ' '), parts[0] + " " + parts[1])
    ensures |parts| == 2 ==> |Join(parts, ' ')| == |parts[0]| + 1 + |parts[1]|
    ensures |parts| > 2 ==> |Join(parts, ' ')| > |parts[0]| + 1 + |parts[1]| && Join(parts, ' ')[|parts[0]| + 1 + |parts[1]|] == ' '
  {
    var tail := Join(parts[2..], ' ');
    assert parts[1..][1..] == parts[2..];
    if |parts| == 2 {
      assert Join(parts, ' ') == parts[0] + " " + parts[1];
    } else {
      assert Join(parts, ' ') == parts[0] + " " + parts[1] + (" " + tail);
    }
  }

  /** A "Given Family" name with one space gives back both names. */
  lemma NamesRoundTrip(given: string, family: string)
    requires ' ' !in given && ' ' !in family
    ensures ExtractInvestigatorNames(given + " " + family) == Names(Some(given), Some(family))
  {
    SplitJoin([given, family], ' ');
    assert Join([given, family], ' ') == given + " " + family by {
      assert [given, family][1..] == [family];
    }
  }

  /** A value of the mapping dictionary: a new column name, or a dictionary
      from sub-column to new column name. */
  datatype Target = Simple(field: string) | Nested(subs: seq<(string, string)>)

  /** `mapping_dict`, in insertion order. */
  const MappingDict: seq<(string, Target)> := [
    ("Research Project Title", Simple("project_title")),
    ("Project Title (English)", Simple("project_title")),
    ("Project/Area Number", Simple("grant_id")),
    ("Project Period (FY)", Nested([("start_date", "start_date"), ("end_date", "end_date")])),
    ("Principal Investigator", Nested([("given_name", "investigator_given_name"),
                                       ("family_name", "investigator_family_name")])),
    ("Research Institution", Simple("organization_name")),
    ("Total Cost (Overall)", Simple("amount")),
    ("Keywords", Simple("project_description"))]

  /** The (source column, new column) pairs the fold visits, in order: a
      simple entry reads its own key, a nested entry reads each sub-column. */
  function Flatten(entries: seq<(string, Target)>): seq<(string, string)> {
    if |entries| == 0 then []
    else
      (match entries[0].1
       case Simple(f) => [(entries[0].0, f)]
       case Nested(subs) => subs)
      + Flatten(entries[1..])
  }

  /** The renaming fold: a pair writes its new column from its source column
      when the frame has the source column and the new column is not marked;
      the new column is then marked. */
  function Fold(pairs: seq<(string, string)>, columns: set<string>, marked: set<string>): (r: seq<(string, string)>)
    ensures forall i :: 0 <= i < |r| ==> r[i].0 !in marked && r[i].1 in columns
    ensures forall i, j :: 0 <= i < j < |r| ==> r[i].0 != r[j].0
    ensures forall i :: 0 <= i < |r| ==> (r[i].1, r[i].0) in pairs
  {
    if |pairs| == 0 then []
    else
      var rest := Fold(pairs[1..], columns, marked + {pairs[0].1});
      var skip := Fold(pairs[1..], columns, marked);
      if pairs[0].0 in columns && pairs[0].1 !in marked then
        assert forall i :: 0 <= i < |rest| ==> (rest[i].1, rest[i].0) in pairs by {
          forall i | 0 <= i < |rest| ensures (rest[i].1, rest[i].0) in pairs {
            assert (rest[i].1, rest[i].0) in pairs[1..];
          }
        }
        [(pairs[0].1, pairs[0].0)] + rest
      else
        assert forall i :: 0 <= i < |skip| ==> (skip[i].1, skip[i].0) in pairs by {
          forall i | 0 <= i < |skip| ensures (skip[i].1, skip[i].0) in pairs {
            assert (skip[i].1, skip[i].0) in pairs[1..];
          }
        }
        skip
  }

  /** Reference: the source column of the first pair that targets `target`
      and whose source column the frame has. */
  function FirstPresent(pairs: seq<(string, string)>, columns: set<string>, target: string): Option<string> {
    if |pairs| == 0 then None
    else if pairs[0].1 == target && pairs[0].0 in columns then Some(pairs[0].0)
    else FirstPresent(pairs[1..], columns, target)
  }

  /** First writer wins: a column is written exactly when it was not marked
      beforehand, and then from the first present source column that targets it. */
  lemma {:induction false} FoldFirstWriterWins(pairs: seq<(string, string)>, columns: set<string>, marked: set<string>,
                                              target: string, source: string)
    ensures (target, source) in Fold(pairs, columns, marked)
        <==> target !in marked && FirstPresent(pairs, columns, target) == Some(source)
    decreases |pairs|
  {
    if |pairs| > 0 {
      var p := pairs[0];
      if p.0 in columns && p.1 !in marked {
        FoldFirstWriterWins(pairs[1..], columns, marked + {p.1}, target, source);
        var rest := Fold(pairs[1..], columns, marked + {p.1});
        assert Fold(pairs, columns, marked) == [(p.1, p.0)] + rest;
        if target == p.1 {
          assert (target, source) !in rest;
        }
      } else {
        FoldFirstWriterWins(pairs[1..], columns, marked, target, source);
        if target == p.1 && p.0 in columns {
          assert (target, source) !in Fold(pairs, columns, marked);
        }
      }
    }
  }

  /** The pairs whose source column the frame has. */
  function Present(pairs: seq<(string, string)>, columns: set<string>): (r: seq<(string, string)>)
    ensures forall i :: 0 <= i < |r| ==> r[i].0 in columns && r[i] in pairs
  {
    if |pairs| == 0 then []
    else (if pairs[0].0 in columns then [pairs[0]] else []) + Present(pairs[1..], columns)
  }

  /** Entries whose source column is absent contribute nothing. */
  lemma {:induction false} AbsentColumnsIgnored(pairs: seq<(string, string)>, columns: set<string>, marked: set<string>)
    ensures Fold(pairs, columns, marked) == Fold(Present(pairs, columns), columns, marked)
    decreases |pairs|
  {
    if |pairs| > 0 {
      var p := pairs[0];
      var q := Present(pairs, columns);
      var tail := Present(pairs[1..], columns);
      if p.0 in columns {
        assert q == [p] + tail;
        assert q[0] == p && q[1..] == tail;
        if p.1 in marked {
          AbsentColumnsIgnored(pairs[1..], columns, marked);
        } else {
          AbsentColumnsIgnored(pairs[1..], columns, marked + {p.1});
        }
      } else {
        assert q == tail;
        AbsentColumnsIgnored(pairs[1..], columns, marked);
      }
    }
  }

  /** The new columns marked before the fold: the date pair when the period
      column exists, the investigator pair when the investigator column exists. */
  function Premarked(columns: set<string>): set<string> {
    (if "Project Period (FY)" in columns then {"start_date", "end_date"} else {})
    + (if "Principal Investigator" in columns then {"investigator_given_name", "investigator_family_name"} else {})
  }

  /** The frame's columns once the date and investigator columns are added. */
  function PreparedColumns(columns: set<string>): set<string> {
    columns + Premarked(columns)
  }

  /** `apply_and_rename` on a frame with the given columns: the columns of
      the renamed frame with the column each was copied from. */
  function ApplyAndRename(columns: set<string>): (r: seq<(string, string)>)
    ensures forall i, j :: 0 <= i < j < |r| ==> r[i].0 != r[j].0
    ensures forall i :: 0 <= i < |r| ==> r[i].0 !in Premarked(columns) && r[i].1 in PreparedColumns(columns)
  {
    Fold(Flatten(MappingDict), PreparedColumns(columns), Premarked(columns))
  }

  /** The renamed frame, column by column, against the first-present reference. */
  lemma ApplyAndRenameSpec(columns: set<string>, target: string, source: string)
    ensures (target, source) in ApplyAndRename(columns)
        <==> (target !in Premarked(columns)
              && FirstPresent(Flatten(MappingDict), PreparedColumns(columns), target) == Some(source))
  {
    FoldFirstWriterWins(Flatten(MappingDict), PreparedColumns(columns), Premarked(columns), target, source);
  }

  /** "Research Project Title" beats "Project Title (English)" for `project_title`. */
  lemma ResearchTitleWins(columns: set<string>)
    requires "Research Project Title" in columns
    ensures ("project_title", "Research Project Title") in ApplyAndRename(columns)
  {
    ApplyAndRenameSpec(columns, "project_title", "Research Project Title");
  }

  /** With a period column, the renamed frame has no date columns: they are
      marked before the fold and were added to the working frame only. */
  lemma PeriodDropsDates(columns: set<string>, source: string)
    requires "Project Period (FY)" in columns
    ensures ("start_date", source) !in ApplyAndRename(columns)
    ensures ("end_date", source) !in ApplyAndRename(columns)
  {
  }
}
