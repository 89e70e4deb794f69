/** The handful of Python `str` operations the pipeline relies on, over
    `string` = `seq<char>`: whitespace stripping, prefix and suffix tests,
    ASCII lower-casing, and splitting/joining on a one-character separator. */
module Text {

  /** `str.isspace` on ASCII: space, the controls \t \n \v \f \r, and the
      information separators \x1c-\x1f. */
  predicate IsSpace(c: char) {
    c == ' ' || ('\t' <= c <= '\r') || ('\U{1C}' <= c <= '\U{1F}')
  }

  /** `str.isalnum` on ASCII. */
  predicate IsAlnum(c: char) {
    ('a' <= c <= 'z') || ('A' <= c <= 'Z') || ('0' <= c <= '9')
  }

  predicate AllSpace(s: string) {
    forall i :: 0 <= i < |s| ==> IsSpace(s[i])
  }

  /** Neither end of `s` is whitespace: the shape `str.strip()` leaves behind. */
  predicate Trimmed(s: string) {
    |s| == 0 || (!IsSpace(s[0]) && !IsSpace(s[|s| - 1]))
  }

  predicate StartsWith(s: string, p: string) {
    |p| <= |s| && s[..|p|] == p
  }

  predicate EndsWith(s: string, p: string) {
    |p| <= |s| && s[|s| - |p|..] == p
  }

  /** `s.lstrip()`: a suffix of `s` preceded only by whitespace. */
  function TrimLeft(s: string): (r: string)
    ensures |r| <= |s| && r == s[|s| - |r|..]
    ensures AllSpace(s[..|s| - |r|])
    ensures |r| > 0 ==> !IsSpace(r[0])
  {
    if |s| > 0 && IsSpace(s[0]) then TrimLeft(s[1..]) else s
  }

  /** `s.rstrip()`: a prefix of `s` followed only by whitespace. */
  function TrimRight(s: string): (r: string)
    ensures |r| <= |s| && r == s[..|r|]
    ensures AllSpace(s[|r|..])
    ensures |r| > 0 ==> !IsSpace(r[|r| - 1])
    ensures |s| > 0 && !IsSpace(s[0]) ==> |r| > 0
  {
    if |s| > 0 && IsSpace(s[|s| - 1]) then TrimRight(s[..|s| - 1]) else s
  }

  /** How many whitespace characters `s.lstrip()` removes. */
  function Lead(s: string): (k: nat)
    ensures k <= |s|
  {
    |s| - |TrimLeft(s)|
  }

  /** `r` is the slice of `s` at `k` with only whitespace around it, and
      neither end of `r` is whitespace. */
  predicate StrippedAt(s: string, k: nat, r: string) {
    && k + |r| <= |s|
    && r == s[k..k + |r|]
    && AllSpace(s[..k])
    && AllSpace(s[k + |r|..])
    && Trimmed(r)
  }

  /** `s.strip()`: the slice of `s` left once the whitespace at both ends is cut. */
  function Strip(s: string): (r: string)
    ensures StrippedAt(s, Lead(s), r)
  {
    StripShape(s, Lead(s), TrimLeft(s), TrimRight(TrimLeft(s)));
    TrimRight(TrimLeft(s))
  }

  /** Cutting the whitespace of the suffix `l == s[k..]` at its end leaves a
      trimmed slice of `s` at `k` followed only by whitespace. */
  lemma StripShape(s: string, k: nat, l: string, r: string)
    requires k <= |s| && l == s[k..]
    requires |l| > 0 ==> !IsSpace(l[0])
    requires |r| <= |l| && r == l[..|r|]
    requires AllSpace(l[|r|..])
    requires |r| > 0 ==> !IsSpace(r[|r| - 1])
    requires AllSpace(s[..k])
    ensures StrippedAt(s, k, r)
  {
    assert |r| > 0 ==> r[0] == l[0];
    assert s[k + |r|..] == l[|r|..];
  }

  lemma {:induction false} TrimLeftPadded(a: string, u: string)
    requires AllSpace(a)
    requires |u| == 0 || !IsSpace(u[0])
    ensures TrimLeft(a + u) == u
    decreases |a|
  {
    if |a| > 0 {
      assert (a + u)[1..] == a[1..] + u;
      TrimLeftPadded(a[1..], u);
    } else {
      assert a + u == u;
    }
  }

  lemma {:induction false} TrimRightPadded(u: string, b: string)
    requires AllSpace(b)
    requires |u| == 0 || !IsSpace(u[|u| - 1])
    ensures TrimRight(u + b) == u
    decreases |b|
  {
    if |b| > 0 {
      assert (u + b)[..|u + b| - 1] == u + b[..|b| - 1];
      TrimRightPadded(u, b[..|b| - 1]);
    } else {
      assert u + b == u;
    }
  }

  /** Stripping undoes any whitespace padding around an already trimmed text. */
  lemma StripPadded(a: string, t: string, b: string)
    requires AllSpace(a) && AllSpace(b) && Trimmed(t)
    ensures Strip(a + t + b) == t
  {
    if |t| == 0 {
      assert a + t + b == a + b;
      TrimLeftPadded(a + b, "");
      assert a + b + "" == a + b;
    } else {
      assert a + t + b == a + (t + b);
      TrimLeftPadded(a, t + b);
      TrimRightPadded(t, b);
    }
  }

  /** Stripping a trimmed text changes nothing. */
  lemma StripTrimmed(t: string)
    requires Trimmed(t)
    ensures Strip(t) == t
  {
    StripPadded("", t, "");
    assert "" + t + "" == t;
  }

  /** `s.strip()` is empty exactly when `s` is all whitespace. */
  lemma StripEmptyIff(s: string)
    ensures Strip(s) == "" <==> AllSpace(s)
  {
    if AllSpace(s) {
      StripPadded(s, "", "");
      assert s + "" + "" == s;
    } else {
      assert s[..|s|] == s;
      assert |TrimLeft(s)| > 0;
    }
  }

  function LowerChar(c: char): char {
    if 'A' <= c <= 'Z' then (c as int + 32) as char else c
  }

  /** `str.lower()` on ASCII: every upper-case letter replaced by its lower-case
      partner, every other character kept in place. */
  function Lower(s: string): (r: string)
    ensures |r| == |s|
    ensures forall i :: 0 <= i < |s| ==> r[i] == LowerChar(s[i])
    ensures forall i :: 0 <= i < |r| ==> !('A' <= r[i] <= 'Z')
  {
    if |s| == 0 then "" else [LowerChar(s[0])] + Lower(s[1..])
  }

  lemma LowerIdempotent(s: string)
    ensures Lower(Lower(s)) == Lower(s)
  {
  }

  /** `sep.join(parts)` for a one-character separator. */
  function Join(parts: seq<string>, d: char): string {
    if |parts| == 0 then ""
    else if |parts| == 1 then parts[0]
    else parts[0] + [d] + Join(parts[1..], d)
  }

  /** `s.split(d)` for a one-character separator: never empty, no part holds the
      separator, and joining the parts back gives `s`. */
  function Split(s: string, d: char): (r: seq<string>)
    ensures |r| >= 1
    ensures forall i :: 0 <= i < |r| ==> d !in r[i]
    ensures Join(r, d) == s
  {
    if |s| == 0 then [""]
    else
      var rest := Split(s[1..], d);
      if s[0] == d then
        assert [s[0]] + s[1..] == s;
        [""] + rest
      else
        assert [s[0]] + s[1..] == s;
        [[s[0]] + rest[0]] + rest[1..]
  }

  lemma {:induction false} SplitPrefix(p: string, s: string, d: char)
    requires d !in p
    ensures Split(p + s, d) == [p + Split(s, d)[0]] + Split(s, d)[1..]
    decreases |p|
  {
    if |p| == 0 {
      assert p + s == s;
      assert p + Split(s, d)[0] == Split(s, d)[0];
    } else {
      assert (p + s)[1..] == p[1..] + s;
      SplitPrefix(p[1..], s, d);
      assert [p[0]] + (p[1..] + Split(s, d)[0]) == p + Split(s, d)[0];
    }
  }

  /** Splitting undoes joining when no part contains the separator. */
  lemma {:induction false} SplitJoin(parts: seq<string>, d: char)
    requires |parts| >= 1
    requires forall i :: 0 <= i < |parts| ==> d !in parts[i]
    ensures Split(Join(parts, d), d) == parts
    decreases |parts|
  {
    if |parts| == 1 {
      SplitPrefix(parts[0], "", d);
      assert parts[0] + "" == parts[0];
    } else {
      var tail := Join(parts[1..], d);
      SplitJoin(parts[1..], d);
      assert Split([d] + tail, d) == [""] + parts[1..] by {
        assert ([d] + tail)[1..] == tail;
      }
      assert Join(parts, d) == parts[0] + ([d] + tail);
      SplitPrefix(parts[0], [d] + tail, d);
      assert parts[0] + "" == parts[0];
      assert parts == [parts[0]] + parts[1..];
    }
  }
}
