/**
 * The issue-form parser (`parseIssueBody`). Each field is taken from the
 * first place where its heading is followed by at least one white-space
 * character: the white space is skipped, the text runs up to the next
 * `###` or the end of the body, and is trimmed. The regular expression
 * `### Heading\s+([\s\S]*?)(?=###|$)` is written out as an explicit scan.
 */
module IssueBody {
  import opened Wrappers
  import opened Text

  /** The five form fields, paired with the heading that introduces each, in the order they are filled. */
  const FieldTable: seq<(string, string)> := [
    ("context", "### Context"),
    ("decision", "### Decision"),
    ("consequences", "### Consequences"),
    ("alternatives", "### Alternatives Considered"),
    ("references", "### References")
  ]

  const FieldNames: set<string> := {"context", "decision", "consequences", "alternatives", "references"}

  /** A `###` begins at index `k` of `s`. */
  predicate MarkerAt(s: string, k: nat) {
    k + 3 <= |s| && s[k] == '#' && s[k + 1] == '#' && s[k + 2] == '#'
  }

  predicate ContainsMarker(s: string) {
    exists k: nat :: k < |s| && MarkerAt(s, k)
  }

  /** `heading\s` matches at index `i`: the heading, then one white-space character. */
  predicate HeadingAt(s: string, heading: string, i: nat) {
    i + |heading| < |s| && SpellsAt(s, heading, i, 0) && IsSpace(s[i + |heading|])
  }

  /** `s` spells `heading[k..]` from index `i + k` on. */
  predicate SpellsAt(s: string, heading: string, i: nat, k: nat)
    requires i + |heading| <= |s| && k <= |heading|
    decreases |heading| - k
  {
    k == |heading| || (s[i + k] == heading[k] && SpellsAt(s, heading, i, k + 1))
  }

  /** The recursive spelling check is the slice comparison `s[i..i + |heading|] == heading`. */
  lemma {:induction false} SpellsAtIsSlice(s: string, heading: string, i: nat, k: nat)
    requires i + |heading| <= |s| && k <= |heading|
    ensures SpellsAt(s, heading, i, k) <==> s[i + k..i + |heading|] == heading[k..]
    decreases |heading| - k
  {
    if k < |heading| {
      SpellsAtIsSlice(s, heading, i, k + 1);
      assert s[i + k..i + |heading|] == [s[i + k]] + s[i + k + 1..i + |heading|];
      assert heading[k..] == [heading[k]] + heading[k + 1..];
    }
  }

  /** The leftmost index at or after `from` where the heading matches, if any. */
  function FindHeading(s: string, heading: string, from: nat): (r: Option<nat>)
    ensures r.Some? ==> from <= r.value && r.value + |heading| < |s|
    decreases |s| - from
  {
    if from + |heading| >= |s| then None
    else if HeadingAt(s, heading, from) then Some(from)
    else FindHeading(s, heading, from + 1)
  }

  /** `FindHeading` finds the leftmost match, and reports none only when there is none. */
  lemma {:induction false} FindHeadingFound(s: string, heading: string, from: nat)
    ensures FindHeading(s, heading, from).Some? ==>
      var i := FindHeading(s, heading, from).value;
      HeadingAt(s, heading, i) && forall j: nat :: from <= j < i ==> !HeadingAt(s, heading, j)
    ensures FindHeading(s, heading, from).None? ==> forall j: nat :: from <= j ==> !HeadingAt(s, heading, j)
    decreases |s| - from
  {
    if from + |heading| < |s| && !HeadingAt(s, heading, from) {
      FindHeadingFound(s, heading, from + 1);
    }
  }

  /** The lookahead `(?=###|$)`: the first index at or after `k` where `###` begins, or the end. */
  function FindMarker(s: string, k: nat): (r: nat)
    requires k <= |s|
    ensures k <= r <= |s|
    decreases |s| - k
  {
    if k >= |s| || MarkerAt(s, k) then k else FindMarker(s, k + 1)
  }

  /** `FindMarker` stops at the first `###`, or at the end when there is none. */
  lemma {:induction false} FindMarkerStops(s: string, k: nat)
    requires k <= |s|
    ensures FindMarker(s, k) < |s| ==> MarkerAt(s, FindMarker(s, k))
    ensures forall j: nat :: k <= j < FindMarker(s, k) ==> !MarkerAt(s, j)
    decreases |s| - k
  {
    if k < |s| && !MarkerAt(s, k) {
      FindMarkerStops(s, k + 1);
    }
  }

  /** The trimmed text of the field a heading introduces, or `""` when the heading never matches. */
  function ExtractField(body: string, heading: string): string
  {
    match FindHeading(body, heading, 0)
    case None => ""
    case Some(i) => Capture(body, i + |heading|)
  }

  /** The capture group, trimmed: from the end of the white-space run at `k` to the next `###` or the end. */
  function Capture(body: string, k: nat): string
    requires k <= |body|
  {
    var a := SkipSpace(body, k);
    Trim(body[a..FindMarker(body, a)])
  }

  /** Unfolds `ExtractField` once the first match is known. */
  lemma {:induction false} ExtractAt(body: string, heading: string, i: nat)
    requires FindHeading(body, heading, 0) == Some(i)
    ensures i + |heading| <= |body|
    ensures ExtractField(body, heading) == Capture(body, i + |heading|)
  {
    var k := FindHeading(body, heading, 0).value + |heading|;
    assert k == i + |heading|;
    assert ExtractField(body, heading) == Capture(body, k);
  }

  /** Every field is trimmed and, since its capture stops at the first `###`, holds none. */
  lemma {:induction false} FieldShape(body: string, heading: string)
    ensures IsTrimmed(ExtractField(body, heading))
    ensures !ContainsMarker(ExtractField(body, heading))
  {
    match FindHeading(body, heading, 0)
    case None =>
    case Some(i) =>
      ExtractAt(body, heading, i);
      var a := SkipSpace(body, i + |heading|);
      var b := FindMarker(body, a);
      FindMarkerStops(body, a);
      TrimIsTrimmed(body[a..b]);
      CaptureHasNoMarker(body, a, b);
  }

  /** The trimmed capture `s[a..b]` holds no `###`, because the capture stops at the first one. */
  lemma {:induction false} CaptureHasNoMarker(s: string, a: nat, b: nat)
    requires a <= b <= |s| && forall j: nat :: a <= j < b ==> !MarkerAt(s, j)
    ensures !ContainsMarker(Trim(s[a..b]))
  {
    var t := s[a..b];
    SliceHasNoMarker(s, a, b - a);
    var i := SkipSpace(t, 0);
    var e := SkipSpaceBack(t, i, |t|);
    SliceHasNoMarker(t, i, e - i);
  }

  /** A slice that starts no `###` inside it holds none. */
  lemma {:induction false} SliceHasNoMarker(s: string, i: nat, n: nat)
    requires i + n <= |s| && forall j: nat :: i <= j < i + n ==> !MarkerAt(s, j)
    ensures !ContainsMarker(s[i..i + n])
  {
    var t := s[i..i + n];
    forall k: nat | k < |t| && MarkerAt(t, k) ensures false {
      assert MarkerAt(s, i + k);
    }
  }

  /** A heading that never matches yields the empty field. */
  lemma {:induction false} AbsentHeadingGivesEmpty(body: string, heading: string)
    requires forall j: nat :: !HeadingAt(body, heading, j)
    ensures ExtractField(body, heading) == ""
  {
    FindHeadingFound(body, heading, 0);
  }

  /**
   * A heading that matches first at `i` yields the trimmed text between the
   * white space after it and the next `###` (or the end).
   */
  lemma {:induction false} FirstMatchGivesField(body: string, heading: string, i: nat, b: nat)
    requires HeadingAt(body, heading, i)
    requires forall j: nat :: j < i ==> !HeadingAt(body, heading, j)
    requires i + |heading| < b <= |body|
    requires b < |body| ==> MarkerAt(body, b)
    requires forall j: nat :: i + |heading| <= j < b ==> !MarkerAt(body, j)
    ensures ExtractField(body, heading) == Trim(body[i + |heading|..b])
  {
    FindHeadingFound(body, heading, 0);
    ExtractAt(body, heading, i);
    CaptureUpTo(body, i + |heading|, b);
  }

  /** The capture from `k` ends at the first `###` at or after `k`, or at the end. */
  lemma {:induction false} CaptureUpTo(body: string, k: nat, b: nat)
    requires k < b <= |body|
    requires b < |body| ==> MarkerAt(body, b)
    requires forall j: nat :: k <= j < b ==> !MarkerAt(body, j)
    ensures Capture(body, k) == Trim(body[k..b])
  {
    var a := SkipSpace(body, k);
    SkipSpaceStops(body, k);
    assert a <= b by {
      if b < |body| {
        MarkerIsNotSpace(body, b);
      }
    }
    FindMarkerStops(body, a);
    assert FindMarker(body, a) == b;
    TrimSkipsPrefix(body, k, a, b);
  }

  lemma {:induction false} MarkerIsNotSpace(s: string, k: nat)
    requires MarkerAt(s, k)
    ensures !IsSpace(s[k])
  {
  }

  /** Trimming a capture does not depend on how much of its leading white space was skipped before. */
  lemma {:induction false} TrimSkipsPrefix(s: string, k: nat, a: nat, b: nat)
    requires k <= a <= b <= |s|
    requires forall j :: k <= j < a ==> IsSpace(s[j])
    ensures Trim(s[k..b]) == Trim(s[a..b])
  {
    var t := s[a..b];
    var i := SkipSpace(t, 0);
    var e := SkipSpaceBack(t, i, |t|);
    SkipSpaceStops(t, 0);
    SkipSpaceBackStops(t, i, |t|);
    TrimIsTrimmed(t);
    var u := s[k..b];
    assert u[a - k + i..a - k + e] == t[i..e];
    forall j | 0 <= j < a - k + i ensures IsSpace(u[j]) {
      if j >= a - k { assert u[j] == t[j - (a - k)]; }
    }
    forall j | a - k + e <= j < |u| ensures IsSpace(u[j]) {
      assert u[j] == t[j - (a - k)];
    }
    TrimUnique(u, a - k + i, a - k + e);
  }

  /**
   * Later text does not change a field whose section is already closed by a
   * `###`: text appended after it, further copies of the heading included,
   * is ignored, because only the first match counts.
   */
  lemma {:induction false} LaterTextIgnored(a: string, b: string, heading: string, i: nat, k: nat)
    requires HeadingAt(a, heading, i) && MarkerAt(a, k) && i + |heading| < k
    ensures ExtractField(a + b, heading) == ExtractField(a, heading)
  {
    var s := a + b;
    assert a == s[..|a|];
    FindHeadingFound(a, heading, 0);
    var i0 := FindHeading(a, heading, 0).value;
    FirstHeadingOnPrefix(a, s, heading);
    ExtractAt(a, heading, i0);
    ExtractAt(s, heading, i0);
    CaptureOnPrefix(a, s, i0 + |heading|, k);
  }

  /** A heading that already matches in `a` is found at the same place in any extension of `a`. */
  lemma {:induction false} FirstHeadingOnPrefix(a: string, s: string, heading: string)
    requires |a| <= |s| && a == s[..|a|] && FindHeading(a, heading, 0).Some?
    ensures FindHeading(s, heading, 0) == FindHeading(a, heading, 0)
  {
    FindHeadingFound(a, heading, 0);
    var i0 := FindHeading(a, heading, 0).value;
    forall j: nat | j <= i0 ensures HeadingAt(s, heading, j) == HeadingAt(a, heading, j) {
      HeadingAtPrefix(a, s, heading, j);
    }
    FindHeadingFound(s, heading, 0);
  }

  /** A capture that meets a `###` inside `a` is the same in any extension of `a`. */
  lemma {:induction false} CaptureOnPrefix(a: string, s: string, h: nat, k: nat)
    requires |a| <= |s| && a == s[..|a|] && h <= k && MarkerAt(a, k)
    ensures Capture(s, h) == Capture(a, h)
  {
    var st := SkipSpace(a, h);
    SkipSpaceStops(a, h);
    assert st <= k by {
      MarkerIsNotSpace(a, k);
    }
    forall j | h <= j <= st ensures s[j] == a[j] { }
    SkipSpaceTo(s, h, st);
    var e := FindMarker(a, st);
    FindMarkerStops(a, st);
    assert e <= k;
    forall j: nat | st <= j <= e ensures MarkerAt(s, j) == MarkerAt(a, j) {
      MarkerAtPrefix(a, s, j);
    }
    FindMarkerTo(s, st, e);
    assert s[st..e] == a[st..e];
  }

  lemma {:induction false} MarkerAtPrefix(a: string, s: string, j: nat)
    requires |a| <= |s| && a == s[..|a|] && j + 3 <= |a|
    ensures MarkerAt(s, j) == MarkerAt(a, j)
  {
    assert s[j] == a[j] && s[j + 1] == a[j + 1] && s[j + 2] == a[j + 2];
  }

  /** Whether the heading matches at `j` depends only on the text up to the white space after it. */
  lemma {:induction false} HeadingAtPrefix(a: string, s: string, heading: string, j: nat)
    requires |a| <= |s| && a == s[..|a|] && j + |heading| < |a|
    ensures HeadingAt(s, heading, j) == HeadingAt(a, heading, j)
  {
    SpellsAtPrefix(a, s, heading, j, 0);
    assert s[j + |heading|] == a[j + |heading|];
  }

  lemma {:induction false} SpellsAtPrefix(a: string, s: string, heading: string, j: nat, k: nat)
    requires |a| <= |s| && a == s[..|a|] && j + |heading| <= |a| && k <= |heading|
    ensures SpellsAt(s, heading, j, k) == SpellsAt(a, heading, j, k)
    decreases |heading| - k
  {
    if k < |heading| {
      assert s[j + k] == a[j + k];
      SpellsAtPrefix(a, s, heading, j, k + 1);
    }
  }

  /** A `###` at `e`, and none from `k` up to it, is where `FindMarker` stops. */
  lemma {:induction false} FindMarkerTo(s: string, k: nat, e: nat)
    requires k <= e && MarkerAt(s, e)
    requires forall j: nat :: k <= j < e ==> !MarkerAt(s, j)
    ensures FindMarker(s, k) == e
    decreases e - k
  {
    if k < e {
      assert !MarkerAt(s, k);
      FindMarkerTo(s, k + 1, e);
    }
  }

  /** The record the loop in `parseIssueBody` has built after handling the entries of `table`. */
  function FillFields(body: string, table: seq<(string, string)>): map<string, string>
  {
    if table == [] then map[]
    else
      var last := table[|table| - 1];
      FillFields(body, table[..|table| - 1])[last.0 := ExtractField(body, last.1)]
  }

  /** The loop over the five table entries, unrolled. */
  lemma {:induction false} FillFieldTable(body: string)
    ensures FillFields(body, FieldTable) == map[
      "context" := ExtractField(body, "### Context"),
      "decision" := ExtractField(body, "### Decision"),
      "consequences" := ExtractField(body, "### Consequences"),
      "alternatives" := ExtractField(body, "### Alternatives Considered"),
      "references" := ExtractField(body, "### References")]
  {
    var t := FieldTable;
    assert t[..1][..0] == [];
    assert FillFields(body, t[..1]) == map["context" := ExtractField(body, "### Context")];
    assert t[..2][..1] == t[..1];
    assert FillFields(body, t[..2]) == FillFields(body, t[..1])["decision" := ExtractField(body, "### Decision")];
    assert t[..3][..2] == t[..2];
    assert FillFields(body, t[..3]) == FillFields(body, t[..2])["consequences" := ExtractField(body, "### Consequences")];
    assert t[..4][..3] == t[..3];
    assert FillFields(body, t[..4]) == FillFields(body, t[..3])["alternatives" := ExtractField(body, "### Alternatives Considered")];
    assert t[..|t| - 1] == t[..4];
  }

  /** The record `parseIssueBody` returns: exactly the five keys, each holding the field its heading introduces. */
  function ParsedFields(body: string): (m: map<string, string>)
    ensures m.Keys == FieldNames
    ensures m["context"] == ExtractField(body, "### Context")
    ensures m["decision"] == ExtractField(body, "### Decision")
    ensures m["consequences"] == ExtractField(body, "### Consequences")
    ensures m["alternatives"] == ExtractField(body, "### Alternatives Considered")
    ensures m["references"] == ExtractField(body, "### References")
  {
    FillFieldTable(body);
    FillFields(body, FieldTable)
  }

  /** Every value of the record is trimmed and holds no `###`. */
  lemma {:induction false} ParsedFieldsClean(body: string)
    ensures forall name :: name in ParsedFields(body) ==>
      IsTrimmed(ParsedFields(body)[name]) && !ContainsMarker(ParsedFields(body)[name])
  {
    FieldShape(body, "### Context");
    FieldShape(body, "### Decision");
    FieldShape(body, "### Consequences");
    FieldShape(body, "### Alternatives Considered");
    FieldShape(body, "### References");
  }

  /** `parseIssueBody`: fills the record one heading at a time, as the `for` loop over the table does. */
  method ParseIssueBody(body: string) returns (fields: map<string, string>)
    ensures fields == ParsedFields(body)
    ensures fields.Keys == FieldNames
    ensures forall name :: name in fields ==> IsTrimmed(fields[name]) && !ContainsMarker(fields[name])
  {
    fields := map[];
    for i := 0 to |FieldTable|
      invariant fields == FillFields(body, FieldTable[..i])
    {
      var (field, heading) := FieldTable[i];
      fields := fields[field := ExtractField(body, heading)];
      assert FieldTable[..i + 1][..i] == FieldTable[..i];
    }
    assert FieldTable[..|FieldTable|] == FieldTable;
    ParsedFieldsClean(body);
  }
}
