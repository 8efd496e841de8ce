/**
 * A worked example: issue #42, "Adopt gRPC", carrying the configured label, whose body fills in context, decision and
 * consequences, filed under the default status into a folder that holds no
 * record yet.
 */
module Example {
  import opened Wrappers
  import opened Text
  import opened IssueBody
  import opened Sequence
  import Slug
  import opened Render
  import opened Action

  const ContextLine: string := "### Context\n"
  const ContextText: string := "Need RPC.\n"
  const DecisionLine: string := "### Decision\n"
  const DecisionText: string := "Use gRPC.\n"
  const ConsequencesLine: string := "### Consequences\n"
  const ConsequencesText: string := "More deps."

  /** The issue body `### Context\nNeed RPC.\n### Decision\nUse gRPC.\n### Consequences\nMore deps.`, line by line. */
  const Body: string := ContextLine + ContextText + DecisionLine + DecisionText + ConsequencesLine + ConsequencesText

  /** The character at `j`, read from the line that holds it (the lines start at 0, 12, 22, 35, 45 and 62). */
  lemma {:induction false} BodyAt(j: nat)
    requires j < |Body|
    ensures |Body| == 72
    ensures Body[j] ==
      if j < 12 then ContextLine[j]
      else if j < 22 then ContextText[j - 12]
      else if j < 35 then DecisionLine[j - 22]
      else if j < 45 then DecisionText[j - 35]
      else if j < 62 then ConsequencesLine[j - 45]
      else ConsequencesText[j - 62]
  {
  }

  /** The body's only `###` are the three heading lines. */
  lemma {:induction false} BodyMarkers()
    ensures forall j: nat :: MarkerAt(Body, j) ==> j == 0 || j == 22 || j == 45
  {
    forall j: nat | MarkerAt(Body, j) ensures j == 0 || j == 22 || j == 45 {
      HashAt(j);
      HashAt(j + 2);
    }
  }

  /** The body's `#` characters: the first three of each heading line. */
  lemma {:induction false} HashAt(j: nat)
    requires j < |Body| && Body[j] == '#'
    ensures j <= 2 || 22 <= j <= 24 || 45 <= j <= 47
  {
    BodyAt(j);
  }

  /** The text from `a` to `b` spells `t`. */
  lemma {:induction false} BodySlice(a: nat, b: nat, t: string)
    requires a <= b <= |Body| && |t| == b - a
    requires forall k :: 0 <= k < |t| ==> Body[a + k] == t[k]
    ensures Body[a..b] == t
  {
  }

  /** A heading, which starts with `###`, only matches where a `###` begins. */
  lemma {:induction false} NoMarkerNoHeading(s: string, heading: string, j: nat)
    requires |heading| >= 3 && heading[0] == '#' && heading[1] == '#' && heading[2] == '#'
    requires !MarkerAt(s, j)
    ensures !HeadingAt(s, heading, j)
  {
    if j + |heading| < |s| {
      SpellsAtIsSlice(s, heading, j, 0);
      var w := s[j..j + |heading|];
      assert w[0] == s[j] && w[1] == s[j + 1] && w[2] == s[j + 2];
    }
  }

  /** A heading does not match where one of its characters differs. */
  lemma {:induction false} MismatchNoHeading(s: string, heading: string, j: nat, k: nat)
    requires k < |heading| && j + k < |s| && s[j + k] != heading[k]
    ensures !HeadingAt(s, heading, j)
  {
    if j + |heading| < |s| {
      SpellsAtIsSlice(s, heading, j, 0);
      assert s[j..j + |heading|][k] == s[j + k];
    }
  }

  /** The heading spelled from `i`, followed by a line break, matches there. */
  lemma {:induction false} HeadingIn(heading: string, i: nat)
    requires i + |heading| < |Body|
    requires Body[i + |heading|] == '\n'
    requires Body[i..i + |heading|] == heading
    ensures HeadingAt(Body, heading, i)
  {
    SpellsAtIsSlice(Body, heading, i, 0);
  }

  lemma {:induction false} ContextField()
    ensures ExtractField(Body, "### Context") == "Need RPC."
  {
    var h := "### Context";
    ContextSpots();
    BodyMarkers();
    FieldTexts();
    FirstMatchGivesField(Body, h, 0, 22);
  }

  /** Trimming drops the line breaks around each field's text. */
  lemma {:induction false} FieldTexts()
    ensures Trim("\n" + "Need RPC." + "\n") == "Need RPC."
    ensures Trim("\n" + "Use gRPC." + "\n") == "Use gRPC."
    ensures Trim("\n" + "More deps." + "") == "More deps."
  {
    LineTrimmed("Need RPC.");
    LineTrimmed("Use gRPC.");
    LineTrimmed("More deps.");
  }

  lemma {:induction false} LineTrimmed(t: string)
    requires t != [] && !IsSpace(t[0]) && !IsSpace(t[|t| - 1])
    ensures Trim("\n" + t + "\n") == t && Trim("\n" + t + "") == t
  {
    assert AllSpace("\n") && AllSpace("");
    TrimAround("\n", t, "\n");
    TrimAround("\n", t, "");
  }

  lemma {:induction false} ContextSpots()
    ensures HeadingAt(Body, "### Context", 0) && MarkerAt(Body, 22) && |Body| == 72
    ensures Body[11..22] == "\n" + "Need RPC." + "\n"
  {
    var h := "### Context";
    forall k | 0 <= k < 22 ensures Body[k] == (ContextLine + ContextText)[k] { BodyAt(k); }
    BodySlice(0, 11, h);
    BodySlice(11, 22, "\n" + "Need RPC." + "\n");
    HeadingIn(h, 0);
    BodyAt(22); BodyAt(23); BodyAt(24);
  }

  lemma {:induction false} DecisionField()
    ensures ExtractField(Body, "### Decision") == "Use gRPC."
  {
    var h := "### Decision";
    DecisionSpots();
    DecisionFirst();
    BodyMarkers();
    FieldTexts();
    FirstMatchGivesField(Body, h, 22, 45);
  }

  lemma {:induction false} DecisionSpots()
    ensures HeadingAt(Body, "### Decision", 22) && MarkerAt(Body, 45) && |Body| == 72
    ensures Body[34..45] == "\n" + "Use gRPC." + "\n"
  {
    var h := "### Decision";
    forall k | 22 <= k < 45 ensures Body[k] == (DecisionLine + DecisionText)[k - 22] { BodyAt(k); }
    BodySlice(22, 34, h);
    BodySlice(34, 45, "\n" + "Use gRPC." + "\n");
    HeadingIn(h, 22);
    BodyAt(45); BodyAt(46); BodyAt(47);
  }

  lemma {:induction false} DecisionFirst()
    ensures forall j: nat :: j < 22 ==> !HeadingAt(Body, "### Decision", j)
  {
    var h := "### Decision";
    BodyMarkers();
    forall j: nat | j < 22 ensures !HeadingAt(Body, h, j) {
      if j == 0 {
        BodyAt(4);
        MismatchNoHeading(Body, h, 0, 4);
      } else {
        NoMarkerNoHeading(Body, h, j);
      }
    }
  }

  lemma {:induction false} ConsequencesField()
    ensures ExtractField(Body, "### Consequences") == "More deps."
  {
    var h := "### Consequences";
    ConsequencesSpots();
    ConsequencesFirst();
    BodyMarkers();
    FieldTexts();
    FirstMatchGivesField(Body, h, 45, 72);
  }

  lemma {:induction false} ConsequencesSpots()
    ensures HeadingAt(Body, "### Consequences", 45) && |Body| == 72
    ensures Body[61..72] == "\n" + "More deps." + ""
  {
    var h := "### Consequences";
    forall k | 45 <= k < 72 ensures Body[k] == (ConsequencesLine + ConsequencesText)[k - 45] { BodyAt(k); }
    BodySlice(45, 61, h);
    BodySlice(61, 72, "\n" + "More deps." + "");
    HeadingIn(h, 45);
  }

  lemma {:induction false} ConsequencesFirst()
    ensures forall j: nat :: j < 45 ==> !HeadingAt(Body, "### Consequences", j)
  {
    var h := "### Consequences";
    BodyMarkers();
    forall j: nat | j < 45 ensures !HeadingAt(Body, h, j) {
      if j == 0 {
        BodyAt(7);
        MismatchNoHeading(Body, h, 0, 7);
      } else if j == 22 {
        BodyAt(26);
        MismatchNoHeading(Body, h, 22, 4);
      } else {
        NoMarkerNoHeading(Body, h, j);
      }
    }
  }

  /** A heading whose fifth character is none of the three headings' fifth characters never matches. */
  lemma {:induction false} AbsentField(h: string)
    requires |h| > 4 && h[0] == '#' && h[1] == '#' && h[2] == '#'
    requires h[4] != 'C' && h[4] != 'D'
    ensures ExtractField(Body, h) == ""
  {
    BodyMarkers();
    forall j: nat ensures !HeadingAt(Body, h, j) {
      if j == 0 || j == 22 || j == 45 {
        BodyAt(j + 4);
        MismatchNoHeading(Body, h, j, 4);
      } else {
        NoMarkerNoHeading(Body, h, j);
      }
    }
    AbsentHeadingGivesEmpty(Body, h);
  }

  /** The body gives the three fields it fills in, and nothing for the other two. */
  lemma {:induction false} ExampleFields()
    ensures var m := ParsedFields(Body);
      m["context"] == "Need RPC." && m["decision"] == "Use gRPC." && m["consequences"] == "More deps." &&
      m["alternatives"] == "" && m["references"] == ""
  {
    ContextField();
    DecisionField();
    ConsequencesField();
    AbsentFields();
  }

  lemma {:induction false} AbsentFields()
    ensures ExtractField(Body, "### Alternatives Considered") == ""
    ensures ExtractField(Body, "### References") == ""
  {
    AbsentField("### Alternatives Considered");
    AbsentField("### References");
  }

  // ---- the whole run ------------------------------------------------------

  const Title: string := "Adopt gRPC"

  const RecordPath: string := "adr/proposed/0001-adopt-grpc.md"

  /** The record the example writes: the head with the three fields, and neither optional section. */
  const Record: string :=
    "# ADR: Adopt gRPC"
    + "\n\n## Status\n" + "Proposed"
    + "\n\n## Context\n" + "Need RPC."
    + "\n\n## Decision\n" + "Use gRPC."
    + "\n\n## Consequences\n" + "More deps."

  /**
   * Issue #42 with the configured label, `destination_folder` `adr`, no
   * `adr_status`, a token and a folder `adr/proposed` that is missing or
   * holds no numbered record: the record goes to
   * `adr/proposed/0001-adopt-grpc.md` and is committed with the message
   * `Add ADR #42: Adopt gRPC`.
   */
  lemma {:induction false} ExampleRun(labelName: string, token: string, envToken: Option<string>,
                                      folders: map<string, seq<string>>)
    requires labelName != "" && IsTrimmed(labelName) && IsTrimmed(token)
    requires ResolveToken(token, envToken).Some?
    requires "adr/proposed" in folders ==> forall f :: f in folders["adr/proposed"] ==> FourDigitPrefix(f).None?
    ensures RunAction(Inputs(labelName, "adr", "", token), envToken, Some(Issue(42, Title, Some(Body), [labelName])), folders, None)
      == Committed(FileWrite(RecordPath, Record),
                   CommitPlan("heads/main", RecordPath, "100644", Record, "Add ADR #42: Adopt gRPC"))
  {
    var given := Inputs(labelName, "adr", "", token);
    var issue := Issue(42, Title, Some(Body), [labelName]);
    ExampleInputs(labelName, token, envToken, Some(issue), folders);
    assert EffectiveStatus("") == "proposed";
    CommitMatchesFile(given, envToken, issue, folders);
    LabelledIssueWritten(given, envToken, issue, folders, None);
    ExampleFile(issue, folders);
    ExampleMessage();
  }

  /** The inputs of the example have no white space around them, so the run sees them as given. */
  lemma {:induction false} ExampleInputs(labelName: string, token: string, envToken: Option<string>,
                                         event: Option<Issue>, folders: map<string, seq<string>>)
    requires labelName != "" && IsTrimmed(labelName) && IsTrimmed(token)
    ensures RunAction(Inputs(labelName, "adr", "", token), envToken, event, folders, None)
      == Run(Inputs(labelName, "adr", "", token), envToken, event, folders, None)
  {
    assert IsTrimmed("adr") && IsTrimmed("");
    GivenInputsRun(Inputs(labelName, "adr", "", token), envToken, event, folders, None);
  }

  lemma {:induction false} ExampleFile(issue: Issue, folders: map<string, seq<string>>)
    requires issue.title == Title && issue.body == Some(Body)
    requires "adr/proposed" in folders ==> forall f :: f in folders["adr/proposed"] ==> FourDigitPrefix(f).None?
    ensures RecordFile("adr", "proposed", issue, folders) == FileWrite(RecordPath, Record)
  {
    ExamplePath(issue, folders);
    ExampleContent(issue, folders);
  }

  lemma {:induction false} ExamplePath(issue: Issue, folders: map<string, seq<string>>)
    requires issue.title == Title
    requires "adr/proposed" in folders ==> forall f :: f in folders["adr/proposed"] ==> FourDigitPrefix(f).None?
    ensures RecordFile("adr", "proposed", issue, folders).path == RecordPath
  {
    var folder := JoinPath("adr", "proposed");
    PathPieces();
    var listing := Listing(folders, folder);
    if listing.None? {
      MissingFolderStartsAtOne();
    } else {
      NoCountedNameStartsAtOne(listing.value);
    }
    assert NextSequenceNumber(listing) == "0001";
    Slug.SlugOfExampleTitle();
    assert RecordName("adr", "proposed", issue, folders) == "0001" + "-" + "adopt-grpc" + ".md";
  }

  /**
   * The folder, the file name and the path of the example, each spelled out; each literal
   * equality is its own lemma below, so that no proof has to unfold all of them at once.
   */
  lemma {:induction false} PathPieces()
    ensures JoinPath("adr", "proposed") == "adr/proposed"
    ensures "0001" + "-" + "adopt-grpc" + ".md" == "0001-adopt-grpc.md"
    ensures JoinPath("adr/proposed", "0001-adopt-grpc.md") == RecordPath
  {
    FolderPiece();
    NamePiece();
    PathPiece();
  }

  lemma {:induction false} FolderPiece()
    ensures JoinPath("adr", "proposed") == "adr/proposed"
  {
  }

  lemma {:induction false} NamePiece()
    ensures "0001" + "-" + "adopt-grpc" + ".md" == "0001-adopt-grpc.md"
  {
  }

  lemma {:induction false} PathPiece()
    ensures JoinPath("adr/proposed", "0001-adopt-grpc.md") == RecordPath
  {
  }

  lemma {:induction false} ExampleContent(issue: Issue, folders: map<string, seq<string>>)
    requires issue.title == Title && issue.body == Some(Body)
    ensures RecordFile("adr", "proposed", issue, folders).content == Record
  {
    RecordHasLayout("adr", "proposed", issue, folders);
    var fields := ParsedFields(BodyText(issue.body));
    ExampleFieldValues();
    LayoutWithoutOptional(Title, "proposed", fields);
    ExampleHead(fields);
  }

  lemma {:induction false} ExampleFieldValues()
    ensures var fields := ParsedFields(Body);
      Field(fields, "context") == "Need RPC." && Field(fields, "decision") == "Use gRPC." &&
      Field(fields, "consequences") == "More deps." &&
      Field(fields, "alternatives") == "" && Field(fields, "references") == ""
  {
    ExampleFields();
    assert ParsedFields(Body).Keys == FieldNames;
  }

  /** Without alternatives and references the record is its head. */
  lemma {:induction false} LayoutWithoutOptional(title: string, status: string, fields: map<string, string>)
    requires Field(fields, "alternatives") == "" && Field(fields, "references") == ""
    ensures Layout(title, status, fields) == Head(title, status, fields)
  {
    assert AltPart("") == [] && RefPart("", "") == [];
  }

  lemma {:induction false} ExampleHead(fields: map<string, string>)
    requires Field(fields, "context") == "Need RPC."
    requires Field(fields, "decision") == "Use gRPC."
    requires Field(fields, "consequences") == "More deps."
    ensures Head(Title, "proposed", fields) == Record
  {
    var h1, h2, h3, h4 := HeadingLine("Status"), HeadingLine("Context"), HeadingLine("Decision"), HeadingLine("Consequences");
    var t1, t2, t3, t4 := Capitalize("proposed"), "Need RPC.", "Use gRPC.", "More deps.";
    var top := "# ADR: " + Title;
    assert Head(Title, "proposed", fields) == top + (h1 + t1) + (h2 + t2) + (h3 + t3) + (h4 + t4);
    Flatten(top, h1, t1, h2, t2, h3, t3, h4, t4);
    RecordPieces();
  }

  /** The record, piece by piece as the template builds it. */
  lemma {:induction false} RecordPieces()
    ensures Record ==
      ("# ADR: " + Title) + HeadingLine("Status") + Capitalize("proposed")
      + HeadingLine("Context") + "Need RPC." + HeadingLine("Decision") + "Use gRPC."
      + HeadingLine("Consequences") + "More deps."
  {
    HeadingLines();
    StatusHeadings();
    assert "# ADR: " + Title == "# ADR: Adopt gRPC";
  }

  lemma {:induction false} ExampleMessage()
    ensures CommitMessage(42, Title) == "Add ADR #42: Adopt gRPC"
  {
    assert NatToString(4) == "4";
    assert NatToString(42) == "42";
    assert "Add ADR #" + "42" + ": " + Title == "Add ADR #42: Adopt gRPC";
  }
}
