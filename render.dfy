/**
 * The text of a decision record: the template filled from the issue title,
 * the status and the parsed form fields, then trimmed before it is written.
 * Empty fields get a placeholder (context, decision, consequences) or drop
 * their section (alternatives, references).
 */
module Render {
  import opened Text

  /** `s.charAt(0).toUpperCase() + s.slice(1)`. */
  function Capitalize(s: string): (r: string)
    ensures |r| == |s|
    ensures s != [] ==> r[0] == UpperChar(s[0]) && r[1..] == s[1..]
  {
    if s == [] then [] else [UpperChar(s[0])] + s[1..]
  }

  /** The three statuses the action accepts, as they appear under "## Status". */
  lemma {:induction false} StatusHeadings()
    ensures Capitalize("accepted") == "Accepted"
    ensures Capitalize("proposed") == "Proposed"
    ensures Capitalize("rejected") == "Rejected"
  {
    assert "accepted"[1..] == "ccepted";
    assert "proposed"[1..] == "roposed";
    assert "rejected"[1..] == "ejected";
  }

  /** A form field, `formFields.name`, which is `''` when the field was never set. */
  function Field(fields: map<string, string>, name: string): string {
    if name in fields then fields[name] else ""
  }

  /** `value || placeholder`. */
  function OrPlaceholder(value: string, placeholder: string): string {
    if value == "" then placeholder else value
  }

  /** `value ? \`## heading\n${value}\` : ''`. */
  function OptionalSection(heading: string, value: string): string {
    if value == "" then "" else "## " + heading + "\n" + value
  }

  /** A section as it follows the one before it: a blank line, the heading, the text. */
  function Section(heading: string, text: string): string {
    HeadingLine(heading) + text
  }

  /** The part of the template that is always there: title, status, context, decision, consequences. */
  function Head(title: string, status: string, fields: map<string, string>): string {
    "# ADR: " + title
    + Section("Status", Capitalize(status))
    + Section("Context", OrPlaceholder(Field(fields, "context"), "No context provided."))
    + Section("Decision", OrPlaceholder(Field(fields, "decision"), "No decision provided."))
    + Section("Consequences", OrPlaceholder(Field(fields, "consequences"), "No consequences provided."))
  }

  /**
   * The template literal `adrContent` before trimming: a newline, the fixed
   * head, a blank line, the optional alternatives, a blank line, the
   * optional references and a final newline.
   */
  function RawContent(title: string, status: string, fields: map<string, string>): string {
    "\n" + Head(title, status, fields)
    + ("\n\n" + OptionalSection("Alternatives Considered", Field(fields, "alternatives")))
    + ("\n\n" + OptionalSection("References", Field(fields, "references")))
    + "\n"
  }

  /** What is written to the file: `adrContent.trim()`. */
  function Render(title: string, status: string, fields: map<string, string>): string {
    Trim(RawContent(title, status, fields))
  }

  /**
   * The record as a reader sees it: the head, then an alternatives section
   * exactly when there are alternatives and a references section exactly
   * when there are references. With references but no alternatives the two
   * blank lines of the missing section stay in the text.
   */
  function Layout(title: string, status: string, fields: map<string, string>): string {
    var alt := Field(fields, "alternatives");
    Head(title, status, fields) + AltPart(alt) + RefPart(alt, Field(fields, "references"))
  }

  /** The alternatives section, present exactly when there are alternatives. */
  function AltPart(alt: string): string {
    if alt == "" then "" else Section("Alternatives Considered", alt)
  }

  /** The references section, present exactly when there are references, after the blank lines of a missing alternatives section. */
  function RefPart(alt: string, refs: string): string {
    if refs == "" then "" else (if alt == "" then "\n\n" else "") + Section("References", refs)
  }

  /** Every field value is free of white space at both ends, as the parser leaves them. */
  predicate TrimmedFields(fields: map<string, string>) {
    forall k :: k in fields ==> IsTrimmed(fields[k])
  }

  /**
   * With trimmed fields, trimming removes exactly the newline in front of
   * the template and the newlines the empty sections leave behind.
   */
  lemma {:induction false} RenderLayout(title: string, status: string, fields: map<string, string>)
    requires TrimmedFields(fields)
    ensures Render(title, status, fields) == Layout(title, status, fields)
  {
    var alt := Field(fields, "alternatives");
    var refs := Field(fields, "references");
    var head := Head(title, status, fields);
    var lay := Layout(title, status, fields);
    var tail := RawTail(alt, refs);
    RawContentSplit(head, alt, refs);
    assert RawContent(title, status, fields) == "\n" + lay + tail;
    LayoutTrimmed(title, status, fields);
    assert AllSpace("\n");
    TrimAround("\n", lay, tail);
  }

  /** With every field empty the record is the head with the three placeholders and no optional section. */
  lemma {:induction false} EmptyFieldsGivePlaceholders(title: string, status: string, fields: map<string, string>)
    requires forall k :: k in fields ==> fields[k] == ""
    ensures Render(title, status, fields) ==
      "# ADR: " + title
      + "\n\n## Status\n" + Capitalize(status)
      + "\n\n## Context\n" + "No context provided."
      + "\n\n## Decision\n" + "No decision provided."
      + "\n\n## Consequences\n" + "No consequences provided."
  {
    assert TrimmedFields(fields);
    RenderLayout(title, status, fields);
    LayoutOfEmptyFields(title, status, fields);
    HeadOfEmptyFields(title, status, fields);
  }

  lemma {:induction false} LayoutOfEmptyFields(title: string, status: string, fields: map<string, string>)
    requires forall k :: k in fields ==> fields[k] == ""
    ensures Layout(title, status, fields) == Head(title, status, fields)
  {
    var alt := Field(fields, "alternatives");
    assert alt == "" && Field(fields, "references") == "";
    assert AltPart(alt) == [] && RefPart(alt, Field(fields, "references")) == [];
  }

  lemma {:induction false} HeadOfEmptyFields(title: string, status: string, fields: map<string, string>)
    requires forall k :: k in fields ==> fields[k] == ""
    ensures Head(title, status, fields) ==
      "# ADR: " + title
      + "\n\n## Status\n" + Capitalize(status)
      + "\n\n## Context\n" + "No context provided."
      + "\n\n## Decision\n" + "No decision provided."
      + "\n\n## Consequences\n" + "No consequences provided."
  {
    assert Field(fields, "context") == "" && Field(fields, "decision") == "" && Field(fields, "consequences") == "";
    var h1, h2, h3, h4 := HeadingLine("Status"), HeadingLine("Context"), HeadingLine("Decision"), HeadingLine("Consequences");
    var t1, t2, t3, t4 := Capitalize(status), "No context provided.", "No decision provided.", "No consequences provided.";
    assert Head(title, status, fields) == "# ADR: " + title + (h1 + t1) + (h2 + t2) + (h3 + t3) + (h4 + t4);
    Flatten("# ADR: " + title, h1, t1, h2, t2, h3, t3, h4, t4);
    HeadingLines();
  }

  /** The line a section starts with, after the blank line in front of it. */
  function HeadingLine(heading: string): string {
    "\n\n## " + heading + "\n"
  }

  lemma {:induction false} HeadingLines()
    ensures HeadingLine("Status") == "\n\n## Status\n"
    ensures HeadingLine("Context") == "\n\n## Context\n"
    ensures HeadingLine("Decision") == "\n\n## Decision\n"
    ensures HeadingLine("Consequences") == "\n\n## Consequences\n"
  {
  }

  // Re-associates the concatenation once, so that `HeadOfEmptyFields` does not pay for the solver finding it.
  lemma {:induction false} Flatten(a: string, h1: string, t1: string, h2: string, t2: string,
                                   h3: string, t3: string, h4: string, t4: string)
    ensures a + (h1 + t1) + (h2 + t2) + (h3 + t3) + (h4 + t4) == a + h1 + t1 + h2 + t2 + h3 + t3 + h4 + t4
  {
  }

  /** The newlines left at the end of the template once the sections present are taken out. */
  function RawTail(alt: string, refs: string): (t: string)
    ensures AllSpace(t)
  {
    if refs != "" then "\n" else if alt != "" then "\n\n\n" else "\n\n\n\n\n"
  }

  lemma {:induction false} RawContentSplit(head: string, alt: string, refs: string)
    ensures RawGroups(head, alt, refs) == "\n" + (head + AltPart(alt) + RefPart(alt, refs)) + RawTail(alt, refs)
  {
    if alt == "" && refs == "" {
      SplitWithoutOptional(head, alt, refs);
    } else if alt == "" {
      SplitReferencesOnly(head, alt, refs);
    } else if refs == "" {
      SplitAlternativesOnly(head, alt, refs);
    } else {
      SplitBoth(head, alt, refs);
    }
  }

  /** `RawContent` in terms of its head. */
  function RawGroups(head: string, alt: string, refs: string): string {
    "\n" + head
    + ("\n\n" + OptionalSection("Alternatives Considered", alt))
    + ("\n\n" + OptionalSection("References", refs))
    + "\n"
  }

  lemma {:induction false} SplitWithoutOptional(head: string, alt: string, refs: string)
    requires alt == "" && refs == ""
    ensures RawGroups(head, alt, refs) == "\n" + (head + AltPart(alt) + RefPart(alt, refs)) + RawTail(alt, refs)
  {
    assert RawGroups(head, alt, refs) == "\n" + head + "\n\n" + "\n\n" + "\n";
    assert head + AltPart(alt) + RefPart(alt, refs) == head;
  }

  lemma {:induction false} SplitReferencesOnly(head: string, alt: string, refs: string)
    requires alt == "" && refs != ""
    ensures RawGroups(head, alt, refs) == "\n" + (head + AltPart(alt) + RefPart(alt, refs)) + RawTail(alt, refs)
  {
    var sr := Section("References", refs);
    SectionAfterBlank("References", refs);
    assert RawGroups(head, alt, refs) == "\n" + head + "\n\n" + sr + "\n";
    Regroup("\n", head, "\n\n", sr, "\n");
    assert head + AltPart(alt) + RefPart(alt, refs) == head + "\n\n" + sr;
  }

  lemma {:induction false} SplitAlternativesOnly(head: string, alt: string, refs: string)
    requires alt != "" && refs == ""
    ensures RawGroups(head, alt, refs) == "\n" + (head + AltPart(alt) + RefPart(alt, refs)) + RawTail(alt, refs)
  {
    var sa := AltPart(alt);
    SectionAfterBlank("Alternatives Considered", alt);
    assert RawGroups(head, alt, refs) == "\n" + head + sa + "\n\n" + "\n";
    Regroup("\n", head, sa, "", "\n\n\n");
  }

  lemma {:induction false} SplitBoth(head: string, alt: string, refs: string)
    requires alt != "" && refs != ""
    ensures RawGroups(head, alt, refs) == "\n" + (head + AltPart(alt) + RefPart(alt, refs)) + RawTail(alt, refs)
  {
    var sa := AltPart(alt);
    var sr := Section("References", refs);
    SectionAfterBlank("Alternatives Considered", alt);
    SectionAfterBlank("References", refs);
    assert RefPart(alt, refs) == "" + sr == sr;
    assert RawTail(alt, refs) == "\n";
    assert RawGroups(head, alt, refs) == "\n" + head + sa + sr + "\n";
    Regroup("\n", head, sa, sr, "\n");
  }

  /** A present optional section, after the blank line the template puts in front of it, is a `Section`. */
  lemma {:induction false} SectionAfterBlank(heading: string, text: string)
    requires text != ""
    ensures "\n\n" + OptionalSection(heading, text) == Section(heading, text)
  {
    assert "\n\n" + "## " == "\n\n## ";
    assert "\n\n" + ("## " + heading + "\n" + text) == ("\n\n" + "## ") + heading + "\n" + text;
  }

  // Re-associates the concatenation once, so that the `Split…` lemmas do not pay for the solver finding it.
  lemma {:induction false} Regroup(x: string, h: string, a: string, r: string, z: string)
    ensures x + h + a + r + z == x + (h + a + r) + z
  {
  }

  /** The record starts with the `#` of its title line and has no white space at either end. */
  lemma {:induction false} LayoutTrimmed(title: string, status: string, fields: map<string, string>)
    requires TrimmedFields(fields)
    ensures Layout(title, status, fields) != [] && Layout(title, status, fields)[0] == '#'
    ensures IsTrimmed(Layout(title, status, fields))
  {
    HeadEnds(title, status, fields);
    FieldTrimmed(fields, "alternatives");
    FieldTrimmed(fields, "references");
    PartsTrimmed(Head(title, status, fields), Field(fields, "alternatives"), Field(fields, "references"));
  }

  lemma {:induction false} PartsTrimmed(head: string, alt: string, refs: string)
    requires head != [] && head[0] == '#' && !IsSpace(LastChar(head))
    requires IsTrimmed(alt) && IsTrimmed(refs)
    ensures (head + AltPart(alt) + RefPart(alt, refs))[0] == '#'
    ensures IsTrimmed(head + AltPart(alt) + RefPart(alt, refs))
  {
    PartsEnd(alt, refs);
    ConcatEnds(head, AltPart(alt));
    ConcatEnds(head + AltPart(alt), RefPart(alt, refs));
  }

  /** Each optional section, when present, ends in its trimmed text. */
  lemma {:induction false} PartsEnd(alt: string, refs: string)
    requires IsTrimmed(alt) && IsTrimmed(refs)
    ensures AltPart(alt) != [] ==> !IsSpace(LastChar(AltPart(alt)))
    ensures RefPart(alt, refs) != [] ==> !IsSpace(LastChar(RefPart(alt, refs)))
  {
    if alt != "" {
      SectionEnds("Alternatives Considered", alt);
    }
    if refs != "" {
      SectionEnds("References", refs);
      var pre := if alt == "" then "\n\n" else "";
      assert LastChar(pre + Section("References", refs)) == LastChar(Section("References", refs));
    }
  }

  /** Appending a part that is empty or ends in a non-space keeps a `#` in front and a non-space at the end. */
  lemma {:induction false} ConcatEnds(a: string, b: string)
    requires a != [] && a[0] == '#' && !IsSpace(LastChar(a))
    requires b != [] ==> !IsSpace(LastChar(b))
    ensures (a + b)[0] == '#' && !IsSpace(LastChar(a + b))
  {
    if b == [] {
      assert a + b == a;
    }
  }

  function LastChar(s: string): char
    requires s != []
  {
    s[|s| - 1]
  }

  lemma {:induction false} FieldTrimmed(fields: map<string, string>, name: string)
    requires TrimmedFields(fields)
    ensures IsTrimmed(Field(fields, name))
  {
  }

  /** The fixed head starts with `#` and ends in the consequences text or its placeholder. */
  lemma {:induction false} HeadEnds(title: string, status: string, fields: map<string, string>)
    requires TrimmedFields(fields)
    ensures Head(title, status, fields) != [] && Head(title, status, fields)[0] == '#'
    ensures !IsSpace(LastChar(Head(title, status, fields)))
  {
    var cons := OrPlaceholder(Field(fields, "consequences"), "No consequences provided.");
    FieldTrimmed(fields, "consequences");
    SectionEnds("Consequences", cons);
  }

  /** A section with trimmed, non-empty text ends in a character that is not white space. */
  lemma {:induction false} SectionEnds(heading: string, text: string)
    requires text != [] && IsTrimmed(text)
    ensures !IsSpace(LastChar(Section(heading, text)))
  {
    var s := Section(heading, text);
    assert LastChar(s) == text[|text| - 1];
  }

  /** `Add ADR #${issue.number}: ${issue.title}`. */
  function CommitMessage(number: nat, title: string): (m: string)
    ensures |m| > 9 && m[..9] == "Add ADR #"
  {
    "Add ADR #" + NatToString(number) + ": " + title
  }

  /** Different issues give different commit messages: the number and the title can be read back. */
  lemma {:induction false} CommitMessageInjective(n1: nat, t1: string, n2: nat, t2: string)
    requires CommitMessage(n1, t1) == CommitMessage(n2, t2)
    ensures n1 == n2 && t1 == t2
  {
    CommitMessageSplit(n1, t1);
    CommitMessageSplit(n2, t2);
    DigitsThenColon(NatToString(n1), NatToString(n2), ": " + t1, ": " + t2);
    assert (": " + t1)[2..] == t1 && (": " + t2)[2..] == t2;
  }

  lemma {:induction false} CommitMessageSplit(n: nat, t: string)
    ensures CommitMessage(n, t)[9..] == NatToString(n) + (": " + t)
  {
    var m := CommitMessage(n, t);
    assert m == "Add ADR #" + (NatToString(n) + (": " + t));
  }

  /** Two digit strings each followed by a non-digit split the same text at the same place. */
  lemma {:induction false} DigitsThenColon(d1: string, d2: string, r1: string, r2: string)
    requires AllDigits(d1) && AllDigits(d2)
    requires r1 != [] && r2 != [] && !IsDigit(r1[0]) && !IsDigit(r2[0])
    requires d1 + r1 == d2 + r2
    ensures d1 == d2 && r1 == r2
  {
    if |d1| < |d2| {
      ShorterDigitsMeetDigit(d1, r1, d2, r2);
      assert false;
    } else if |d2| < |d1| {
      ShorterDigitsMeetDigit(d2, r2, d1, r1);
      assert false;
    }
    assert d1 == (d1 + r1)[..|d1|] == d2;
  }

  /** When the first digit string is the shorter one, the text after it starts inside the longer. */
  lemma {:induction false} ShorterDigitsMeetDigit(a: string, ra: string, b: string, rb: string)
    requires AllDigits(b) && ra != [] && |a| < |b|
    requires a + ra == b + rb
    ensures IsDigit(ra[0])
  {
    assert (a + ra)[|a|] == ra[0];
    assert (b + rb)[|a|] == b[|a|];
  }
}
