/**
 * One run of the action (`run`), as a function from what it reads to what
 * it does. It reads the inputs, the token from the environment, the issue
 * of the triggering event and the listing of the repository's folders. It
 * returns whether it failed, skipped, wrote the record but could not commit
 * it, or wrote the record and committed it to `heads/main`.
 */
module Action {
  import opened Wrappers
  import opened Text
  import opened IssueBody
  import opened Sequence
  import Slug
  import opened Render

  /** The issue of the triggering event: its number, title, body (`null` when empty) and label names. */
  datatype Issue = Issue(number: nat, title: string, body: Option<string>, labels: seq<string>)

  /** The action's inputs as `core.getInput` returns them; an input that was not given is `""`. */
  datatype Inputs = Inputs(labelName: string, destinationFolder: string, adrStatus: string, githubToken: string)

  /** A file written to the runner's working copy. */
  datatype FileWrite = FileWrite(path: string, content: string)

  /**
   * The commit made through the Git data API: a blob with the record's
   * content, a tree entry for it and a commit moving `ref` on.
   */
  datatype CommitPlan = CommitPlan(ref: string, treePath: string, mode: string, blob: string, message: string)

  datatype Outcome =
    | Failed(message: string)
    | Skipped(message: string)
    | WrittenNotCommitted(file: FileWrite, message: string)
    | Committed(file: FileWrite, commit: CommitPlan)

  const ValidStatuses: seq<string> := ["accepted", "proposed", "rejected"]

  const MainRef: string := "heads/main"
  const BlobMode: string := "100644"
  const NoIssueMessage: string := "This action must be triggered by an issue event."
  const NoTokenMessage: string := "No GitHub token provided. Please set the GITHUB_TOKEN secret."

  /** `core.getInput('adr_status') || 'proposed'`. */
  function EffectiveStatus(input: string): string {
    if input == "" then "proposed" else input
  }

  /** `validStatuses.join(', ')`. */
  function JoinComma(items: seq<string>): string {
    if items == [] then ""
    else if |items| == 1 then items[0]
    else items[0] + ", " + JoinComma(items[1..])
  }

  function InvalidStatusMessage(status: string): string {
    "Invalid adr_status: " + status + ". Must be one of: " + JoinComma(ValidStatuses)
  }

  /** The status the record is filed under, or the message the action fails with. */
  function ResolveStatus(input: string): (r: Result<string, string>)
    ensures r.Success? <==> EffectiveStatus(input) in ValidStatuses
    ensures r.Success? ==> r.value == EffectiveStatus(input) && r.value != ""
    ensures r.Failure? ==> r.error == InvalidStatusMessage(input)
  {
    var s := EffectiveStatus(input);
    if s in ValidStatuses then Success(s) else Failure(InvalidStatusMessage(s))
  }

  /** `issue.labels.some(label => label.name === labelName)`. */
  function HasLabel(labels: seq<string>, name: string): (b: bool)
    ensures b <==> exists i :: 0 <= i < |labels| && labels[i] == name
  {
    if labels == [] then false else labels[0] == name || HasLabel(labels[1..], name)
  }

  /** The message `core.getInput` throws for a required input that was not given. */
  function MissingInputMessage(name: string): string {
    "Input required and not supplied: " + name
  }

  /**
   * `core.getInput(name, { required })` on the value the runner passes for
   * the input: a required input that is empty throws; otherwise the value
   * is returned trimmed.
   */
  function GetInput(name: string, given: string, required: bool): (r: Result<string, string>)
    ensures r.Failure? <==> required && given == ""
    ensures r.Failure? ==> r.error == MissingInputMessage(name)
    ensures r.Success? ==> r.value == Trim(given)
    ensures r.Success? ==> IsTrimmed(r.value) && (IsTrimmed(given) ==> r.value == given)
  {
    if required && given == "" then Failure(MissingInputMessage(name))
    else
      TrimIsTrimmed(given);
      assert IsTrimmed(given) ==> Trim(given) == given by {
        if IsTrimmed(given) { TrimOfTrimmed(given); }
      }
      Success(Trim(given))
  }

  /**
   * The four `core.getInput` calls of `run()`: `label_name` and then
   * `destination_folder` are required, `adr_status` and `github_token` are
   * not. The token input is read after the file is written, but since its
   * read cannot fail it is read here with the others.
   */
  function ReadInputs(given: Inputs): (r: Result<Inputs, string>)
    ensures r.Failure? <==> given.labelName == "" || given.destinationFolder == ""
    ensures given.labelName == "" ==> r == Failure(MissingInputMessage("label_name"))
    ensures given.labelName != "" && given.destinationFolder == "" ==>
      r == Failure(MissingInputMessage("destination_folder"))
    ensures r.Success? ==>
      r.value == Inputs(Trim(given.labelName), Trim(given.destinationFolder), Trim(given.adrStatus), Trim(given.githubToken))
    ensures r.Success? ==>
      IsTrimmed(r.value.labelName) && IsTrimmed(r.value.destinationFolder) &&
      IsTrimmed(r.value.adrStatus) && IsTrimmed(r.value.githubToken)
  {
    match GetInput("label_name", given.labelName, true)
    case Failure(e) => Failure(e)
    case Success(labelName) =>
      match GetInput("destination_folder", given.destinationFolder, true)
      case Failure(e) => Failure(e)
      case Success(dest) =>
        Success(Inputs(labelName, dest, GetInput("adr_status", given.adrStatus, false).value,
                       GetInput("github_token", given.githubToken, false).value))
  }

  /** `core.getInput('github_token') || process.env.GITHUB_TOKEN`, kept only when it is not empty. */
  function ResolveToken(input: string, env: Option<string>): (t: Option<string>)
    ensures t.Some? ==> t.value != ""
    ensures t.None? <==> input == "" && (env.None? || env.value == "")
    ensures input != "" ==> t == Some(input)
    ensures input == "" && env.Some? && env.value != "" ==> t == env
  {
    if input != "" then Some(input)
    else if env.Some? && env.value != "" then env
    else None
  }

  /**
   * `path.join(folder, name)` for a folder and a plain name: an empty
   * folder is an empty segment, which `path.join` drops.
   */
  function JoinPath(folder: string, name: string): string {
    if folder == "" then name else folder + "/" + name
  }

  /** `${nextSequenceNumber}-${sanitizedTitle}.md`. */
  function FileName(sequence: string, title: string): string {
    sequence + "-" + Slug.Slug(title) + ".md"
  }

  /** `issue.body || ''`. */
  function BodyText(body: Option<string>): string {
    match body
    case None => ""
    case Some(b) => b
  }

  /** What `existsSync` and `readdirSync` find at `folder`. */
  function Listing(folders: map<string, seq<string>>, folder: string): Option<seq<string>> {
    if folder in folders then Some(folders[folder]) else None
  }

  /** The name the record gets in `<destination>/<status>`. */
  function RecordName(dest: string, status: string, issue: Issue, folders: map<string, seq<string>>): string {
    FileName(NextSequenceNumber(Listing(folders, JoinPath(dest, status))), issue.title)
  }

  /** The record for a labelled issue filed under `status`: where it goes and what it says. */
  function RecordFile(dest: string, status: string, issue: Issue, folders: map<string, seq<string>>): FileWrite {
    FileWrite(JoinPath(JoinPath(dest, status), RecordName(dest, status, issue, folders)),
              Render.Render(issue.title, status, ParsedFields(BodyText(issue.body))))
  }

  /**
   * `run()` from the values the runner passes for the inputs: a missing
   * required input fails the run through the `catch` clause before anything
   * else happens.
   */
  function RunAction(given: Inputs, envToken: Option<string>, event: Option<Issue>,
                     folders: map<string, seq<string>>, apiError: Option<string>): (o: Outcome)
    ensures given.labelName == "" || given.destinationFolder == "" ==> o.Failed?
    ensures o.Failed? ==>
      given.labelName == "" || given.destinationFolder == "" ||
      ResolveStatus(ReadInputs(given).value.adrStatus).Failure? || event.None?
    ensures o.Skipped? ==> event.Some? && !HasLabel(event.value.labels, ReadInputs(given).value.labelName)
  {
    match ReadInputs(given)
    case Failure(e) => Failed(e)
    case Success(inputs) => Run(inputs, envToken, event, folders, apiError)
  }

  /**
   * `run()` once `core.getInput` has returned the inputs. `envToken` is `process.env.GITHUB_TOKEN`, `event` the issue of
   * the payload, `folders` the folders of the working copy with the names
   * they hold, and `apiError` the message of the first Git API call that
   * throws, if any.
   */
  function Run(inputs: Inputs, envToken: Option<string>, event: Option<Issue>,
               folders: map<string, seq<string>>, apiError: Option<string>): (o: Outcome)
    ensures o.Failed? ==> ResolveStatus(inputs.adrStatus).Failure? || event.None?
    ensures o.Skipped? ==> event.Some? && !HasLabel(event.value.labels, inputs.labelName)
    ensures o.WrittenNotCommitted? ==> o.message == NoTokenMessage || apiError == Some(o.message)
    ensures o.Committed? ==> o.commit.treePath == o.file.path && o.commit.blob == o.file.content
  {
    match ResolveStatus(inputs.adrStatus)
    case Failure(e) => Failed(e)
    case Success(status) =>
      if event.None? then Failed(NoIssueMessage)
      else if !HasLabel(event.value.labels, inputs.labelName) then
        Skipped("The issue does not have the label \"" + inputs.labelName + "\". Skipping.")
      else Publish(inputs, envToken, status, event.value, folders, apiError)
  }

  /** The part of `run()` after the label check: write the record, then commit it. */
  function Publish(inputs: Inputs, envToken: Option<string>, status: string, issue: Issue,
                   folders: map<string, seq<string>>, apiError: Option<string>): (o: Outcome)
    ensures o.WrittenNotCommitted? || o.Committed?
    ensures o.WrittenNotCommitted? ==> o.message == NoTokenMessage || apiError == Some(o.message)
    ensures o.Committed? ==> o.commit.treePath == o.file.path && o.commit.blob == o.file.content
  {
    var dest := inputs.destinationFolder;
    var file := RecordFile(dest, status, issue, folders);
    match ResolveToken(inputs.githubToken, envToken)
    case None => WrittenNotCommitted(file, NoTokenMessage)
    case Some(_) =>
      match apiError
      case Some(e) => WrittenNotCommitted(file, e)
      case None =>
        var treePath := JoinPath(JoinPath(dest, status), RecordName(dest, status, issue, folders));
        Committed(file, CommitPlan(MainRef, treePath, BlobMode, file.content, CommitMessage(issue.number, issue.title)))
  }

  // ---- lemmas ---------------------------------------------------------------

  /** Without an input the status is `proposed`; the three statuses are accepted as written and nothing else is. */
  lemma {:induction false} StatusChoices(input: string)
    ensures ResolveStatus("") == Success("proposed")
    ensures input in ValidStatuses ==> ResolveStatus(input) == Success(input)
    ensures input != "" && input !in ValidStatuses ==>
      ResolveStatus(input) == Failure("Invalid adr_status: " + input + ". Must be one of: accepted, proposed, rejected")
  {
    StatusList();
    var lead := "Invalid adr_status: " + input;
    assert ". Must be one of: " + "accepted, proposed, rejected" == ". Must be one of: accepted, proposed, rejected";
    assert lead + ". Must be one of: " + "accepted, proposed, rejected"
      == lead + (". Must be one of: " + "accepted, proposed, rejected");
  }

  /** The list the failure message offers. */
  lemma {:induction false} StatusList()
    ensures JoinComma(ValidStatuses) == "accepted, proposed, rejected"
  {
    assert ValidStatuses[1..][1..] == ["rejected"];
    assert JoinComma(ValidStatuses[1..][1..]) == "rejected";
    assert JoinComma(ValidStatuses[1..]) == "proposed" + ", " + "rejected";
    assert JoinComma(ValidStatuses) == "accepted" + ", " + "proposed, rejected";
  }

  /** A required input that was not given fails the run, the label name being checked first. */
  lemma {:induction false} MissingInputFails(given: Inputs, envToken: Option<string>, event: Option<Issue>,
                                             folders: map<string, seq<string>>, apiError: Option<string>)
    ensures given.labelName == "" ==>
      RunAction(given, envToken, event, folders, apiError) == Failed("Input required and not supplied: label_name")
    ensures given.labelName != "" && given.destinationFolder == "" ==>
      RunAction(given, envToken, event, folders, apiError) == Failed("Input required and not supplied: destination_folder")
  {
  }

  /**
   * With both required inputs given, the run works on the trimmed inputs;
   * when no input has white space around it, that is the inputs as given.
   */
  lemma {:induction false} GivenInputsRun(given: Inputs, envToken: Option<string>, event: Option<Issue>,
                                          folders: map<string, seq<string>>, apiError: Option<string>)
    requires given.labelName != "" && given.destinationFolder != ""
    ensures RunAction(given, envToken, event, folders, apiError) ==
      Run(Inputs(Trim(given.labelName), Trim(given.destinationFolder), Trim(given.adrStatus), Trim(given.githubToken)),
          envToken, event, folders, apiError)
    ensures (IsTrimmed(given.labelName) && IsTrimmed(given.destinationFolder) &&
             IsTrimmed(given.adrStatus) && IsTrimmed(given.githubToken)) ==>
      RunAction(given, envToken, event, folders, apiError) == Run(given, envToken, event, folders, apiError)
  {
    if IsTrimmed(given.labelName) && IsTrimmed(given.destinationFolder) &&
       IsTrimmed(given.adrStatus) && IsTrimmed(given.githubToken) {
      TrimOfTrimmed(given.labelName);
      TrimOfTrimmed(given.destinationFolder);
      TrimOfTrimmed(given.adrStatus);
      TrimOfTrimmed(given.githubToken);
    }
  }

  /** Input values are trimmed: white space around a trimmed value is dropped. */
  lemma {:induction false} GetInputTrims(name: string, before: string, value: string, after: string, required: bool)
    requires AllSpace(before) && AllSpace(after) && IsTrimmed(value)
    requires required ==> before + value + after != ""
    ensures GetInput(name, before + value + after, required) == Success(value)
  {
    TrimAround(before, value, after);
  }

  /**
   * A `destination_folder` of white space only passes the required check and
   * reads as empty; the record then goes to `<status>/<name>`, since
   * `path.join` drops the empty segment.
   */
  lemma {:induction false} BlankDestination(blank: string, status: string, issue: Issue,
                                            folders: map<string, seq<string>>)
    requires blank != "" && AllSpace(blank) && status != ""
    ensures GetInput("destination_folder", blank, true) == Success("")
    ensures RecordFile("", status, issue, folders).path == status + "/" + RecordName("", status, issue, folders)
  {
    assert blank + "" + "" == blank;
    GetInputTrims("destination_folder", blank, "", "", true);
  }

  /** A bad status stops the run before anything else is looked at, whatever the event or the folders. */
  lemma {:induction false} InvalidStatusFails(inputs: Inputs, envToken: Option<string>, event: Option<Issue>,
                                              folders: map<string, seq<string>>, apiError: Option<string>)
    requires EffectiveStatus(inputs.adrStatus) !in ValidStatuses
    ensures Run(inputs, envToken, event, folders, apiError) == Failed(InvalidStatusMessage(inputs.adrStatus))
  {
  }

  /** Without an issue in the payload the run fails. */
  lemma {:induction false} NoIssueFails(inputs: Inputs, envToken: Option<string>,
                                        folders: map<string, seq<string>>, apiError: Option<string>)
    requires EffectiveStatus(inputs.adrStatus) in ValidStatuses
    ensures Run(inputs, envToken, None, folders, apiError) == Failed(NoIssueMessage)
  {
  }

  /** An issue without the label is skipped, and nothing is written. */
  lemma {:induction false} UnlabelledIssueSkipped(inputs: Inputs, envToken: Option<string>, issue: Issue,
                                                  folders: map<string, seq<string>>, apiError: Option<string>)
    requires EffectiveStatus(inputs.adrStatus) in ValidStatuses
    requires inputs.labelName !in issue.labels
    ensures Run(inputs, envToken, Some(issue), folders, apiError)
      == Skipped("The issue does not have the label \"" + inputs.labelName + "\". Skipping.")
  {
  }

  /**
   * A labelled issue under a valid status is always written, to
   * `<destination>/<status>/<number>-<slug>.md`, with the rendered record;
   * it is committed exactly when there is a token and the API calls succeed.
   */
  lemma {:induction false} LabelledIssueWritten(inputs: Inputs, envToken: Option<string>, issue: Issue,
                                                folders: map<string, seq<string>>, apiError: Option<string>)
    requires EffectiveStatus(inputs.adrStatus) in ValidStatuses
    requires inputs.labelName in issue.labels
    ensures var o := Run(inputs, envToken, Some(issue), folders, apiError);
      (o.WrittenNotCommitted? || o.Committed?) &&
      o.file == RecordFile(inputs.destinationFolder, EffectiveStatus(inputs.adrStatus), issue, folders) &&
      (o.Committed? <==> ResolveToken(inputs.githubToken, envToken).Some? && apiError.None?)
  {
    assert HasLabel(issue.labels, inputs.labelName);
    var status := EffectiveStatus(inputs.adrStatus);
    assert Run(inputs, envToken, Some(issue), folders, apiError) == Publish(inputs, envToken, status, issue, folders, apiError);
    PublishWrites(inputs, envToken, status, issue, folders, apiError);
  }

  /** Past the label check the record file is always the one `RecordFile` describes. */
  lemma {:induction false} PublishWrites(inputs: Inputs, envToken: Option<string>, status: string, issue: Issue,
                                         folders: map<string, seq<string>>, apiError: Option<string>)
    ensures var o := Publish(inputs, envToken, status, issue, folders, apiError);
      o.file == RecordFile(inputs.destinationFolder, status, issue, folders) &&
      (o.Committed? <==> ResolveToken(inputs.githubToken, envToken).Some? && apiError.None?)
  {
  }

  /**
   * Without a token, whether `GITHUB_TOKEN` is unset or empty, the record is
   * still written, and the run then fails with the token message.
   */
  lemma {:induction false} MissingTokenAfterWrite(inputs: Inputs, envToken: Option<string>, issue: Issue,
                                                  folders: map<string, seq<string>>, apiError: Option<string>)
    requires EffectiveStatus(inputs.adrStatus) in ValidStatuses
    requires inputs.labelName in issue.labels
    requires ResolveToken(inputs.githubToken, envToken).None?
    ensures var o := Run(inputs, envToken, Some(issue), folders, apiError);
      o.WrittenNotCommitted? && o.message == NoTokenMessage &&
      o.file == RecordFile(inputs.destinationFolder, EffectiveStatus(inputs.adrStatus), issue, folders)
  {
    assert HasLabel(issue.labels, inputs.labelName);
    var status := EffectiveStatus(inputs.adrStatus);
    assert Run(inputs, envToken, Some(issue), folders, apiError) == Publish(inputs, envToken, status, issue, folders, apiError);
    PublishWrites(inputs, envToken, status, issue, folders, apiError);
  }

  /** The commit adds the written file at the same path, on `heads/main`, with the issue's number and title. */
  lemma {:induction false} CommitMatchesFile(inputs: Inputs, envToken: Option<string>, issue: Issue,
                                             folders: map<string, seq<string>>)
    requires EffectiveStatus(inputs.adrStatus) in ValidStatuses
    requires inputs.labelName in issue.labels
    requires ResolveToken(inputs.githubToken, envToken).Some?
    ensures var o := Run(inputs, envToken, Some(issue), folders, None);
      o.Committed? &&
      o.commit == CommitPlan(MainRef, o.file.path, BlobMode, o.file.content, CommitMessage(issue.number, issue.title))
  {
    assert HasLabel(issue.labels, inputs.labelName);
  }

  /**
   * The written record has the documented layout: the parsed fields, the
   * placeholders for missing ones and only the optional sections that
   * have text.
   */
  lemma {:induction false} RecordHasLayout(dest: string, status: string, issue: Issue, folders: map<string, seq<string>>)
    ensures RecordFile(dest, status, issue, folders).content
      == Layout(issue.title, status, ParsedFields(BodyText(issue.body)))
  {
    var fields := ParsedFields(BodyText(issue.body));
    ParsedFieldsClean(BodyText(issue.body));
    assert TrimmedFields(fields);
    RenderLayout(issue.title, status, fields);
  }

  lemma {:induction false} FileNameSplit(sequence: string, title: string)
    ensures FileName(sequence, title) == sequence + "-" + (Slug.Slug(title) + ".md")
  {
  }

  /** An issue without a body gives the bare record: every section with its placeholder. */
  lemma {:induction false} BodylessIssueRecord(dest: string, status: string, issue: Issue, folders: map<string, seq<string>>)
    requires issue.body == None
    ensures RecordFile(dest, status, issue, folders).content ==
      "# ADR: " + issue.title
      + "\n\n## Status\n" + Capitalize(status)
      + "\n\n## Context\n" + "No context provided."
      + "\n\n## Decision\n" + "No decision provided."
      + "\n\n## Consequences\n" + "No consequences provided."
  {
    var fields := ParsedFields("");
    forall h | h in multiset{"### Context", "### Decision", "### Consequences", "### Alternatives Considered", "### References"}
      ensures ExtractField("", h) == ""
    {
      AbsentHeadingGivesEmpty("", h);
    }
    assert forall k :: k in fields ==> fields[k] == "";
    EmptyFieldsGivePlaceholders(issue.title, status, fields);
  }

  /** The file name is the sequence number, a dash, a slug of lower-case words joined by dashes, and `.md`. */
  lemma {:induction false} FileNameShape(sequence: string, title: string)
    ensures var name := FileName(sequence, title);
      name == sequence + "-" + Slug.Slug(title) + ".md" && Slug.IsSlugShape(Slug.Slug(title))
  {
    Slug.SlugShape(title);
  }

  /**
   * Below 10000 the new record never replaces a file of its folder: its
   * name starts with the new number, which is above every number there.
   */
  lemma {:induction false} NewRecordIsFresh(dest: string, status: string, issue: Issue, folders: map<string, seq<string>>)
    requires var folder := JoinPath(dest, status);
      folder in folders ==> NextNumber(folders[folder]) <= 9999
    ensures var folder := JoinPath(dest, status);
      var name := FileName(NextSequenceNumber(Listing(folders, folder)), issue.title);
      folder in folders ==> name !in folders[folder]
  {
    var folder := JoinPath(dest, status);
    if folder in folders {
      var files := folders[folder];
      var n := NextNumber(files);
      var rest := Slug.Slug(issue.title) + ".md";
      var name := FileName(NextSequenceNumber(Listing(folders, folder)), issue.title);
      FileNameSplit(FormatSequence(n), issue.title);
      ScanReadsFormatted(n, rest);
      if name in files {
        assert false;
      }
    }
  }

  /**
   * At 10000 the guarantee breaks: a second record for the same title gets
   * the same name as the first, so the write replaces it.
   */
  lemma {:induction false} TenThousandRepeatsName(files: seq<string>, title: string)
    requires NextNumber(files) == 10000
    ensures var name := FileName(FormatSequence(10000), title);
      FileName(FormatSequence(NextNumber(files + [name])), title) == name
  {
    var rest := Slug.Slug(title) + ".md";
    FileNameSplit(FormatSequence(10000), title);
    NumberingStallsAtTenThousand(files, rest);
  }

  /** The record written next into a folder is numbered one above the record just written there. */
  lemma {:induction false} NextRecordFollows(files: seq<string>, title: string)
    requires NextNumber(files) <= 9999
    ensures NextNumber(files + [FileName(FormatSequence(NextNumber(files)), title)]) == NextNumber(files) + 1
  {
    var rest := Slug.Slug(title) + ".md";
    var n := NextNumber(files);
    FileNameSplit(FormatSequence(n), title);
    ScanReadsFormatted(n, rest);
    NextNumberAdvances(files, FormatSequence(n) + "-" + rest);
  }
}
