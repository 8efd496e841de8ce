# generate-adr-markdown in Dafny

This project models the GitHub Action in `src/index.ts`. The action turns a
labelled issue into an Architecture Decision Record (ADR) file.

The action reads:

- its inputs;
- the triggering issue;
- the folder `<destination>/<status>`.

It then:

1. parses the five form fields out of the issue body;
2. numbers the new record one above the highest `NNNN-` prefix in the folder;
3. derives a slug from the issue title;
4. renders the Markdown record and writes it;
5. commits the record to `heads/main` through the Git data API.

The model is split into these modules:

- `Wrappers`: `Option` and `Result`.
- `Text`: the parts of JavaScript's string semantics that the core relies on:
  - white space as `\s` and `trim()` define it;
  - trimming;
  - decimal digits;
  - `toString()` and `padStart`.
- `IssueBody`: `parseIssueBody`.
  - Each regex `/### X\s+([\s\S]*?)(?=###|$)/` becomes an explicit scan:
    - find the first heading followed by white space;
    - skip the white space;
    - capture up to the next `###` or the end;
    - trim.
  - The method `ParseIssueBody` keeps the source's loop, which fills the record one field at a time.
- `Sequence`: the pure part of `getNextSequenceNumber`.
  - The folder is an `Option` of file names; `None` means the folder does not exist.
- `Slug`: `toLowerCase().replace(/[^a-z0-9]+/g, '-').replace(/^-|-$/g, '')`.
  - Its reference definition is "the title's words joined by single dashes".
- `Render`: the content template, its `trim()` and the commit message.
  - The reference layout `Layout` states which sections appear.
- `Action`: `run` as a decision function, with cases in the source's order:
  - `Failed`: a required input is missing, the status is invalid, or the event has no issue; the run stops before anything is written;
  - `Skipped`: the label is missing;
  - `WrittenNotCommitted`: the file is written, but there is no token or an API call threw; the source reports this with `setFailed` too;
  - `Committed`: the file is written, and the output includes the commit it produces.
  - `RunAction` starts from the values the runner passes for the inputs; `Run` starts from the values `core.getInput` returns.
- `Example`: a worked example, issue #42 "Adopt gRPC", from the issue body to the file and the commit.

Two of the code's edge cases are stated as lemmas rather than corrected.

- **Numbering stalls at 10000.** With 9999 present, the next record is `10000-…`. The prefix `^(\d{4})-` does not match five digits, so every later record is also numbered 10000. A second record with the same title then replaces the first (`Sequence.NumberingStallsAtTenThousand`, `Action.TenThousandRepeatsName`). The comments in the code say the names follow `0001-*.md` (src/index.ts:38) and that the number is formatted "as a 4-digit string" (src/index.ts:49); `padStart(4, '0')` only pads and never cuts, and the model follows the code.
- **Extra blank lines before References.** When a record has references but no alternatives, the two blank lines of the missing alternatives section stay in the text before `## References` (`Render.Layout`).

## Model

| member | source | states |
|---|---|---|
| Text.IsSpace | src/index.ts:13 | the white space that `\s` and `trim()` share in ECMAScript: the 25 white-space and line-terminator characters |
| Text.Trim | src/index.ts:22 | `trim()`; `TrimIsTrimmed` and `TrimUnique` pin it down as the one part with no white space at either end that only white space surrounds |
| Text.TrimIsTrimmed | src/index.ts:22 | the trimmed text has no white space at either end |
| Text.TrimUnique | src/index.ts:22 | cutting only white space from both ends down to a part with none at either end gives exactly `Trim` |
| Text.TrimOfTrimmed | src/index.ts:22 | a text with no white space at either end is unchanged by `Trim` |
| Text.TrimAround | src/index.ts:122 | white space put around a trimmed text is all removed by `Trim` |
| Text.NatToString | src/index.ts:50 | `toString()`: decimal digits that read back as the number, with no leading zero except for 0 and no more digits than needed |
| Text.PadStart | src/index.ts:50 | `padStart`: the result is `width` long, or the input when that is longer; it ends with the input and has only the pad character before it |
| IssueBody.FindHeading | src/index.ts:13-17 | a position found lies where the heading and one more character fit; with `FindHeadingFound` it is the leftmost match of `heading\s`, and there is none exactly when no position matches |
| IssueBody.FindMarker | src/index.ts:13-17 | the lookahead for `###` or the end: the end found lies between the start and the end of the body; with `FindMarkerStops` it is the first `###` at or after the start, or the end of the body |
| IssueBody.FindMarkerStops | src/index.ts:13-17 | the end found is a `###` unless it is the end of the body, and no `###` starts before it |
| IssueBody.Capture | src/index.ts:13-22 | the group `([\s\S]*?)` after `\s+`, then `trim()`; with `FirstMatchGivesField` and `FieldShape`, the trimmed text up to the next `###`, free of `###` |
| IssueBody.ExtractField | src/index.ts:21-22 | `match ? match[1].trim() : ''` for one heading; `FirstMatchGivesField` gives its value when the heading matches, `AbsentHeadingGivesEmpty` gives `""` when it does not |
| IssueBody.CaptureHasNoMarker | src/index.ts:13-17 | text taken before the first `###` contains no `###` once trimmed |
| IssueBody.ParseIssueBody | src/index.ts:8-26 | the loop over the five regexes returns exactly `ParsedFields(body)`: all five keys, each value trimmed and free of `###` |
| IssueBody.ParsedFields | src/index.ts:12-23 | the record has exactly the keys context, decision, consequences, alternatives, references, and each is the extraction of its own heading |
| IssueBody.ParsedFieldsClean | src/index.ts:13-22 | every parsed value has no white space at either end and contains no `###` |
| IssueBody.FieldShape | src/index.ts:13-22 | one extracted field is trimmed and contains no `###`, whether or not the heading matched |
| IssueBody.AbsentHeadingGivesEmpty | src/index.ts:21-22 | a heading that never occurs followed by white space gives `""` |
| IssueBody.FirstMatchGivesField | src/index.ts:13-22 | the field is the trimmed text between the first `heading\s` match and the next `###` (or the end) |
| IssueBody.LaterTextIgnored | src/index.ts:13-22 | appending text after a matched heading and a later `###` does not change the field: only the first match counts |
| IssueBody.FindHeadingFound | src/index.ts:13-17 | the heading search returns the first position where the heading is followed by white space, and none exists when it returns none |
| Sequence.FourDigitPrefix | src/index.ts:41-42 | `file.match(/^(\d{4})-/)` and `parseInt` of the group: a counted number is at most 9999; with `FourDigitPrefixMatches`, names count exactly when they start with four digits and `-` |
| Sequence.FourDigitPrefixMatches | src/index.ts:41-42 | a name counts exactly when it starts with four digits and `-`, and counts as those digits' decimal value |
| Sequence.ScanIgnoresOtherNames | src/index.ts:41 | `12345-x.md` and `abc.md` are not counted |
| Sequence.PrefixNumbers | src/index.ts:39-44 | the numbers kept are exactly the counted prefixes of the listing |
| Sequence.MaxOf | src/index.ts:47 | `Math.max` returns an element no smaller than any other |
| Sequence.NextNumber | src/index.ts:47 | the next number lies in 1..10000, is above every counted prefix, is 1 when nothing counts, and is otherwise one above a counted prefix |
| Sequence.FormatSequence | src/index.ts:50 | the padded number has at least four digits and reads back as the number; it has exactly four digits below 10000 and is never cut |
| Sequence.NextSequenceNumber | src/index.ts:28-51 | the result is all digits, at least four long, and reads back as 1 for a missing folder or the next number otherwise; a missing folder gives `0001`; the result is exactly four digits long when its value is at most 9999 |
| Sequence.MissingFolderStartsAtOne | src/index.ts:30-33 | a missing folder gives `"0001"` |
| Sequence.NoCountedNameStartsAtOne | src/index.ts:47-50 | an existing folder with no counted name also gives `"0001"` |
| Sequence.NumberAfterHighest | src/index.ts:39-50 | `0001-use-redis.md`, `README.md`, `0003-adopt-grpc.md` give `"0004"` |
| Sequence.NumberAfterLastFourDigit | src/index.ts:47-50 | a folder holding `9999-last.md` gives `"10000"` |
| Sequence.ScanReadsFormatted | src/index.ts:41-50 | a name made from a formatted number below 10000 is read back by the scan as that number |
| Sequence.ScanMissesFiveDigits | src/index.ts:41-50 | a name made from a number of 10000 or more is not counted by the scan |
| Sequence.NextNumberAdvances | src/index.ts:39-47 | adding the file just numbered `n` makes the next number `n + 1` |
| Sequence.NextNumberIgnores | src/index.ts:39-47 | adding a name that is not counted leaves the next number unchanged |
| Sequence.NumberingStallsAtTenThousand | src/index.ts:41-50 | once the next number is 10000, adding the `10000-…` record leaves it at 10000 |
| Slug.Lower | src/index.ts:112 | `toLowerCase()` as far as the slug can tell; with `LowerLeavesNoCapital`, no character that lowers into `[a-z0-9]` is left |
| Slug.Collapse | src/index.ts:112 | `replace(/[^a-z0-9]+/g, '-')`; with `CollapseFromWord`, from a word character it is the words joined by single dashes, plus one dash exactly when the text ends outside a word |
| Slug.CollapseFromWord | src/index.ts:112 | from a word character, the collapsed text is the words joined by single dashes, with one trailing dash exactly when the text ends outside a word |
| Slug.StripEdgeDashes | src/index.ts:112 | the second `replace`, which drops a leading and a trailing dash; with `StripCollapse`, applied to the collapsed text it leaves the words joined by single dashes |
| Slug.StripCollapse | src/index.ts:112 | dropping one leading and one trailing dash from the collapsed text leaves exactly the words joined by single dashes |
| Slug.WordsFrom | src/index.ts:112 | the independent reference for the slug: the maximal `[a-z0-9]` runs of the text, each of them a non-empty word |
| Slug.JoinDash | src/index.ts:112 | the words joined by single dashes; `SlugIsJoinedWords` proves the slug equal to it and `JoinDashShape` gives its shape |
| Slug.Slug | src/index.ts:112 | `sanitizedTitle`; `SlugIsJoinedWords` proves it is the words of the lowered title joined by dashes, `SlugShape` gives its shape |
| Slug.SlugIsJoinedWords | src/index.ts:112 | the slug equals the maximal `[a-z0-9]` runs of the lower-cased title joined by single dashes |
| Slug.SlugShape | src/index.ts:112 | the slug holds only `[a-z0-9-]`, starts and ends with `[a-z0-9]` when non-empty, and has no `--` |
| Slug.SymbolsGiveEmptySlug | src/index.ts:112 | a title whose lower-cased form has no `[a-z0-9]` character gives the empty slug |
| Slug.LowerLeavesNoCapital | src/index.ts:112 | after lower-casing, no character that lowers into `[a-z0-9]` remains |
| Slug.SlugOfTitle | src/index.ts:112 | `Adopt gRPC!` gives `adopt-grpc` |
| Slug.SlugOfExampleTitle | src/index.ts:112 | `Adopt gRPC` gives `adopt-grpc` |
| Render.OrPlaceholder | src/index.ts:98-104 | a field or its placeholder; `EmptyFieldsGivePlaceholders` and `RenderLayout` state where each placeholder appears |
| Render.OptionalSection | src/index.ts:106-108 | an optional section; `RenderLayout` proves it is in the record exactly when its field is non-empty |
| Render.Head | src/index.ts:92-104 | the title line and the four fixed sections; `HeadOfEmptyFields` spells it out for empty fields |
| Render.HeadOfEmptyFields | src/index.ts:92-104 | with every field empty, the head is the title line, the status and the three placeholders under their headings |
| Render.RawContent | src/index.ts:91-109 | the template before `trim()`; `RawContentSplit` proves it is the layout between a leading line break and a run of line breaks |
| Render.RawContentSplit | src/index.ts:91-109 | the template is one line break, the head, each optional section present exactly when its value is non-empty, and then only white space |
| Render.Layout | src/index.ts:91-109 | the reference for the record; `LayoutTrimmed` and `RenderLayout` state its shape and that the written record equals it |
| Render.Render | src/index.ts:122 | `adrContent.trim()`; `RenderLayout` proves it is `Layout` for trimmed fields |
| Render.Capitalize | src/index.ts:95 | the first character is upper-cased and the rest kept |
| Render.StatusHeadings | src/index.ts:95 | the three statuses appear as `Accepted`, `Proposed`, `Rejected` |
| Render.RenderLayout | src/index.ts:91-122 | for trimmed fields the trimmed template equals `Layout`: title line, then Status, Context, Decision and Consequences with placeholders, then Alternatives Considered only if non-empty and References only if non-empty |
| Render.LayoutTrimmed | src/index.ts:91-109 | the layout starts with the `#` of its title line and has no white space at either end |
| Render.EmptyFieldsGivePlaceholders | src/index.ts:97-104 | with every field empty the record is the head with `No context provided.`, `No decision provided.`, `No consequences provided.` and nothing after |
| Render.CommitMessage | src/index.ts:178 | the message starts with `Add ADR #` |
| Render.CommitMessageInjective | src/index.ts:178 | two commit messages are equal only for the same issue number and title |
| Action.EffectiveStatus | src/index.ts:58 | the status input with `proposed` as default; `StatusChoices` shows an empty input becomes `proposed` and the three statuses are kept |
| Action.InvalidStatusMessage | src/index.ts:63 | the `setFailed` text for a bad status; `StatusChoices` spells it out with `accepted, proposed, rejected` |
| Action.MissingInputMessage | src/index.ts:56-57 | the text `@actions/core` throws for a missing required input; `MissingInputFails` gives it for each input |
| Action.ResolveStatus | src/index.ts:58-65 | the status succeeds exactly when the defaulted input is one of the three, with that value; otherwise it fails with the `Invalid adr_status` message |
| Action.StatusChoices | src/index.ts:58-65 | an empty input gives `proposed`; the three statuses pass unchanged; any other value fails with `Invalid adr_status: <value>. Must be one of: accepted, proposed, rejected` |
| Action.HasLabel | src/index.ts:75 | the label check holds exactly when some label name equals the configured name |
| Action.ResolveToken | src/index.ts:126-127 | a non-empty input is the token; with an empty input a non-empty `GITHUB_TOKEN` is the token; there is no token exactly when both are empty or missing |
| Action.GetInput | src/index.ts:56-58 | a required input fails exactly when it is empty, with `Input required and not supplied: <name>`; any other value comes back trimmed, with no white space at either end, unchanged if it had none |
| Action.GetInputTrims | src/index.ts:56-58 | white space around an input value is dropped |
| Action.ReadInputs | src/index.ts:56-58 | reading the inputs fails exactly when `label_name` or `destination_folder` is empty, `label_name` being checked first; the values read are the four inputs, each trimmed |
| Action.RunAction | src/index.ts:53-199 | a missing required input always fails the run; a `Failed` outcome comes only from a missing required input, an invalid status or a missing issue; a skip only from a missing label |
| Action.MissingInputFails | src/index.ts:56-57 | an empty `label_name` fails with `Input required and not supplied: label_name`; otherwise an empty `destination_folder` fails with the same message for that input |
| Action.GivenInputsRun | src/index.ts:56-58 | with both required inputs given, the run works on the four trimmed inputs; with no white space around any value, on the values as given |
| Action.BlankDestination | src/index.ts:57-82 | a `destination_folder` of only white space passes the required check and reads as `""`; the record then goes to `<status>/<name>` |
| Action.JoinPath | src/index.ts:82 | `path.join` of a folder and a name, dropping an empty folder; `BlankDestination` states the empty case |
| Action.BodyText | src/index.ts:88 | the issue body, or `''` when there is none; `BodylessIssueRecord` states the record of an issue without a body |
| Action.FileName | src/index.ts:113 | `${nextSequenceNumber}-${sanitizedTitle}.md`; `FileNameShape` gives its parts and the slug's shape |
| Action.RecordName | src/index.ts:85-113 | the name in `<dest>/<status>`; `NewRecordIsFresh`, `TenThousandRepeatsName` and `NextRecordFollows` state how names follow each other |
| Action.RecordFile | src/index.ts:82-122 | the path and the content written; `RecordHasLayout` proves the content is the layout of the parsed fields, `LabelledIssueWritten` that it is what the run writes |
| Action.Run | src/index.ts:58-199 | a `Failed` outcome, which stops the run before anything is written, comes only from the status or a missing issue; `WrittenNotCommitted`, the source's other failure, comes after the write and carries the token message or the API error; a skip comes only from a missing label; a commit's tree path and blob are the written file's path and content |
| Action.Publish | src/index.ts:112-189 | past the label check the file is always written, and a commit's tree entry is that file |
| Action.InvalidStatusFails | src/index.ts:61-65 | an invalid status fails with its message before the event or the folders are looked at |
| Action.NoIssueFails | src/index.ts:68-72 | with a valid status and no issue, the run fails with the issue-event message |
| Action.UnlabelledIssueSkipped | src/index.ts:75-79 | an issue without the label is skipped with `The issue does not have the label "<name>". Skipping.` and nothing is written |
| Action.LabelledIssueWritten | src/index.ts:82-189 | a labelled issue under a valid status is written to `<dest>/<status>/<NNNN>-<slug>.md` with the rendered record, and committed exactly when there is a token and no API error |
| Action.MissingTokenAfterWrite | src/index.ts:122-130 | when neither the input nor `GITHUB_TOKEN` holds a token, whether `GITHUB_TOKEN` is unset or empty, the record file is still written and the run fails with the token message |
| Action.CommitMatchesFile | src/index.ts:136-189 | the commit targets `heads/main` with mode `100644`, the written path, the written content and `Add ADR #<number>: <title>` |
| Action.RecordHasLayout | src/index.ts:88-122 | the written content is the layout of the parsed body fields |
| Action.BodylessIssueRecord | src/index.ts:88-109 | an issue with no body gives a record with all three placeholders and no optional section |
| Action.FileNameShape | src/index.ts:112-113 | the file name is the number, a dash, a well-formed slug and `.md` |
| Action.NewRecordIsFresh | src/index.ts:41-122 | below 10000 the new file name is not already in the folder, so the write never replaces a record |
| Action.TenThousandRepeatsName | src/index.ts:41-113 | at 10000 the next record for the same title gets the same name again |
| Action.NextRecordFollows | src/index.ts:39-113 | while the number just given is below 10000, the next record in a folder is numbered one above the record just added |
| Example.ExampleFields | src/index.ts:8-26 | the example body gives context `Need RPC.`, decision `Use gRPC.`, consequences `More deps.`, and empty alternatives and references |
| Example.ExampleFile | src/index.ts:82-122 | the example issue is written to `adr/proposed/0001-adopt-grpc.md` with the title line, `Proposed`, the three fields and neither optional section |
| Example.ExampleInputs | src/index.ts:56-58 | the example's inputs `adr`, an empty status and any label and token without white space around them reach the run unchanged |
| Example.ExampleMessage | src/index.ts:178 | the example's commit message is `Add ADR #42: Adopt gRPC` |
| Example.ExampleRun | src/index.ts:53-199 | the whole example run commits that file to `heads/main` with mode `100644` and that message |

## Left out

- File system calls (`existsSync`, `mkdirSync`, `readdirSync`, `writeFileSync`). The folders are a map from path to names, given as input. The write is the `file` part of the outcome. The two `mkdirSync` calls are not modelled; a missing folder is only read as "numbering starts at 0001".
- The Git data API calls (`getRef`, `getCommit`, `createBlob`, `createTree`, `createCommit`, `updateRef`) and Octokit. The outcome carries the commit that would be made: ref, tree path, mode, blob content and message. Commit SHAs and the parent are not modelled; the base64 encoding of the blob is a library call and is left out.
- A failing API call becomes the `apiError` parameter and ends in `WrittenNotCommitted`. Partial effects of earlier successful calls are not modelled.
- `process.env.GITHUB_TOKEN` and `github.context` become parameters, and so do the values the runner passes for the inputs. `core.getInput` belongs to `@actions/core`, which is not part of this model. `GetInput` follows that library's documented behaviour: the required check looks at the value as passed, and the value is then trimmed. The environment token is used as it is, without trimming.
- `core.info` and `core.setFailed` are logging. An outcome's message is the text given to `setFailed`, or to `info` for a skip. The info lines after writing and after pushing are not modelled.
- `async`/`await` are left out. The `catch` clause (src/index.ts:192-197) is modelled for two throws: the API errors, and the error that `getInput` throws for a missing required input (src/index.ts:56-57, `RunAction`). It also catches exceptions from the file system, and those are not modelled.
- `path.join` is modelled as `folder + "/" + name`, with an empty folder dropped as an empty segment (`JoinPath`). Other normalisation is not modelled: `.`, `..`, repeated or trailing separators in `destination_folder`.
- Slug.Lower: models `toLowerCase` only as far as the slug can tell. It covers the ASCII capitals and the two non-ASCII characters that lower into `[a-z0-9]` (KELVIN SIGN, and CAPITAL I WITH DOT ABOVE). Every other character is kept as it is, which gives the same slug.
- Render.Capitalize: upper-cases ASCII letters only. Only the three validated statuses reach it.
- Labels are their names only; a label object without a `name` is not modelled.
- The unused `execSync` import is not modelled.
