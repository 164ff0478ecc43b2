# SysKnife: a verified model

This project models the parts of SysKnife where a small mistake would quietly
break a promise, and proves the promises about the model. `dafny verify
dfyconfig.toml` checks it.

| files | what they model |
|---|---|
| `figure_markers`, `figure_shape`, `figure_scan`, `figure_found`, `figure_rewrite`, `figure_passes`, `figure_code`, `figure_taken`, `render_figures`, `figure_truth`, `figure_fixpoint`, `figure_returns`, `figure_limits`, `figure_offsets` | the figure markers in the claim files: what the scan finds, what a run reports and writes, and why a second run changes nothing |
| `civil_date`, `rfc3339` | the audit log's timestamps against the calendar counted day by day |
| `cassette`, `cassette_runs`, `cassette_misses` | the record/replay cassette, with failing writes, restarts and its ledger, and what a replay miss is told |
| `operator_text` | text from the host made safe to print on the operator's terminal |
| `framing`, `journal` | the daemon's length-prefixed frames and the journald encoding |
| `result_screen`, `plan_execution` | what the MCP server hands to the calling assistant: the JSON screen and the halting plan executor |
| `release_install`, `database_migration` | file moves that are all made or all undone, with an undo that can itself fail |
| `toml_blocks`, `toml_quoting`, `agents_rules`, `prompt_queue` | installing and uninstalling as an inverse pair, and the wizard's prompt queue |
| `shell_state` | the desktop shell's reducer over every sequence of actions |
| `text_lines`, `bytes`, `decimal`, `wrappers` | shared text, byte and number helpers |

Objects that the program updates in place are classes, its loops are loops with
invariants, and each method is proved against a function or predicate about
which the lemmas then speak. A world outside the program (a disk, a daemon, a
provider, a clock) is a parameter, and its failures are chosen by an arbitrary
function, so a statement covers every pattern of failure.

Some results differ from what the program's own comments and messages say, and the
model follows the code:

- A `--write` pass is meant to be a fixed point: after one without problems, the next
  run finds the same figures in the same places, nothing stale and nothing to write.
  That is so exactly when every marker comment outside the stored values is in inline
  code, by the backticks of its line, both with the values and without them, or neither
  time (`FigureFixpoint.SettledIff`, and `FigureFixpoint.RunSettlesIff` over all claim
  files). It always holds when newlines are the only line
  boundaries in stored values (`FigureFixpoint.SecondRunOnOneLine`), but `splitlines`
  knows more of them: a stored form feed between two backticks makes the next run find
  another marker and rewrite the file again (`FigureLimits.FormFeedValueBreaksIt`).
- Text outside the values is kept as it is read, so a rewritten file holds no carriage
  return. What is on disk outside the values survives a rewrite exactly when there was
  none (`FigureLimits.SurvivesIff`; `FigureLimits.ReturnLost` is a run that loses one).
- The JSON screen promises to refuse two keys that normalise to the same string. The
  verbatim branch inserts without looking, so a key that normalises to a verbatim name
  which sorts after it is dropped in silence, as "params" with a control character in
  front is (`ResultScreen.SilentDrop`). Nothing is dropped anywhere in a value exactly
  when there is no such key (`ResultScreen.NothingDroppedIff`).
- The bounded operator block counts as shortened every line that ends in the truncation
  marker, so a block can be the whole text and yet not be called complete
  (`OperatorText.WholeButCounted`; exactly when, in `OperatorText.WholeTextIff`).
- The comments on the operator block say that every character rule applies to each
  line. Leading white space is copied as it is, and white space includes characters that
  are dropped elsewhere (`OperatorText.LineHarmlessIff`).
- A replay miss is to be explained by the most specific thing that can be proved. The
  comparison drops a recorded conversation that starts the wanted one or goes on from
  it, so an unrelated one decides: a request that was recorded, and is answered, is
  called never recorded (`CassetteMisses.IntentWasRecorded`), and a divergence is
  reported before the message where the recording stops agreeing
  (`CassetteMisses.DivergedTooEarly`). The prompt and the tools may each come from
  another call (`CassetteMisses.MatchClaimCanBeFalse`), and the limit on tokens is not
  compared (`CassetteMisses.TurnWasRecorded`). `CassetteMisses.ClaimIff` says exactly
  when each explanation is true.
- The shell's header comment lists the modes that have a plan and leaves out
  reviewing, which has one too (`ShellState.FieldsAfter`, `ShellState.ReviewingHasPlan`).
- The database migration says that nothing was moved when its rollback succeeds. A
  sidecar that waits at the destination is overwritten by the first rename and not
  brought back (`DatabaseMigration.WaitingSidecarIsLost`). Whatever renames fail, the
  message is true of the whole disk exactly when no file but the last to be moved has
  one waiting at its destination (`DatabaseMigration.NothingMovedHolds`).
- The uninstaller is to remove what the wizard installed. Lines added behind the installed
  block go with it, up to the next table header in config.toml and the next heading in
  AGENTS.md (`TomlBlocks.RemarkIsLost`, `AgentsRules.RemarkIsLost`; exactly which text
  survives, in `TomlBlocks.AddedSurvivesIff` and `AgentsRules.AddedSurvivesIff`).

## Model

| member | source | states |
|---|---|---|
| `FigurePasses.CodeSpans` | scripts/check_evidence_claims.py:191 | the spans found by pairing backticks left to right cover a character exactly when an odd number of backticks precedes it on the line and another follows |
| `FigurePasses.ScanLine` | scripts/check_evidence_claims.py:191-222 | the loop over one unfenced line finds exactly the tokens and problems of the line's marker comments outside inline code |
| `FigurePasses.ScanText` | scripts/check_evidence_claims.py:180-222 | the loop over lines, with its fence state and running offset, finds the tokens and problems of the whole text |
| `FigurePasses.PairToken` | scripts/check_evidence_claims.py:226-242 | one step of pairing: nested, unopened, line-spanning and well-formed pairs |
| `FigurePasses.FindMarkers` | scripts/check_evidence_claims.py:174-245 | the scanner returns the markers and the structural problems of the text |
| `FigureShape.KeywordIff` | scripts/check_evidence_claims.py:149 | a marker comment starts exactly with a comment opener, white space, perhaps a slash, and the whole word |
| `FigureShape.ShapeIff` | scripts/check_evidence_claims.py:146-218 | what starts one is an opening comment with this name and floor exactly when its text is the opener, the word, a colon and the name, with a floor white space, `floor=` and its digits, and the end; a closing comment, and a floor of zero, likewise |
| `FigureShape.NoEndIff` | scripts/check_evidence_claims.py:198-201 | it is reported as unended exactly when the first `>` behind the keyword is not that of its end |
| `FigureFound.TokenIff` | scripts/check_evidence_claims.py:174-222 | the scan of a text finds exactly its figure comments outside inline code and fenced blocks, each with the name, floor, place and line number it has in the text |
| `FigureFound.ProblemIff` | scripts/check_evidence_claims.py:174-222 | it reports exactly the malformed ones, and the fenced lines that hold one, each by its line number |
| `FigureFound.MarkerSays` | scripts/check_evidence_claims.py:226-242 | every marker is an opening comment that says its name and floor, its value, and a closing comment, in plain prose |
| `FigureFound.OpeningFound` | scripts/check_evidence_claims.py:226-242 | in a text without problems every figure comment in plain prose opens a marker |
| `FigureFound.PlainMarker` | scripts/check_evidence_claims.py:174-245 | a line of plain prose with one figure has exactly that marker: name, floor, value, place, and no problem |
| `FigureScan.ReplaceItems` | scripts/check_evidence_claims.py:174-222 | in a text whose marker comments are all well formed, replacing the text between two tokens, which spans no line boundary, by text without `<`, backtick or line boundary leaves every marker comment as it was, and moves those behind it by the change in length |
| `FigureRewrite.PutOne` | scripts/check_evidence_claims.py:174-245 | replacing one marker's value, when it spans no line boundary, by such text gives a text without problems whose markers are the same but for that value |
| `FigureRewrite.WeaveIsPut` | scripts/render_figures.py:115-144 | the single pass with a cursor equals replacing the values one after the other |
| `FigureRewrite.RewriteRescans` | scripts/render_figures.py:115-144 | where no stored value holds a line boundary, a text rewritten with clean values scans to the same figures in order, holding exactly those values, and is unchanged outside them |
| `FigureTaken.CodeAtInLine` | scripts/check_evidence_claims.py:189-196 | the backtick count by position in the text is the inline code of the line's scan |
| `FigureTaken.EmptiesWellIff` | scripts/render_figures.py:115-144 | the values of a text without problems can be taken out, with every marker scanned back, exactly when each marker comment outside them is in inline code both with and without them or neither time |
| `FigureTaken.RescansIff` | scripts/render_figures.py:115-144 | and so for rewriting with any clean values: it scans back exactly when the comments keep their inline code |
| `FigureRewrite.RewriteIdentity` | scripts/render_figures.py:115-144 | writing the stored values back gives the same text |
| `FigureRewrite.RescansAny` | scripts/render_figures.py:115-144 | whether a rewritten text scans back does not depend on what clean values were written |
| `FigureRewrite.OneLineEmptiesWell` | scripts/render_figures.py:115-144 | values that span no line boundary can always be taken out and put back |
| `FigurePasses.UnwrapMarkers` | scripts/check_evidence_claims.py:248-257 | the cursor loop gives the text with every marker replaced by its value |
| `FigurePasses.MaskMarkers` | scripts/check_evidence_claims.py:260-270 | the cursor loop gives the text with every marker replaced by the placeholder |
| `FigureFound.PlainReading` | scripts/check_evidence_claims.py:248-270 | in such a line the reader sees the value in its place, and the mask leaves the placeholder there |
| `FigurePasses.RewriteKeepsMask` | scripts/check_evidence_claims.py:248-270 | where the values can be taken out, rewriting them leaves the masked text alone and changes the reader's text exactly in the values |
| `RenderFigures.RenderFloor` | scripts/render_figures.py:88-98 | a floor is refused exactly below it; otherwise the text is the greatest multiple of the floor not above the value, and a plus sign |
| `RenderFigures.RenderExact` | scripts/render_figures.py:88-98 | an exact count, of either sign, reads back from its text once the separators are dropped |
| `Decimal.GroupedCommas` | scripts/render_figures.py:88-98 | commas stand before every third digit from the right and nowhere else, and no zero leads |
| `FigureTruth.RenderSays` | scripts/render_figures.py:88-98 | what is rendered says what the source says: a text as it is, a count exactly, under a floor the greatest multiple not above it and a plus sign |
| `RenderFigures.RenderClean` | scripts/render_figures.py:88-98 | what is rendered from a tidy source holds no `<`, backtick or line boundary |
| `RenderFigures.RateIsClean` | scripts/check_evidence_claims.py:1072-1075 | the texts of the registered sources, of the form passed/total, are tidy |
| `RenderFigures.ReadTextExact` | scripts/check_evidence_claims.py:120-134 | the text read from a file is the file's own exactly when the file holds no carriage return |
| `FigureReturns.ReadsReturns` | scripts/check_evidence_claims.py:120-134 | a carriage return, alone or before a newline, is read as one newline, and nothing else changes |
| `RenderFigures.FloorsPositive` | scripts/check_evidence_claims.py:215-218 | no marker has a floor of zero, so rendering never divides by it |
| `RenderFigures.Checkout.ReadValue` | scripts/render_figures.py:72-85 | reading through the cache gives what the source gives |
| `RenderFigures.Checkout.ProcessFile` | scripts/render_figures.py:115-144 | the loop over one file's markers gives its problems, stale markers and new text |
| `RenderFigures.Checkout.Process` | scripts/render_figures.py:101-154 | a run reports all files' problems and stale markers, and rewrites files only when writing was asked for and nothing is wrong |
| `FigureTruth.RunReportsIff` | scripts/render_figures.py:101-154 | a run fails exactly for a missing file or an unreadable source; its problems are exactly those of the scans and of the markers that cannot be rendered, or that there is no marker; its stale markers are exactly those whose value is not the rendering |
| `FigureTruth.QuietRunIsTrue` | scripts/render_figures.py:101-154 | when a run has nothing to report, every figure of every claim file says what its source says |
| `FigureTruth.WrittenRunIsTrue` | scripts/render_figures.py:101-154 | after a `--write` run without problems, with tidy sources and comments that keep their inline code, every figure says what its source says, a rounded one rounded as its comment asks |
| `FigureTruth.WrittenValues` | scripts/render_figures.py:115-144 | whatever the comments, what is written in the place of each value says what its source says |
| `FigureTruth.WritesOnlyWhenAsked` | scripts/render_figures.py:147-153 | nothing is written unless writing was asked for and nothing is wrong |
| `FigureTruth.WrittenFiles` | scripts/render_figures.py:147-153 | the number of files written is the number of files that changed |
| `FigureFixpoint.FileFixpoint` | scripts/render_figures.py:101-154 | with tidy sources, after a pass without problems a file whose marker comments keep their inline code without the values checks clean: same figures, same places, nothing stale, nothing to write |
| `FigureFixpoint.SettledIff` | scripts/render_figures.py:101-154 | with tidy sources, and after a pass without problems, exactly such a file does |
| `FigureFixpoint.SecondRunChangesNothing` | scripts/render_figures.py:101-154 | over all claim files, with tidy sources and comments that keep their inline code: a second run after a `--write` run without problems reports no problem and nothing stale, counts the same markers and changes no byte |
| `FigureFixpoint.SameFiguresAfter` | scripts/render_figures.py:101-154 | under the same conditions each claim file holds the same figures in the same places, and its text as read is otherwise the same |
| `FigureFixpoint.RunSettlesIff` | scripts/render_figures.py:101-154 | over all claim files, after a `--write` run without problems and with tidy sources: the next run reports nothing, writes nothing and finds the same figures in the same places of every file, exactly when the comments of every file keep their inline code |
| `FigureFixpoint.OneLineSameCode` | scripts/render_figures.py:115-144 | where stored values hold no line boundary, every comment keeps its inline code |
| `FigureFixpoint.SecondRunOnOneLine` | scripts/render_figures.py:101-154 | the second run after a `--write` run without problems changes nothing whenever stored values hold no line boundary and sources are tidy |
| `FigureFixpoint.RunTouchesOnlyValues` | scripts/render_figures.py:101-154 | whatever the files hold, a run without problems writes nothing but claim files, and in them the text as read, after newline translation, with other values |
| `FigureLimits.FormFeedValueBreaksIt` | scripts/check_evidence_claims.py:184-191 | a stored value holding a form feed between two backticks: the run succeeds, the next run succeeds too, finds another marker stale, and rewrites the file again |
| `FigureLimits.ReturnsAreLost` | scripts/render_figures.py:147-153 | a rewritten file is the text as read with new values and holds no carriage return; where the file held one, something outside the values has changed |
| `FigureLimits.SurvivesIff` | scripts/render_figures.py:147-153 | when a file is rewritten and its comments keep their inline code, what was on disk outside the values survives exactly when the file held no carriage return |
| `FigureLimits.ReturnLost` | scripts/render_figures.py:147-153 | a run over a file that ends in a carriage return and a newline: one value is brought up to date and the carriage return is gone |
| `FigureReturns.ItemsRead` | scripts/check_evidence_claims.py:120-134 | the text read from a file has the file's own marker comments and problems, line by line, each at the place where it is read |
| `FigureReturns.SoundRead` | scripts/check_evidence_claims.py:174-245 | a file whose text has no problem has none itself, and no marker value of it holds a carriage return |
| `FigureLimits.SameOnDisk` | scripts/render_figures.py:147-153 | without carriage returns, and where comments keep their inline code, the characters on disk outside the values are those that were there |
| `FigureOffsets.FindFloorPluses` | scripts/check_evidence_claims.py:334-338 | the removed positions are exactly the floor pluses, in ascending order |
| `FigureOffsets.Original` | scripts/check_evidence_claims.py:340-344 | the early-return loop gives the least position whose prefix keeps the given number of characters |
| `FigureOffsets.LeastUnique` | scripts/check_evidence_claims.py:340-344 | there is only one such position |
| `FigureOffsets.KeptAndBelow` | scripts/check_evidence_claims.py:334-344 | characters kept before a position and pluses removed before it add up to it |
| `FigureOffsets.SpanMapsBack` | scripts/check_evidence_claims.py:346-349 | mapping both ends of a scanned span back and deleting the pluses gives the span |
| `CivilDate.YearOfEraFits` | crates/sysknife-brain/src/audit.rs:53-58 | the corrected division gives the year whose days hold the day of the era, so no unsigned subtraction goes below zero |
| `CivilDate.CivilSuccessor` | crates/sysknife-brain/src/audit.rs:45-62 | the conversion of the next day is the calendar successor |
| `CivilDate.CivilIsCounted` | crates/sysknife-brain/src/audit.rs:45-62 | for every day count the conversion gives the date reached by counting that many days under the leap-year rule from 1970-01-01 |
| `CivilDate.CountedNumber` | crates/sysknife-brain/src/audit.rs:45-62 | the date counted to is valid and its day number is the count |
| `CivilDate.OnlyDate` | crates/sysknife-brain/src/audit.rs:45-62 | every valid date from 1970-01-01 on is the conversion of its own day number, and of no other |
| `Rfc3339.FormatIsStamp` | crates/sysknife-brain/src/audit.rs:33-65 | the printed text is six fixed-width fields up to the year 9999 |
| `Rfc3339.StampReadsBack` | crates/sysknife-brain/src/audit.rs:33-65 | from 1970 up to the year 9999 the printed text parses by section 5.6 of RFC 3339 to the very second given; a clock before 1970 prints the epoch |
| `Rfc3339.StampParsesIff` | crates/sysknife-brain/src/audit.rs:33-65 | it parses exactly for clocks before the year 10000 |
| `Cassettes.RejectionRoundTrip` | crates/sysknife-brain/src/cassette.rs:168-202 | a storable error comes back as the same variant, message and status |
| `Cassettes.StoredIsSeen` | crates/sysknife-brain/src/cassette.rs:215-220 | an outcome is stored exactly when it is a success or a recordable rejection, and then looks up as itself |
| `Cassettes.FirstDivergence` | crates/sysknife-brain/src/cassette.rs:249-254 | the first message that differs, if the lists differ before one ends |
| `Cassettes.DiagnoseMiss` | crates/sysknife-brain/src/cassette.rs:650-728 | the explanation given is the one the comparisons lead to: prompt and tools each looked for in any recorded call, then the deepest divergence among the calls with both, where conversations of which one starts the other do not count |
| `Cassettes.ExplanationUnique` | crates/sysknife-brain/src/cassette.rs:650-728 | exactly one explanation is given |
| `CassetteMisses.ClaimIff` | crates/sysknife-brain/src/cassette.rs:650-728 | what the explanation says is true exactly when: no entry of the surface lacks a fingerprint; no call with the prompt, or the tools, is answered without one; no longer recorded conversation with both starts the wanted one or goes on from it; or, for a turn, one call has both and none differs in the token limit only |
| `CassetteMisses.RecordedClaimsHold` | crates/sysknife-brain/src/cassette.rs:500-541 | after any recording, with writes failing and restarts anywhere, a miss that is put down to the surface, the prompt or the tools is explained truly: every call with them misses |
| `CassetteMisses.IntentWasRecorded` | crates/sysknife-brain/src/cassette.rs:691-712 | a recording and a replayed call: the request is called never recorded although it was recorded and is answered |
| `CassetteMisses.DivergedTooEarly` | crates/sysknife-brain/src/cassette.rs:691-718 | a recording and a replayed call: the divergence is reported at a message on which a recorded call agrees |
| `CassetteMisses.TurnWasRecorded` | crates/sysknife-brain/src/cassette.rs:718-724 | a recording and a replayed call: the turn is called never recorded although it was, with another token limit |
| `CassetteMisses.MatchClaimIff` | crates/sysknife-brain/src/cassette.rs:650-728 | the message that the prompt and tools match is true of a new intent always, of a new turn exactly when a recorded call with both starts the conversation or goes on from it; it is false exactly when both were recorded but never by one call |
| `CassetteMisses.MatchClaimCanBeFalse` | crates/sysknife-brain/src/cassette.rs:718-724 | a recording and a replayed call: prompt and tools are said to match although no recorded call has both |
| `Cassettes.Cassette.Persist` | crates/sysknife-brain/src/cassette.rs:547-583 | a write puts the document in memory on disk, or changes nothing |
| `Cassettes.Cassette.Note` | crates/sysknife-brain/src/cassette.rs:604-634 | the tally counts, and the ledger gets a line in replay only |
| `Cassettes.Cassette.StoreEntry` | crates/sysknife-brain/src/cassette.rs:500-541 | an entry is written through, or removed from memory again when the write failed |
| `Cassettes.Cassette.Complete` | crates/sysknife-brain/src/cassette.rs:785-861 | one call: served from the document, refused in replay, or asked live and stored |
| `CassetteRuns.RunAgrees` | crates/sysknife-brain/src/cassette.rs:500-541 | over every recording, with writes failing and restarts anywhere, memory and disk show the same for every key and nothing ever shown is changed or lost |
| `CassetteRuns.AskedOnlyWhenUnseen` | crates/sysknife-brain/src/cassette.rs:785-861 | the provider is asked exactly for calls the file on disk shows nothing for |
| `CassetteRuns.OneCallStores` | crates/sysknife-brain/src/cassette.rs:785-861 | after a recorded call that found nothing, the file shows the live answer exactly when it is a completion, or a rejected tool call that is a request, parse or HTTP error, and otherwise nothing; the caller gets the answer |
| `CassetteRuns.OtherCalls` | crates/sysknife-brain/src/cassette.rs:785-861 | a call with a recorded outcome gets it and nothing is asked or written; a failed write is told to the caller when something was to be written |
| `CassetteRuns.RecordingKeepsFirst` | crates/sysknife-brain/src/cassette.rs:785-861 | with writes succeeding the file shows what it showed before, or else the answer of the first call for the key that was a completion or such a rejection |
| `CassetteRuns.RestartsAccepted` | crates/sysknife-brain/src/cassette.rs:337-376 | a recording never leaves a file its own build would refuse to open |
| `CassetteRuns.ReplayServes` | crates/sysknife-brain/src/cassette.rs:785-800 | recorded calls in any order are answered from the document, the provider is not asked, and the ledger grows by one hit each |
| `CassetteRuns.ReplayRefuses` | crates/sysknife-brain/src/cassette.rs:801-820 | an unrecorded call is an error and one more miss line, and still no question to the provider; the prompt is blamed exactly when it is not listed |
| `CassetteRuns.ReadLedger` | crates/sysknife-brain/src/cassette.rs:423-448 | the ledger's tally; an unknown outcome counts as a miss |
| `CassetteRuns.RecordThenReplay` | crates/sysknife-brain/src/cassette.rs:785-861 | from a file this build opens, the recording opens for replay; what is replayed for a key is the answer of the first call that was a completion or a storable rejection, in any order and any number of times, with one more hit per call and no miss in the ledger read back |
| `OperatorText.OperatorSafeChars` | apps/sysknife-cli/src/operator_text.rs:179-230 | the one-pass loop equals: delete the dropped classes, split on runs of blanks, join with single spaces |
| `OperatorText.NeutralIsCanonical` | apps/sysknife-cli/src/operator_text.rs:179-230 | the result holds no dropped character and no leading, trailing or double blank |
| `OperatorText.CanonicalFixed` | apps/sysknife-cli/src/operator_text.rs:179-230 | such a text is left as it is |
| `OperatorText.KeepsVisible` | apps/sysknife-cli/src/operator_text.rs:179-230 | every character that is neither dropped nor blank is shown, in order, and no other |
| `OperatorText.OneMore` | apps/sysknife-cli/src/operator_text.rs:179-230 | one more character is dropped, or shown behind one space exactly when a blank stands between it and what is shown before it |
| `OperatorText.NothingHidden` | apps/sysknife-cli/src/operator_text.rs:186-214 | what is shown holds no control character, none that reorders text and none that hides |
| `OperatorText.OperatorSafe` | apps/sysknife-cli/src/operator_text.rs:169-176 | the capped line is the neutral text, or its first 512 characters and the marker |
| `OperatorText.SafeIs` | apps/sysknife-cli/src/operator_text.rs:169-176 | up to 512 characters are shown as they are; of more, the first 512 and the marker |
| `OperatorText.SafeIdempotent` | apps/sysknife-cli/src/operator_text.rs:169-176 | the capped line is a fixed point, truncated or not, and bounded |
| `OperatorText.OperatorSafeBlock` | apps/sysknife-cli/src/operator_text.rs:54-84 | the first 40 lines rendered in order, one note exactly when lines were dropped, and the counts of dropped and shortened lines |
| `OperatorText.LinesAre` | apps/sysknife-cli/src/operator_text.rs:54-62 | a newline ends a line and takes a carriage return with it; nothing else does |
| `OperatorText.IndentIs` | apps/sysknife-cli/src/operator_text.rs:62-72 | the indentation is all the white space in front of a line |
| `OperatorText.BlockShape` | apps/sysknife-cli/src/operator_text.rs:54-84 | at most forty lines, each its indentation and its safe text, and one line that says how many are missing |
| `OperatorText.OperatorSafeBlockFull` | apps/sysknife-cli/src/operator_text.rs:133-147 | every line rendered without caps |
| `OperatorText.CompleteMeansEverything` | apps/sysknife-cli/src/operator_text.rs:117-124 | complete means at most 40 lines, none ending in the marker; and then the bounded text is the uncapped one |
| `OperatorText.WholeButCounted` | apps/sysknife-cli/src/operator_text.rs:117-124 | whole does not mean complete: the block of a text that is the marker itself is the whole text, and its line is counted as shortened |
| `OperatorText.LeftWholeIff` | apps/sysknife-cli/src/operator_text.rs:169-176 | a line comes out whole exactly when its neutral text fits, or is just as much longer as the marker and ends in it |
| `OperatorText.WholeTextIff` | apps/sysknife-cli/src/operator_text.rs:54-124 | the bounded text is the whole one exactly when every shown line is left whole and at most one line, which reads like the note, is withheld; and it is whole without being called complete exactly when besides a shown line ends in the marker or a line is withheld |
| `OperatorText.LineHarmlessIff` | apps/sysknife-cli/src/operator_text.rs:62-72 | a rendered line holds only harmless characters exactly when its indentation does, which is copied as it is |
| `OperatorText.IndentCopiesSeparator` | apps/sysknife-cli/src/operator_text.rs:62-72 | a line separator in front of a line is copied through |
| `Framing.Source.ReadExact` | apps/sysknife-cli/src/client.rs:217-231 | reading a number of bytes takes exactly those, or fails at the end of the stream |
| `Framing.Source.ReadFramed` | apps/sysknife-cli/src/client.rs:217-231 | one frame read agrees with the independent reading of the wire format and takes exactly the frame |
| `Framing.Source.ReadAll` | fuzz/fuzz_targets/frame_recv.rs:53-70 | reading until the first error gives the bodies and the error the format prescribes |
| `Framing.Sink.WriteFramed` | apps/sysknife-cli/src/client.rs:210-215 | a message is written as its length and its bytes, or refused when the length does not fit |
| `Framing.Expect` | fuzz/fuzz_targets/frame_recv.rs:30-42 | the independent reading of the next frame stays inside the stream |
| `Framing.ExpectIff` | fuzz/fuzz_targets/frame_recv.rs:30-42 | a body is exactly what a frame within the limit carries; a frame is too large exactly when its length bytes announce more than the limit; everything else is cut off |
| `Framing.CutFrame` | fuzz/fuzz_targets/frame_recv.rs:30-42 | a frame cut anywhere ends in an unexpected end of the stream |
| `Bytes.ByteAt` | apps/sysknife-cli/src/client.rs:210-215 | length bytes are the digits to the base 256, least significant first |
| `Framing.EncodedReadsBack` | apps/sysknife-cli/src/client.rs:210-231 | a written list reads back up to the first message over the reader's limit, then its length or the end of the stream |
| `Framing.RoundTripIff` | apps/sysknife-cli/src/client.rs:210-231 | a written list reads back whole exactly when every message is within the reader's limit |
| `Journal.PushField` | crates/sysknife-brain/src/journal.rs:68-83 | one field's bytes in text or binary form |
| `Journal.EncodeMessage` | crates/sysknife-brain/src/journal.rs:67-83 | the loop gives the concatenated fields |
| `Journal.DecodesIff` | crates/sysknife-brain/src/journal.rs:67-83 | a decoder for the protocol returns the field list exactly when no key holds an equals sign or a newline |
| `Journal.EncodingInjective` | crates/sysknife-brain/src/journal.rs:67-83 | two lists with plain keys never share an encoding |
| `TomlBlocks.TextFile.RemoveTomlBlocks` | packages/setup/uninstall.js:117-144 | the file becomes its kept lines with blank runs collapsed, and the result says whether it changed |
| `TomlBlocks.KeptIsSubsequence` | packages/setup/uninstall.js:124-137 | before collapsing, the kept lines are a subsequence of the lines |
| `TomlBlocks.DroppingIff` | packages/setup/uninstall.js:124-137 | a line is inside a dropped stretch exactly when a marker line or sysknife table began one and no other table's header came since |
| `TomlBlocks.KeptNext` | packages/setup/uninstall.js:124-137 | a line is kept exactly when the state that includes it does not drop |
| `TomlBlocks.MarkerIff` | packages/setup/uninstall.js:125 | a marker line is the marker's text with nothing but white space behind it |
| `TomlBlocks.HeaderRead` | packages/setup/uninstall.js:129 | a line of brackets around a name, with white space and a comment where they may stand, is a header with that name |
| `TomlBlocks.HeaderSound` | packages/setup/uninstall.js:129 | and only such a line is |
| `TomlBlocks.KeepsAllIff` | packages/setup/uninstall.js:124-137 | all lines are kept exactly when none starts a dropped stretch |
| `TomlBlocks.RemovedTwice` | packages/setup/uninstall.js:117-144 | removal is idempotent |
| `TomlBlocks.RemovalKeeps` | packages/setup/uninstall.js:139-142 | of the kept lines the words stay as they are, and a run of newlines between them is cut to two |
| `TomlBlocks.RemovalKeepsLines` | packages/setup/uninstall.js:139-142 | every kept line that is not empty is in the file afterwards, in order, and no other |
| `TextLines.EveryText` | packages/setup/uninstall.js:139 | every text is words between runs of newlines |
| `TextLines.CollapseWoven` | packages/setup/uninstall.js:139 | collapsing keeps every word, and every run up to two newlines |
| `TomlBlocks.ServerToToml` | packages/setup/index.js:255-270 | the loop gives the server's block lines |
| `TomlBlocks.ServerReadsBack` | packages/setup/index.js:255-270 | a TOML reader gets command, arguments and environment values back exactly when they hold no control character but tabs |
| `TomlQuoting.QuoteIsEscape` | packages/setup/index.js:214-216 | the two replacements, backslashes first, escape each character on its own |
| `TomlQuoting.QuotedReadsBack` | packages/setup/index.js:214-216 | a quoted text reads back as itself exactly when it holds no control character but tabs |
| `TomlQuoting.ArgsReadBack` | packages/setup/index.js:257-261 | the argument array reads back exactly when each argument does |
| `TomlBlocks.TextFile.InstallToml` | packages/setup/index.js:838-859 | the block is appended, unless the file mentions one |
| `TomlBlocks.ContainsIff` | packages/setup/index.js:846 | the guard is looked for anywhere in the file |
| `TomlBlocks.InstalledTwice` | packages/setup/index.js:838-859 | running the wizard again leaves the file as it is |
| `TomlBlocks.AppendedKept` | packages/setup/uninstall.js:117-144 | removing from the appended text keeps exactly what removing from the original keeps |
| `TomlBlocks.UninstallRestoresIff` | packages/setup/uninstall.js:117-144 | uninstalling restores the file exactly when it has no marker line, no sysknife table and no three newlines in a row |
| `TomlBlocks.AddedKept` | packages/setup/uninstall.js:124-137 | when text was added behind the block, removal keeps of the old file what it keeps without the block, and of the added text what it keeps from the first header of another table on |
| `TomlBlocks.AddedSurvivesIff` | packages/setup/uninstall.js:124-137 | every added line is kept exactly when the added text begins with another table's header and holds no marker line and no sysknife table |
| `TomlBlocks.RemarkIsLost` | packages/setup/uninstall.js:124-137 | a remark written behind the block is lost with it |
| `AgentsRules.IndexOf` | packages/setup/uninstall.js:149-151 | the first occurrence at or after a position |
| `AgentsRules.RulesFile.Install` | packages/setup/index.js:861-873 | the rules are appended unless the file mentions their title |
| `AgentsRules.InstalledTwice` | packages/setup/index.js:861-873 | running the wizard again leaves the file as it is |
| `AgentsRules.RulesFile.RemoveBlock` | packages/setup/uninstall.js:146-157 | the section is cut out up to the next heading |
| `AgentsRules.FoundWhereAppended` | packages/setup/uninstall.js:146-157 | the section is found exactly where it was appended |
| `AgentsRules.RemovedIsTidy` | packages/setup/uninstall.js:146-157 | what removal leaves ends in a newline and has no three newlines in a row |
| `AgentsRules.UninstallRestoresIff` | packages/setup/uninstall.js:146-157 | uninstalling restores the file exactly when it ends in a newline and has no three newlines in a row |
| `AgentsRules.UninstallKeeps` | packages/setup/uninstall.js:146-157 | installing and uninstalling, on any file without the title: its words stay as they are, a run of newlines is cut to two, and a newline is put at the end exactly when there is none |
| `AgentsRules.UninstallKeepsLines` | packages/setup/uninstall.js:146-157 | every line that is not empty is kept, in order |
| `AgentsRules.AddedKeepsLines` | packages/setup/uninstall.js:146-157 | so it is when text was added behind the section, for the old file and the added text from its first heading on |
| `AgentsRules.AddedKept` | packages/setup/uninstall.js:146-157 | when text was added behind the section, removal keeps the old file and the added text from its first second-level heading on |
| `AgentsRules.AddedSurvivesIff` | packages/setup/uninstall.js:150-153 | all of the added text is kept exactly when it begins with such a heading |
| `AgentsRules.RemarkIsLost` | packages/setup/uninstall.js:150-153 | a remark without a heading, written behind the section, is lost with it |
| `ResultScreen.SanitiseResult` | apps/sysknife-cli/src/mcp_server.rs:116-159 | the recursive rewriting with its loops gives the screened value or the refusal |
| `ResultScreen.InsertAscending` | apps/sysknife-cli/src/mcp_server.rs:131-155 | inserting keeps the object's keys ascending and adds a member exactly when the key is new |
| `ResultScreen.ScreenedAfter` | apps/sysknife-cli/src/mcp_server.rs:116-159 | every text and key outside verbatim subtrees comes out in normal form |
| `ResultScreen.UnchangedIff` | apps/sysknife-cli/src/mcp_server.rs:116-159 | the screen leaves a value alone exactly when it is in normal form |
| `ResultScreen.ScreenTwice` | apps/sysknife-cli/src/mcp_server.rs:116-159 | the screen is idempotent for an idempotent normaliser |
| `ResultScreen.RefusedIff` | apps/sysknife-cli/src/mcp_server.rs:143-150 | a value is refused exactly when some object outside the verbatim subtrees has a normalised key that an earlier member already took |
| `ResultScreen.MembersKeptIff` | apps/sysknife-cli/src/mcp_server.rs:131-155 | one object keeps its member count exactly when no earlier key normalises to a verbatim key that follows it |
| `ResultScreen.NothingDroppedIff` | apps/sysknife-cli/src/mcp_server.rs:131-155 | every object of a value outside the verbatim subtrees keeps its member count exactly when none of them has such a key |
| `ResultScreen.ScreenMirrors` | apps/sysknife-cli/src/mcp_server.rs:116-159 | the shape is preserved, verbatim subtrees are untouched, every other member appears under its normal key unless a verbatim member of that name took the place, and nothing is made up |
| `ResultScreen.VerbatimUntouched` | apps/sysknife-cli/src/mcp_server.rs:133-136 | a verbatim member's value comes out unchanged |
| `ResultScreen.NamedUntouched` | apps/sysknife-cli/src/mcp_server.rs:116-136 | the parameters, the transaction's name and the receipt come out unchanged, and only these three are left as they are |
| `ResultScreen.SilentDrop` | apps/sysknife-cli/src/mcp_server.rs:109-115 | a success that loses a member, which the source's comment rules out: a key that reads `params` once its control character is deleted |
| `ResultScreen.StripTwice` | crates/sysknife-brain/src/sanitize.rs:341-370 | deleting the invisible characters is idempotent |
| `PlanExecution.FirstDeciding` | apps/sysknife-cli/src/client.rs:985-1040 | the reads that pass before the one that decides |
| `PlanExecution.HandleFrame` | apps/sysknife-cli/src/client.rs:985-1039 | one frame decides the outcome as the source's table says, or passes after its line went to the callback |
| `PlanExecution.ReadToOutcome` | apps/sysknife-cli/src/client.rs:985-1041 | the callback sees exactly the progress lines before the first deciding frame, in order, that frame alone decides, and what follows stays unread |
| `PlanExecution.DaemonClient.ExecuteWithOutcome` | apps/sysknife-cli/src/client.rs:952-1042 | one request: failures before, during and after sending |
| `PlanExecution.DaemonClient.ExecuteSteps` | apps/sysknife-cli/src/mcp_server.rs:1069-1148 | the requests are a prefix of the steps, all reports but the last are succeeded, the run stops at the first that is not, and a reboot is needed exactly when some report needs one |
| `PlanExecution.SucceededIff` | apps/sysknife-cli/src/mcp_server.rs:1086-1140 | a report says succeeded, unknown or reboot exactly when the outcome does |
| `PlanExecution.AnswersIff` | apps/sysknife-cli/src/client.rs:985-1012 | the outcome is a result exactly when the first frame that is no progress carries it, whatever follows, and then it is that result with every field |
| `PlanExecution.FailureTexts` | apps/sysknife-cli/src/client.rs:985-1039 | what every other deciding frame is reported as, and whether the outcome is then unknown |
| `PlanExecution.UnansweredTexts` | apps/sysknife-cli/src/client.rs:961-992 | what a stream that ends early, and a request that is never answered, are reported as |
| `PlanExecution.OutputGrows` | apps/sysknife-cli/src/client.rs:997-1005 | each progress line adds its stripped text to the output, and nothing else does |
| `PlanExecution.ResultReported` | apps/sysknife-cli/src/mcp_server.rs:1105-1134 | the report of an answered step is the daemon's result field by field, with the status by name |
| `PlanExecution.FailureReported` | apps/sysknife-cli/src/mcp_server.rs:1084-1103 | the report of a step that failed |
| `PlanExecution.RunReports` | apps/sysknife-cli/src/mcp_server.rs:1069-1148 | over a run, a step is succeeded exactly when the first frame of its session that is no progress is a result with that status, and only such a step is followed by another; a reboot likewise |
| `PlanExecution.UnknownIff` | apps/sysknife-cli/src/client.rs:952-1042 | an outcome is unknown exactly when sending failed or the deciding frame is neither a result, an error response nor a well-formed conflict |
| `PlanExecution.LaterFramesIgnored` | apps/sysknife-cli/src/client.rs:985-1041 | frames after the deciding one change nothing |
| `PlanExecution.RunUnique` | apps/sysknife-cli/src/mcp_server.rs:1069-1148 | the daemon's answers leave one possible run |
| `PlanExecution.RunInTwoParts` | apps/sysknife-cli/src/mcp_server.rs:1069-1148 | running a plan is running its first part and, only if all of that succeeded, the rest |
| `PlanExecution.StopsAtTrouble` | apps/sysknife-cli/src/mcp_server.rs:1137-1140 | a report that is not a success is the last one |
| `PlanExecution.TruncateOutput` | apps/sysknife-cli/src/mcp_server.rs:1165-1172 | the first 500 lines and a marker, or all lines |
| `PlanExecution.TruncatedIs` | apps/sysknife-cli/src/mcp_server.rs:1165-1172 | up to 500 lines are shown as they are; of more, the first 500 and a line with the number missing |
| `PlanExecution.TruncationIsHonest` | apps/sysknife-cli/src/mcp_server.rs:1165-1172 | the shown lines determine how many lines there were and agree with them |
| `ReleaseInstall.DeduplicatedNames` | scripts/release_versions.py:231-237 | deduplication keeps every name once |
| `ReleaseInstall.ReleaseFilesOnce` | scripts/release_versions.py:231-237 | every file of the registry is listed exactly once |
| `ReleaseInstall.FileSystem.Replace` | scripts/release_versions.py:280 | a move succeeds wholly or changes nothing |
| `ReleaseInstall.FileSystem.BackUp` | scripts/release_versions.py:265-275 | every file is checked and copied aside before anything is replaced, exactly when all are there and no copy fails |
| `ReleaseInstall.FileSystem.ReplaceAll` | scripts/release_versions.py:277-281 | the files replaced are those before the first move that fails |
| `ReleaseInstall.FileSystem.RollBack` | scripts/release_versions.py:282-288 | every replaced file is restored, last first, or reported exactly when its move back fails |
| `ReleaseInstall.FileSystem.InstallStagedFiles` | scripts/release_versions.py:265-292 | either every release file holds its staged content, or the run fails and every file outside the reported ones holds its original; the reported ones hold the staged content and nothing else changed; it succeeds exactly when all files are there and nothing fails, and which files are reported follows from the moves that fail |
| `DatabaseMigration.StateDirectories.Rename` | packages/setup/install-daemon.js:143 | a rename moves the file with its content or changes nothing |
| `DatabaseMigration.StateDirectories.Migrate` | packages/setup/install-daemon.js:120-165 | note, disk and renames are those of the run as a function of the disk, the suffixes and the failing renames; and what each note means for every file: moved, put back, or stranded exactly as listed |
| `DatabaseMigration.RunFacts` | packages/setup/install-daemon.js:120-165 | what each outcome means for every file, and that a failure is reported only after a failed rename |
| `DatabaseMigration.ForwardIsPrefix` | packages/setup/install-daemon.js:138-146 | the files moved are the present ones in order up to the first failing rename, and it is that rename which ends the loop |
| `DatabaseMigration.WhichNote` | packages/setup/install-daemon.js:120-165 | which note a run gives, and which files it lists, from the renames that fail alone: a file is listed exactly when its rename back fails |
| `DatabaseMigration.ExactlyOnePlace` | packages/setup/install-daemon.js:120-165 | with no sidecar waiting at the destination, whatever renames fail, every file is on exactly one side with its content: the new one exactly when all were moved or it is reported as stranded |
| `DatabaseMigration.NothingMovedIff` | packages/setup/install-daemon.js:149-162 | after a full rollback the disk is as before exactly when no file whose first rename succeeded had displaced one at the destination |
| `DatabaseMigration.NothingMovedHolds` | packages/setup/install-daemon.js:149-162 | over all patterns of failing renames, nothing having been moved means an unchanged disk exactly when no file but the last to be moved has one waiting at its destination |
| `DatabaseMigration.WaitingSidecarIsLost` | packages/setup/install-daemon.js:138-162 | a run over the installer's own files that says nothing was moved and has lost the write-ahead log at the destination |
| `ShellState.FieldsStep` | apps/sysknife-shell/src/shellState.ts:157-376 | every action keeps the nullable fields fitting the mode |
| `ShellState.FieldsAfter` | apps/sysknife-shell/src/shellState.ts:56-66 | after every run the plan is present exactly outside idle and planning, the job id exactly while executing, and the error fields only in their modes |
| `ShellState.ReviewingHasPlan` | apps/sysknife-shell/src/shellState.ts:56-66 | a run that ends in reviewing with the plan still there |
| `ShellState.TimelineStep` | apps/sysknife-shell/src/shellState.ts:379-401 | a heeded action appends one entry with the next number, its text and its colour; a summary, a dismissal, a status change and an unheeded action append none, and a reset empties the timeline |
| `ShellState.UnheededKeeps` | apps/sysknife-shell/src/shellState.ts:157-376 | an action that does not fit the mode leaves the state as it is |
| `ShellState.KindTable` | apps/sysknife-shell/src/shellState.ts:157-376 | an entry's colour says who acted or how it went |
| `ShellState.EntryTexts` | apps/sysknife-shell/src/shellState.ts:157-376 | an entry's text holds the user's or the daemon's words, and names the outcome |
| `ShellState.PayloadStep` | apps/sysknife-shell/src/shellState.ts:157-376 | the error, refusal, result, summary and job on screen are those just reported, and only progress on the side leaves them standing |
| `ShellState.TimelineNumbered` | apps/sysknife-shell/src/shellState.ts:379-401 | timeline ids are 1, 2, ... after every run |
| `ShellState.TimelineIdsDistinct` | apps/sysknife-shell/src/shellState.ts:379-401 | no two entries share an id |
| `ShellState.CarriedAfter` | apps/sysknife-shell/src/shellState.ts:157-376 | the daemon status and the intent on screen are the latest ones after every run |
| `ShellState.StageStep` | apps/sysknife-shell/src/shellState.ts:157-376 | how each action moves the plan on screen between shown, put up for approval and approved |
| `ShellState.HowItGotHere` | apps/sysknife-shell/src/shellState.ts:157-376 | whatever stage the run is in, the plan on screen is the latest shown, its approval was requested and granted in order, each while the shell waited for it |
| `ShellState.ApprovedIff` | apps/sysknife-shell/src/shellState.ts:157-376 | a plan is executing or past executing exactly when it was shown, its approval requested and then granted, and no action has left it behind |
| `ShellState.EndedIff` | apps/sysknife-shell/src/shellState.ts:199-301 | a reboot, a rollback, a failure or a review is on screen exactly when it was reported while the plan was executing and nothing has left the plan behind since |
| `PromptQueue.LineQueue.Ask` | packages/setup/index.js:86-115 | a question takes the oldest line, or waits |
| `PromptQueue.LineQueue.OnLine` | packages/setup/index.js:569-578 | a line answers the oldest waiting question, or is kept |
| `PromptQueue.LineQueue.Serve` | packages/setup/index.js:86-115 | under any interleaving the k-th question gets the k-th line's answer, and what is left waits in order |
| `PromptQueue.FirstInFirstOut` | packages/setup/index.js:86-115 | the state after any interleaving pairs lines and questions in order and loses none; a line that is not blank is the answer, trimmed, and a blank one leaves the default |
| `PromptQueue.OneSideWaits` | packages/setup/index.js:561-579 | lines and questions never wait at the same time |
| `PromptQueue.InterleavingIrrelevant` | packages/setup/index.js:561-579 | the interleaving makes no difference to the outcome |
| `PromptQueue.AskWithoutPrompts` | packages/setup/index.js:86-93 | without prompts a question succeeds exactly when it has a default, and is answered by it |

## Left out

- Sockets, virtual sockets, timeouts as clocks, downloads, systemd, sudo, terminal colour and the wizard's prose: input, output and presentation.
- The approval ceiling, the daemon's job table, the distribution routing and the command line's consent rules: finite tables and one fold, which would add only easy members.
- The prose checks, the pin and publication screens of the scripts: lists of patterns without an invariant.
- The audit chain's verification: the chain code is not part of this model.
- Unique target names in the wizard: not claimed, because a third identical name gets the suffix of the second.
- Word characters at the end of a marker keyword are ASCII letters, digits and the underscore; other letters are not word characters here.
- The figure readers are one fixed function from name to reading, which rewriting the claim files does not change.
- Writing the rewritten claim files is taken to succeed; a write that fails halfway through the files is not modelled.
- FigureRewrite.PutOne: is stated for a stored value without a line boundary, because replacing one that holds one can put a later comment into inline code; all values together are treated exactly in `FigureTaken.RescansIff`.
- FigureRewrite.RewriteRescans: is stated for stored values without a line boundary; for all texts without problems `FigureTaken.RescansIff` says exactly when it holds.
- FigurePasses.RewriteKeepsMask: assumes that the values can be taken out, which `FigureTaken.EmptiesWellIff` characterises.
- FigureScan.ReplaceItems: is stated for a text whose marker comments are all well formed and an old value without a line boundary.
- FigureFixpoint.SecondRunChangesNothing: assumes that text sources hold no `<`, backtick or line boundary, which the registered sources meet (`RenderFigures.RateIsClean`), and that the claim files' marker comments keep their inline code when the values are taken out; without the latter the single file's fixed point fails (`FigureFixpoint.SettledIff`).
- Seconds are whole and the parser reads the one form the program prints; leap seconds, fractions and offsets of RFC 3339 are not modelled. A clock before 1970 counts as second 0, as in the source.
- CassetteMisses.ClaimIff: assumes that what stands under the key of a call is of the surface and carries that call's fingerprint or none, which every recording keeps; the runs that mislead assume that keys and digests do not collide.
- SHA-256, the canonical JSON of a call, the call key and the test for an invalid tool call are parameters of the cassette; a serialised document is taken to read back as itself.
- Errors of reading or parsing the cassette and ledger files, blank ledger lines and file permissions.
- Cassette calls are modelled one at a time. Calls of one provider that overlap are not: two for one key may both ask the provider, and the second answer overwrites an entry that is already visible.
- CassetteRuns.RunAgrees: agreement is about what lookups show; the lists of surfaces and prompts are not rolled back with a failed write, as in the source.
- CassetteRuns.RecordThenReplay: assumes a file, if any, of a version this build opens, a writable ledger, and that every write of the recording and every ledger append of the replay succeeds.
- The asynchronous readers and writers of frames are the same code as the synchronous ones and have no model of their own; an end of stream between frames and one inside a frame are the same error, as in the source.
- ResultScreen.SanitiseResult: the normaliser is a parameter; where it is said, it is assumed idempotent and nothing else. Of the real one only the deletion of invisible characters is written out, for `ResultScreen.SilentDrop`. The value left behind by a refused screen is not modelled.
- PlanExecution.ReadToOutcome: the daemon's stream is finite; a daemon that sends progress for ever is not modelled. JSON parsing and the removal of terminal escapes are parameters.
- ReleaseInstall.FileSystem.InstallStagedFiles: staging, parent directories and the removal of the temporary directory, which holds the backups, are not modelled; a failed copy or move changes nothing.
- TomlBlocks.UninstallRestoresIff: servers have newline-free fields and environment names that start with a letter or an underscore, and the file existed before and was not edited since; for text added behind the block see `TomlBlocks.AddedKept`. File modes are not modelled.
- TomlQuoting.QuotedReadsBack: the reader knows the short escapes of TOML and not the forms with a code point, which the program never writes.
- AgentsRules.UninstallRestoresIff: the installed section is any text that starts with its heading and holds no other second-level heading; the file existed before, did not mention the title and was not edited since; for text added behind the section see `AgentsRules.AddedKept`.
- Prompts on a terminal, which the line editor answers, and the end of the input while a question waits.
- Timestamps of the shell's timeline are parameters of each action.
