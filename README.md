# Verified model of two LLM-backed git hooks

Two git hooks send staged changes to the OpenRouter chat-completions API and write the reply back into the repository:

- `prepare-commit-msg.py` asks for a Conventional Commits message and writes it to the commit message file.
- `keep-a-changelog.py` asks for an updated Keep a Changelog file and writes it over the changelog.

The model covers the logic both hooks share, each hook's `main`, and the commit-header check:

- **Getting the reply text out of the response.** `Extraction` models the primary path `response["choices"][0]["message"]["content"]` and the regex fallback `"content":"([^"]*)"`.
- **Cleaning the reply.** `Cleaning` models the five `re.sub` rewrites.
- **The commit-header check.** `CommitHeader` models it as the anchored regex with backtracking, an existential over split points.
- **Prompt assembly.** `PyFormat` models the subset of `str.format` the hooks use.
- **The request payload.** `Request` models it.
- **Each hook's `main`.** `CommitHook` and `ChangelogHook` model each `main` as a method that appends the observable steps to an effect log (`Effects`): git queries, file reads, the request, file writes and echoed lines.

Everything outside the process is an input field of a `World` value:

- git's answers;
- `OPENROUTER_API_KEY`;
- the decoded JSON response (`JNull` when the request failed);
- whether the changelog exists and can be read;
- whether the write succeeds.

Each `main` method is proved equal to a function (`Run`) of those inputs. The properties are lemmas about that function.

Both hooks, as written, crash or give up before writing anything; see "## Findings". Each hook therefore also has a corrected `main` (`ExecuteCorrected` / `RunCorrected`), and the write-path properties are proved about that version.

The model departs from the hooks' specification in several places. In each case the model follows the code:

- **Case sensitivity.** The specification calls the commit type case-insensitive and says `"Fix: bug"` passes. The regex is case-sensitive, so `CommitHeader.RejectsCapitalisedType` proves that `"Fix: bug"` is rejected.
- **Idempotence.** The specification says cleaning its own output again changes nothing. That is false, and `Cleaning.CleanNotIdempotent` exhibits a reply that a second pass changes.
- **Exit codes.** The specification describes exit code 1 for fatal errors. Both `main`s print the error and `return` normally, so the model has only `Returned` or an escaping exception (`Raised`).
- **Excluded file types.** The specification describes excluding two binary file extensions from the diff. The git commands in the code have no such filter.
- **Error payloads.** The specification describes handling an `error` field in the response. The code never reads it: such a response has no `choices`, and the regex fallback then raises a TypeError on the dict (`Extraction.ExtractWithoutChoices`).
- **The regex fallback on raw text.** The specification says a malformed JSON body that holds a content fragment is still recovered. But `make_api_request` (prepare-commit-msg.py:191-198, keep-a-changelog.py:188-195) only ever returns the decoded JSON or None. The fallback therefore only sees a response that decoded to a top-level JSON string (`Extraction.ExtractFallback`). A body that does not decode never reaches the extractor. With requests 2.27 or later, the decode error is a `RequestException`, so the function returns None. With older versions, the decode error escapes `main`. The model takes the decoded response as an input, so it covers neither case.
- **Edge whitespace of the reply.** The specification says the extractor's output never starts or ends with whitespace. The edge trims run before the escape-word removal, which can expose whitespace again. `Cleaning.CleanNotIdempotent` shows this on `\x  body`, whose cleaned form `"  body"` starts with spaces.
- **The commit hook's empty-diff guard.** `changes` is a `CompletedProcess`, which is always truthy, so the "No staged changes" return at prepare-commit-msg.py:122-124 never happens. The model leaves that branch out of `CommitHook.Execute`.

## Model

| member | source | states |
|---|---|---|
| Text.TrimStartSpec | prepare-commit-msg.py:214 | `^\s+` removal keeps a suffix that does not start with whitespace and removes only whitespace |
| Text.TrimEndSpec | prepare-commit-msg.py:215 | `\s+$` removal keeps a prefix that does not end with whitespace and removes only whitespace |
| Text.StripEdges | keep-a-changelog.py:150 | `strip()` leaves nothing, or text whose first and last elements are not whitespace |
| Text.StripEmptyIff | keep-a-changelog.py:145 | `strip()` gives an empty result exactly when every element is whitespace |
| Cleaning.ReplaceEscapeLeavesNone | prepare-commit-msg.py:212 | a backslash-`c` rewrite whose replacement neither starts with `c` nor holds a backslash leaves no backslash-`c` pair |
| Cleaning.UnescapeNewlinesLeavesNone | prepare-commit-msg.py:212 | after step 1 no backslash is followed by `n` |
| Cleaning.ReplaceEscapeIdentity | prepare-commit-msg.py:212-213 | text without the pair passes through the rewrite unchanged |
| Cleaning.ReplaceEscapeAppend | prepare-commit-msg.py:212-213 | the left-to-right rewrite distributes over a split that does not end in a backslash |
| Cleaning.UnescapeEscapeNewlines | prepare-commit-msg.py:212 | step 1 inverts escaping the newlines of backslash-free text |
| Cleaning.DropCarriageEscapesMayLeaveOne | prepare-commit-msg.py:213 | step 2 can join a backslash to a later `r`: the text with a doubled backslash followed by `rr` becomes backslash-`r` |
| Cleaning.TrimSpaceEdges | prepare-commit-msg.py:214-215 | right after the two trims there is no leading or trailing whitespace |
| Cleaning.LetterRun | prepare-commit-msg.py:216 | the greedy `[a-zA-Z]+` run: all letters, and maximal |
| Cleaning.DropEscapeWordsStartsNonLetter | prepare-commit-msg.py:216 | step 5 keeps a non-letter first character |
| Cleaning.DropEscapeWordsLeavesNone | prepare-commit-msg.py:216 | after step 5 no backslash is followed by an ASCII letter |
| Cleaning.DropEscapeWordsIdentity | prepare-commit-msg.py:216 | text without backslash-letter pairs is unchanged by step 5 |
| Cleaning.DropEscapeWordsIdempotent | prepare-commit-msg.py:216 | step 5 applied twice equals step 5 applied once |
| Cleaning.Clean | keep-a-changelog.py:208-212 | the five rewrites in order; the result has no backslash-letter pair |
| Cleaning.CleanRestoresEscapedText | prepare-commit-msg.py:212-216 | backslash-free text without edge whitespace, with its newlines escaped, is restored exactly |
| Cleaning.CleanWithoutBackslash | prepare-commit-msg.py:212-216 | on backslash-free text the pipeline only trims |
| Cleaning.CleanNotIdempotent | prepare-commit-msg.py:214-216 | the reply `\x  body` cleans to `  body`, and a second pass gives `body` |
| JsonValue.Field | prepare-commit-msg.py:203-204 | `j[key]` succeeds exactly on a dict holding the key, and gives its value |
| JsonValue.First | prepare-commit-msg.py:203-204 | `j[0]` succeeds exactly on a non-empty list or str, and gives the first item of a list or the one-character str of a str |
| Extraction.ChoiceContentOfCompletion | prepare-commit-msg.py:203 | a completion's `choices[0].message.content` is returned verbatim |
| Extraction.QuoteFrom | prepare-commit-msg.py:206 | the first `"` at or after a position, or none |
| Extraction.SearchFrom | prepare-commit-msg.py:206-207 | a capture of the fallback pattern never holds a `"` |
| Extraction.SearchFromLeftmost | prepare-commit-msg.py:206-207 | `re.search` returns the capture of the leftmost match, and none only when nothing matches |
| Extraction.FirstContentRecovers | keep-a-changelog.py:202-203 | a quote-free value after `"content":"` is captured exactly |
| Extraction.RawContent | prepare-commit-msg.py:202-207 | str content from the primary path verbatim, and `SubOnNonText` for any other content; without choices, the first fallback capture on a str response (never holding a `"`), `SubOnNone` when it finds nothing and `SearchOnNonText` on a non-str response |
| Extraction.Extract | prepare-commit-msg.py:201-220 | succeeds exactly when the raw content does, with the raw content put through the five rewrites and no backslash-letter pair left; otherwise raises the raw content's error |
| Extraction.ExtractFallback | keep-a-changelog.py:199-212 | a str response holding a `"content":"…"` fragment whose text has no quote, no backslash and no edge whitespace yields that text |
| Extraction.ExtractCompletion | keep-a-changelog.py:197-212 | a completion with str content yields that content cleaned |
| Extraction.ExtractEscapedReply | keep-a-changelog.py:197-212 | a completion carrying a reply with escaped newlines gives the reply back |
| Extraction.ExtractWithoutChoices | prepare-commit-msg.py:204-206 | a non-str response without choices (a failed request too) raises in the fallback |
| PyFormat.FormatLiteralPrefix | prepare-commit-msg.py:133 | `str.format` copies brace-free text unchanged |
| PyFormat.FormatFillsSlot | keep-a-changelog.py:108-109 | formatting a one-slot template gives prefix, argument, suffix |
| PyFormat.FormatSecondSlotFails | prepare-commit-msg.py:133 | a second `{}` with one argument raises IndexError |
| Request.Roles | prepare-commit-msg.py:183-186 | the roles of the messages, in order |
| Request.BuildPayload | prepare-commit-msg.py:179-187 | not streamed, `["middle-out"]`, the model, messages `[user, system]` carrying the two prompts |
| CommitHeader.ValidateWithSomeType | prepare-commit-msg.py:225-226 | trying the alternatives in order succeeds exactly when one of them fits |
| CommitHeader.ValidateWithIffMatches | prepare-commit-msg.py:225-226 | the executable check accepts exactly what the regex matches, for any type list |
| CommitHeader.ValidateIffMatches | prepare-commit-msg.py:223-228 | `validate_commit_message` is true exactly when the pattern matches |
| CommitHeader.AfterTypeSound | prepare-commit-msg.py:225 | an accepted tail yields the regex's scope and description split points |
| CommitHeader.AfterTypeComplete | prepare-commit-msg.py:225 | any regex split of the tail is accepted |
| CommitHeader.TypeIsLowerWord | prepare-commit-msg.py:225 | every type is a lower-case word of two or more letters |
| CommitHeader.TailStart | prepare-commit-msg.py:225 | right after the type comes `(` or `:` |
| CommitHeader.TailIsOneLine | prepare-commit-msg.py:225 | after the type, a newline can only be the final character |
| CommitHeader.MatchedIsOneLine | prepare-commit-msg.py:225-226 | a matched message has no newline except one at the end |
| CommitHeader.MatchedStartsLowercase | prepare-commit-msg.py:225-226 | a matched message starts with a lower-case letter |
| CommitHeader.AcceptsScopedHeader | prepare-commit-msg.py:225-226 | `feat(api): add login` is accepted |
| CommitHeader.RejectsUntyped | prepare-commit-msg.py:225-226 | `added login` is rejected |
| CommitHeader.RejectsCapitalisedType | prepare-commit-msg.py:225-226 | `Fix: bug` is rejected |
| CommitHeader.RejectsBreakingMarker | prepare-commit-msg.py:225-226 | `feat!: x` is rejected |
| CommitHeader.RejectsBody | prepare-commit-msg.py:225-226 | a header followed by a blank line and a body is rejected |
| CommitHook.Execute | prepare-commit-msg.py:102-142 | the step-by-step `main` produces exactly the log and exit of `Run` |
| CommitHook.ExecuteCorrected | prepare-commit-msg.py:102-153 | the corrected step-by-step `main` produces exactly `RunCorrected` |
| CommitHook.NotRepoStops | prepare-commit-msg.py:112-114 | outside a repository: the check, the error, nothing else |
| CommitHook.NoKeyNoRequest | prepare-commit-msg.py:128-131 | without a key there is no request and no write |
| CommitHook.DeliverExtends | prepare-commit-msg.py:147-153 | a non-empty message: optional format error, exactly one write of it, optional write error |
| CommitHook.FinishExtends | prepare-commit-msg.py:142-153 | after the request: no other request or read, and a write, of the extracted message, exactly when it is non-empty |
| CommitHook.FinishWritesLast | prepare-commit-msg.py:152-153 | a successful write of a non-empty message is the last step |
| CommitHook.FinishDelivers | prepare-commit-msg.py:143-147 | a non-empty extraction goes on to the format check |
| CommitHook.FinishInvalid | prepare-commit-msg.py:147-152 | a message failing the check is reported, then written |
| CommitHook.RunCorrectedSplits | prepare-commit-msg.py:112-142 | with a repository and a key: rev-parse, the diff, the request, then the response handling |
| CommitHook.RequestCarriesPrompts | prepare-commit-msg.py:133-136 | the request carries the user template filled with the changes and the fixed system prompt, to the fixed URL with the bearer key |
| CommitHook.PromptOptionsIgnored | prepare-commit-msg.py:100-101 | the prompt options do not change the run |
| CommitHook.AsWrittenNeverWrites | prepare-commit-msg.py:142 | as written: never a write; after the request the call raises |
| CommitHook.CorrectedWritesExtracted | prepare-commit-msg.py:142-153 | a write happens exactly when the extraction is non-empty, writes that message, after the request |
| CommitHook.EmptyExtractionNoWrite | prepare-commit-msg.py:143-145 | an empty extraction prints the error and does not write |
| CommitHook.InvalidMessageStillWritten | prepare-commit-msg.py:147-152 | a message not matching the pattern gets the error line and is still written |
| CommitHook.CorrectedWritesLast | prepare-commit-msg.py:152-153 | with a successful write the message write is the final step |
| CommitHook.WrittenMessageClean | prepare-commit-msg.py:216 | a written message is non-empty and has no backslash-letter pair |
| CommitHook.CompletionWrittenVerbatim | prepare-commit-msg.py:201-216 | a completion carrying an escaped reply gets that reply written |
| ChangelogHook.ExtractAsWritten | keep-a-changelog.py:213-214 | as written: None whenever the extraction succeeds, the same exception otherwise |
| ChangelogHook.ExtractCorrected | keep-a-changelog.py:197-212 | the cleaned text whenever the extraction succeeds |
| ChangelogHook.UpToRequest | keep-a-changelog.py:93-116 | the step-by-step steps up to the request equal `Prelude` |
| ChangelogHook.Conclude | keep-a-changelog.py:117-132 | the step-by-step steps after the request equal `Respond` |
| ChangelogHook.Execute | keep-a-changelog.py:82-132 | the step-by-step `main` produces exactly `Run` |
| ChangelogHook.ExecuteCorrected | keep-a-changelog.py:82-132 | the corrected `main` produces exactly `RunCorrected` |
| ChangelogHook.StagedIff | keep-a-changelog.py:143-145 | the changelog counts as staged exactly when the query printed a non-whitespace byte |
| ChangelogHook.ChangesTrimmed | keep-a-changelog.py:148-150 | the diff is empty exactly when all whitespace; otherwise it has no edge whitespace |
| ChangelogHook.PreludeReached | keep-a-changelog.py:93-116 | the request is reached exactly with a repository, an unstaged changelog, a non-blank diff and a key |
| ChangelogHook.PreludeSteps | keep-a-changelog.py:93-116 | before the response: no write, and a request only as the last step |
| ChangelogHook.PreludeReads | keep-a-changelog.py:106 | the changelog is read exactly when the diff check passes and it is a file |
| ChangelogHook.RespondExtends | keep-a-changelog.py:117-132 | after the request: no other request or read; a write, of the returned notes, exactly for a truthy response and non-empty notes |
| ChangelogHook.RunWithWrites | keep-a-changelog.py:116-130 | for any extractor result: the write condition and content, always after the request |
| ChangelogHook.RunWithReads | keep-a-changelog.py:97-106 | for any extractor result: the read condition |
| ChangelogHook.RunWithRequest | keep-a-changelog.py:108-116 | for any extractor result: the only request is the one built from the two filled templates |
| ChangelogHook.NotRepoStops | keep-a-changelog.py:93-95 | outside a repository: the check, the error, nothing else |
| ChangelogHook.StagedSkips | keep-a-changelog.py:97-99 | a staged changelog: rev-parse, the name query, the skip line; no diff, read, request or write |
| ChangelogHook.BlankDiffStops | keep-a-changelog.py:101-104 | an all-whitespace diff stops before the read and the key check |
| ChangelogHook.NoKeyNoRequest | keep-a-changelog.py:111-114 | without a key there is no request and no write |
| ChangelogHook.ReadOnlyExistingChangelog | keep-a-changelog.py:106 | both versions read the changelog exactly when the diff check passes and it is a file |
| ChangelogHook.RequestCarriesPrompts | keep-a-changelog.py:108-116 | user template filled with the stripped diff, system template filled with the current changelog, to the fixed URL with the bearer key |
| ChangelogHook.PromptOptionsIgnored | keep-a-changelog.py:80-81 | the prompt options do not change the run |
| ChangelogHook.FalsyResponseStops | keep-a-changelog.py:117-119 | a falsy response prints the error and stops, in both versions |
| ChangelogHook.AsWrittenNeverWrites | keep-a-changelog.py:123-126 | as written: never a write; a successful extraction ends in "Failed to extract" |
| ChangelogHook.CorrectedWritesExtracted | keep-a-changelog.py:123-130 | a write happens exactly for a truthy response and non-empty notes, writes those notes, after the request |
| ChangelogHook.CorrectedReportsWrite | keep-a-changelog.py:128-132 | after the write comes the success line or the write error, matching the write's outcome |
| ChangelogHook.VersionsAgreeUntilExtraction | keep-a-changelog.py:213 | the two versions differ only once a truthy response was extracted |
| ChangelogHook.NotesWritten | keep-a-changelog.py:123-130 | non-empty notes from a truthy response are written just before the final report |

## Left out

- Git, HTTP, JSON decoding and the file system are not modelled as code. Their results are `World` fields, and calling them is an `Effect`.
- UTF-8 decoding of git output is not modelled; a decode error would escape `main`. The diff is taken as already decoded text.
- The `--debug` output and `os.path.realpath` are not modelled: they only echo text. `debug_log` matters only through its return value, which is None.
- Click option parsing and `os.getenv` are not modelled; the options and the key are inputs.
- JSON numbers are integers; floats are not modelled. Only truthiness and subscripting of numbers matter.
- The commit hook formats `changes`, a `CompletedProcess`. Its repr is an opaque string input (`World.changes`), and the dead guard at prepare-commit-msg.py:122-124 is omitted.
- The prompt wording is not modelled. Each template is an opaque brace-free prefix and suffix around one `{}` slot; `SystemPrompt` is an opaque string.
- Only the `str.format` fields the hooks use are modelled: `{}`, `{{` and `}}`. Other field forms give `FieldNotModelled`.
- Exit codes are not modelled: both `main`s return normally on every reported error.

## Findings

| source | as written | input that shows it | evidently intended | confidence | as-written member | corrected member |
|---|---|---|---|---|---|---|
| prepare-commit-msg.py:142 | `extract_commit_message(response)` passes one argument to a two-parameter function, so a TypeError escapes right after the request | any run inside a repository with a non-empty `OPENROUTER_API_KEY` | pass `debug_log` as the second argument, then check, validate and write the message | not executed | CommitHook.AsWrittenNeverWrites | CommitHook.CorrectedWritesExtracted |
| keep-a-changelog.py:213 | the cleaned notes are replaced by the return value of `debug_log`, which is always None, so `main` always reports "Failed to extract" | any truthy response whose content is extracted successfully, e.g. a completion with str content | return the cleaned notes and write them to the changelog | not executed | ChangelogHook.AsWrittenNeverWrites | ChangelogHook.CorrectedWritesExtracted |
