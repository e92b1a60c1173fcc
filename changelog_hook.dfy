/**
 * The keep-a-changelog hook's `main` (keep-a-changelog.py:82-132): skip when the
 * changelog is already staged, otherwise send the staged diff and the current
 * changelog in one request and write the reply over the changelog. Each outside
 * answer is a field of `World`; each observable step is an `Effect`.
 */
module ChangelogHook {
  import opened Wrappers
  import opened JsonValue
  import opened PyErrors
  import opened Extraction
  import opened PyFormat
  import opened Request
  import opened Effects
  import opened Text

  /** A byte of the `bytes` git writes to its standard output. */
  newtype byte = x: int | 0 <= x < 256

  /** The bytes `bytes.strip()` removes: tab, line feed, vertical tab, form feed, carriage return, space. */
  predicate IsByteSpace(b: byte) {
    9 <= b <= 13 || b == 32
  }

  /** USER_PROMPT: its wording is left abstract; one `{}` slot for the diff and no other brace. */
  const UserTemplate: SlotTemplate

  /** SYSTEM_PROMPT: its wording is left abstract; one `{}` slot for the current changelog. */
  const SystemTemplate: SlotTemplate

  const GenerateFailedMessage: string := "ERROR: Failed to generate release notes."
  const ExtractFailedMessage: string := "ERROR: Failed to extract release notes from API response."

  function SkipMessage(path: string): string {
    "INFO: Skipping " + path + " update"
  }

  function WriteFailedMessage(path: string): string {
    "ERROR: Failed to write to " + path
  }

  function WrittenMessage(path: string): string {
    "Release notes successfully written to " + path
  }

  /** The command-line options; the two prompt overrides are accepted and then overwritten. */
  datatype Options = Options(
    model: string, changelogFilename: string,
    systemPrompt: Option<string>, userPrompt: Option<string>)

  /**
   * What the outside world answers: whether `git rev-parse` succeeds, the standard
   * output of the staged-name query, the decoded staged diff, whether the changelog is
   * a file and what reading it gives (None when `open` or `read` raises),
   * `OPENROUTER_API_KEY`, the decoded response (JNull when the request failed) and
   * whether the file write succeeds.
   */
  datatype World = World(
    isRepo: bool, stagedOut: seq<byte>, diffText: string,
    isFile: bool, readResult: Option<string>,
    apiKey: Option<string>, response: Json, writeOk: bool)

  function StagedCommand(path: string): seq<string> {
    ["git", "diff", "--cached", "--name-only", "--", path]
  }

  const DiffCommand: seq<string> := ["git", "diff", "--cached", "--ignore-all-space"]

  /** `is_changelog_staged`: the name query printed something besides whitespace. */
  predicate Staged(out: seq<byte>) {
    Strip(out, IsByteSpace) != []
  }

  /** `get_git_diff`: the diff with surrounding whitespace removed. */
  function Changes(w: World): string {
    Strip(w.diffText, IsSpace)
  }

  /** The changelog as sent: its text when it is a readable file, otherwise empty. */
  function CurrentChangelog(w: World): string {
    if w.isFile then w.readResult.GetOr("") else ""
  }

  /** The read of the changelog, made only when `os.path.isfile` holds. */
  function Reads(w: World, o: Options): seq<Effect> {
    if w.isFile then [ReadFile(o.changelogFilename)] else []
  }

  /** The git queries of a run that gets past the staged check. */
  function Queries(o: Options): seq<Effect> {
    [RunGit(RevParse), RunGit(StagedCommand(o.changelogFilename)), RunGit(DiffCommand)]
  }

  /** The run gets as far as sending the request. */
  predicate ReachesRequest(w: World, o: Options) {
    w.isRepo && !Staged(w.stagedOut) && Changes(w) != [] && HasKey(w.apiKey)
  }

  /** The one request: both built-in templates filled, with the diff and with the current changelog. */
  function Post(w: World, o: Options): Effect
    requires HasKey(w.apiKey)
  {
    HttpPost(Url, Bearer(w.apiKey.value),
      BuildPayload(o.model, UserTemplate.Fill(Changes(w)), SystemTemplate.Fill(CurrentChangelog(w))))
  }

  /** The steps up to the request, and whether the run gets that far. */
  function Prelude(w: World, o: Options): (seq<Effect>, bool) {
    if !w.isRepo then ([RunGit(RevParse), Echo(NotRepoMessage, true)], false)
    else if Staged(w.stagedOut) then
      ([RunGit(RevParse), RunGit(StagedCommand(o.changelogFilename)), Echo(SkipMessage(o.changelogFilename), false)], false)
    else if Changes(w) == [] then (Queries(o) + [Echo(NoStagedMessage, false)], false)
    else if !HasKey(w.apiKey) then (Queries(o) + Reads(w, o) + [Echo(NoKeyMessage, true)], false)
    else (Queries(o) + Reads(w, o) + [Post(w, o)], true)
  }

  /**
   * The steps after a truthy response, given what `extract_generated_changelog` returned:
   * an exception, None, or a str.
   */
  function Finish(log: seq<Effect>, extracted: Result<Option<string>, PyError>, path: string, writeOk: bool): Trace {
    match extracted
    case Failure(e) => Trace(log, Raised(e))
    case Success(notes) =>
      if notes.None? || notes.value == "" then Trace(log + [Echo(ExtractFailedMessage, true)], Returned)
      else
        var written := log + [WriteFile(path, notes.value)];
        if writeOk then Trace(written + [Echo(WrittenMessage(path), false)], Returned)
        else Trace(written + [Echo(WriteFailedMessage(path), true)], Returned)
  }

  /** The steps after the request: `if not response`, then the extraction's outcome. */
  function Respond(log: seq<Effect>, w: World, o: Options, extracted: Result<Option<string>, PyError>): Trace {
    if !Truthy(w.response) then Trace(log + [Echo(GenerateFailedMessage, true)], Returned)
    else Finish(log, extracted, o.changelogFilename, w.writeOk)
  }

  /**
   * `extract_generated_changelog` as written: line 213 replaces the cleaned text by
   * what `debug_log` returns, which is always None.
   */
  function ExtractAsWritten(r: Json): (x: Result<Option<string>, PyError>)
    ensures x.Success? <==> Extract(r).Success?
    ensures x.Success? ==> x.value.None?
    ensures x.Failure? ==> x.error == Extract(r).error
  {
    match Extract(r)
    case Success(_) => Success(None)
    case Failure(e) => Failure(e)
  }

  /** `extract_generated_changelog` returning the cleaned text, as evidently intended. */
  function ExtractCorrected(r: Json): (x: Result<Option<string>, PyError>)
    ensures x.Success? <==> Extract(r).Success?
    ensures x.Success? ==> x.value == Some(Extract(r).value)
    ensures x.Failure? ==> x.error == Extract(r).error
  {
    match Extract(r)
    case Success(s) => Success(Some(s))
    case Failure(e) => Failure(e)
  }

  /** `main`, given what the extractor returns for the response. */
  function RunWith(w: World, o: Options, extracted: Result<Option<string>, PyError>): Trace {
    var (log, reached) := Prelude(w, o);
    if !reached then Trace(log, Returned) else Respond(log, w, o, extracted)
  }

  /** `main` as written. */
  function Run(w: World, o: Options): Trace {
    RunWith(w, o, ExtractAsWritten(w.response))
  }

  /** `main` with the extractor returning what it cleaned. */
  function RunCorrected(w: World, o: Options): Trace {
    RunWith(w, o, ExtractCorrected(w.response))
  }

  /** The steps of `main` up to and including the request, one at a time. */
  method UpToRequest(w: World, o: Options) returns (log: seq<Effect>, reached: bool)
    ensures log == Prelude(w, o).0 && reached == Prelude(w, o).1
  {
    var path := o.changelogFilename;
    log := [RunGit(RevParse)];
    reached := false;
    if !w.isRepo {
      log := log + [Echo(NotRepoMessage, true)];
      return;
    }
    log := log + [RunGit(StagedCommand(path))];
    if Staged(w.stagedOut) {
      log := log + [Echo(SkipMessage(path), false)];
      return;
    }
    log := log + [RunGit(DiffCommand)];
    assert log == Queries(o);
    var changes := Strip(w.diffText, IsSpace);
    if changes == [] {
      log := log + [Echo(NoStagedMessage, false)];
      return;
    }
    var current := "";
    if w.isFile {
      log := log + [ReadFile(path)];
      current := w.readResult.GetOr("");
    }
    assert log == Queries(o) + Reads(w, o);
    assert current == CurrentChangelog(w);
    var user := UserTemplate.Fill(changes);
    var system := SystemTemplate.Fill(current);
    if !HasKey(w.apiKey) {
      log := log + [Echo(NoKeyMessage, true)];
      return;
    }
    log := log + [HttpPost(Url, Bearer(w.apiKey.value), BuildPayload(o.model, user, system))];
    reached := true;
  }

  /** The steps after the request, given what the extractor returned, one at a time. */
  method Conclude(log0: seq<Effect>, w: World, o: Options, extracted: Result<Option<string>, PyError>)
    returns (log: seq<Effect>, exit: Exit)
    ensures Trace(log, exit) == Respond(log0, w, o, extracted)
  {
    var path := o.changelogFilename;
    log := log0;
    exit := Returned;
    if !Truthy(w.response) {
      log := log + [Echo(GenerateFailedMessage, true)];
      return;
    }
    if extracted.Failure? {
      exit := Raised(extracted.error);
      return;
    }
    var notes := extracted.value;
    if notes.None? || notes.value == "" {
      log := log + [Echo(ExtractFailedMessage, true)];
      return;
    }
    log := log + [WriteFile(path, notes.value)];
    if !w.writeOk {
      log := log + [Echo(WriteFailedMessage(path), true)];
      return;
    }
    log := log + [Echo(WrittenMessage(path), false)];
  }

  /** `main` as written. */
  method Execute(w: World, o: Options) returns (log: seq<Effect>, exit: Exit)
    ensures Trace(log, exit) == Run(w, o)
  {
    var reached;
    log, reached := UpToRequest(w, o);
    exit := Returned;
    if reached {
      log, exit := Conclude(log, w, o, ExtractAsWritten(w.response));
    }
  }

  /** `main` with the extractor returning what it cleaned. */
  method ExecuteCorrected(w: World, o: Options) returns (log: seq<Effect>, exit: Exit)
    ensures Trace(log, exit) == RunCorrected(w, o)
  {
    var reached;
    log, reached := UpToRequest(w, o);
    exit := Returned;
    if reached {
      log, exit := Conclude(log, w, o, ExtractCorrected(w.response));
    }
  }

  // ---------------------------------------------------------------- properties of main

  /** The staged check fires exactly when the name query printed a non-whitespace byte. */
  lemma StagedIff(out: seq<byte>)
    ensures Staged(out) <==> exists i :: 0 <= i < |out| && !IsByteSpace(out[i])
  {
    StripEmptyIff(out, IsByteSpace);
  }

  /** The diff that is sent is non-empty and has no whitespace at either end. */
  lemma ChangesTrimmed(w: World)
    ensures Changes(w) == [] <==> forall i :: 0 <= i < |w.diffText| ==> IsSpace(w.diffText[i])
    ensures Changes(w) != [] ==> !IsSpace(Changes(w)[0]) && !IsSpace(Changes(w)[|Changes(w)| - 1])
  {
    StripEmptyIff(w.diffText, IsSpace);
    StripEdges(w.diffText, IsSpace);
  }

  /** The run reaches the request exactly under `ReachesRequest`, after the queries and the optional read. */
  lemma PreludeReached(w: World, o: Options)
    ensures Prelude(w, o).1 <==> ReachesRequest(w, o)
    ensures ReachesRequest(w, o) ==> Prelude(w, o).0 == Queries(o) + Reads(w, o) + [Post(w, o)]
  {
  }

  /** Before the response nothing is written, and a request can only be the last step. */
  lemma PreludeSteps(w: World, o: Options)
    ensures !Wrote(Prelude(w, o).0)
    ensures forall i :: 0 <= i < |Prelude(w, o).0| - 1 ==> !Prelude(w, o).0[i].HttpPost?
    ensures Posted(Prelude(w, o).0) <==> ReachesRequest(w, o)
  {
    var log := Prelude(w, o).0;
    if w.isRepo && !Staged(w.stagedOut) && Changes(w) != [] {
      var head := Queries(o) + Reads(w, o);
      assert log == head + [log[|log| - 1]];
      assert forall i :: 0 <= i < |head| ==> head[i].RunGit? || head[i].ReadFile?;
      if HasKey(w.apiKey) {
        assert log[|log| - 1].HttpPost?;
      }
    }
  }

  /** The changelog is read before the response exactly when the diff check passes and it is a file. */
  lemma PreludeReads(w: World, o: Options)
    ensures ReadAny(Prelude(w, o).0) <==> w.isRepo && !Staged(w.stagedOut) && Changes(w) != [] && w.isFile
  {
    var log := Prelude(w, o).0;
    if w.isRepo && !Staged(w.stagedOut) && Changes(w) != [] {
      var head := Queries(o) + Reads(w, o);
      assert log == head + [log[|log| - 1]];
      if w.isFile {
        assert log[3] == ReadFile(o.changelogFilename);
      }
    }
  }

  /** After the request the run only appends: at most one write, of the extracted notes, and no request or read. */
  lemma RespondExtends(log: seq<Effect>, w: World, o: Options, x: Result<Option<string>, PyError>)
    ensures var t := Respond(log, w, o, x);
      |log| <= |t.log| && t.log[..|log|] == log
      && (forall i :: |log| <= i < |t.log| ==> !t.log[i].HttpPost? && !t.log[i].ReadFile?)
      && (forall i :: |log| <= i < |t.log| && t.log[i].WriteFile? ==>
            x.Success? && x.value.Some? && t.log[i] == WriteFile(o.changelogFilename, x.value.value))
      && ((exists i :: |log| <= i < |t.log| && t.log[i].WriteFile?) <==>
            Truthy(w.response) && x.Success? && x.value.Some? && x.value.value != "")
  {
    var t := Respond(log, w, o, x);
    if Truthy(w.response) && x.Success? && x.value.Some? && x.value.value != "" {
      assert t.log[|log|].WriteFile?;
    }
  }

  /** Whatever the extractor returns, a write happens only after the request and only of the notes it returned. */
  lemma RunWithWrites(w: World, o: Options, x: Result<Option<string>, PyError>)
    ensures Wrote(RunWith(w, o, x).log) <==>
      ReachesRequest(w, o) && Truthy(w.response) && x.Success? && x.value.Some? && x.value.value != ""
    ensures forall e :: e in RunWith(w, o, x).log && e.WriteFile? ==>
      x.Success? && x.value.Some? && e == WriteFile(o.changelogFilename, x.value.value)
    ensures WriteAfterPost(RunWith(w, o, x).log)
  {
    PreludeReached(w, o);
    PreludeSteps(w, o);
    if ReachesRequest(w, o) {
      var log := Prelude(w, o).0;
      var t := RunWith(w, o, x);
      assert t == Respond(log, w, o, x);
      RespondExtends(log, w, o, x);
      assert log[|log| - 1].HttpPost?;
      forall i | 0 <= i < |log| ensures t.log[i] == log[i] {
        assert t.log[i] == t.log[..|log|][i];
      }
    }
  }

  /** Whatever the extractor returns, the changelog is read exactly when the diff check passes and it is a file. */
  lemma RunWithReads(w: World, o: Options, x: Result<Option<string>, PyError>)
    ensures ReadAny(RunWith(w, o, x).log) <==> w.isRepo && !Staged(w.stagedOut) && Changes(w) != [] && w.isFile
  {
    PreludeReached(w, o);
    PreludeReads(w, o);
    if ReachesRequest(w, o) {
      var log := Prelude(w, o).0;
      var t := RunWith(w, o, x);
      assert t == Respond(log, w, o, x);
      RespondExtends(log, w, o, x);
      forall i | 0 <= i < |log| ensures t.log[i] == log[i] {
        assert t.log[i] == t.log[..|log|][i];
      }
    }
  }

  /** Whatever the extractor returns, the only request is the one `Post` describes. */
  lemma RunWithRequest(w: World, o: Options, x: Result<Option<string>, PyError>, e: Effect)
    requires e in RunWith(w, o, x).log && e.HttpPost?
    ensures ReachesRequest(w, o) && e == Post(w, o)
  {
    PreludeReached(w, o);
    PreludeSteps(w, o);
    var log := Prelude(w, o).0;
    var t := RunWith(w, o, x);
    var i :| 0 <= i < |t.log| && t.log[i] == e;
    if ReachesRequest(w, o) {
      assert t == Respond(log, w, o, x);
      RespondExtends(log, w, o, x);
      assert e == t.log[..|log|][i] == log[i];
      assert i == |log| - 1;
    }
  }

  /** Outside a repository nothing but the check and the error happens. */
  lemma NotRepoStops(w: World, o: Options)
    requires !w.isRepo
    ensures Run(w, o) == RunCorrected(w, o) == Trace([RunGit(RevParse), Echo(NotRepoMessage, true)], Returned)
  {
  }

  /** A changelog already staged is left alone: no diff, no read, no request, no write. */
  lemma StagedSkips(w: World, o: Options, i: int)
    requires w.isRepo && 0 <= i < |w.stagedOut| && !IsByteSpace(w.stagedOut[i])
    ensures Run(w, o) == RunCorrected(w, o)
    ensures RunCorrected(w, o) == Trace(
      [RunGit(RevParse), RunGit(StagedCommand(o.changelogFilename)), Echo(SkipMessage(o.changelogFilename), false)],
      Returned)
  {
    StagedIff(w.stagedOut);
  }

  /** An all-whitespace diff stops the run before the changelog is read or the key is looked at. */
  lemma BlankDiffStops(w: World, o: Options)
    requires w.isRepo && !Staged(w.stagedOut)
    requires forall i :: 0 <= i < |w.diffText| ==> IsSpace(w.diffText[i])
    ensures Run(w, o) == RunCorrected(w, o) == Trace(Queries(o) + [Echo(NoStagedMessage, false)], Returned)
  {
    ChangesTrimmed(w);
  }

  /** Without an API key no request is sent and nothing is written, in either version. */
  lemma NoKeyNoRequest(w: World, o: Options)
    requires !HasKey(w.apiKey)
    ensures Run(w, o) == RunCorrected(w, o)
    ensures !Posted(RunCorrected(w, o).log) && !Wrote(RunCorrected(w, o).log)
  {
    PreludeReached(w, o);
    PreludeSteps(w, o);
  }

  /** The changelog is read exactly when the run gets past the diff check and it is a file. */
  lemma ReadOnlyExistingChangelog(w: World, o: Options)
    ensures ReadAny(Run(w, o).log) <==> w.isRepo && !Staged(w.stagedOut) && Changes(w) != [] && w.isFile
    ensures ReadAny(RunCorrected(w, o).log) <==> w.isRepo && !Staged(w.stagedOut) && Changes(w) != [] && w.isFile
  {
    RunWithReads(w, o, ExtractAsWritten(w.response));
    RunWithReads(w, o, ExtractCorrected(w.response));
  }

  /**
   * The request carries USER_PROMPT filled with the trimmed diff and SYSTEM_PROMPT filled
   * with the current changelog, is not streamed and asks for `middle-out`.
   */
  lemma RequestCarriesPrompts(w: World, o: Options, e: Effect)
    requires e in RunCorrected(w, o).log && e.HttpPost?
    ensures ReachesRequest(w, o) && e.authorization == Bearer(w.apiKey.value) && e.url == Url
    ensures Format(UserTemplate.Text(), Changes(w), false) == Success(UserTemplate.Fill(Changes(w)))
    ensures Format(SystemTemplate.Text(), CurrentChangelog(w), false) == Success(SystemTemplate.Fill(CurrentChangelog(w)))
    ensures ContentOf(e.body.messages, "user") == Some(UserTemplate.Fill(Changes(w)))
    ensures ContentOf(e.body.messages, "system") == Some(SystemTemplate.Fill(CurrentChangelog(w)))
    ensures !e.body.stream && e.body.transforms == ["middle-out"] && e.body.model == o.model
  {
    FormatFillsSlot(UserTemplate, Changes(w));
    FormatFillsSlot(SystemTemplate, CurrentChangelog(w));
    RunWithRequest(w, o, ExtractCorrected(w.response), e);
  }

  /** The `--user-prompt` and `--system-prompt` options never reach the request. */
  lemma PromptOptionsIgnored(w: World, o: Options, sp: Option<string>, up: Option<string>, x: Result<Option<string>, PyError>)
    ensures RunWith(w, o, x) == RunWith(w, o.(systemPrompt := sp, userPrompt := up), x)
  {
  }

  /** A falsy response (a failed request, or an empty JSON value) is reported and nothing is written. */
  lemma FalsyResponseStops(w: World, o: Options)
    requires ReachesRequest(w, o) && !Truthy(w.response)
    ensures Run(w, o) == RunCorrected(w, o) == Trace(Prelude(w, o).0 + [Echo(GenerateFailedMessage, true)], Returned)
  {
    PreludeReached(w, o);
  }

  /**
   * As written the hook never writes the changelog: whenever extraction succeeds the
   * run reports that it failed.
   */
  lemma AsWrittenNeverWrites(w: World, o: Options)
    ensures !Wrote(Run(w, o).log)
    ensures ReachesRequest(w, o) && Truthy(w.response) && Extract(w.response).Success? ==>
      Run(w, o) == Trace(Prelude(w, o).0 + [Echo(ExtractFailedMessage, true)], Returned)
  {
    var x := ExtractAsWritten(w.response);
    RunWithWrites(w, o, x);
    PreludeReached(w, o);
  }

  /**
   * The corrected hook writes exactly when the response is truthy and the extraction
   * yields non-empty notes, writes those notes to the changelog, and only after the request.
   */
  lemma CorrectedWritesExtracted(w: World, o: Options)
    ensures Wrote(RunCorrected(w, o).log) <==>
      ReachesRequest(w, o) && Truthy(w.response) && Extract(w.response).Success? && Extract(w.response).value != ""
    ensures forall e :: e in RunCorrected(w, o).log && e.WriteFile? ==>
      e == WriteFile(o.changelogFilename, Extract(w.response).value)
    ensures WriteAfterPost(RunCorrected(w, o).log)
  {
    RunWithWrites(w, o, ExtractCorrected(w.response));
  }

  /** After a write the run ends by saying whether it succeeded, and returns. */
  lemma CorrectedReportsWrite(w: World, o: Options)
    requires Wrote(RunCorrected(w, o).log)
    ensures var t := RunCorrected(w, o);
      t.exit == Returned && |t.log| >= 2
      && t.log[|t.log| - 2] == WriteFile(o.changelogFilename, Extract(w.response).value)
      && t.log[|t.log| - 1] == (if w.writeOk then Echo(WrittenMessage(o.changelogFilename), false)
                                else Echo(WriteFailedMessage(o.changelogFilename), true))
  {
    var x := ExtractCorrected(w.response);
    RunWithWrites(w, o, x);
    PreludeReached(w, o);
    assert RunCorrected(w, o) == Finish(Prelude(w, o).0, x, o.changelogFilename, w.writeOk);
  }

  /** The two versions differ only once a truthy response has been extracted successfully. */
  lemma VersionsAgreeUntilExtraction(w: World, o: Options)
    requires !(ReachesRequest(w, o) && Truthy(w.response) && Extract(w.response).Success?)
    ensures Run(w, o) == RunCorrected(w, o)
  {
    PreludeReached(w, o);
  }

  /** Non-empty notes from a truthy response are written, as the step before the final report. */
  lemma NotesWritten(w: World, o: Options)
    requires ReachesRequest(w, o) && Truthy(w.response)
    requires Extract(w.response).Success? && Extract(w.response).value != ""
    ensures var log := RunCorrected(w, o).log;
      |log| >= 2 && log[|log| - 2] == WriteFile(o.changelogFilename, Extract(w.response).value)
  {
    CorrectedWritesExtracted(w, o);
    CorrectedReportsWrite(w, o);
  }
}
