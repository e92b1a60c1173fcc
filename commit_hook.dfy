/**
 * The prepare-commit-msg hook's `main` (prepare-commit-msg.py:102-153): a run of
 * guarded early returns over git, the environment, one request and one file write.
 * Each outside answer is a field of `World`; each observable step is an `Effect`.
 */
module CommitHook {
  import opened Wrappers
  import opened JsonValue
  import opened Cleaning
  import opened PyErrors
  import opened Extraction
  import opened PyFormat
  import opened Request
  import opened Effects
  import CommitHeader

  /** USER_PROMPT: its wording is left abstract; it has one `{}` slot and no other brace. */
  const UserTemplate: SlotTemplate

  /** SYSTEM_PROMPT: fixed instruction text, sent unformatted. */
  const SystemPrompt: string

  const ExtractFailedMessage: string := "ERROR: Failed to extract commit message from API response."
  const InvalidFormatMessage: string := "ERROR: Generated message does not follow conventional commit format"

  function WriteFailedMessage(path: string): string {
    "ERROR: Failed to write commit message to " + path
  }

  /** The command-line options; the two prompt overrides are accepted and then overwritten. */
  datatype Options = Options(
    model: string, commitMsgFilename: string, openSource: bool,
    systemPrompt: Option<string>, userPrompt: Option<string>)

  /**
   * What the outside world answers: whether `git rev-parse` succeeds, the text the
   * diff is formatted as, `OPENROUTER_API_KEY`, the decoded response (JNull when the
   * request failed) and whether the file write succeeds.
   */
  datatype World = World(isRepo: bool, changes: string, apiKey: Option<string>, response: Json, writeOk: bool)

  function DiffCommand(openSource: bool): seq<string> {
    if openSource then ["git", "diff", "--cached", "--ignore-all-space"]
    else ["git", "diff", "--cached", "--name-status", "--ignore-all-space"]
  }

  /** The one request: the built-in user template filled with the changes, and the built-in system prompt. */
  function Post(w: World, o: Options): Effect
    requires HasKey(w.apiKey)
  {
    HttpPost(Url, Bearer(w.apiKey.value), BuildPayload(o.model, UserTemplate.Fill(w.changes), SystemPrompt))
  }

  /** The steps up to the request, and whether the run gets that far. */
  function Prelude(w: World, o: Options): (seq<Effect>, bool) {
    if !w.isRepo then ([RunGit(RevParse), Echo(NotRepoMessage, true)], false)
    else if !HasKey(w.apiKey) then ([RunGit(RevParse), RunGit(DiffCommand(o.openSource)), Echo(NoKeyMessage, true)], false)
    else ([RunGit(RevParse), RunGit(DiffCommand(o.openSource)), Post(w, o)], true)
  }

  /** `main` as written: line 142 calls the two-parameter `extract_commit_message` with one argument. */
  function Run(w: World, o: Options): Trace {
    var (log, reached) := Prelude(w, o);
    if !reached then Trace(log, Returned) else Trace(log, Raised(MissingArgument))
  }

  /** The steps after the request, given what the extraction gave back. */
  function Finish(log: seq<Effect>, extracted: Result<string, PyError>, o: Options, writeOk: bool): Trace {
    match extracted
    case Failure(e) => Trace(log, Raised(e))
    case Success(msg) =>
      if msg == "" then Trace(log + [Echo(ExtractFailedMessage, true)], Returned)
      else Deliver(log, msg, CommitHeader.Validate(msg), o, writeOk)
  }

  /** The steps once a non-empty message is in hand, given whether it passed the format check. */
  function Deliver(log: seq<Effect>, msg: string, valid: bool, o: Options, writeOk: bool): Trace {
    var checked := if valid then log else log + [Echo(InvalidFormatMessage, true)];
    var written := checked + [WriteFile(o.commitMsgFilename, msg)];
    if writeOk then Trace(written, Returned)
    else Trace(written + [Echo(WriteFailedMessage(o.commitMsgFilename), true)], Returned)
  }

  /** `main` with `debug_log` passed to `extract_commit_message`, as evidently intended. */
  function RunCorrected(w: World, o: Options): Trace {
    var (log, reached) := Prelude(w, o);
    if !reached then Trace(log, Returned) else Finish(log, Extract(w.response), o, w.writeOk)
  }

  /** `main` as written, step by step. */
  method Execute(w: World, o: Options) returns (log: seq<Effect>, exit: Exit)
    ensures Trace(log, exit) == Run(w, o)
  {
    log := [RunGit(RevParse)];
    exit := Returned;
    if !w.isRepo {
      log := log + [Echo(NotRepoMessage, true)];
      return;
    }
    log := log + [RunGit(DiffCommand(o.openSource))];
    // `changes` is a CompletedProcess, always truthy: the "no staged changes" return never happens.
    if !HasKey(w.apiKey) {
      log := log + [Echo(NoKeyMessage, true)];
      return;
    }
    var user := UserTemplate.Fill(w.changes);
    log := log + [HttpPost(Url, Bearer(w.apiKey.value), BuildPayload(o.model, user, SystemPrompt))];
    exit := Raised(MissingArgument);
  }

  /** The corrected `main`, step by step. */
  method ExecuteCorrected(w: World, o: Options) returns (log: seq<Effect>, exit: Exit)
    ensures Trace(log, exit) == RunCorrected(w, o)
  {
    log := [RunGit(RevParse)];
    exit := Returned;
    if !w.isRepo {
      log := log + [Echo(NotRepoMessage, true)];
      return;
    }
    log := log + [RunGit(DiffCommand(o.openSource))];
    if !HasKey(w.apiKey) {
      log := log + [Echo(NoKeyMessage, true)];
      return;
    }
    var user := UserTemplate.Fill(w.changes);
    log := log + [HttpPost(Url, Bearer(w.apiKey.value), BuildPayload(o.model, user, SystemPrompt))];
    assert log == [RunGit(RevParse), RunGit(DiffCommand(o.openSource)), Post(w, o)];
    var extracted := Extract(w.response);
    if extracted.Failure? {
      exit := Raised(extracted.error);
      return;
    }
    var msg := extracted.value;
    if msg == "" {
      log := log + [Echo(ExtractFailedMessage, true)];
      return;
    }
    var valid := CommitHeader.Validate(msg);
    if !valid {
      log := log + [Echo(InvalidFormatMessage, true)];
    }
    log := log + [WriteFile(o.commitMsgFilename, msg)];
    if !w.writeOk {
      log := log + [Echo(WriteFailedMessage(o.commitMsgFilename), true)];
    }
  }

  // ---------------------------------------------------------------- properties of main

  /** Outside a repository nothing but the check and the error happens. */
  lemma NotRepoStops(w: World, o: Options)
    requires !w.isRepo
    ensures Run(w, o) == RunCorrected(w, o) == Trace([RunGit(RevParse), Echo(NotRepoMessage, true)], Returned)
  {
  }

  /** Without an API key no request is sent and nothing is written, in either version. */
  lemma NoKeyNoRequest(w: World, o: Options)
    requires !HasKey(w.apiKey)
    ensures !Posted(Run(w, o).log) && !Wrote(Run(w, o).log)
    ensures !Posted(RunCorrected(w, o).log) && !Wrote(RunCorrected(w, o).log)
  {
  }

  /** Delivering appends to the log: the format warning if any, the one write, the write error if any. */
  lemma DeliverExtends(log: seq<Effect>, msg: string, valid: bool, o: Options, writeOk: bool)
    ensures var t := Deliver(log, msg, valid, o, writeOk);
      |log| < |t.log| && t.log[..|log|] == log && t.exit == Returned
      && (forall i :: |log| <= i < |t.log| ==> !t.log[i].HttpPost? && !t.log[i].ReadFile?)
      && (forall i :: |log| <= i < |t.log| && t.log[i].WriteFile? ==> t.log[i] == WriteFile(o.commitMsgFilename, msg))
      && t.log[if valid then |log| else |log| + 1] == WriteFile(o.commitMsgFilename, msg)
      && (!valid ==> t.log[|log|] == Echo(InvalidFormatMessage, true))
  {
    var t := Deliver(log, msg, valid, o, writeOk);
    var checked := if valid then log else log + [Echo(InvalidFormatMessage, true)];
    assert t.log[..|checked| + 1] == checked + [WriteFile(o.commitMsgFilename, msg)];
    assert checked[..|log|] == log;
  }

  /** Once the request is sent, the rest of the run appends to the log without sending another. */
  lemma FinishExtends(log: seq<Effect>, x: Result<string, PyError>, o: Options, writeOk: bool)
    ensures var t := Finish(log, x, o, writeOk);
      |log| <= |t.log| && t.log[..|log|] == log
      && (forall i :: |log| <= i < |t.log| ==> !t.log[i].HttpPost? && !t.log[i].ReadFile?)
      && (forall i :: |log| <= i < |t.log| && t.log[i].WriteFile? ==>
            x.Success? && t.log[i] == WriteFile(o.commitMsgFilename, x.value))
      && ((exists i :: |log| <= i < |t.log| && t.log[i].WriteFile?) <==> x.Success? && x.value != "")
  {
    match x
    case Failure(_) =>
    case Success(msg) =>
      if msg != "" {
        var valid := CommitHeader.Validate(msg);
        assert Finish(log, x, o, writeOk) == Deliver(log, msg, valid, o, writeOk);
        DeliverExtends(log, msg, valid, o, writeOk);
      } else {
        assert Finish(log, x, o, writeOk).log == log + [Echo(ExtractFailedMessage, true)];
      }
  }

  /** After the request, a successful write of a non-empty message is the last step and the run returns. */
  lemma FinishWritesLast(log: seq<Effect>, x: Result<string, PyError>, o: Options)
    requires x.Success? && x.value != ""
    ensures var t := Finish(log, x, o, true);
      t.exit == Returned && |t.log| > 0 && t.log[|t.log| - 1] == WriteFile(o.commitMsgFilename, x.value)
  {
    FinishDelivers(log, x, o, true);
  }

  /** The corrected run is the prelude followed by the steps after the request. */
  lemma RunCorrectedSplits(w: World, o: Options)
    requires w.isRepo && HasKey(w.apiKey)
    ensures Prelude(w, o) == ([RunGit(RevParse), RunGit(DiffCommand(o.openSource)), Post(w, o)], true)
    ensures RunCorrected(w, o) == Finish(Prelude(w, o).0, Extract(w.response), o, w.writeOk)
  {
  }

  /**
   * The request carries `USER_PROMPT.format(changes)` in the user slot and the fixed
   * system prompt in the system slot, is not streamed and asks for `middle-out`.
   */
  lemma RequestCarriesPrompts(w: World, o: Options, e: Effect)
    requires e in RunCorrected(w, o).log && e.HttpPost?
    ensures HasKey(w.apiKey) && e.authorization == Bearer(w.apiKey.value) && e.url == Url
    ensures Format(UserTemplate.Text(), w.changes, false) == Success(UserTemplate.Fill(w.changes))
    ensures ContentOf(e.body.messages, "user") == Some(UserTemplate.Fill(w.changes))
    ensures ContentOf(e.body.messages, "system") == Some(SystemPrompt)
    ensures !e.body.stream && e.body.transforms == ["middle-out"] && e.body.model == o.model
  {
    FormatFillsSlot(UserTemplate, w.changes);
    assert w.isRepo && HasKey(w.apiKey);
    RunCorrectedSplits(w, o);
    var log := Prelude(w, o).0;
    var t := RunCorrected(w, o);
    FinishExtends(log, Extract(w.response), o, w.writeOk);
    var i :| 0 <= i < |t.log| && t.log[i] == e;
    assert i < 3;
    assert e == t.log[..3][i] == Post(w, o);
  }

  /** The `--user-prompt` and `--system-prompt` options never reach the request. */
  lemma PromptOptionsIgnored(w: World, o: Options, sp: Option<string>, up: Option<string>)
    ensures Run(w, o) == Run(w, o.(systemPrompt := sp, userPrompt := up))
    ensures RunCorrected(w, o) == RunCorrected(w, o.(systemPrompt := sp, userPrompt := up))
  {
  }

  /** As written the hook never writes the message: it raises right after the request. */
  lemma AsWrittenNeverWrites(w: World, o: Options)
    ensures !Wrote(Run(w, o).log)
    ensures w.isRepo && HasKey(w.apiKey) ==> Posted(Run(w, o).log) && Run(w, o).exit == Raised(MissingArgument)
  {
    var log := Run(w, o).log;
    if w.isRepo && HasKey(w.apiKey) {
      assert log[2].HttpPost?;
    }
  }

  /**
   * The corrected hook writes exactly when the extraction yields a non-empty message,
   * writes that message to the given file, and only after the request.
   */
  lemma CorrectedWritesExtracted(w: World, o: Options)
    ensures Wrote(RunCorrected(w, o).log) <==>
      w.isRepo && HasKey(w.apiKey) && Extract(w.response).Success? && Extract(w.response).value != ""
    ensures forall e :: e in RunCorrected(w, o).log && e.WriteFile? ==>
      e == WriteFile(o.commitMsgFilename, Extract(w.response).value)
    ensures WriteAfterPost(RunCorrected(w, o).log)
  {
    if w.isRepo && HasKey(w.apiKey) {
      RunCorrectedSplits(w, o);
      var log := Prelude(w, o).0;
      var t := RunCorrected(w, o);
      FinishExtends(log, Extract(w.response), o, w.writeOk);
      assert t.log[2] == log[2] && log[2].HttpPost?;
      forall i | 0 <= i < 3 ensures !t.log[i].WriteFile? {
        assert t.log[i] == log[i];
      }
    }
  }

  /** An empty extraction ends the run with an error and no write. */
  lemma EmptyExtractionNoWrite(w: World, o: Options)
    requires w.isRepo && HasKey(w.apiKey) && Extract(w.response) == Success("")
    ensures !Wrote(RunCorrected(w, o).log)
    ensures RunCorrected(w, o).log == Prelude(w, o).0 + [Echo(ExtractFailedMessage, true)]
  {
    RunCorrectedSplits(w, o);
    CorrectedWritesExtracted(w, o);
  }

  /** A non-empty extracted message goes on to be delivered. */
  lemma FinishDelivers(log: seq<Effect>, x: Result<string, PyError>, o: Options, writeOk: bool)
    requires x.Success? && x.value != ""
    ensures Finish(log, x, o, writeOk) == Deliver(log, x.value, CommitHeader.Validate(x.value), o, writeOk)
  {
  }

  /** After the request, a message failing the format check is reported and then written. */
  lemma FinishInvalid(log: seq<Effect>, x: Result<string, PyError>, o: Options, writeOk: bool)
    requires x.Success? && x.value != "" && !CommitHeader.Validate(x.value)
    ensures var t := Finish(log, x, o, writeOk);
      |log| + 1 < |t.log| && t.log[|log|] == Echo(InvalidFormatMessage, true)
      && t.log[|log| + 1] == WriteFile(o.commitMsgFilename, x.value)
  {
    FinishDelivers(log, x, o, writeOk);
    DeliverExtends(log, x.value, false, o, writeOk);
  }

  /** A message that fails the format check is reported and still written. */
  lemma InvalidMessageStillWritten(w: World, o: Options)
    requires w.isRepo && HasKey(w.apiKey)
    requires Extract(w.response).Success? && Extract(w.response).value != ""
    requires !CommitHeader.Matches(Extract(w.response).value)
    ensures var log := RunCorrected(w, o).log;
      log[3] == Echo(InvalidFormatMessage, true)
      && log[4] == WriteFile(o.commitMsgFilename, Extract(w.response).value)
  {
    var x := Extract(w.response);
    CommitHeader.ValidateIffMatches(x.value);
    RunCorrectedSplits(w, o);
    FinishInvalid(Prelude(w, o).0, x, o, w.writeOk);
  }

  /** When the write succeeds, a non-empty extracted message is the last thing that happens. */
  lemma CorrectedWritesLast(w: World, o: Options)
    requires w.isRepo && HasKey(w.apiKey) && w.writeOk
    requires Extract(w.response).Success? && Extract(w.response).value != ""
    ensures RunCorrected(w, o).exit == Returned
    ensures RunCorrected(w, o).log[|RunCorrected(w, o).log| - 1] == WriteFile(o.commitMsgFilename, Extract(w.response).value)
  {
    RunCorrectedSplits(w, o);
    FinishWritesLast(Prelude(w, o).0, Extract(w.response), o);
  }

  /** Whatever is written is non-empty and has no backslash-letter pair left. */
  lemma WrittenMessageClean(w: World, o: Options, e: Effect)
    requires e in RunCorrected(w, o).log && e.WriteFile?
    ensures e.content != "" && Cleaning.NoEscapeWord(e.content)
  {
    CorrectedWritesExtracted(w, o);
  }

  /**
   * A completion whose content is a reply with escaped newlines, no backslash of its own
   * and no whitespace at either end, is written back exactly as that reply.
   */
  lemma CompletionWrittenVerbatim(w: World, o: Options, t: string, choices: seq<Json>, msg: map<string, Json>)
    requires w.isRepo && HasKey(w.apiKey) && w.writeOk
    requires '\\' !in t && t != [] && !Text.IsSpace(t[0]) && !Text.IsSpace(t[|t| - 1])
    requires choices != [] && choices[0] == JObject(msg) && "message" in msg
    requires msg["message"] == JObject(map["content" := JString(EscapeNewlines(t))])
    requires w.response == JObject(map["choices" := JArray(choices)])
    ensures RunCorrected(w, o).exit == Returned
    ensures RunCorrected(w, o).log[|RunCorrected(w, o).log| - 1] == WriteFile(o.commitMsgFilename, t)
  {
    ExtractEscapedReply(t, choices, msg);
    CorrectedWritesLast(w, o);
  }
}
