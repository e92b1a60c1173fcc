/** The observable steps of a hook run, recorded in order. */
module Effects {
  import opened Wrappers
  import opened Request
  import opened PyErrors

  datatype Effect =
    | RunGit(args: seq<string>)                                   // a `subprocess.run` of git
    | ReadFile(path: string)                                      // `read_file`
    | HttpPost(url: string, authorization: string, body: Payload) // `requests.post`
    | WriteFile(path: string, content: string)                    // `write_file`
    | Echo(line: string, toStderr: bool)                          // `click.echo`

  /** How `main` ends: it returns normally, or an exception escapes it. */
  datatype Exit = Returned | Raised(error: PyError)

  datatype Trace = Trace(log: seq<Effect>, exit: Exit)

  predicate Posted(log: seq<Effect>) {
    exists i :: 0 <= i < |log| && log[i].HttpPost?
  }

  predicate Wrote(log: seq<Effect>) {
    exists i :: 0 <= i < |log| && log[i].WriteFile?
  }

  predicate ReadAny(log: seq<Effect>) {
    exists i :: 0 <= i < |log| && log[i].ReadFile?
  }

  /** Every write comes after a request. */
  predicate WriteAfterPost(log: seq<Effect>) {
    forall i :: 0 <= i < |log| && log[i].WriteFile? ==> exists j :: 0 <= j < i && log[j].HttpPost?
  }

  const RevParse: seq<string> := ["git", "rev-parse", "--git-dir"]
  const NotRepoMessage: string := "ERROR: Not in a git repository"
  const NoStagedMessage: string := "INFO: No staged changes found. Please stage your changes using 'git add' first."
  const NoKeyMessage: string := "ERROR: No API key found. Please provide the OpenRouter API key as an argument or set the OPENROUTER_API_KEY environment variable."

  /** `os.getenv` found a key and it is not empty (`if not api_key`). */
  predicate HasKey(apiKey: Option<string>) {
    apiKey.Some? && apiKey.value != ""
  }
}
