/** The Python exceptions that can escape a hook's `main`, each a TypeError in the source. */
module PyErrors {
  datatype PyError =
    | SubOnNonText     // re.sub given the structured content when it is not a str
    | SearchOnNonText  // re.search given a response that is not a str
    | SubOnNone        // re.sub given None when the fallback pattern found nothing
    | MissingArgument  // extract_commit_message called with one argument instead of two
}
