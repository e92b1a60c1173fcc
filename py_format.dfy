/**
 * `str.format` with one positional argument, as both hooks use it to place the diff
 * (and the current changelog) into a prompt template
 * (prepare-commit-msg.py:133, keep-a-changelog.py:108-109).
 */
module PyFormat {
  import opened Wrappers

  /** The ValueError and IndexError cases of `str.format`, and fields outside the model. */
  datatype FormatError =
    | SingleBrace       // a lone `{` at the end or a lone `}`
    | FieldNotModelled  // a named, numbered or formatted field such as `{0}` or `{x!r}`
    | IndexOutOfRange   // a second `{}` with only one argument

  predicate BraceFree(s: string) {
    '{' !in s && '}' !in s
  }

  function Prepend(p: string, r: Result<string, FormatError>): Result<string, FormatError> {
    match r
    case Success(v) => Success(p + v)
    case Failure(e) => Failure(e)
  }

  /**
   * `t.format(arg)`: `{{` and `}}` stand for single braces and each `{}` takes the next
   * positional argument; `used` says whether the single argument has been taken.
   */
  function Format(t: string, arg: string, used: bool): Result<string, FormatError>
  {
    if t == [] then Success([])
    else if t[0] == '{' then
      if |t| == 1 then Failure(SingleBrace)
      else if t[1] == '{' then Prepend("{", Format(t[2..], arg, used))
      else if t[1] == '}' then
        if used then Failure(IndexOutOfRange) else Prepend(arg, Format(t[2..], arg, true))
      else Failure(FieldNotModelled)
    else if t[0] == '}' then
      if |t| >= 2 && t[1] == '}' then Prepend("}", Format(t[2..], arg, used))
      else Failure(SingleBrace)
    else Prepend([t[0]], Format(t[1..], arg, used))
  }

  /** A prompt template with exactly one `{}` slot between two brace-free texts. */
  datatype Template = Template(prefix: string, suffix: string) {
    predicate WellFormed() {
      BraceFree(prefix) && BraceFree(suffix)
    }

    /** The template as written in the source. */
    function Text(): string {
      prefix + "{}" + suffix
    }

    /** The prompt with `arg` in the slot. */
    function Fill(arg: string): string {
      prefix + arg + suffix
    }
  }

  /** The built-in templates are of this kind. */
  type SlotTemplate = t: Template | t.WellFormed() witness Template("", "")

  /** Brace-free text is copied through and does not touch the argument. */
  lemma {:induction false} FormatLiteralPrefix(p: string, r: string, arg: string, used: bool)
    requires BraceFree(p)
    ensures Format(p + r, arg, used) == Prepend(p, Format(r, arg, used))
  {
    if p == [] {
      assert p + r == r;
      match Format(r, arg, used)
      case Success(v) => assert p + v == v;
      case Failure(_) =>
    } else {
      assert (p + r)[0] == p[0] && p[0] in p;
      assert (p + r)[1..] == p[1..] + r;
      assert Format(p + r, arg, used) == Prepend([p[0]], Format(p[1..] + r, arg, used));
      FormatLiteralPrefix(p[1..], r, arg, used);
      match Format(r, arg, used)
      case Success(v) => assert [p[0]] + (p[1..] + v) == p + v;
      case Failure(_) =>
    }
  }

  /**
   * Filling a well-formed template is exactly `str.format`: the argument appears once,
   * verbatim, between the two fixed texts, and braces inside it are not interpreted.
   */
  lemma FormatFillsSlot(t: Template, arg: string)
    requires t.WellFormed()
    ensures Format(t.Text(), arg, false) == Success(t.Fill(arg))
  {
    var tail := "{}" + t.suffix;
    assert t.Text() == t.prefix + tail;
    FormatLiteralPrefix(t.prefix, tail, arg, false);
    assert tail[0] == '{' && tail[1] == '}' && tail[2..] == t.suffix;
    assert Format(tail, arg, false) == Prepend(arg, Format(t.suffix, arg, true));
    FormatLiteralPrefix(t.suffix, [], arg, true);
    assert t.suffix + [] == t.suffix;
    assert Format(t.suffix, arg, true) == Success(t.suffix);
    assert t.prefix + (arg + t.suffix) == t.Fill(arg);
  }

  /** A template with a second `{}` slot makes `str.format` raise IndexError. */
  lemma FormatSecondSlotFails(p: string, m: string, s: string, arg: string)
    requires BraceFree(p) && BraceFree(m)
    ensures Format(p + "{}" + m + "{}" + s, arg, false) == Failure(IndexOutOfRange)
  {
    assert p + "{}" + m + "{}" + s == p + ("{}" + (m + "{}" + s));
    FormatLiteralPrefix(p, "{}" + (m + "{}" + s), arg, false);
    assert ("{}" + (m + "{}" + s))[2..] == m + ("{}" + s);
    FormatLiteralPrefix(m, "{}" + s, arg, true);
  }
}
