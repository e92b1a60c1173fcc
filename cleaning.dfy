/**
 * The five ordered `re.sub` rewrites both hooks apply to the model's reply
 * (prepare-commit-msg.py:212-216, keep-a-changelog.py:208-212).
 */
module Cleaning {
  import opened Text

  /** No backslash is immediately followed by `c`. */
  predicate NoEscape(s: string, c: char) {
    forall i :: 0 <= i < |s| - 1 ==> !(s[i] == '\\' && s[i + 1] == c)
  }

  /**
   * `re.sub(r'\\' + c, rep, s)`: scanning left to right without overlap, every
   * backslash immediately followed by `c` becomes `rep`; every other character is kept.
   */
  function ReplaceEscape(s: string, c: char, rep: string): string
  {
    if |s| == 0 then []
    else if |s| >= 2 && s[0] == '\\' && s[1] == c then rep + ReplaceEscape(s[2..], c, rep)
    else [s[0]] + ReplaceEscape(s[1..], c, rep)
  }

  /** Step 1: each literal two-character `\n` becomes a newline. */
  function UnescapeNewlines(s: string): string {
    ReplaceEscape(s, 'n', "\n")
  }

  /** Step 2: each literal two-character `\r` is deleted. */
  function DropCarriageEscapes(s: string): string {
    ReplaceEscape(s, 'r', "")
  }

  /** Steps 3 and 4: `^\s+` and `\s+$` replaced by nothing. */
  function TrimSpace(s: string): string {
    TrimEnd(TrimStart(s, IsSpace), IsSpace)
  }

  /** Length of the longest prefix of `s` made of ASCII letters. */
  function LetterRun(s: string): (n: nat)
    ensures n <= |s|
    ensures forall i :: 0 <= i < n ==> IsAsciiLetter(s[i])
    ensures n == |s| || !IsAsciiLetter(s[n])
  {
    if s != [] && IsAsciiLetter(s[0]) then 1 + LetterRun(s[1..]) else 0
  }

  /** No backslash is immediately followed by an ASCII letter. */
  predicate NoEscapeWord(s: string) {
    forall i :: 0 <= i < |s| - 1 ==> !(s[i] == '\\' && IsAsciiLetter(s[i + 1]))
  }

  /** Step 5: `re.sub(r'\\[a-zA-Z]+', '', s)`; the greedy letter run goes with its backslash. */
  function DropEscapeWords(s: string): string
  {
    if |s| == 0 then []
    else if |s| >= 2 && s[0] == '\\' && IsAsciiLetter(s[1]) then DropEscapeWords(s[1 + LetterRun(s[1..])..])
    else [s[0]] + DropEscapeWords(s[1..])
  }

  /** The whole cleaning pipeline, in the source's order. */
  function Clean(s: string): (r: string)
    ensures NoEscapeWord(r)
  {
    var t := TrimSpace(DropCarriageEscapes(UnescapeNewlines(s)));
    DropEscapeWordsLeavesNone(t);
    DropEscapeWords(t)
  }

  /** The inverse direction of step 1: each newline written as a backslash and `n`. */
  function EscapeNewlines(t: string): string
  {
    if t == [] then []
    else if t[0] == '\n' then "\\n" + EscapeNewlines(t[1..])
    else [t[0]] + EscapeNewlines(t[1..])
  }

  // ---------------------------------------------------------------- steps 1 and 2

  lemma NoEscapeConcat(a: string, b: string, c: char)
    requires NoEscape(a, c) && NoEscape(b, c)
    requires a == [] || b == [] || a[|a| - 1] != '\\' || b[0] != c
    ensures NoEscape(a + b, c)
  {
    var s := a + b;
    forall i | 0 <= i < |s| - 1 ensures !(s[i] == '\\' && s[i + 1] == c) {
      if i + 1 < |a| {
        assert s[i] == a[i] && s[i + 1] == a[i + 1];
      } else if i >= |a| {
        assert s[i] == b[i - |a|] && s[i + 1] == b[i + 1 - |a|];
      }
    }
  }

  /**
   * A rewrite whose replacement is non-empty, holds no backslash and does not start
   * with `c` leaves no backslash-`c` pair behind: step 1 removes every `\n`.
   */
  lemma {:induction false} ReplaceEscapeLeavesNone(s: string, c: char, rep: string)
    requires c != '\\' && |rep| > 0 && rep[0] != c && '\\' !in rep
    ensures NoEscape(ReplaceEscape(s, c, rep), c)
  {
    if |s| == 0 {
    } else if |s| >= 2 && s[0] == '\\' && s[1] == c {
      ReplaceEscapeLeavesNone(s[2..], c, rep);
      assert NoEscape(rep, c);
      NoEscapeConcat(rep, ReplaceEscape(s[2..], c, rep), c);
    } else {
      var t := ReplaceEscape(s[1..], c, rep);
      ReplaceEscapeLeavesNone(s[1..], c, rep);
      if s[0] == '\\' && t != [] {
        assert t[0] != c by {
          if |s| >= 3 && s[1] == '\\' && s[2] == c {
            assert t[0] == rep[0];
          } else {
            assert t[0] == s[1];
          }
        }
      }
      NoEscapeConcat([s[0]], t, c);
    }
  }

  /** After step 1 no backslash is followed by `n`. */
  lemma UnescapeNewlinesLeavesNone(s: string)
    ensures NoEscape(UnescapeNewlines(s), 'n')
  {
    ReplaceEscapeLeavesNone(s, 'n', "\n");
  }

  /** A string with no backslash-`c` pair passes through the rewrite unchanged. */
  lemma {:induction false} ReplaceEscapeIdentity(s: string, c: char, rep: string)
    requires NoEscape(s, c)
    ensures ReplaceEscape(s, c, rep) == s
  {
    if |s| > 0 {
      assert !(|s| >= 2 && s[0] == '\\' && s[1] == c);
      assert NoEscape(s[1..], c) by {
        forall i | 0 <= i < |s[1..]| - 1 ensures !(s[1..][i] == '\\' && s[1..][i + 1] == c) {
          assert s[1..][i] == s[i + 1] && s[1..][i + 1] == s[i + 2];
        }
      }
      ReplaceEscapeIdentity(s[1..], c, rep);
      assert s == [s[0]] + s[1..];
    }
  }

  /**
   * The rewrite works piece by piece: a piece that does not end in a backslash is
   * rewritten independently of what follows it.
   */
  lemma {:induction false} ReplaceEscapeAppend(a: string, b: string, c: char, rep: string)
    requires a == [] || a[|a| - 1] != '\\'
    ensures ReplaceEscape(a + b, c, rep) == ReplaceEscape(a, c, rep) + ReplaceEscape(b, c, rep)
  {
    if a == [] {
      assert a + b == b;
    } else if |a| >= 2 && a[0] == '\\' && a[1] == c {
      assert (a + b)[2..] == a[2..] + b;
      ReplaceEscapeAppend(a[2..], b, c, rep);
    } else {
      assert (a + b)[1..] == a[1..] + b;
      assert !(|a + b| >= 2 && (a + b)[0] == '\\' && (a + b)[1] == c);
      ReplaceEscapeAppend(a[1..], b, c, rep);
    }
  }

  /** Step 1 undoes the escaping of newlines in any text that holds no backslash. */
  lemma {:induction false} UnescapeEscapeNewlines(t: string)
    requires '\\' !in t
    ensures UnescapeNewlines(EscapeNewlines(t)) == t
  {
    if t != [] {
      assert '\\' !in t[1..];
      UnescapeEscapeNewlines(t[1..]);
      if t[0] == '\n' {
        assert ("\\n" + EscapeNewlines(t[1..]))[2..] == EscapeNewlines(t[1..]);
      } else {
        assert ([t[0]] + EscapeNewlines(t[1..]))[1..] == EscapeNewlines(t[1..]);
      }
      assert t == [t[0]] + t[1..];
    }
  }

  /** A deletion can join a backslash to a later `r`: step 2 does not remove every `\r`. */
  lemma DropCarriageEscapesMayLeaveOne()
    ensures DropCarriageEscapes("\\\\rr") == "\\r"
  {
    var s := "\\\\rr";
    assert s[1..][2..] == "r";
    assert DropCarriageEscapes("r") == "r";
  }

  // ---------------------------------------------------------------- steps 3 and 4

  /** Right after the two trims the text has no leading and no trailing whitespace. */
  lemma TrimSpaceEdges(s: string)
    ensures var t := TrimSpace(s); t == [] || (!IsSpace(t[0]) && !IsSpace(t[|t| - 1]))
  {
    StripEdges(s, IsSpace);
  }

  // ---------------------------------------------------------------- step 5

  /** Text that is empty or starts with a non-letter keeps that shape through step 5. */
  lemma {:induction false} DropEscapeWordsStartsNonLetter(s: string)
    requires s == [] || !IsAsciiLetter(s[0])
    ensures var r := DropEscapeWords(s); r == [] || !IsAsciiLetter(r[0])
  {
    if |s| >= 2 && s[0] == '\\' && IsAsciiLetter(s[1]) {
      var n := LetterRun(s[1..]);
      assert n >= 1;
      var rest := s[1 + n..];
      assert rest == [] || rest[0] == s[1..][n];
      DropEscapeWordsStartsNonLetter(rest);
    }
  }

  lemma NoEscapeWordConcat(a: string, b: string)
    requires NoEscapeWord(a) && NoEscapeWord(b)
    requires a == [] || b == [] || a[|a| - 1] != '\\' || !IsAsciiLetter(b[0])
    ensures NoEscapeWord(a + b)
  {
    var s := a + b;
    forall i | 0 <= i < |s| - 1 ensures !(s[i] == '\\' && IsAsciiLetter(s[i + 1])) {
      if i + 1 < |a| {
        assert s[i] == a[i] && s[i + 1] == a[i + 1];
      } else if i >= |a| {
        assert s[i] == b[i - |a|] && s[i + 1] == b[i + 1 - |a|];
      }
    }
  }

  /**
   * After step 5 no backslash is followed by an ASCII letter: the greedy run ends at
   * a non-letter, so a deletion never joins a backslash to a letter.
   */
  lemma {:induction false} DropEscapeWordsLeavesNone(s: string)
    ensures NoEscapeWord(DropEscapeWords(s))
  {
    if |s| == 0 {
    } else if |s| >= 2 && s[0] == '\\' && IsAsciiLetter(s[1]) {
      DropEscapeWordsLeavesNone(s[1 + LetterRun(s[1..])..]);
    } else {
      var t := DropEscapeWords(s[1..]);
      DropEscapeWordsLeavesNone(s[1..]);
      if s[0] == '\\' {
        DropEscapeWordsStartsNonLetter(s[1..]);
      }
      NoEscapeWordConcat([s[0]], t);
    }
  }

  /** Text without any backslash-letter pair passes through step 5 unchanged. */
  lemma {:induction false} DropEscapeWordsIdentity(s: string)
    requires NoEscapeWord(s)
    ensures DropEscapeWords(s) == s
  {
    if |s| > 0 {
      assert NoEscapeWord(s[1..]) by {
        forall i | 0 <= i < |s[1..]| - 1 ensures !(s[1..][i] == '\\' && IsAsciiLetter(s[1..][i + 1])) {
          assert s[1..][i] == s[i + 1] && s[1..][i + 1] == s[i + 2];
        }
      }
      DropEscapeWordsIdentity(s[1..]);
      assert s == [s[0]] + s[1..];
    }
  }

  /** Step 5 on its own is idempotent. */
  lemma DropEscapeWordsIdempotent(s: string)
    ensures DropEscapeWords(DropEscapeWords(s)) == DropEscapeWords(s)
  {
    DropEscapeWordsLeavesNone(s);
    DropEscapeWordsIdentity(DropEscapeWords(s));
  }

  // ---------------------------------------------------------------- the pipeline

  /**
   * A reply written with escaped newlines, holding no backslash of its own and no
   * whitespace at either end, is restored exactly by the cleaning.
   */
  lemma CleanRestoresEscapedText(t: string)
    requires '\\' !in t
    requires t == [] || (!IsSpace(t[0]) && !IsSpace(t[|t| - 1]))
    ensures Clean(EscapeNewlines(t)) == t
  {
    UnescapeEscapeNewlines(t);
    assert NoEscape(t, 'r');
    ReplaceEscapeIdentity(t, 'r', "");
    assert NoEscapeWord(t);
    DropEscapeWordsIdentity(t);
  }

  /** On text without backslashes the cleaning only trims whitespace. */
  lemma CleanWithoutBackslash(s: string)
    requires '\\' !in s
    ensures Clean(s) == TrimSpace(s)
  {
    assert NoEscape(s, 'n');
    ReplaceEscapeIdentity(s, 'n', "\n");
    assert NoEscape(s, 'r');
    ReplaceEscapeIdentity(s, 'r', "");
    var t := TrimSpace(s);
    assert '\\' !in t by {
      var a := TrimStart(s, IsSpace);
      TrimStartSpec(s, IsSpace);
      TrimEndSpec(a, IsSpace);
      assert forall i :: 0 <= i < |t| ==> t[i] == a[i] == s[|s| - |a| + i];
    }
    assert NoEscapeWord(t);
    DropEscapeWordsIdentity(t);
  }

  /**
   * The last step can expose whitespace the trims already removed, so the pipeline is
   * not idempotent: a second pass changes this reply again.
   */
  lemma CleanNotIdempotent()
    ensures Clean("\\x  body") == "  body"
    ensures Clean(Clean("\\x  body")) == "body"
  {
    CleanEscapedBody();
    CleanSpacedBody();
  }

  lemma CleanSpacedBody()
    ensures Clean("  body") == "body"
  {
    var u := "  body";
    assert '\\' !in u;
    CleanWithoutBackslash(u);
    TrimSpacedBody();
  }

  lemma CleanEscapedBody()
    ensures Clean("\\x  body") == "  body"
  {
    var s := "\\x  body";
    assert UnescapeNewlines(s) == s by {
      assert NoEscape(s, 'n');
      ReplaceEscapeIdentity(s, 'n', "\n");
    }
    assert DropCarriageEscapes(s) == s by {
      assert NoEscape(s, 'r');
      ReplaceEscapeIdentity(s, 'r', "");
    }
    assert TrimSpace(s) == s by {
      assert !IsSpace(s[0]) && !IsSpace(s[|s| - 1]);
    }
    DropSpacedBody();
  }

  lemma TrimSpacedBody()
    ensures TrimSpace("  body") == "body"
  {
    var u := "  body";
    assert u[1..] == " body";
    assert " body"[1..] == "body";
    assert IsSpace(' ') && !IsSpace('b') && !IsSpace('y');
    assert TrimStart("body", IsSpace) == "body";
    assert TrimStart(" body", IsSpace) == "body";
    assert TrimStart(u, IsSpace) == "body";
    assert TrimEnd("body", IsSpace) == "body";
  }

  lemma DropSpacedBody()
    ensures DropEscapeWords("\\x  body") == "  body"
  {
    var s := "\\x  body";
    assert LetterRun(s[1..]) == 1 by {
      assert s[1..][1..] == "  body";
    }
    assert s[2..] == "  body";
    assert NoEscapeWord("  body");
    DropEscapeWordsIdentity("  body");
  }
}
