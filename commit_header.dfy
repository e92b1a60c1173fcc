/**
 * `validate_commit_message` (prepare-commit-msg.py:223-228): an anchored `re.match` of
 * `^(feat|fix|docs|style|refactor|perf|test|build|ci|chore|revert)(\(.+\))?: .+$`, a
 * case-sensitive subset of the header rule of Conventional Commits 1.0.0 with no `!`.
 */
module CommitHeader {

  const Types: seq<string> := ["feat", "fix", "docs", "style", "refactor", "perf", "test", "build", "ci", "chore", "revert"]

  /** `(\(.+\))?`: nothing, or a non-empty newline-free scope in parentheses. */
  predicate ScopePart(s: string) {
    s == [] || (|s| >= 3 && s[0] == '(' && s[|s| - 1] == ')' && '\n' !in s[1..|s| - 1])
  }

  /**
   * After the type, which ends at `i`: the optional scope ends at `j` and the
   * description at `k`; `$` then allows only the end or one final newline.
   */
  ghost predicate TailSplit(m: string, i: int, j: int, k: int) {
    0 <= i <= j && j + 2 < k <= |m|
    && ScopePart(m[i..j])
    && m[j..j + 2] == ": "
    && '\n' !in m[j + 2..k]
    && (k == |m| || (k == |m| - 1 && m[k] == '\n'))
  }

  /**
   * The regex, with the alternation of `types` in its first group, matches `m` with
   * the type ending at `i`, the scope at `j` and the description at `k`.
   */
  ghost predicate HeaderSplit(types: seq<string>, m: string, i: int, j: int, k: int) {
    0 <= i <= |m| && m[..i] in types && TailSplit(m, i, j, k)
  }

  /** What the backtracking regex accepts: some choice of split points works. */
  ghost predicate MatchesWith(types: seq<string>, m: string) {
    exists i, j, k :: HeaderSplit(types, m, i, j, k)
  }

  /** The pattern of the source, with its eleven types. */
  ghost predicate Matches(m: string) {
    MatchesWith(Types, m)
  }

  /** `m` without one final newline. */
  function DropFinalNewline(m: string): string {
    if m != [] && m[|m| - 1] == '\n' then m[..|m| - 1] else m
  }

  /** `line` has the closing parenthesis, colon and space of a scope at `p`. */
  predicate ScopeCloseAt(line: string, p: int) {
    0 <= p && p + 3 <= |line| && line[p..p + 3] == "): "
  }

  /** What may follow the type: `": "` and a description, or a scope in parentheses first. */
  predicate AfterType(r: string) {
    var line := DropFinalNewline(r);
    '\n' !in line
    && ((|line| >= 3 && line[..2] == ": ")
        || (|line| >= 1 && line[0] == '(' && exists p | 2 <= p <= |line| - 4 :: ScopeCloseAt(line, p)))
  }

  /** The type `t` is a prefix of `m` and the rest has the right shape. */
  predicate AcceptsWith(t: string, m: string) {
    |t| <= |m| && m[..|t|] == t && AfterType(m[|t|..])
  }

  /** The check: the alternatives of `types` are tried in order until one fits. */
  predicate ValidateWith(types: seq<string>, m: string)
    decreases |types|
  {
    |types| > 0 && (AcceptsWith(types[0], m) || ValidateWith(types[1..], m))
  }

  /** `validate_commit_message`. */
  predicate Validate(m: string) {
    ValidateWith(Types, m)
  }

  /** Trying the alternatives in order succeeds exactly when one of them fits. */
  lemma {:induction false} ValidateWithSomeType(types: seq<string>, m: string)
    ensures ValidateWith(types, m) <==> exists t | t in types :: AcceptsWith(t, m)
    decreases |types|
  {
    if |types| > 0 {
      ValidateWithSomeType(types[1..], m);
      assert types == [types[0]] + types[1..];
    }
  }

  /** For any list of types, the check accepts exactly what the regex matches. */
  lemma ValidateWithIffMatches(types: seq<string>, m: string)
    ensures ValidateWith(types, m) <==> MatchesWith(types, m)
  {
    ValidateWithSomeType(types, m);
    if ValidateWith(types, m) {
      var t :| t in types && AcceptsWith(t, m);
      var j, k := AfterTypeSound(m, |t|);
      assert HeaderSplit(types, m, |t|, j, k);
    }
    if MatchesWith(types, m) {
      var i, j, k :| HeaderSplit(types, m, i, j, k);
      AfterTypeComplete(m, i, j, k);
      assert |m[..i]| == i;
      assert AcceptsWith(m[..i], m);
    }
  }

  /** The validator accepts exactly the messages the source's regex matches. */
  lemma ValidateIffMatches(m: string)
    ensures Validate(m) <==> Matches(m)
  {
    ValidateWithIffMatches(Types, m);
  }

  /** A slice of the slice `m[i..k]` is the corresponding slice of `m`. */
  lemma SliceOfSlice(m: string, i: int, k: int, a: int, b: int)
    requires 0 <= i <= k <= |m| && 0 <= a <= b <= k - i
    ensures m[i + a..i + b] == m[i..k][a..b]
  {
    forall x | 0 <= x < b - a
      ensures m[i + a..i + b][x] == m[i..k][a..b][x]
    {
      assert m[i..k][a..b][x] == m[i..k][a + x] == m[i + a + x];
    }
  }

  /** Dropping a final newline from the tail `m[i..]` leaves the line `m[i..k]`. */
  lemma LineOfTail(m: string, i: int) returns (k: int)
    requires 0 <= i <= |m|
    ensures i <= k <= |m| && DropFinalNewline(m[i..]) == m[i..k]
    ensures k == |m| || (k == |m| - 1 && m[k] == '\n')
  {
    if m[i..] != [] && m[i..][|m[i..]| - 1] == '\n' {
      k := |m| - 1;
      assert m[i..][|m[i..]| - 1] == m[k];
      assert m[i..][..|m[i..]| - 1] == m[i..k];
    } else {
      k := |m|;
      assert m[i..] == m[i..k];
    }
  }

  /** A newline-free line with a scope closing at `p` splits there into scope, `": "` and description. */
  lemma ScopedLineSplits(line: string, p: int)
    requires 2 <= p <= |line| - 4 && '\n' !in line && line[0] == '(' && ScopeCloseAt(line, p)
    ensures ScopePart(line[0..p + 1]) && line[p + 1..p + 3] == ": " && '\n' !in line[p + 3..|line|]
  {
    assert line[p..p + 3][0] == line[p];
    assert line[p..p + 3][1..3] == line[p + 1..p + 3];
    var s := line[0..p + 1];
    assert s[1..|s| - 1] == line[1..p];
  }

  /** A line made of a scope part ending at `a`, `": "` and a newline-free description has the checked shape. */
  lemma SplitLineShape(line: string, a: int)
    requires 0 <= a && a + 2 < |line| && ScopePart(line[0..a])
    requires line[a..a + 2] == ": " && '\n' !in line[a + 2..|line|]
    ensures '\n' !in line
    ensures a == 0 ==> line[..2] == ": "
    ensures a > 0 ==> line[0] == '(' && 2 <= a - 1 <= |line| - 4 && ScopeCloseAt(line, a - 1)
  {
    var s := line[0..a];
    if a > 0 {
      assert line[0] == s[0];
      assert line[a - 1] == s[|s| - 1];
      assert line[a - 1..a + 2][0] == line[a - 1];
      assert line[a - 1..a + 2][1..3] == line[a..a + 2];
      assert line[a - 1..a + 2] == "): ";
    }
    forall x | 0 <= x < |line|
      ensures line[x] != '\n'
    {
      if x >= a + 2 {
        assert line[x] == line[a + 2..|line|][x - a - 2];
      } else if x >= a {
        assert line[x] == line[a..a + 2][x - a];
      } else if x == 0 || x == a - 1 {
        assert line[x] == s[x];
      } else {
        assert line[x] == s[1..|s| - 1][x - 1];
      }
    }
    if a == 0 {
      assert line[..2] == line[a..a + 2];
    }
  }

  /** A split of the line `m[i..k]` into scope, `": "` and description is a split of the tail. */
  lemma TailFromLine(m: string, i: int, k: int, a: int)
    requires 0 <= i <= k <= |m| && (k == |m| || (k == |m| - 1 && m[k] == '\n'))
    requires 0 <= a && a + 2 < k - i
    requires ScopePart(m[i..k][0..a]) && m[i..k][a..a + 2] == ": " && '\n' !in m[i..k][a + 2..k - i]
    ensures TailSplit(m, i, i + a, k)
  {
    SliceOfSlice(m, i, k, 0, a);
    SliceOfSlice(m, i, k, a, a + 2);
    SliceOfSlice(m, i, k, a + 2, k - i);
  }

  lemma AfterTypeSound(m: string, i: int) returns (j: int, k: int)
    requires 0 <= i <= |m| && AfterType(m[i..])
    ensures TailSplit(m, i, j, k)
  {
    k := LineOfTail(m, i);
    var line := m[i..k];
    if |line| >= 3 && line[..2] == ": " {
      j := i;
      assert line[0..2] == line[..2];
      assert forall x | 0 <= x < |line| - 2 :: line[2..|line|][x] == line[x + 2];
      TailFromLine(m, i, k, 0);
    } else {
      var p :| 2 <= p <= |line| - 4 && ScopeCloseAt(line, p);
      j := i + p + 1;
      ScopedLineSplits(line, p);
      TailFromLine(m, i, k, p + 1);
    }
  }

  lemma AfterTypeComplete(m: string, i: int, j: int, k: int)
    requires TailSplit(m, i, j, k)
    ensures AfterType(m[i..])
  {
    var k' := LineOfTail(m, i);
    if k == |m| {
      assert m[k - 1] == m[j + 2..k][k - 1 - (j + 2)];
    }
    assert k' == k;
    var line := m[i..k];
    var a := j - i;
    SliceOfSlice(m, i, k, 0, a);
    SliceOfSlice(m, i, k, a, a + 2);
    SliceOfSlice(m, i, k, a + 2, |line|);
    SplitLineShape(line, a);
  }

  /** Every type is a lower-case word of at least two letters. */
  lemma TypeIsLowerWord(t: string)
    requires t in Types
    ensures |t| >= 2 && forall x :: 0 <= x < |t| ==> 'a' <= t[x] <= 'z'
  {
  }

  lemma TypeLetterAt(t: string, x: int)
    requires t in Types && 0 <= x < |t|
    ensures 'a' <= t[x] <= 'z'
  {
    TypeIsLowerWord(t);
  }

  /** Right after the type comes the scope's `(` or the `:` of the separator. */
  lemma TailStart(m: string, i: int, j: int, k: int)
    requires TailSplit(m, i, j, k)
    ensures i < |m| && (m[i] == '(' || m[i] == ':')
  {
    if i == j {
      assert m[i] == m[j..j + 2][0];
    } else {
      assert m[i] == m[i..j][0];
    }
  }

  /** After the type, a newline can only be the final character. */
  lemma TailIsOneLine(m: string, i: int, j: int, k: int, x: int)
    requires TailSplit(m, i, j, k) && i <= x < |m| - 1
    ensures m[x] != '\n'
  {
    if x < j {
      var sc := m[i..j];
      assert m[x] == sc[x - i];
      if i < x < j - 1 {
        assert sc[1..|sc| - 1][x - i - 1] == m[x];
      }
    } else if x < j + 2 {
      assert m[x] == m[j..j + 2][x - j];
    } else {
      assert m[x] == m[j + 2..k][x - (j + 2)];
    }
  }

  /** A matched header is one line, with at most a single final newline. */
  lemma MatchedIsOneLine(m: string, x: int)
    requires Matches(m) && 0 <= x < |m| - 1
    ensures m[x] != '\n'
  {
    var i, j, k :| HeaderSplit(Types, m, i, j, k);
    if x < i {
      TypeIsLowerWord(m[..i]);
      assert m[x] == m[..i][x];
    } else {
      TailIsOneLine(m, i, j, k, x);
    }
  }

  /** Matching is case-sensitive: a header starts with a lower-case letter. */
  lemma MatchedStartsLowercase(m: string)
    requires Matches(m)
    ensures |m| > 0 && 'a' <= m[0] <= 'z'
  {
    var i, j, k :| HeaderSplit(Types, m, i, j, k);
    TypeIsLowerWord(m[..i]);
    assert m[0] == m[..i][0];
  }

  /** A header with a scope, in the form the source's prompt asks for, is accepted. */
  lemma AcceptsScopedHeader()
    ensures Matches("feat(api): add login")
  {
    var m := "feat(api): add login";
    assert m[..4] == "feat";
    assert m[4..9] == "(api)";
    assert m[9..11] == ": ";
    assert HeaderSplit(Types, m, 4, 9, |m|);
  }

  /** A message without a type and separator is rejected. */
  lemma RejectsUntyped()
    ensures !Matches("added login")
  {
    var m := "added login";
    if Matches(m) {
      var i, j, k :| HeaderSplit(Types, m, i, j, k);
      TailStart(m, i, j, k);
    }
  }

  /** Upper-case types are rejected, although the prompt calls the format case-insensitive. */
  lemma RejectsCapitalisedType()
    ensures !Matches("Fix: bug")
  {
    if Matches("Fix: bug") {
      MatchedStartsLowercase("Fix: bug");
    }
  }

  /** The `!` breaking-change marker is not part of the pattern. */
  lemma RejectsBreakingMarker()
    ensures !Matches("feat!: x")
  {
    var m := "feat!: x";
    if Matches(m) {
      var i, j, k :| HeaderSplit(Types, m, i, j, k);
      TailStart(m, i, j, k);
      assert i == 5;
      TypeLetterAt(m[..i], 4);
    }
  }

  /** A body after the header is rejected: `.+$` cannot cross a newline. */
  lemma RejectsBody()
    ensures !Matches("feat: x\n\nbody")
  {
    var m := "feat: x\n\nbody";
    if Matches(m) {
      MatchedIsOneLine(m, 7);
    }
  }
}
