/** Character classes and the whitespace stripping shared by both hooks. */
module Text {

  /** Python's `\s` on a str pattern, which is the set of characters `str.isspace` accepts. */
  predicate IsSpace(c: char) {
    ('\t' <= c <= '\r') || ('\U{1C}' <= c <= '\U{1F}') || c == ' ' || c == '\U{85}' || c == '\U{A0}'
    || c == '\U{1680}' || ('\U{2000}' <= c <= '\U{200A}') || c == '\U{2028}' || c == '\U{2029}'
    || c == '\U{202F}' || c == '\U{205F}' || c == '\U{3000}'
  }

  /** The class `[a-zA-Z]`. */
  predicate IsAsciiLetter(c: char) {
    ('a' <= c <= 'z') || ('A' <= c <= 'Z')
  }

  /** Drops the longest prefix of `s` whose elements all satisfy `sp`. */
  function TrimStart<T>(s: seq<T>, sp: T -> bool): seq<T> {
    if s != [] && sp(s[0]) then TrimStart(s[1..], sp) else s
  }

  /** Drops the longest suffix of `s` whose elements all satisfy `sp`. */
  function TrimEnd<T>(s: seq<T>, sp: T -> bool): seq<T> {
    if s != [] && sp(s[|s| - 1]) then TrimEnd(s[..|s| - 1], sp) else s
  }

  /** `TrimStart` keeps a suffix that does not start in the class, and drops only elements of the class. */
  lemma {:induction false} TrimStartSpec<T>(s: seq<T>, sp: T -> bool)
    ensures var r := TrimStart(s, sp);
      |r| <= |s| && r == s[|s| - |r|..]
      && (r == [] || !sp(r[0]))
      && forall i :: 0 <= i < |s| - |r| ==> sp(s[i])
    decreases |s|
  {
    if s != [] && sp(s[0]) {
      TrimStartSpec(s[1..], sp);
      var r := TrimStart(s, sp);
      forall i | 1 <= i < |s| - |r| ensures sp(s[i]) {
        assert s[i] == s[1..][i - 1];
      }
    }
  }

  /** `TrimEnd` keeps a prefix that does not end in the class, and drops only elements of the class. */
  lemma {:induction false} TrimEndSpec<T>(s: seq<T>, sp: T -> bool)
    ensures var r := TrimEnd(s, sp);
      |r| <= |s| && r == s[..|r|]
      && (r == [] || !sp(r[|r| - 1]))
      && forall i :: |r| <= i < |s| ==> sp(s[i])
    decreases |s|
  {
    if s != [] && sp(s[|s| - 1]) {
      TrimEndSpec(s[..|s| - 1], sp);
      var r := TrimEnd(s, sp);
      forall i | |r| <= i < |s| - 1 ensures sp(s[i]) {
        assert s[i] == s[..|s| - 1][i];
      }
    }
  }

  /** Python's `strip()`: both ends. */
  function Strip<T>(s: seq<T>, sp: T -> bool): seq<T> {
    TrimEnd(TrimStart(s, sp), sp)
  }

  /** What is left after stripping has no leading and no trailing element of the class. */
  lemma StripEdges<T>(s: seq<T>, sp: T -> bool)
    ensures var r := Strip(s, sp); r == [] || (!sp(r[0]) && !sp(r[|r| - 1]))
  {
    var a := TrimStart(s, sp);
    var r := TrimEnd(a, sp);
    TrimStartSpec(s, sp);
    TrimEndSpec(a, sp);
    if r != [] {
      assert r[0] == a[0];
    }
  }

  /** Stripping leaves nothing exactly when every element belongs to the class. */
  lemma StripEmptyIff<T>(s: seq<T>, sp: T -> bool)
    ensures Strip(s, sp) == [] <==> forall i :: 0 <= i < |s| ==> sp(s[i])
  {
    var a := TrimStart(s, sp);
    TrimStartSpec(s, sp);
    TrimEndSpec(a, sp);
    if Strip(s, sp) != [] {
      var r := Strip(s, sp);
      assert r[0] == a[0] == s[|s| - |a|];
    }
  }
}
