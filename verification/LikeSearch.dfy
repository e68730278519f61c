/** Searching the query history: the LIKE pattern built from a search text, and what it matches. */
module LikeSearch {
  import opened Text

  function EscapeChar(c: char): string {
    if c == '\\' || c == '%' || c == '_' then ['\\', c] else [c]
  }

  /** One pass over the text; what is put in is not looked at again. */
  function Escape(s: string): string {
    if s == [] then [] else EscapeChar(s[0]) + Escape(s[1..])
  }

  /** The LIKE operator with escape character `\`: ASCII letters match in either case. */
  predicate Like(p: string, t: string)
    decreases |p| + |t|
  {
    if p == [] then t == []
    else if p[0] == '%' then Like(p[1..], t) || (t != [] && Like(p, t[1..]))
    else if p[0] == '_' then t != [] && Like(p[1..], t[1..])
    else if p[0] == '\\' then |p| >= 2 && t != [] && LowerChar(p[1]) == LowerChar(t[0]) && Like(p[2..], t[1..])
    else t != [] && LowerChar(p[0]) == LowerChar(t[0]) && Like(p[1..], t[1..])
  }

  ghost predicate OccursAt(t: string, s: string, k: int) {
    0 <= k <= |t| && s <= t[k..]
  }

  ghost predicate Contains(t: string, s: string) {
    exists k :: OccursAt(t, s, k)
  }

  predicate IsLower(s: string) {
    forall k | 0 <= k < |s| :: LowerChar(s[k]) == s[k]
  }

  /** The query condition on an entry. The search is lower-cased by the program, over all of Unicode, which is
      `fold`; the text by the database, over ASCII only. */
  predicate Listed(text: string, search: string, fold: string -> string) {
    var s := Trim(fold(search));
    s == "" || Like("%" + Escape(s) + "%", Lower(text))
  }

  lemma {:induction false} PercentMatchesAll(t: string)
    ensures Like("%", t)
  {
    if t != [] { PercentMatchesAll(t[1..]); }
  }

  lemma EscapedHead(s: string, p: string)
    requires s != []
    ensures Escape(s) + p == EscapeChar(s[0]) + (Escape(s[1..]) + p)
  {
  }

  /** An escaped character matches that character and nothing else. */
  lemma EscapedCharMatches(c: char, p: string, t: string)
    ensures Like(EscapeChar(c) + p, t) <==> t != [] && LowerChar(c) == LowerChar(t[0]) && Like(p, t[1..])
  {
    var q := EscapeChar(c) + p;
    if c == '\\' || c == '%' || c == '_' {
      assert q[0] == '\\' && q[1] == c && q[2..] == p;
    } else {
      assert q[0] == c && q[1..] == p;
    }
  }

  lemma PrefixStep(s: string, t: string)
    requires s != []
    ensures s <= t <==> t != [] && s[0] == t[0] && s[1..] <= t[1..]
  {
    if t != [] && s[0] == t[0] && s[1..] <= t[1..] {
      assert forall k | 1 <= k < |s| :: s[k] == s[1..][k - 1] == t[1..][k - 1] == t[k];
    }
    if s <= t {
      assert forall k | 0 <= k < |s| :: s[k] == t[k];
    }
  }

  /** An escaped text matches exactly itself, in either case, in front of whatever the rest of the pattern matches. */
  lemma {:induction false} EscapedTextMatches(s: string, p: string, t: string)
    requires IsLower(t)
    ensures Like(Escape(s) + p, t) <==> Lower(s) <= t && Like(p, t[|s|..])
  {
    if s == [] {
      assert Escape(s) + p == p && t[0..] == t;
    } else {
      EscapedHead(s, p);
      EscapedCharMatches(s[0], Escape(s[1..]) + p, t);
      PrefixStep(Lower(s), t);
      assert Lower(s)[1..] == Lower(s[1..]);
      if t != [] {
        EscapedTextMatches(s[1..], p, t[1..]);
        assert |s| <= |t| ==> t[|s|..] == t[1..][|s| - 1..];
      }
    }
  }

  lemma {:induction false} PercentThenText(s: string, t: string)
    requires IsLower(t)
    ensures Like("%" + (Escape(s) + "%"), t) <==> Contains(t, Lower(s))
  {
    var p := Escape(s) + "%";
    assert ("%" + p)[1..] == p;
    EscapedTextMatches(s, "%", t);
    if |s| <= |t| { PercentMatchesAll(t[|s|..]); }
    if t != [] {
      PercentThenText(s, t[1..]);
    }
    ContainsStep(t, Lower(s));
  }

  lemma ContainsStep(t: string, s: string)
    ensures Contains(t, s) <==> s <= t || (t != [] && Contains(t[1..], s))
  {
    if Contains(t, s) {
      var k :| OccursAt(t, s, k);
      if k == 0 {
        assert t[0..] == t;
      } else {
        assert t[1..][k - 1..] == t[k..];
        assert OccursAt(t[1..], s, k - 1);
      }
    }
    if s <= t {
      assert t[0..] == t;
      assert OccursAt(t, s, 0);
    }
    if t != [] && Contains(t[1..], s) {
      var k :| OccursAt(t[1..], s, k);
      assert t[1..][k..] == t[k + 1..];
      assert OccursAt(t, s, k + 1);
    }
  }

  /** The search is a substring search, case-insensitive in ASCII, whatever wildcard characters it holds. */
  lemma SearchIsSubstringSearch(text: string, search: string, fold: string -> string)
    ensures Listed(text, search, fold) <==> Contains(Lower(text), Lower(Trim(fold(search))))
  {
    var s, t := Trim(fold(search)), Lower(text);
    assert "%" + Escape(s) + "%" == "%" + (Escape(s) + "%");
    PercentThenText(s, t);
    if s == "" {
      assert OccursAt(t, "", 0);
    }
  }

  predicate IsAscii(s: string) {
    forall k | 0 <= k < |s| :: s[k] < '\U{0080}'
  }

  lemma {:induction false} TrimLeftKeepsLower(s: string)
    requires IsLower(s)
    ensures IsLower(TrimLeft(s))
  {
    if s != [] && IsBlank(s[0]) { TrimLeftKeepsLower(s[1..]); }
  }

  lemma {:induction false} TrimRightKeepsLower(s: string)
    requires IsLower(s)
    ensures IsLower(TrimRight(s))
  {
    if s != [] && IsBlank(s[|s| - 1]) { TrimRightKeepsLower(s[..|s| - 1]); }
  }

  /** For a search in ASCII that is the trimmed search text in lower case. */
  lemma AsciiSearch(text: string, search: string, fold: string -> string)
    requires IsAscii(search) && forall s | IsAscii(s) :: fold(s) == Lower(s)
    ensures Listed(text, search, fold) <==> Contains(Lower(text), Trim(Lower(search)))
  {
    SearchIsSubstringSearch(text, search, fold);
    TrimLeftKeepsLower(Lower(search));
    TrimRightKeepsLower(TrimLeft(Lower(search)));
    var s := Trim(Lower(search));
    assert Lower(s) == s;
  }

  /** Beyond ASCII an entry is not found by its own text, when the two lower cases of the text differ. */
  lemma CapitalIsNotFound(fold: string -> string)
    requires fold(['\U{00C9}']) == ['\U{00E9}']
    ensures !Listed(['\U{00C9}'], ['\U{00C9}'], fold)
  {
    var text, s := ['\U{00C9}'], ['\U{00E9}'];
    SearchIsSubstringSearch(text, text, fold);
    assert TrimLeft(s) == s && TrimRight(s) == s && Lower(s) == s && Lower(text) == text;
  }
}
