/** `$ref(name)` references in model bodies: comment stripping, extraction and resolution. */
module Refs {
  import opened Common

  // ---------------------------------------------------------------- the reference pattern

  /** The characters of the regular expression class `\s`. */
  predicate IsSpace(c: char) {
    c == ' ' || c == '\t' || c == '\n' || c == '\r' || c == '\U{000C}'
  }

  predicate IsNameStart(c: char) {
    'a' <= c <= 'z' || 'A' <= c <= 'Z' || c == '_'
  }

  predicate IsNameChar(c: char) {
    IsNameStart(c) || '0' <= c <= '9'
  }

  /** `$ref(`, blanks, a name of `n` characters from position `i`, blanks, `)`: `len` characters in all. */
  ghost predicate RefAt(s: string, i: int, n: int, len: int) {
    && 5 <= i && 0 < n && i + n < len <= |s|
    && s[0] == '$' && s[1] == 'r' && s[2] == 'e' && s[3] == 'f' && s[4] == '('
    && (forall k | 5 <= k < i :: IsSpace(s[k]))
    && IsNameStart(s[i]) && (forall k | i <= k < i + n :: IsNameChar(s[k]))
    && (forall k | i + n <= k < len - 1 :: IsSpace(s[k]))
    && s[len - 1] == ')'
  }

  /** The language of the reference pattern. */
  ghost predicate IsRefText(text: string, name: string) {
    exists i :: RefAt(text, i, |name|, |text|) && text[i..i + |name|] == name
  }

  function SpaceEnd(s: string, i: nat): (e: nat)
    requires i <= |s|
    ensures i <= e <= |s| && (forall k | i <= k < e :: IsSpace(s[k])) && (e < |s| ==> !IsSpace(s[e]))
    decreases |s| - i
  {
    if i < |s| && IsSpace(s[i]) then SpaceEnd(s, i + 1) else i
  }

  function NameEnd(s: string, i: nat): (e: nat)
    requires i <= |s|
    ensures i <= e <= |s| && (forall k | i <= k < e :: IsNameChar(s[k])) && (e < |s| ==> !IsNameChar(s[e]))
    decreases |s| - i
  {
    if i < |s| && IsNameChar(s[i]) then NameEnd(s, i + 1) else i
  }

  datatype Match = Match(name: string, len: nat)

  /** The match of the pattern at the start of `s`. */
  function MatchPrefix(s: string): (m: Option<Match>)
    ensures m.Some? ==> 0 < m.value.len <= |s|
  {
    if !(|s| >= 5 && s[0] == '$' && s[1] == 'r' && s[2] == 'e' && s[3] == 'f' && s[4] == '(') then None
    else
      var i := SpaceEnd(s, 5);
      var j := NameEnd(s, i);
      var e := SpaceEnd(s, j);
      if i < j && IsNameStart(s[i]) && e < |s| && s[e] == ')' then Some(Match(s[i..j], e + 1)) else None
  }

  lemma MatchIsRef(s: string) returns (i: nat)
    requires MatchPrefix(s).Some?
    ensures var m := MatchPrefix(s).value;
            RefAt(s, i, |m.name|, m.len) && s[i..i + |m.name|] == m.name
  {
    i := SpaceEnd(s, 5);
  }

  /** The scanner finds every text of the pattern's language, with its name. */
  lemma RefIsMatch(s: string, i: nat, n: nat, len: nat)
    requires RefAt(s, i, n, len)
    ensures MatchPrefix(s) == Some(Match(s[i..i + n], len))
  {
    assert SpaceEnd(s, 5) == i;
    assert !IsNameChar(s[i + n]);
    assert NameEnd(s, i) == i + n;
    assert SpaceEnd(s, i + n) == len - 1;
  }

  lemma MatchIsRefText(s: string)
    requires MatchPrefix(s).Some?
    ensures IsRefText(s[..MatchPrefix(s).value.len], MatchPrefix(s).value.name)
  {
    var i := MatchIsRef(s);
    var m := MatchPrefix(s).value;
    var text := s[..m.len];
    assert text[i..i + |m.name|] == m.name;
    assert RefAt(text, i, |m.name|, |text|);
  }

  /** A match is settled by the characters it covers. */
  lemma MatchIsLocal(s: string, t: string)
    requires MatchPrefix(s).Some?
    requires MatchPrefix(s).value.len <= |t|
    requires forall k | 0 <= k < MatchPrefix(s).value.len :: s[k] == t[k]
    ensures MatchPrefix(t).Some?
  {
    var i := MatchIsRef(s);
    var m := MatchPrefix(s).value;
    RefIsMatch(t, i, |m.name|, m.len);
  }

  /** Some position of `s` starts a match. */
  predicate HasMatch(s: string) {
    MatchPrefix(s).Some? || (s != [] && HasMatch(s[1..]))
  }

  // ---------------------------------------------------------------- comment stripping

  predicate MarkAt(s: string, k: int, mark: string)
    requires |mark| == 2
  {
    0 <= k && k + 2 <= |s| && s[k] == mark[0] && s[k + 1] == mark[1]
  }

  /** Position of the first occurrence of a two-character mark. */
  function FindMark(s: string, mark: string): (r: Option<nat>)
    requires |mark| == 2
    ensures r.Some? ==> MarkAt(s, r.value, mark)
    ensures forall k | MarkAt(s, k, mark) :: r.Some? && r.value <= k
  {
    if |s| < 2 then None
    else if MarkAt(s, 0, mark) then Some(0)
    else
      var r := FindMark(s[1..], mark);
      assert forall k | MarkAt(s, k, mark) :: MarkAt(s[1..], k - 1, mark);
      if r.Some? then Some(r.value + 1) else None
  }

  /** A block comment that stripping would remove stands at the start. */
  predicate BlockAt(s: string) {
    "/*" <= s && FindMark(s[2..], "*/").Some?
  }

  /** What follows the block comment at the start. */
  function AfterBlock(s: string): (t: string)
    requires BlockAt(s)
    ensures |t| < |s|
  {
    s[FindMark(s[2..], "*/").value + 4..]
  }

  /** Removes each `/* ... */`, leftmost and shortest first; an unclosed opening stays. */
  function StripBlock(s: string): string
    decreases |s|
  {
    if s == [] then []
    else if BlockAt(s) then StripBlock(AfterBlock(s))
    else [s[0]] + StripBlock(s[1..])
  }

  function LineRun(s: string): (n: nat)
    ensures n <= |s| && (n < |s| ==> s[n] == '\n')
    ensures forall k | 0 <= k < n :: s[k] != '\n'
  {
    if s == [] || s[0] == '\n' then 0 else 1 + LineRun(s[1..])
  }

  /** Removes each `--` with the rest of its line. */
  function StripLine(s: string): string
    decreases |s|
  {
    if s == [] then []
    else if "--" <= s then StripLine(s[2 + LineRun(s[2..])..])
    else [s[0]] + StripLine(s[1..])
  }

  function StripComments(sql: string): string {
    StripLine(StripBlock(sql))
  }

  /** Nothing that looks like the start of a line comment is left. */
  lemma {:induction false} NoLineCommentLeft(s: string)
    ensures forall k :: !MarkAt(StripLine(s), k, "--")
    ensures StripLine(s) != [] ==> StripLine(s)[0] == if "--" <= s then '\n' else s[0]
    decreases |s|
  {
    if s == [] {
    } else if "--" <= s {
      var rest := s[2 + LineRun(s[2..])..];
      assert rest != [] ==> rest[0] == '\n';
      NoLineCommentLeft(rest);
    } else {
      NoLineCommentLeft(s[1..]);
      var out, rest := StripLine(s), StripLine(s[1..]);
      assert rest != [] && rest[0] == '-' ==> s[1] == '-';
      assert out == [s[0]] + rest;
      forall k
        ensures !MarkAt(out, k, "--")
      {
        assert k >= 1 ==> MarkAt(out, k, "--") == MarkAt(rest, k - 1, "--");
      }
    }
  }

  // ---------------------------------------------------------------- block comments put together

  /** Some block comment is there to be removed. */
  ghost predicate HasBlock(s: string) {
    exists k :: MarkAt(s, k, "/*") && FindMark(s[k + 2..], "*/").Some?
  }

  /** The text from the first character on that is kept. */
  function FromKept(s: string): (t: string)
    ensures |t| <= |s| && !BlockAt(t)
    decreases |s|
  {
    if BlockAt(s) then FromKept(AfterBlock(s)) else s
  }

  /** A kept '*' is followed, comments apart, by a '/'. */
  predicate ClosesKept(s: string)
    decreases |s|
  {
    var t := FromKept(s);
    t != [] && ((t[0] == '*' && FromKept(t[1..]) != [] && FromKept(t[1..])[0] == '/') || ClosesKept(t[1..]))
  }

  /** A kept '/' is followed by one or more block comments and then a '*', with a closing mark later on. */
  predicate JoinsBlock(s: string)
    decreases |s|
  {
    var t := FromKept(s);
    t != [] && ((t[0] == '/' && BlockAt(t[1..]) && OpensKept(FromKept(t[1..]))) || JoinsBlock(t[1..]))
  }

  predicate OpensKept(t: string) {
    t != [] && t[0] == '*' && ClosesKept(t[1..])
  }

  lemma HasBlockStep(s: string)
    ensures HasBlock(s) <==> BlockAt(s) || (s != [] && HasBlock(s[1..]))
  {
    if HasBlock(s) {
      var k :| MarkAt(s, k, "/*") && FindMark(s[k + 2..], "*/").Some?;
      if k > 0 {
        assert MarkAt(s[1..], k - 1, "/*") && s[1..][k - 1 + 2..] == s[k + 2..];
      }
    }
    if BlockAt(s) {
      assert MarkAt(s, 0, "/*");
    }
    if s != [] && HasBlock(s[1..]) {
      var k :| MarkAt(s[1..], k, "/*") && FindMark(s[1..][k + 2..], "*/").Some?;
      assert MarkAt(s, k + 1, "/*") && s[1..][k + 2..] == s[k + 1 + 2..];
    }
  }

  /** Stripping keeps the first kept character and strips what follows. */
  lemma {:induction false} StripFromKept(s: string)
    ensures StripBlock(s) == StripBlock(FromKept(s))
    ensures var t := FromKept(s);
            StripBlock(s) == if t == [] then [] else [t[0]] + StripBlock(t[1..])
    decreases |s|
  {
    if BlockAt(s) { StripFromKept(AfterBlock(s)); }
  }

  lemma HasCloseStep(s: string)
    ensures FindMark(s, "*/").Some? <==> MarkAt(s, 0, "*/") || (s != [] && FindMark(s[1..], "*/").Some?)
  {
    if s != [] && FindMark(s[1..], "*/").Some? {
      assert MarkAt(s, FindMark(s[1..], "*/").value + 1, "*/");
    }
  }

  lemma {:induction false} ClosesKeptExactly(s: string)
    ensures FindMark(StripBlock(s), "*/").Some? <==> ClosesKept(s)
    decreases |s|
  {
    var t := FromKept(s);
    StripFromKept(s);
    if t != [] {
      ClosesKeptExactly(t[1..]);
      StripFromKept(t[1..]);
      HasCloseStep(StripBlock(s));
      assert StripBlock(s)[1..] == StripBlock(t[1..]);
    }
  }

  /** Without a closing mark nothing is stripped. */
  lemma {:induction false} UnclosedStays(s: string)
    requires FindMark(s, "*/").None?
    ensures StripBlock(s) == s
  {
    if s != [] {
      HasCloseStep(s);
      if |s| > 1 { HasCloseStep(s[1..]); }
      UnclosedStays(s[1..]);
    }
  }

  lemma BlockOfHead(c: char, rest: string)
    ensures BlockAt([c] + rest) <==> c == '/' && rest != [] && rest[0] == '*' && FindMark(rest[1..], "*/").Some?
  {
    var s := [c] + rest;
    if rest != [] {
      assert s[2..] == rest[1..] && s[..2] == [c, rest[0]];
      assert "/*" <= s <==> s[..2] == "/*";
    }
  }

  /** A kept opening mark has no closing one behind it, so only comments inside it can join a new one. */
  lemma JoinedHere(t: string)
    requires t != [] && !BlockAt(t)
    ensures BlockAt([t[0]] + StripBlock(t[1..])) <==> t[0] == '/' && BlockAt(t[1..]) && OpensKept(FromKept(t[1..]))
  {
    var u := FromKept(t[1..]);
    BlockOfHead(t[0], StripBlock(t[1..]));
    StripFromKept(t[1..]);
    if u != [] {
      ClosesKeptExactly(u[1..]);
      if !BlockAt(t[1..]) {
        assert t == [t[0]] + u;
        BlockOfHead(t[0], u);
        if FindMark(u[1..], "*/").None? { UnclosedStays(u[1..]); }
      }
    }
  }

  /** Removing the block comments puts a new one together exactly when a '/' that is kept is followed by
      removed comments and a '*', with a closing mark later on. */
  lemma {:induction false} NewBlockExactly(s: string)
    ensures HasBlock(StripBlock(s)) <==> JoinsBlock(s)
    decreases |s|
  {
    var t := FromKept(s);
    StripFromKept(s);
    HasBlockStep(StripBlock(s));
    if t != [] {
      NewBlockExactly(t[1..]);
      JoinedHere(t);
      assert StripBlock(s)[1..] == StripBlock(t[1..]);
    } else {
      assert !BlockAt("");
    }
  }

  lemma StripUnclosed()
    ensures StripBlock("**/") == "**/"
  {
    assert "**/"[1..] == "*/" && "*/"[1..] == "/" && "/"[1..] == "";
    assert StripBlock("") == "" && StripBlock("/") == "/" && StripBlock("*/") == "*/";
  }

  lemma StripTwoComments(s: string)
    requires s == "//**/**/"
    ensures StripBlock(s) == "/**/"
  {
    var inner, tail := "/**/**/", "**/";
    assert s[0] == '/' && s[1] == '/' && s[1..] == inner;
    assert MarkAt(inner[2..], 0, "*/") && FindMark(inner[2..], "*/") == Some(0);
    assert inner[4..] == tail && StripBlock(inner) == StripBlock(tail);
    StripUnclosed();
    assert ['/'] + tail == "/**/";
  }

  lemma NoLineCommentInBlock()
    ensures StripLine("/**/") == "/**/"
  {
    assert "/**/"[1..] == "**/" && "**/"[1..] == "*/" && "*/"[1..] == "/" && "/"[1..] == "";
    assert StripLine("") == "" && StripLine("/") == "/" && StripLine("*/") == "*/" && StripLine("**/") == "**/";
  }

  /** It happens: the first comment is taken out of the middle of another. */
  lemma BlockFromTwoComments(s: string)
    requires s == "//**/**/"
    ensures StripComments(s) == StripBlock(s) == "/**/" && HasBlock(StripBlock(s)) && JoinsBlock(s)
  {
    StripTwoComments(s);
    NoLineCommentInBlock();
    var out := "/**/";
    assert MarkAt(out, 0, "/*") && MarkAt(out[2..], 0, "*/");
    NewBlockExactly(s);
  }

  // ---------------------------------------------------------------- extraction

  /** The names of the successive matches, leftmost first and without overlap. */
  function RefNames(s: string): seq<string>
    decreases |s|
  {
    if s == [] then []
    else
      match MatchPrefix(s)
      case Some(m) => [m.name] + RefNames(s[m.len..])
      case None => RefNames(s[1..])
  }

  /** First occurrences, in order. */
  function Dedup(s: seq<string>): (r: seq<string>)
    ensures Distinct(r)
    ensures forall x :: x in r <==> x in s
  {
    if s == [] then []
    else
      var init := Dedup(s[..|s| - 1]);
      if s[|s| - 1] in init then init else init + [s[|s| - 1]]
  }

  function Refs(sqlBody: string): seq<string> {
    Dedup(RefNames(StripComments(sqlBody)))
  }

  method ExtractRefs(sqlBody: string) returns (refs: seq<string>)
    ensures refs == Refs(sqlBody)
  {
    var matches := RefNames(StripComments(sqlBody));
    var seen: set<string> := {};
    refs := [];
    for k := 0 to |matches|
      invariant refs == Dedup(matches[..k])
      invariant seen == Elems(refs)
    {
      var name := matches[k];
      assert matches[..k + 1][..k] == matches[..k];
      if name !in seen {
        seen := seen + {name};
        ElemsAppend(refs, name);
        refs := refs + [name];
      }
    }
    assert matches[..|matches|] == matches;
  }

  // ---------------------------------------------------------------- resolution

  type Targets = map<string, string>

  function Quoted(db: string, name: string): string {
    "`" + db + "`.`" + name + "`"
  }

  /** The replacement of one match: its quoted target, or itself when the name is unknown. */
  function Replacement(m: Match, text: string, targets: Targets): string {
    if m.name in targets then Quoted(targets[m.name], m.name) else text
  }

  function Rendered(s: string, targets: Targets): string
    decreases |s|
  {
    if s == [] then []
    else
      match MatchPrefix(s)
      case Some(m) => Replacement(m, s[..m.len], targets) + Rendered(s[m.len..], targets)
      case None => [s[0]] + Rendered(s[1..], targets)
  }

  ghost predicate AllResolved(s: string, targets: Targets) {
    forall n | n in RefNames(s) :: n in targets
  }

  method ResolveRefs(sqlBody: string, targets: Targets) returns (resolved: string, err: Option<string>)
    ensures resolved == Rendered(StripComments(sqlBody), targets)
    ensures err.None? <==> AllResolved(StripComments(sqlBody), targets)
    ensures err.Some? ==> err.value in RefNames(StripComments(sqlBody)) && err.value !in targets
  {
    var rest := StripComments(sqlBody);
    ghost var body := rest;
    ghost var done: seq<string> := [];
    resolved, err := "", None;
    while rest != []
      invariant resolved + Rendered(rest, targets) == Rendered(body, targets)
      invariant RefNames(body) == done + RefNames(rest)
      invariant err.None? <==> forall n | n in done :: n in targets
      invariant err.Some? ==> err.value in done && err.value !in targets
      decreases |rest|
    {
      match MatchPrefix(rest)
      case Some(m) =>
        ScanReference(done, resolved, rest, targets);
        done := done + [m.name];
        if m.name in targets {
          resolved := resolved + Quoted(targets[m.name], m.name);
        } else {
          err := Some(m.name);
          resolved := resolved + rest[..m.len];
        }
        rest := rest[m.len..];
      case None =>
        ScanLiteral(resolved, rest, targets);
        resolved := resolved + [rest[0]];
        rest := rest[1..];
    }
  }

  lemma ScanReference(done: seq<string>, resolved: string, rest: string, targets: Targets)
    requires rest != [] && MatchPrefix(rest).Some?
    ensures var m := MatchPrefix(rest).value;
            && done + RefNames(rest) == (done + [m.name]) + RefNames(rest[m.len..])
            && resolved + Rendered(rest, targets) ==
               (resolved + Replacement(m, rest[..m.len], targets)) + Rendered(rest[m.len..], targets)
  {
    var m := MatchPrefix(rest).value;
    AppendMoves(done, [m.name], RefNames(rest[m.len..]));
    AppendMoves(resolved, Replacement(m, rest[..m.len], targets), Rendered(rest[m.len..], targets));
  }

  lemma ScanLiteral(resolved: string, rest: string, targets: Targets)
    requires rest != [] && MatchPrefix(rest).None?
    ensures resolved + Rendered(rest, targets) == (resolved + [rest[0]]) + Rendered(rest[1..], targets)
  {
  }

  // ---------------------------------------------------------------- what resolution leaves behind

  /** `lits[0] refs[0] lits[1] refs[1] ... lits[n]` */
  ghost function Woven(lits: seq<string>, refs: seq<string>): string
    requires |lits| == |refs| + 1
  {
    if refs == [] then lits[0] else lits[0] + refs[0] + Woven(lits[1..], refs[1..])
  }

  /** `s` and `out` agree but for the references `texts` of `s`, whose names are `names`, quoted in `out`. */
  ghost predicate AgreeOutside(s: string, out: string, names: seq<string>,
                               lits: seq<string>, texts: seq<string>, targets: Targets) {
    && |names| == |texts| && |lits| == |texts| + 1
    && (forall k | 0 <= k < |names| :: IsRefText(texts[k], names[k]) && names[k] in targets)
    && s == Woven(lits, texts)
    && out == Woven(lits, AllQuoted(names, targets))
  }

  ghost function AllQuoted(names: seq<string>, targets: Targets): (r: seq<string>)
    requires forall k | 0 <= k < |names| :: names[k] in targets
    ensures |r| == |names|
  {
    if names == [] then [] else [Quoted(targets[names[0]], names[0])] + AllQuoted(names[1..], targets)
  }

  lemma AgreeWithLiteral(c: char, s: string, out: string, names: seq<string>,
                         lits: seq<string>, texts: seq<string>, targets: Targets)
    requires AgreeOutside(s, out, names, lits, texts, targets)
    ensures AgreeOutside([c] + s, [c] + out, names, [[c] + lits[0]] + lits[1..], texts, targets)
  {
    assert ([[c] + lits[0]] + lits[1..])[1..] == lits[1..];
  }

  lemma AgreeWithReference(text: string, name: string, s: string, out: string, names: seq<string>,
                           lits: seq<string>, texts: seq<string>, targets: Targets)
    requires AgreeOutside(s, out, names, lits, texts, targets) && IsRefText(text, name) && name in targets
    ensures AgreeOutside(text + s, Quoted(targets[name], name) + out, [name] + names, [""] + lits, [text] + texts,
                         targets)
  {
    assert ([""] + lits)[1..] == lits && ([text] + texts)[1..] == texts && ([name] + names)[1..] == names;
    var quoted := AllQuoted(names, targets);
    assert ([Quoted(targets[name], name)] + quoted)[1..] == quoted;
  }

  lemma UnfoldReference(s: string, targets: Targets)
    requires s != [] && MatchPrefix(s).Some? && AllResolved(s, targets)
    ensures var m := MatchPrefix(s).value;
            && RefNames(s) == [m.name] + RefNames(s[m.len..])
            && m.name in targets
            && Rendered(s, targets) == Quoted(targets[m.name], m.name) + Rendered(s[m.len..], targets)
            && s == s[..m.len] + s[m.len..]
  {
    assert MatchPrefix(s).value.name in RefNames(s);
  }

  lemma ReferenceCase(s: string, targets: Targets, lits: seq<string>, texts: seq<string>)
    requires s != [] && MatchPrefix(s).Some? && AllResolved(s, targets)
    requires var rest := s[MatchPrefix(s).value.len..];
             AgreeOutside(rest, Rendered(rest, targets), RefNames(rest), lits, texts, targets)
    ensures AgreeOutside(s, Rendered(s, targets), RefNames(s), [""] + lits,
                         [s[..MatchPrefix(s).value.len]] + texts, targets)
  {
    var m := MatchPrefix(s).value;
    var rest := s[m.len..];
    UnfoldReference(s, targets);
    MatchIsRefText(s);
    AgreeWithReference(s[..m.len], m.name, rest, Rendered(rest, targets), RefNames(rest), lits, texts, targets);
  }

  lemma LiteralCase(s: string, targets: Targets, lits: seq<string>, texts: seq<string>)
    requires s != [] && MatchPrefix(s).None?
    requires AgreeOutside(s[1..], Rendered(s[1..], targets), RefNames(s[1..]), lits, texts, targets)
    ensures AgreeOutside(s, Rendered(s, targets), RefNames(s), [[s[0]] + lits[0]] + lits[1..], texts, targets)
  {
    AgreeWithLiteral(s[0], s[1..], Rendered(s[1..], targets), RefNames(s[1..]), lits, texts, targets);
    assert [s[0]] + s[1..] == s;
  }

  /** Outside the references the resolved text is the stripped body, character for character. */
  lemma {:induction false} OnlyReferencesChange(s: string, targets: Targets)
    returns (lits: seq<string>, texts: seq<string>)
    requires AllResolved(s, targets)
    ensures AgreeOutside(s, Rendered(s, targets), RefNames(s), lits, texts, targets)
    decreases |s|
  {
    if s == [] {
      lits, texts := [""], [];
    } else {
      match MatchPrefix(s)
      case Some(m) =>
        var l, t := OnlyReferencesChange(s[m.len..], targets);
        ReferenceCase(s, targets, l, t);
        lits, texts := [""] + l, [s[..m.len]] + t;
      case None =>
        var l, t := OnlyReferencesChange(s[1..], targets);
        LiteralCase(s, targets, l, t);
        lits, texts := [[s[0]] + l[0]] + l[1..], t;
    }
  }

  lemma NoBacktickInside(s: string)
    requires MatchPrefix(s).Some?
    ensures forall k | 0 <= k < MatchPrefix(s).value.len :: s[k] != '`'
  {
    var i := MatchIsRef(s);
  }

  /** Whether a match starts here is settled before the next backtick. */
  lemma MatchStopsAtBacktick(a: string, b: string)
    ensures MatchPrefix(a + "`" + b).Some? <==> MatchPrefix(a).Some?
  {
    var s := a + "`" + b;
    if MatchPrefix(s).Some? {
      NoBacktickInside(s);
      assert s[|a|] == '`';
      MatchIsLocal(s, a);
    }
    if MatchPrefix(a).Some? {
      MatchIsLocal(a, s);
    }
  }

  /** No match runs across a backtick. */
  lemma {:induction false} MatchesSplitAtBacktick(a: string, b: string)
    ensures HasMatch(a + "`" + b) <==> HasMatch(a) || HasMatch(b)
  {
    MatchStopsAtBacktick(a, b);
    if a == [] {
      assert (a + "`" + b)[1..] == b;
    } else {
      assert (a + "`" + b)[1..] == a[1..] + "`" + b;
      MatchesSplitAtBacktick(a[1..], b);
    }
  }

  lemma {:induction false} MatchHasDollar(s: string)
    ensures HasMatch(s) ==> '$' in s
  {
    if s != [] {
      MatchHasDollar(s[1..]);
      assert MatchPrefix(s).Some? ==> s[0] == '$';
    }
  }

  lemma NameHasNoDollar(s: string)
    requires MatchPrefix(s).Some?
    ensures '$' !in MatchPrefix(s).value.name
  {
    var i := MatchIsRef(s);
    var name := MatchPrefix(s).value.name;
    assert forall k | 0 <= k < |name| :: name[k] == s[i + k] && IsNameChar(s[i + k]);
  }

  lemma QuotedShape(db: string, name: string, rest: string)
    ensures Quoted(db, name) + rest == "" + "`" + (db + "`" + ("." + "`" + (name + "`" + rest)))
  {
  }

  lemma NameMatches(name: string, rest: string)
    requires '$' !in name
    ensures HasMatch("." + "`" + (name + "`" + rest)) <==> HasMatch(rest)
  {
    MatchesSplitAtBacktick(".", name + "`" + rest);
    MatchesSplitAtBacktick(name, rest);
    MatchHasDollar(".");
    MatchHasDollar(name);
  }

  lemma DatabaseMatches(db: string, rest: string)
    ensures HasMatch("" + "`" + (db + "`" + rest)) <==> HasMatch(db) || HasMatch(rest)
  {
    MatchesSplitAtBacktick("", db + "`" + rest);
    MatchesSplitAtBacktick(db, rest);
    MatchHasDollar("");
  }

  lemma QuotedMatches(db: string, name: string, rest: string)
    requires '$' !in name
    ensures HasMatch(Quoted(db, name) + rest) <==> HasMatch(db) || HasMatch(rest)
  {
    QuotedShape(db, name, rest);
    DatabaseMatches(db, "." + "`" + (name + "`" + rest));
    NameMatches(name, rest);
  }

  lemma RenderedReference(s: string, targets: Targets)
    requires AllResolved(s, targets)
    ensures s != [] && MatchPrefix(s).Some? ==> Rendered(s, targets) != [] && Rendered(s, targets)[0] == '`'
  {
    if s != [] && MatchPrefix(s).Some? {
      assert MatchPrefix(s).value.name in RefNames(s);
    }
  }

  /** A backtick-free start of the rendered text was there before rendering. */
  lemma {:induction false} PlainStartIsOriginal(s: string, targets: Targets, len: nat)
    requires AllResolved(s, targets)
    requires len <= |Rendered(s, targets)| && forall k | 0 <= k < len :: Rendered(s, targets)[k] != '`'
    ensures len <= |s| && forall k | 0 <= k < len :: Rendered(s, targets)[k] == s[k]
    decreases |s|
  {
    if s != [] && len > 0 {
      var out := Rendered(s, targets);
      RenderedReference(s, targets);
      if MatchPrefix(s).None? {
        assert out[1..] == Rendered(s[1..], targets);
        PlainStartIsOriginal(s[1..], targets, len - 1);
        assert forall k | 1 <= k < len :: out[k] == out[1..][k - 1] == s[1..][k - 1];
      }
    }
  }

  lemma LiteralStartsNoMatch(s: string, targets: Targets)
    requires s != [] && MatchPrefix(s).None? && AllResolved(s, targets)
    ensures MatchPrefix(Rendered(s, targets)).None?
  {
    var out := Rendered(s, targets);
    if MatchPrefix(out).Some? {
      NoBacktickInside(out);
      PlainStartIsOriginal(s, targets, MatchPrefix(out).value.len);
      MatchIsLocal(out, s);
    }
  }

  lemma LiteralAddsNoMatch(s: string, targets: Targets)
    requires s != [] && MatchPrefix(s).None? && AllResolved(s, targets)
    ensures HasMatch(Rendered(s, targets)) <==> HasMatch(Rendered(s[1..], targets))
  {
    LiteralStartsNoMatch(s, targets);
    assert Rendered(s, targets)[1..] == Rendered(s[1..], targets);
  }

  /** A reference is left in the resolved text exactly when a target database name contains one. */
  lemma {:induction false} LeftoverReferences(s: string, targets: Targets)
    requires AllResolved(s, targets)
    ensures HasMatch(Rendered(s, targets)) <==> exists n :: n in RefNames(s) && HasMatch(targets[n])
    decreases |s|
  {
    if s == [] {
    } else {
      match MatchPrefix(s)
      case Some(m) =>
        assert RefNames(s) == [m.name] + RefNames(s[m.len..]);
        LeftoverReferences(s[m.len..], targets);
        NameHasNoDollar(s);
        QuotedMatches(targets[m.name], m.name, Rendered(s[m.len..], targets));
      case None =>
        LeftoverReferences(s[1..], targets);
        LiteralAddsNoMatch(s, targets);
    }
  }

  /** It happens: a database whose name is itself a reference. */
  lemma ReferenceFromDatabase(s: string, targets: Targets)
    requires s == "$ref(a)" && targets == map["a" := s]
    ensures AllResolved(s, targets) && HasMatch(Rendered(s, targets))
  {
    RefIsMatch(s, 5, 1, 7);
    assert s[5..6] == "a" && s[7..] == "";
    assert RefNames(s) == ["a"] + RefNames("");
    LeftoverReferences(s, targets);
  }
}
