/** The server's start arguments: how they are built, and how a restart recovers them from a running process. */
module StartArgs {
  import opened Common
  import opened Text

  const PID_FLAG := "--pid-file"
  const PID_PREFIX := "--pid-file="

  /** How the sanitizer treats an argument: dropped, kept, kept with the next one, or a PID file. */
  datatype Kind = Dropped | Alone | TakesValue | TakesPid | InlinePid

  predicate IsSwitch(a: string) {
    a == "--dev" || "--port=" <= a || "--config=" <= a || "--clickhouse-url=" <= a || "--connection-name=" <= a ||
    "--stop-timeout=" <= a
  }

  predicate IsValueFlag(a: string) {
    a == "--port" || a == "-p" || a == "--config" || a == "-c" || a == "--clickhouse-url" ||
    a == "--connection-name" || a == "--stop-timeout"
  }

  predicate IsCommandWord(a: string) {
    a == "server" || a == "start" || a == "stop" || a == "status" || a == "restart" ||
    a == "--detach" || a == "-h" || a == "--help"
  }

  /** The kind of an argument; the groups do not overlap. */
  function KindOf(a: string): Kind {
    if a == PID_FLAG then TakesPid
    else if PID_PREFIX <= a then InlinePid
    else if IsValueFlag(a) then TakesValue
    else if IsSwitch(a) then Alone
    else Dropped
  }

  predicate LooksLikePid(a: string) {
    a == PID_FLAG || PID_PREFIX <= a
  }

  lemma CommandWordDiffers(a: string)
    requires IsCommandWord(a)
    ensures |a| in {2, 4, 5, 6, 7, 8} && '=' !in a
    ensures (|a| == 2 ==> a[1] == 'h') && (|a| == 5 ==> a[0] == 's') && (|a| == 8 ==> a[2] == 'd')
    ensures |a| == 6 ==> a[0] == 's' || a[2] == 'h'
  {
  }

  lemma CommandWordIsDropped(a: string)
    requires IsCommandWord(a)
    ensures KindOf(a) == Dropped && !LooksLikePid(a)
  {
    CommandWordDiffers(a);
    assert PID_PREFIX[10] == "--port="[6] == "--config="[8] == '=';
    assert "--clickhouse-url="[16] == "--connection-name="[17] == "--stop-timeout="[14] == '=';
    assert "-p"[1] == "--port"[2] == 'p' && "-c"[1] == "--config"[2] == 'c' && "--port"[0] == "--dev"[0] == '-';
  }

  lemma ValueFlagTakesValue(a: string)
    requires IsValueFlag(a)
    ensures KindOf(a) == TakesValue && !LooksLikePid(a)
  {
    assert |a| != 10 && '=' !in a;
    assert PID_PREFIX[10] == '=';
  }

  lemma SwitchStandsAlone(a: string)
    requires IsSwitch(a)
    ensures KindOf(a) == Alone && !LooksLikePid(a)
  {
    if a == "--dev" {
      assert |a| == 5;
    } else {
      assert "--port="[6] == "--config="[8] == '=';
      assert "--clickhouse-url="[16] == "--connection-name="[17] == "--stop-timeout="[14] == '=';
      assert '=' in a;
      assert !IsValueFlag(a) && a != PID_FLAG;
      assert PID_PREFIX[2] == 'p' && PID_PREFIX[3] == 'i';
      assert "--port="[3] == 'o' && "--stop-timeout="[2] == 's';
      assert "--config="[2] == "--clickhouse-url="[2] == "--connection-name="[2] == 'c';
    }
  }

  lemma PidArgs(v: string)
    ensures KindOf(PID_FLAG) == TakesPid && KindOf(PID_PREFIX + v) == InlinePid
    ensures (PID_PREFIX + v)[|PID_PREFIX|..] == v
  {
    assert (PID_PREFIX + v)[10] == '=';
  }

  // ---------------------------------------------------------------- PID file paths

  /** `filepath.IsAbs` on Unix. */
  predicate IsAbs(path: string) {
    path != [] && path[0] == '/'
  }

  /** What `filepath.Abs` answers: an absolute path, or a failure. */
  ghost predicate AbsWorks(abs: string -> Option<string>) {
    forall p | abs(p).Some? :: IsAbs(abs(p).value)
  }

  function Resolve(path: string, abs: string -> Option<string>): string {
    if IsAbs(path) then path else match abs(path) case Some(full) => full case None => path
  }

  lemma ResolveOnce(path: string, abs: string -> Option<string>)
    requires AbsWorks(abs)
    ensures Resolve(Resolve(path, abs), abs) == Resolve(path, abs)
  {
    assert abs(path).Some? ==> IsAbs(abs(path).value);
  }

  // ---------------------------------------------------------------- arguments as tokens

  /** An argument list as the sanitizer reads it; what it drops has no token. `ServerFlags` compares this with the
      flags that the server itself reads. */
  datatype Token =
    | Switch(text: string)
    | Valued(flag: string, value: string)
    | Pid(path: string)
    | PidInline(path: string)

  predicate Proper(t: Token) {
    match t
    case Switch(text) => KindOf(text) == Alone
    case Valued(flag, _) => KindOf(flag) == TakesValue
    case Pid(_) => true
    case PidInline(_) => true
  }

  predicate AllProper(ts: seq<Token>) {
    forall k | 0 <= k < |ts| :: Proper(ts[k])
  }

  /** The tokens of an argument list; a flag at the end that lacks its value is dropped. */
  function Tokens(args: seq<string>): (ts: seq<Token>)
    ensures AllProper(ts)
  {
    if args == [] then []
    else
      match KindOf(args[0])
      case Dropped => Tokens(args[1..])
      case Alone => [Switch(args[0])] + Tokens(args[1..])
      case TakesValue => if |args| == 1 then [] else [Valued(args[0], args[1])] + Tokens(args[2..])
      case TakesPid => if |args| == 1 then [] else [Pid(args[1])] + Tokens(args[2..])
      case InlinePid => [PidInline(args[0][|PID_PREFIX|..])] + Tokens(args[1..])
  }

  function RenderOne(t: Token): (args: seq<string>)
    ensures args != []
  {
    match t
    case Switch(text) => [text]
    case Valued(flag, value) => [flag, value]
    case Pid(path) => [PID_FLAG, path]
    case PidInline(path) => [PID_PREFIX + path]
  }

  function Render(ts: seq<Token>): seq<string> {
    if ts == [] then [] else RenderOne(ts[0]) + Render(ts[1..])
  }

  function CommandLine(ts: seq<Token>): seq<string> {
    ["server"] + Render(ts)
  }

  function ResolvedOne(t: Token, abs: string -> Option<string>): (r: Token)
    ensures Proper(t) ==> Proper(r)
  {
    match t
    case Switch(_) => t
    case Valued(_, _) => t
    case Pid(path) => Pid(Resolve(path, abs))
    case PidInline(path) => PidInline(Resolve(path, abs))
  }

  /** The same tokens in the same order, with every PID file path made absolute. */
  function Resolved(ts: seq<Token>, abs: string -> Option<string>): (r: seq<Token>)
    ensures |r| == |ts| && forall k | 0 <= k < |ts| :: r[k] == ResolvedOne(ts[k], abs)
    ensures AllProper(ts) ==> AllProper(r)
  {
    if ts == [] then [] else [ResolvedOne(ts[0], abs)] + Resolved(ts[1..], abs)
  }

  lemma TokensOfOne(t: Token, rest: seq<string>)
    requires Proper(t)
    ensures Tokens(RenderOne(t) + rest) == [t] + Tokens(rest)
  {
    var args := RenderOne(t) + rest;
    match t
    case Switch(text) => assert args[1..] == rest;
    case Valued(flag, value) => assert args[2..] == rest;
    case Pid(path) =>
      PidArgs(path);
      assert args[2..] == rest;
    case PidInline(path) =>
      PidArgs(path);
      assert args[1..] == rest;
  }

  lemma RenderHead(ts: seq<Token>, rest: seq<string>)
    requires ts != []
    ensures Render(ts) + rest == RenderOne(ts[0]) + (Render(ts[1..]) + rest)
  {
  }

  lemma PrependHead<T>(s: seq<T>, rest: seq<T>)
    requires s != []
    ensures [s[0]] + (s[1..] + rest) == s + rest
  {
  }

  /** Writing tokens out and reading them again gives the tokens back. */
  lemma {:induction false} TokensOfRendered(ts: seq<Token>, rest: seq<string>)
    requires AllProper(ts)
    ensures Tokens(Render(ts) + rest) == ts + Tokens(rest)
  {
    if ts == [] {
      assert Render(ts) + rest == rest;
    } else {
      var tail := Render(ts[1..]) + rest;
      TokensOfRendered(ts[1..], rest);
      TokensOfOne(ts[0], tail);
      RenderHead(ts, rest);
      PrependHead(ts, Tokens(rest));
    }
  }

  lemma {:induction false} RenderAppends(a: seq<Token>, b: seq<Token>)
    ensures Render(a + b) == Render(a) + Render(b)
  {
    if a == [] {
      assert a + b == b;
    } else {
      assert (a + b)[1..] == a[1..] + b;
      RenderAppends(a[1..], b);
    }
  }

  lemma CommandWordHasNoToken(word: string, rest: seq<string>)
    requires IsCommandWord(word)
    ensures Tokens([word] + rest) == Tokens(rest)
  {
    CommandWordIsDropped(word);
    assert ([word] + rest)[1..] == rest;
  }

  // ---------------------------------------------------------------- the sanitizer

  function Kept(args: seq<string>, abs: string -> Option<string>): seq<string> {
    Render(Resolved(Tokens(args), abs))
  }

  predicate HasPidFlag(args: seq<string>) {
    exists a :: a in args && LooksLikePid(a)
  }

  /** What a restart should start with: the command, the kept tokens, and a PID file unless one shows. */
  function Sanitized(args: seq<string>, pidFile: string, abs: string -> Option<string>): seq<string> {
    var kept := ["server"] + Kept(args, abs);
    if HasPidFlag(kept) then kept else kept + [PID_FLAG, pidFile]
  }

  function Consumed(args: seq<string>): (n: nat)
    requires args != []
    ensures 1 <= n <= |args|
  {
    if KindOf(args[0]) in {TakesValue, TakesPid} && |args| > 1 then 2 else 1
  }

  function Emitted(args: seq<string>, abs: string -> Option<string>): seq<string>
    requires args != []
  {
    match KindOf(args[0])
    case Dropped => []
    case Alone => [args[0]]
    case TakesValue => if |args| == 1 then [] else [args[0], args[1]]
    case TakesPid => if |args| == 1 then [] else [args[0], Resolve(args[1], abs)]
    case InlinePid => [PID_PREFIX + Resolve(args[0][|PID_PREFIX|..], abs)]
  }

  lemma RenderedHead(t: Token, ts: seq<Token>, abs: string -> Option<string>)
    ensures Render(Resolved([t] + ts, abs)) == RenderOne(ResolvedOne(t, abs)) + Render(Resolved(ts, abs))
  {
    assert ([t] + ts)[1..] == ts;
    var r := Resolved([t] + ts, abs);
    assert r[0] == ResolvedOne(t, abs) && r[1..] == Resolved(ts, abs);
  }

  lemma KeptHead(args: seq<string>, abs: string -> Option<string>)
    requires args != []
    ensures Kept(args, abs) == Emitted(args, abs) + Kept(args[Consumed(args)..], abs)
  {
    match KindOf(args[0])
    case Dropped =>
    case Alone => RenderedHead(Switch(args[0]), Tokens(args[1..]), abs);
    case TakesValue =>
      if |args| > 1 { RenderedHead(Valued(args[0], args[1]), Tokens(args[2..]), abs); }
    case TakesPid =>
      if |args| > 1 { RenderedHead(Pid(args[1]), Tokens(args[2..]), abs); }
    case InlinePid => RenderedHead(PidInline(args[0][|PID_PREFIX|..]), Tokens(args[1..]), abs);
  }

  lemma KeptFrom(args: seq<string>, i: nat, abs: string -> Option<string>)
    requires i < |args|
    ensures var from := args[i..];
            Kept(from, abs) == Emitted(from, abs) + Kept(args[i + Consumed(from)..], abs)
  {
    KeptHead(args[i..], abs);
    assert args[i..][Consumed(args[i..])..] == args[i + Consumed(args[i..])..];
  }

  /** The switch on one argument: what is kept of it, and how many arguments it uses up. */
  method SwitchOn(args: seq<string>, i: nat, abs: string -> Option<string>) returns (kept: seq<string>, n: nat)
    requires i < |args|
    ensures n == Consumed(args[i..]) && kept == Emitted(args[i..], abs)
  {
    var a := args[i];
    assert args[i..][0] == a && (i + 1 < |args| ==> args[i..][1] == args[i + 1]);
    kept, n := [], 1;
    if IsCommandWord(a) {
      CommandWordIsDropped(a);
    } else if IsValueFlag(a) {
      ValueFlagTakesValue(a);
      if i + 1 < |args| {
        kept, n := [a, args[i + 1]], 2;
      }
    } else if a == PID_FLAG {
      if i + 1 < |args| {
        kept, n := [a, Resolve(args[i + 1], abs)], 2;
      }
    } else if IsSwitch(a) {
      SwitchStandsAlone(a);
      kept := [a];
    } else if PID_PREFIX <= a {
      kept := [PID_PREFIX + Resolve(a[|PID_PREFIX|..], abs)];
    }
  }

  method HasFlag(args: seq<string>) returns (found: bool)
    ensures found == HasPidFlag(args)
  {
    for k := 0 to |args|
      invariant !HasPidFlag(args[..k])
    {
      if args[k] == PID_FLAG || PID_PREFIX <= args[k] {
        assert LooksLikePid(args[k]);
        return true;
      }
      assert args[..k + 1] == args[..k] + [args[k]];
    }
    assert args[..|args|] == args;
    found := false;
  }

  /** Skipping leading command words skips nothing that is kept. */
  lemma SkipCommandWord(word: string, rest: seq<string>, abs: string -> Option<string>)
    requires IsCommandWord(word)
    ensures Kept([word] + rest, abs) == Kept(rest, abs)
  {
    CommandWordHasNoToken(word, rest);
  }

  method SkipCommand(args: seq<string>, ghost abs: string -> Option<string>) returns (i: nat)
    ensures i <= |args| && Kept(args[i..], abs) == Kept(args, abs)
  {
    i := 0;
    assert args[0..] == args;
    if |args| > 0 && args[0] == "server" {
      i := 1;
      assert args == ["server"] + args[1..];
      SkipCommandWord("server", args[1..], abs);
      if i < |args| && args[i] == "start" {
        i := i + 1;
        assert args[1..] == ["start"] + args[2..];
        SkipCommandWord("start", args[2..], abs);
      }
    }
  }

  /** The output so far holds what is kept of the arguments before `i`. */
  ghost predicate KeptUpTo(args: seq<string>, i: nat, out: seq<string>, abs: string -> Option<string>)
    requires i <= |args|
  {
    out + Kept(args[i..], abs) == ["server"] + Kept(args, abs)
  }

  lemma KeepOn(args: seq<string>, i: nat, n: nat, kept: seq<string>, out: seq<string>, abs: string -> Option<string>)
    requires i + n <= |args| && KeptUpTo(args, i, out, abs) && Kept(args[i..], abs) == kept + Kept(args[i + n..], abs)
    ensures KeptUpTo(args, i + n, out + kept, abs)
  {
    AppendMoves(out, kept, Kept(args[i + n..], abs));
  }

  method TakeArg(args: seq<string>, i: nat, out: seq<string>, abs: string -> Option<string>)
    returns (out': seq<string>, j: nat)
    requires i < |args| && KeptUpTo(args, i, out, abs)
    ensures i < j <= |args| && KeptUpTo(args, j, out', abs)
  {
    KeptFrom(args, i, abs);
    var kept, n := SwitchOn(args, i, abs);
    KeepOn(args, i, n, kept, out, abs);
    out', j := out + kept, i + n;
  }

  lemma KeptEnd(args: seq<string>, out: seq<string>, abs: string -> Option<string>)
    requires KeptUpTo(args, |args|, out, abs)
    ensures out == ["server"] + Kept(args, abs)
  {
    assert args[|args|..] == [] && Kept([], abs) == [] && out + [] == out;
  }

  /** The index loop over all arguments. */
  method KeepAll(args: seq<string>, abs: string -> Option<string>) returns (out: seq<string>)
    ensures out == ["server"] + Kept(args, abs)
  {
    out := ["server"];
    var i := SkipCommand(args, abs);
    while i < |args|
      invariant i <= |args| && KeptUpTo(args, i, out, abs)
    {
      out, i := TakeArg(args, i, out, abs);
    }
    KeptEnd(args, out, abs);
  }

  method Sanitize(args: seq<string>, pidFile: string, abs: string -> Option<string>) returns (out: seq<string>)
    ensures out == Sanitized(args, pidFile, abs)
  {
    out := KeepAll(args, abs);
    var shown := HasFlag(out);
    if !shown {
      out := out + [PID_FLAG, pidFile];
    }
  }

  // ---------------------------------------------------------------- what the sanitizer promises

  predicate IsPid(t: Token) {
    t.Pid? || t.PidInline?
  }

  /** The scan for the PID flag looks at values as well as at flags. */
  predicate Shows(t: Token) {
    IsPid(t) || (t.Valued? && LooksLikePid(t.value))
  }

  predicate AnyShows(ts: seq<Token>) {
    exists k :: 0 <= k < |ts| && Shows(ts[k])
  }

  predicate NamesPid(ts: seq<Token>) {
    exists k :: 0 <= k < |ts| && IsPid(ts[k])
  }

  lemma OneShows(t: Token)
    requires Proper(t)
    ensures HasPidFlag(RenderOne(t)) <==> Shows(t)
  {
    match t
    case Switch(text) => assert !LooksLikePid(text);
    case Valued(flag, value) => assert value in RenderOne(t) && !LooksLikePid(flag);
    case Pid(path) => assert PID_FLAG in RenderOne(t) && LooksLikePid(PID_FLAG);
    case PidInline(path) => assert PID_PREFIX + path in RenderOne(t) && LooksLikePid(PID_PREFIX + path);
  }

  lemma HasPidFlagAppends(a: seq<string>, b: seq<string>)
    ensures HasPidFlag(a + b) <==> HasPidFlag(a) || HasPidFlag(b)
  {
    if HasPidFlag(a) {
      var x :| x in a && LooksLikePid(x);
      assert x in a + b;
    }
    if HasPidFlag(b) {
      var x :| x in b && LooksLikePid(x);
      assert x in a + b;
    }
  }

  lemma AnyShowsHead(ts: seq<Token>)
    requires ts != []
    ensures AnyShows(ts) <==> Shows(ts[0]) || AnyShows(ts[1..])
  {
    if AnyShows(ts[1..]) {
      var k :| 0 <= k < |ts[1..]| && Shows(ts[1..][k]);
      assert Shows(ts[k + 1]);
    }
    if AnyShows(ts) && !Shows(ts[0]) {
      var k :| 0 <= k < |ts| && Shows(ts[k]);
      assert Shows(ts[1..][k - 1]);
    }
  }

  lemma {:induction false} RenderedShows(ts: seq<Token>)
    requires AllProper(ts)
    ensures HasPidFlag(Render(ts)) <==> AnyShows(ts)
  {
    if ts != [] {
      OneShows(ts[0]);
      RenderedShows(ts[1..]);
      HasPidFlagAppends(RenderOne(ts[0]), Render(ts[1..]));
      AnyShowsHead(ts);
    }
  }

  lemma ResolvedShows(ts: seq<Token>, abs: string -> Option<string>)
    ensures AnyShows(Resolved(ts, abs)) <==> AnyShows(ts)
  {
    var r := Resolved(ts, abs);
    assert forall k | 0 <= k < |ts| :: r[k] == ResolvedOne(ts[k], abs);
    if AnyShows(ts) {
      var k :| 0 <= k < |ts| && Shows(ts[k]);
      assert Shows(r[k]);
    }
    if AnyShows(r) {
      var k :| 0 <= k < |r| && Shows(r[k]);
      assert Shows(ts[k]);
    }
  }

  lemma CommandLineShows(ts: seq<Token>)
    requires AllProper(ts)
    ensures HasPidFlag(CommandLine(ts)) <==> AnyShows(ts)
  {
    CommandWordIsDropped("server");
    HasPidFlagAppends(["server"], Render(ts));
    RenderedShows(ts);
  }

  /** The PID file is added exactly when no token of the old command line shows one. */
  lemma PidIsAddedExactly(args: seq<string>, pidFile: string, abs: string -> Option<string>)
    ensures Sanitized(args, pidFile, abs) ==
            CommandLine(Resolved(Tokens(args), abs) + if AnyShows(Tokens(args)) then [] else [Pid(pidFile)])
  {
    var r := Resolved(Tokens(args), abs);
    CommandLineShows(r);
    ResolvedShows(Tokens(args), abs);
    AddToken(r, Pid(pidFile));
    assert r + [] == r;
  }

  lemma TokensOfServer(ts: seq<Token>)
    requires AllProper(ts)
    ensures Tokens(CommandLine(ts)) == ts
  {
    CommandWordHasNoToken("server", Render(ts));
    TokensOfRendered(ts, []);
    assert Render(ts) + [] == Render(ts) && ts + Tokens([]) == ts;
  }

  /** The new command line has every token of the old one, in order, with PID file paths made absolute, and then
      the given PID file when none showed. */
  lemma SanitizeKeepsEveryFlag(args: seq<string>, pidFile: string, abs: string -> Option<string>)
    ensures Tokens(Sanitized(args, pidFile, abs)) ==
            Resolved(Tokens(args), abs) + if AnyShows(Tokens(args)) then [] else [Pid(pidFile)]
  {
    PidIsAddedExactly(args, pidFile, abs);
    TokensOfServer(Resolved(Tokens(args), abs) + if AnyShows(Tokens(args)) then [] else [Pid(pidFile)]);
  }

  lemma ResolvedNamesPid(ts: seq<Token>, abs: string -> Option<string>)
    ensures NamesPid(Resolved(ts, abs)) <==> NamesPid(ts)
  {
    var r := Resolved(ts, abs);
    if NamesPid(ts) {
      var k :| 0 <= k < |ts| && IsPid(ts[k]);
      assert IsPid(r[k]);
    }
    if NamesPid(r) {
      var k :| 0 <= k < |r| && IsPid(r[k]);
      assert IsPid(ts[k]);
    }
  }

  lemma NamedPidShows(ts: seq<Token>)
    ensures NamesPid(ts) ==> AnyShows(ts)
    ensures forall path :: NamesPid(ts + [Pid(path)])
  {
    if NamesPid(ts) {
      var k :| 0 <= k < |ts| && IsPid(ts[k]);
      assert Shows(ts[k]);
    }
    forall path
      ensures NamesPid(ts + [Pid(path)])
    {
      assert IsPid((ts + [Pid(path)])[|ts|]);
    }
  }

  /** A restart is given a PID file unless the old command line had none and passed, as the value
      of another flag, a text that looks like the PID flag. */
  lemma RestartNamesPidExactly(args: seq<string>, pidFile: string, abs: string -> Option<string>)
    ensures NamesPid(Tokens(Sanitized(args, pidFile, abs))) <==> NamesPid(Tokens(args)) || !AnyShows(Tokens(args))
  {
    SanitizeKeepsEveryFlag(args, pidFile, abs);
    ResolvedNamesPid(Tokens(args), abs);
    NamedPidShows(Tokens(args));
    NamedPidShows(Resolved(Tokens(args), abs));
    assert Resolved(Tokens(args), abs) + [] == Resolved(Tokens(args), abs);
  }

  /** It happens: a configuration file with such a name keeps the PID file from being added. */
  lemma ConfigHidesPid(args: seq<string>, name: string, pidFile: string, abs: string -> Option<string>)
    requires args == ["server", "--config", "--pid-file=" + name]
    ensures !NamesPid(Tokens(Sanitized(args, pidFile, abs)))
  {
    var v := "--pid-file=" + name;
    assert args == ["server"] + ["--config", v] && ["--config", v][2..] == [];
    CommandWordHasNoToken("server", ["--config", v]);
    ValueFlagTakesValue("--config");
    assert Tokens(args) == [Valued("--config", v)];
    assert Shows(Tokens(args)[0]);
    RestartNamesPidExactly(args, pidFile, abs);
  }

  lemma ResolvedTwice(ts: seq<Token>, abs: string -> Option<string>)
    requires AbsWorks(abs)
    ensures Resolved(Resolved(ts, abs), abs) == Resolved(ts, abs)
  {
    forall k | 0 <= k < |ts|
      ensures ResolvedOne(ResolvedOne(ts[k], abs), abs) == ResolvedOne(ts[k], abs)
    {
      if IsPid(ts[k]) { ResolveOnce(ts[k].path, abs); }
    }
  }

  /** Sanitizing a command line that is already written out. */
  lemma SanitizedOfTokens(ts: seq<Token>, pidFile: string, abs: string -> Option<string>)
    requires AllProper(ts)
    ensures Sanitized(CommandLine(ts), pidFile, abs) ==
            CommandLine(Resolved(ts, abs) + if AnyShows(ts) then [] else [Pid(pidFile)])
  {
    PidIsAddedExactly(CommandLine(ts), pidFile, abs);
    TokensOfServer(ts);
  }

  lemma RenderIsInjective(ts: seq<Token>, us: seq<Token>)
    requires AllProper(ts) && AllProper(us)
    ensures CommandLine(ts) == CommandLine(us) <==> ts == us
  {
    TokensOfServer(ts);
    TokensOfServer(us);
  }

  /** A command line that shows a PID flag is left as it is exactly when its PID file paths are. */
  lemma ShownIsFixedExactly(ts: seq<Token>, pidFile: string, abs: string -> Option<string>)
    requires AllProper(ts) && AnyShows(ts)
    ensures Sanitized(CommandLine(ts), pidFile, abs) == CommandLine(ts) <==> Resolved(ts, abs) == ts
  {
    SanitizedOfTokens(ts, pidFile, abs);
    assert Resolved(ts, abs) + [] == Resolved(ts, abs);
    RenderIsInjective(Resolved(ts, abs), ts);
  }

  lemma OnePidIsFixedExactly(front: seq<Token>, path: string, back: seq<Token>, abs: string -> Option<string>)
    requires forall k | 0 <= k < |front| :: ResolvedOne(front[k], abs) == front[k]
    requires forall k | 0 <= k < |back| :: ResolvedOne(back[k], abs) == back[k]
    ensures Resolved(front + [Pid(path)] + back, abs) == front + [Pid(path)] + back <==> Resolve(path, abs) == path
  {
    var ts := front + [Pid(path)] + back;
    var r := Resolved(ts, abs);
    assert ts[|front|] == Pid(path) && r[|front|] == ResolvedOne(Pid(path), abs);
    if Resolve(path, abs) == path {
      forall k | 0 <= k < |ts|
        ensures r[k] == ts[k]
      {
        assert r[k] == ResolvedOne(ts[k], abs);
        assert ts[k] == if k < |front| then front[k] else if k == |front| then Pid(path) else back[k - |front| - 1];
      }
    }
  }

  lemma LastPidChanges(r: seq<Token>, pidFile: string, abs: string -> Option<string>)
    requires AllProper(r) && Resolved(r, abs) == r
    ensures Sanitized(CommandLine(r + [Pid(pidFile)]), pidFile, abs) == CommandLine(r + [Pid(pidFile)])
            <==> Resolve(pidFile, abs) == pidFile
  {
    NamedPidShows(r);
    NamedPidShows(r + [Pid(pidFile)]);
    ShownIsFixedExactly(r + [Pid(pidFile)], pidFile, abs);
    OnePidIsFixedExactly(r, pidFile, [], abs);
    assert r + [Pid(pidFile)] + [] == r + [Pid(pidFile)];
  }

  /** Sanitizing twice is sanitizing once, exactly when a PID flag showed already or the path that
      is added stays as it is; an absolute path does. */
  lemma SanitizeTwiceExactly(args: seq<string>, pidFile: string, abs: string -> Option<string>)
    requires AbsWorks(abs)
    ensures Sanitized(Sanitized(args, pidFile, abs), pidFile, abs) == Sanitized(args, pidFile, abs)
            <==> AnyShows(Tokens(args)) || Resolve(pidFile, abs) == pidFile
    ensures IsAbs(pidFile) ==> Resolve(pidFile, abs) == pidFile
  {
    var r := Resolved(Tokens(args), abs);
    PidIsAddedExactly(args, pidFile, abs);
    ResolvedTwice(Tokens(args), abs);
    if AnyShows(Tokens(args)) {
      ResolvedShows(Tokens(args), abs);
      SanitizedOfTokens(r, pidFile, abs);
      assert r + [] == r;
    } else {
      LastPidChanges(r, pidFile, abs);
    }
  }

  /** It happens: a relative path becomes absolute the second time. */
  lemma RelativePidMoves() returns (abs: string -> Option<string>)
    ensures AbsWorks(abs)
    ensures var once := Sanitized(["server"], "a.pid", abs);
            Sanitized(once, "a.pid", abs) != once
  {
    abs := p => Some("/" + p);
    assert Resolve("a.pid", abs) == "/" + "a.pid" && "a.pid"[0] == 'a';
    CommandWordHasNoToken("server", []);
    assert ["server"] + [] == ["server"] && Tokens(["server"]) == [];
    SanitizeTwiceExactly(["server"], "a.pid", abs);
  }

  // ---------------------------------------------------------------- building the start arguments

  /** The start flags; those that were not given on the command line are `None`. */
  datatype Flags = Flags(port: Option<int>, dev: Option<bool>, config: Option<string>, clickhouseUrl: Option<string>,
                         connectionName: Option<string>, pidFile: string, stopTimeout: Option<string>)

  function Decimal(n: int): string {
    if n < 0 then "-" + NatText(-n) else NatText(n)
  }

  predicate Given(v: Option<string>) {
    v.Some? && Trim(v.value) != ""
  }

  function ValueOr(v: Option<string>): string {
    if v.Some? then v.value else ""
  }

  function PortText(port: Option<int>): string {
    "--port=" + Decimal(if port.Some? then port.value else 0)
  }

  function StopText(timeout: Option<string>): string {
    "--stop-timeout=" + ValueOr(timeout)
  }

  function AddIf(ts: seq<Token>, given: bool, t: Token): seq<Token> {
    if given then ts + [t] else ts
  }

  function SwitchTokens(f: Flags): seq<Token> {
    AddIf(AddIf([], f.port.Some?, Switch(PortText(f.port))), f.dev == Some(true), Switch("--dev"))
  }

  function FrontTokens(f: Flags): seq<Token> {
    AddIf(AddIf(AddIf(SwitchTokens(f),
      Given(f.config), Valued("--config", ValueOr(f.config))),
      Given(f.clickhouseUrl), Valued("--clickhouse-url", ValueOr(f.clickhouseUrl))),
      Given(f.connectionName), Valued("--connection-name", ValueOr(f.connectionName)))
  }

  function BuiltTokens(f: Flags): seq<Token> {
    AddIf(FrontTokens(f) + [Pid(f.pidFile)], f.stopTimeout.Some?, Switch(StopText(f.stopTimeout)))
  }

  lemma RenderSingle(t: Token)
    ensures Render([t]) == RenderOne(t)
  {
    assert RenderOne(t) + [] == RenderOne(t);
  }

  lemma AddToken(ts: seq<Token>, t: Token)
    ensures CommandLine(ts + [t]) == CommandLine(ts) + RenderOne(t)
  {
    RenderAppends(ts, [t]);
    RenderSingle(t);
    AppendMoves(["server"], Render(ts), RenderOne(t));
  }

  method BuildSwitches(f: Flags) returns (args: seq<string>)
    ensures args == CommandLine(SwitchTokens(f))
  {
    args := ["server"];
    ghost var ts: seq<Token> := [];
    if f.port.Some? {
      args := args + [PortText(f.port)];
      AddToken(ts, Switch(PortText(f.port)));
      ts := ts + [Switch(PortText(f.port))];
    }
    if f.dev.Some? && f.dev.value {
      args := args + ["--dev"];
      AddToken(ts, Switch("--dev"));
    }
  }

  method AddValue(args: seq<string>, flag: string, v: Option<string>, ghost ts: seq<Token>) returns (out: seq<string>)
    requires args == CommandLine(ts)
    ensures out == CommandLine(AddIf(ts, Given(v), Valued(flag, ValueOr(v))))
  {
    out := args;
    if v.Some? && Trim(v.value) != "" {
      AddToken(ts, Valued(flag, v.value));
      out := out + [flag, v.value];
    }
  }

  /** The argument list for a detached start of the server. */
  method Build(f: Flags) returns (args: seq<string>)
    ensures args == CommandLine(BuiltTokens(f))
  {
    args := BuildSwitches(f);
    ghost var ts := SwitchTokens(f);
    args := AddValue(args, "--config", f.config, ts);
    ts := AddIf(ts, Given(f.config), Valued("--config", ValueOr(f.config)));
    args := AddValue(args, "--clickhouse-url", f.clickhouseUrl, ts);
    ts := AddIf(ts, Given(f.clickhouseUrl), Valued("--clickhouse-url", ValueOr(f.clickhouseUrl)));
    args := AddValue(args, "--connection-name", f.connectionName, ts);
    AddToken(FrontTokens(f), Pid(f.pidFile));
    args := args + [PID_FLAG, f.pidFile];
    if f.stopTimeout.Some? {
      AddToken(FrontTokens(f) + [Pid(f.pidFile)], Switch(StopText(f.stopTimeout)));
      args := args + [StopText(f.stopTimeout)];
    }
  }

  ghost predicate Plain(t: Token) {
    Proper(t) && !IsPid(t)
  }

  lemma AddPlain(ts: seq<Token>, given: bool, t: Token)
    requires Plain(t) && forall k | 0 <= k < |ts| :: Plain(ts[k])
    ensures forall k | 0 <= k < |AddIf(ts, given, t)| :: Plain(AddIf(ts, given, t)[k])
  {
  }

  lemma FrontIsPlain(f: Flags)
    ensures forall k | 0 <= k < |FrontTokens(f)| :: Plain(FrontTokens(f)[k])
    ensures Plain(Switch(StopText(f.stopTimeout)))
  {
    SwitchStandsAlone(PortText(f.port));
    SwitchStandsAlone("--dev");
    SwitchStandsAlone(StopText(f.stopTimeout));
    ValueFlagTakesValue("--config");
    ValueFlagTakesValue("--clickhouse-url");
    ValueFlagTakesValue("--connection-name");
    var ts := SwitchTokens(f);
    AddPlain([], f.port.Some?, Switch(PortText(f.port)));
    AddPlain(AddIf([], f.port.Some?, Switch(PortText(f.port))), f.dev == Some(true), Switch("--dev"));
    AddPlain(ts, Given(f.config), Valued("--config", ValueOr(f.config)));
    ts := AddIf(ts, Given(f.config), Valued("--config", ValueOr(f.config)));
    AddPlain(ts, Given(f.clickhouseUrl), Valued("--clickhouse-url", ValueOr(f.clickhouseUrl)));
    ts := AddIf(ts, Given(f.clickhouseUrl), Valued("--clickhouse-url", ValueOr(f.clickhouseUrl)));
    AddPlain(ts, Given(f.connectionName), Valued("--connection-name", ValueOr(f.connectionName)));
  }

  /** A command line with one PID file among plain flags is fixed exactly when that path is. */
  lemma OnePidLineIsFixedExactly(front: seq<Token>, path: string, back: seq<Token>, pidFile: string,
                                 abs: string -> Option<string>)
    requires forall k | 0 <= k < |front| :: Plain(front[k])
    requires forall k | 0 <= k < |back| :: Plain(back[k])
    ensures var ts := front + [Pid(path)] + back;
            Sanitized(CommandLine(ts), pidFile, abs) == CommandLine(ts) <==> Resolve(path, abs) == path
  {
    var ts := front + [Pid(path)] + back;
    assert forall k | 0 <= k < |ts| ::
        ts[k] == if k < |front| then front[k] else if k == |front| then Pid(path) else back[k - |front| - 1];
    assert Shows(ts[|front|]);
    ShownIsFixedExactly(ts, pidFile, abs);
    OnePidIsFixedExactly(front, path, back, abs);
  }

  /** Every list of start arguments is a fixed point of the sanitizer exactly when its PID file path
      stays as it is, whatever the values of the other flags look like. */
  lemma BuiltIsFixedExactly(f: Flags, pidFile: string, abs: string -> Option<string>)
    ensures Sanitized(CommandLine(BuiltTokens(f)), pidFile, abs) == CommandLine(BuiltTokens(f))
            <==> Resolve(f.pidFile, abs) == f.pidFile
  {
    FrontIsPlain(f);
    var back := AddIf([], f.stopTimeout.Some?, Switch(StopText(f.stopTimeout)));
    assert BuiltTokens(f) == FrontTokens(f) + [Pid(f.pidFile)] + back;
    OnePidLineIsFixedExactly(FrontTokens(f), f.pidFile, back, pidFile, abs);
  }

  // ---------------------------------------------------------------- from the running process

  const NUL: char := '\0'

  /** A process's command line as the kernel shows it: every argument followed by a NUL. */
  function ProcessText(argv: seq<string>): string {
    if argv == [] then "" else argv[0] + [NUL] + ProcessText(argv[1..])
  }

  function NonBlank(parts: seq<string>): seq<string> {
    if parts == [] then []
    else if Trim(parts[0]) == "" then NonBlank(parts[1..])
    else [parts[0]] + NonBlank(parts[1..])
  }

  /** The parts before `i` have been read, the executable left out. */
  ghost predicate ReadUpTo(parts: seq<string>, i: nat, out: seq<string>)
    requires i <= |parts|
  {
    if i == 0 then out == [] else out + NonBlank(parts[i..]) == NonBlank(parts[1..])
  }

  lemma ReadOn(parts: seq<string>, i: nat, out: seq<string>)
    requires i < |parts| && ReadUpTo(parts, i, out)
    ensures ReadUpTo(parts, i + 1, if i > 0 && Trim(parts[i]) != "" then out + [parts[i]] else out)
  {
    assert parts[i..][1..] == parts[i + 1..];
    if i == 0 {
      assert [] + NonBlank(parts[1..]) == NonBlank(parts[1..]);
    } else {
      AppendMoves(out, [parts[i]], NonBlank(parts[i + 1..]));
    }
  }

  lemma ReadAll(parts: seq<string>, out: seq<string>)
    requires parts != [] && ReadUpTo(parts, |parts|, out)
    ensures out == NonBlank(parts[1..])
  {
    assert parts[|parts|..] == [] && out + [] == out;
  }

  /** The arguments after the executable, blank ones left out. */
  method ReadProcessArgs(data: string) returns (out: seq<string>)
    ensures out == NonBlank(Split(data, NUL)[1..])
  {
    var parts := Split(data, NUL);
    out := [];
    var i := 0;
    while i < |parts|
      invariant i <= |parts| && ReadUpTo(parts, i, out)
    {
      ReadOn(parts, i, out);
      if i > 0 && Trim(parts[i]) != "" {
        out := out + [parts[i]];
      }
      i := i + 1;
    }
    ReadAll(parts, out);
  }

  /** The arguments of a restart; when they cannot be read, just the command and the PID file. */
  method DetectRestartArgs(data: Option<string>, pidFile: string, abs: string -> Option<string>)
    returns (out: seq<string>)
    ensures data.None? ==> out == ["server", PID_FLAG, pidFile]
    ensures data.Some? ==> out == Sanitized(NonBlank(Split(data.value, NUL)[1..]), pidFile, abs)
  {
    if data.None? {
      return ["server", PID_FLAG, pidFile];
    }
    var args := ReadProcessArgs(data.value);
    out := Sanitize(args, pidFile, abs);
  }

  lemma FirstNul(a: string, rest: string)
    requires NUL !in a
    ensures IndexOf(a + [NUL] + rest, NUL) == |a|
  {
    assert (a + [NUL] + rest)[|a|] == NUL;
    assert forall k | 0 <= k < |a| :: (a + [NUL] + rest)[k] == a[k];
  }

  lemma SplitFirst(a: string, rest: string)
    requires NUL !in a
    ensures Split(a + [NUL] + rest, NUL) == [a] + Split(rest, NUL)
  {
    FirstNul(a, rest);
    var s := a + [NUL] + rest;
    assert s[..|a|] == a && s[|a| + 1..] == rest;
  }

  ghost predicate WithoutNul(argv: seq<string>) {
    forall k | 0 <= k < |argv| :: NUL !in argv[k]
  }

  /** Splitting the kernel's text at the NULs gives the arguments back, and an empty text after the last. */
  lemma {:induction false} SplitProcessText(argv: seq<string>)
    requires WithoutNul(argv)
    ensures Split(ProcessText(argv), NUL) == argv + [""]
  {
    if argv != [] {
      SplitProcessText(argv[1..]);
      SplitFirst(argv[0], ProcessText(argv[1..]));
      PrependHead(argv, [""]);
    }
  }

  lemma WithoutFirst<T>(all: seq<T>, x: T, s: seq<T>, more: seq<T>)
    requires all == [x] + s + more
    ensures all[1..] == s + more
  {
  }

  lemma NoNulBefore(exe: string, args: seq<string>)
    requires NUL !in exe && WithoutNul(args)
    ensures WithoutNul([exe] + args)
  {
  }

  /** The text of a process gives its arguments back behind the executable, and an empty text after the last. */
  lemma SplitExecutable(exe: string, args: seq<string>)
    requires NUL !in exe && WithoutNul(args)
    ensures Split(ProcessText([exe] + args), NUL)[1..] == args + [""]
  {
    NoNulBefore(exe, args);
    SplitProcessText([exe] + args);
    WithoutFirst(Split(ProcessText([exe] + args), NUL), exe, args, [""]);
  }

  lemma {:induction false} NonBlankKeeps(args: seq<string>)
    requires forall k | 0 <= k < |args| :: Trim(args[k]) != ""
    ensures NonBlank(args + [""]) == args
  {
    if args == [] {
      assert [""][1..] == [] && Trim("") == "";
    } else {
      assert (args + [""])[1..] == args[1..] + [""];
      NonBlankKeeps(args[1..]);
    }
  }

  lemma {:induction false} TrimRightKeepsFirst(s: string)
    requires s != "" && !IsBlank(s[0])
    ensures TrimRight(s) != ""
    decreases |s|
  {
    if IsBlank(s[|s| - 1]) { TrimRightKeepsFirst(s[..|s| - 1]); }
  }

  lemma FirstCharShows(s: string)
    requires s != "" && !IsBlank(s[0])
    ensures Trim(s) != ""
  {
    TrimRightKeepsFirst(s);
  }

  /** No argument of the token is blank. */
  ghost predicate Visible(t: Token) {
    forall a | a in RenderOne(t) :: Trim(a) != ""
  }

  lemma {:induction false} RenderedIsVisible(ts: seq<Token>)
    requires forall k | 0 <= k < |ts| :: Visible(ts[k])
    ensures forall k | 0 <= k < |Render(ts)| :: Trim(Render(ts)[k]) != ""
  {
    if ts != [] {
      RenderedIsVisible(ts[1..]);
      assert Visible(ts[0]);
      assert forall k | 0 <= k < |RenderOne(ts[0])| :: RenderOne(ts[0])[k] in RenderOne(ts[0]);
    }
  }

  lemma VisibleTokens(text: string, flag: string, value: string)
    requires text != "" && !IsBlank(text[0]) && flag != "" && !IsBlank(flag[0]) && Trim(value) != ""
    ensures Visible(Switch(text)) && Visible(Valued(flag, value))
  {
    FirstCharShows(text);
    FirstCharShows(flag);
  }

  lemma PidIsVisible(path: string)
    requires Trim(path) != ""
    ensures Visible(Pid(path))
  {
    assert PID_FLAG[0] == '-';
    FirstCharShows(PID_FLAG);
  }

  lemma AddVisible(ts: seq<Token>, given: bool, t: Token)
    requires (given ==> Visible(t)) && forall k | 0 <= k < |ts| :: Visible(ts[k])
    ensures forall k | 0 <= k < |AddIf(ts, given, t)| :: Visible(AddIf(ts, given, t)[k])
  {
  }

  lemma AddVisibleValue(ts: seq<Token>, flag: string, v: Option<string>)
    requires flag != "" && !IsBlank(flag[0]) && forall k | 0 <= k < |ts| :: Visible(ts[k])
    ensures forall k | 0 <= k < |AddIf(ts, Given(v), Valued(flag, ValueOr(v)))| ::
              Visible(AddIf(ts, Given(v), Valued(flag, ValueOr(v)))[k])
  {
    if Given(v) { VisibleTokens(flag, flag, v.value); }
    AddVisible(ts, Given(v), Valued(flag, ValueOr(v)));
  }

  lemma SwitchesAreVisible(f: Flags)
    ensures forall k | 0 <= k < |SwitchTokens(f)| :: Visible(SwitchTokens(f)[k])
    ensures Visible(Switch(StopText(f.stopTimeout)))
  {
    FirstCharShows(PortText(f.port));
    FirstCharShows("--dev");
    FirstCharShows(StopText(f.stopTimeout));
    AddVisible([], f.port.Some?, Switch(PortText(f.port)));
    AddVisible(AddIf([], f.port.Some?, Switch(PortText(f.port))), f.dev == Some(true), Switch("--dev"));
  }

  lemma BuiltIsVisible(f: Flags)
    requires Trim(f.pidFile) != ""
    ensures forall k | 0 <= k < |BuiltTokens(f)| :: Visible(BuiltTokens(f)[k])
  {
    SwitchesAreVisible(f);
    assert "--config"[0] == "--clickhouse-url"[0] == "--connection-name"[0] == '-';
    var ts := SwitchTokens(f);
    AddVisibleValue(ts, "--config", f.config);
    ts := AddIf(ts, Given(f.config), Valued("--config", ValueOr(f.config)));
    AddVisibleValue(ts, "--clickhouse-url", f.clickhouseUrl);
    ts := AddIf(ts, Given(f.clickhouseUrl), Valued("--clickhouse-url", ValueOr(f.clickhouseUrl)));
    AddVisibleValue(ts, "--connection-name", f.connectionName);
    PidIsVisible(f.pidFile);
    AddVisible(FrontTokens(f) + [Pid(f.pidFile)], f.stopTimeout.Some?, Switch(StopText(f.stopTimeout)));
  }

  /** The arguments read back from a running server are those it was built with. */
  lemma ProcessShowsBuilt(exe: string, f: Flags)
    requires NUL !in exe && WithoutNul(CommandLine(BuiltTokens(f)))
    requires Trim(f.pidFile) != ""
    ensures NonBlank(Split(ProcessText([exe] + CommandLine(BuiltTokens(f))), NUL)[1..]) == CommandLine(BuiltTokens(f))
  {
    var args := CommandLine(BuiltTokens(f));
    SplitExecutable(exe, args);
    BuiltIsVisible(f);
    RenderedIsVisible(BuiltTokens(f));
    assert "server"[0] == 's';
    FirstCharShows("server");
    NonBlankKeeps(args);
  }

  /** After an update a server that the start command has built the arguments of restarts with exactly these, if and
      only if the path of its PID file stays as it is; the start command makes that path absolute first. */
  lemma RestartRecoversStartExactly(exe: string, f: Flags, pidFile: string, abs: string -> Option<string>)
    requires NUL !in exe && WithoutNul(CommandLine(BuiltTokens(f)))
    requires Trim(f.pidFile) != ""
    ensures var args := CommandLine(BuiltTokens(f));
            Sanitized(NonBlank(Split(ProcessText([exe] + args), NUL)[1..]), pidFile, abs) == args
            <==> Resolve(f.pidFile, abs) == f.pidFile
    ensures IsAbs(f.pidFile) ==> Resolve(f.pidFile, abs) == f.pidFile
  {
    ProcessShowsBuilt(exe, f);
    BuiltIsFixedExactly(f, pidFile, abs);
  }
}
