/** The server's flags as its flag parser reads them, and what of them survives a restart. */
module ServerFlags {
  import opened Common
  import opened Text
  import opened StartArgs

  /** A flag by its long name and the text of its value; of several the last one holds. */
  datatype Setting = Setting(flag: string, value: string)

  /** What one flag argument sets, and the arguments behind it. */
  datatype Parsed = Parsed(setting: Setting, rest: seq<string>)

  predicate TakesText(name: string) {
    name == "port" || name == "config" || name == "clickhouse-url" || name == "connection-name" ||
    name == "pid-file" || name == "stop-timeout"
  }

  predicate IsBool(name: string) {
    name == "dev" || name == "detach" || name == "help"
  }

  /** The value of a flag is the next argument. */
  function ParseNext(flag: string, rest: seq<string>): (r: Option<Parsed>)
    ensures r.Some? ==> |r.value.rest| <= |rest|
  {
    if rest == [] then None else Some(Parsed(Setting(flag, rest[0]), rest[1..]))
  }

  /** The part before the first equals sign. */
  function Stem(name: string): string {
    var i := IndexOf(name, '=');
    if i < 0 then name else name[..i]
  }

  /** `--name=value`, `--name value`, or `--name` for a boolean flag. */
  function ParseLong(name: string, rest: seq<string>): (r: Option<Parsed>)
    ensures r.Some? ==> |r.value.rest| <= |rest|
  {
    var i, stem := IndexOf(name, '='), Stem(name);
    if !TakesText(stem) && !IsBool(stem) then None
    else if i >= 0 then Some(Parsed(Setting(stem, name[i + 1..]), rest))
    else if IsBool(stem) then Some(Parsed(Setting(stem, "true"), rest))
    else ParseNext(stem, rest)
  }

  /** The value read from what is joined to a shorthand. */
  function JoinedValue(text: string): string {
    if |text| > 1 && text[0] == '=' then text[1..] else text
  }

  /** `-p=value`, `-pvalue` or `-p value`; an equals sign with nothing behind it is the value. */
  function ParseShort(group: string, rest: seq<string>): (r: Option<Parsed>)
    requires group != ""
    ensures r.Some? ==> |r.value.rest| <= |rest|
  {
    var joined := JoinedValue(group[1..]);
    if group[0] == 'p' || group[0] == 'c' then
      var flag := if group[0] == 'p' then "port" else "config";
      if |group| > 1 then Some(Parsed(Setting(flag, joined), rest)) else ParseNext(flag, rest)
    else if group[0] == 'h' && |group| == 1 then Some(Parsed(Setting("help", "true"), rest))
    else if group[0] == 'h' && |group| > 2 && group[1] == '=' then Some(Parsed(Setting("help", joined), rest))
    else None
  }

  predicate IsPositional(a: string) {
    |a| < 2 || a[0] != '-'
  }

  function ParseFlag(a: string, rest: seq<string>): (r: Option<Parsed>)
    requires !IsPositional(a)
    ensures r.Some? ==> |r.value.rest| <= |rest|
  {
    if a[1] == '-' then ParseLong(a[2..], rest) else ParseShort(a[1..], rest)
  }

  function Before(s: Setting, rest: Option<seq<Setting>>): Option<seq<Setting>> {
    match rest
    case None => None
    case Some(ss) => Some([s] + ss)
  }

  /** Everything an argument list sets, in order; positional arguments may stand between flags, and nothing behind
      `--` is a flag. Without a result the arguments are refused. */
  function Settings(args: seq<string>): Option<seq<Setting>>
    decreases |args|
  {
    if args == [] then Some([])
    else if IsPositional(args[0]) then Settings(args[1..])
    else if args[0] == "--" then Some([])
    else
      match ParseFlag(args[0], args[1..])
      case None => None
      case Some(p) => Before(p.setting, Settings(p.rest))
  }

  // ---------------------------------------------------------------- what a command line of tokens sets

  function SwitchSetting(text: string): Setting
    requires |text| > 2
  {
    var i := IndexOf(text[2..], '=');
    if i < 0 then Setting(text[2..], "true") else Setting(text[2..][..i], text[2..][i + 1..])
  }

  function LongName(flag: string): string {
    if flag == "-p" then "port" else if flag == "-c" then "config" else if |flag| > 2 then flag[2..] else flag
  }

  function TokenSetting(t: Token): Setting {
    match t
    case Switch(text) => if |text| > 2 then SwitchSetting(text) else Setting(text, "true")
    case Valued(flag, value) => Setting(LongName(flag), value)
    case Pid(path) => Setting("pid-file", path)
    case PidInline(path) => Setting("pid-file", path)
  }

  function TokenSettings(ts: seq<Token>): (ss: seq<Setting>)
    ensures |ss| == |ts|
  {
    if ts == [] then [] else [TokenSetting(ts[0])] + TokenSettings(ts[1..])
  }

  lemma FirstEquals(stem: string, name: string)
    requires '=' !in stem && stem + "=" <= name
    ensures IndexOf(name, '=') == |stem| && name[..|stem|] == stem
  {
    assert name[|stem|] == (stem + "=")[|stem|];
    assert forall k | 0 <= k < |stem| :: name[k] == (stem + "=")[k];
  }

  /** What is read from `--stem=value`. */
  lemma ParseJoined(a: string, stem: string, rest: seq<string>)
    requires "--" + stem + "=" <= a && '=' !in stem && (TakesText(stem) || IsBool(stem))
    ensures !IsPositional(a) && a != "--" && |a| > 2
    ensures ParseFlag(a, rest) == Some(Parsed(SwitchSetting(a), rest))
    ensures SwitchSetting(a) == Setting(stem, a[|stem| + 3..])
  {
    var p := "--" + stem + "=";
    assert a[0] == p[0] == '-' && a[1] == p[1] == '-';
    assert forall k | 2 <= k < |p| :: a[k] == p[k];
    assert stem + "=" <= a[2..];
    FirstEquals(stem, a[2..]);
  }

  lemma LongForms()
    ensures "--" + "port" + "=" == "--port=" && "--" + "config" + "=" == "--config="
    ensures "--" + "clickhouse-url" + "=" == "--clickhouse-url="
    ensures "--" + "connection-name" + "=" == "--connection-name="
    ensures "--" + "stop-timeout" + "=" == "--stop-timeout=" && "--" + "pid-file" + "=" == PID_PREFIX
  {
  }

  lemma SwitchName(a: string) returns (stem: string)
    requires IsSwitch(a) && a != "--dev"
    ensures "--" + stem + "=" <= a && '=' !in stem && TakesText(stem) && stem != "pid-file"
  {
    LongForms();
    stem := if "--port=" <= a then "port" else if "--config=" <= a then "config"
      else if "--clickhouse-url=" <= a then "clickhouse-url"
      else if "--connection-name=" <= a then "connection-name" else "stop-timeout";
    assert |stem| != 8;
  }

  lemma ParseSwitch(a: string, rest: seq<string>)
    requires IsSwitch(a)
    ensures !IsPositional(a) && a != "--" && |a| > 2
    ensures ParseFlag(a, rest) == Some(Parsed(SwitchSetting(a), rest))
    ensures SwitchSetting(a).flag !in {"detach", "help", "pid-file"}
  {
    if a == "--dev" {
      assert a[2..] == "dev" && IndexOf("dev", '=') == -1;
    } else {
      var stem := SwitchName(a);
      ParseJoined(a, stem, rest);
      NameIsNoSwitch(stem);
    }
  }

  lemma ParseBare(stem: string, rest: seq<string>)
    requires TakesText(stem) && '=' !in stem
    ensures var a := "--" + stem;
            !IsPositional(a) && a != "--" && ParseFlag(a, rest) == ParseNext(stem, rest) && LongName(a) == stem
  {
    assert ("--" + stem)[2..] == stem && stem != "" && ("--" + stem)[1] == '-';
  }

  /** The name of a flag whose value is the next argument. */
  lemma ValueName(a: string) returns (stem: string)
    requires IsValueFlag(a) && a != "-p" && a != "-c"
    ensures a == "--" + stem && '=' !in stem && TakesText(stem) && stem != "pid-file"
  {
    BareForms();
    stem := if a == "--port" then "port" else if a == "--config" then "config"
      else if a == "--clickhouse-url" then "clickhouse-url"
      else if a == "--connection-name" then "connection-name" else "stop-timeout";
    assert |stem| != 8;
  }

  lemma BareForms()
    ensures "--" + "port" == "--port" && "--" + "config" == "--config" && "--" + "clickhouse-url" == "--clickhouse-url"
    ensures "--" + "connection-name" == "--connection-name" && "--" + "stop-timeout" == "--stop-timeout"
    ensures "--" + "pid-file" == PID_FLAG
  {
  }

  lemma ParseValued(a: string, rest: seq<string>)
    requires IsValueFlag(a)
    ensures !IsPositional(a) && a != "--" && ParseFlag(a, rest) == ParseNext(LongName(a), rest)
    ensures LongName(a) !in {"detach", "help", "pid-file"}
  {
    if a != "-p" && a != "-c" {
      var stem := ValueName(a);
      ParseBare(stem, rest);
      NameIsNoSwitch(stem);
    }
  }

  lemma NameIsNoSwitch(stem: string)
    requires TakesText(stem)
    ensures stem != "detach" && stem != "help" && stem != "dev"
  {
    assert stem[0] != 'd' && stem[0] != 'h';
  }

  lemma ParsePid(rest: seq<string>)
    ensures !IsPositional(PID_FLAG) && PID_FLAG != "--" && ParseFlag(PID_FLAG, rest) == ParseNext("pid-file", rest)
  {
    assert PID_FLAG == "--" + "pid-file" && '=' !in "pid-file";
    ParseBare("pid-file", rest);
  }

  lemma ParseInlinePid(v: string, rest: seq<string>)
    ensures !IsPositional(PID_PREFIX + v) && PID_PREFIX + v != "--"
    ensures ParseFlag(PID_PREFIX + v, rest) == Some(Parsed(Setting("pid-file", v), rest))
  {
    assert "--" + "pid-file" + "=" == PID_PREFIX && '=' !in "pid-file";
    ParseJoined(PID_PREFIX + v, "pid-file", rest);
    assert (PID_PREFIX + v)[11..] == v;
  }

  // ---------------------------------------------------------------- command lines of tokens

  lemma SettingsHead(a: string, rest: seq<string>, p: Parsed)
    requires !IsPositional(a) && a != "--" && ParseFlag(a, rest) == Some(p)
    ensures Settings([a] + rest) == Before(p.setting, Settings(p.rest))
  {
    assert ([a] + rest)[1..] == rest;
  }

  lemma SettingsOfTwo(a: string, flag: string, value: string, rest: seq<string>)
    requires !IsPositional(a) && a != "--" && ParseFlag(a, [value] + rest) == ParseNext(flag, [value] + rest)
    ensures Settings([a, value] + rest) == Before(Setting(flag, value), Settings(rest))
  {
    assert ([value] + rest)[1..] == rest;
    SettingsHead(a, [value] + rest, Parsed(Setting(flag, value), rest));
    assert [a, value] + rest == [a] + ([value] + rest);
  }

  lemma SettingsOfOne(t: Token, rest: seq<string>)
    requires Proper(t)
    ensures Settings(RenderOne(t) + rest) == Before(TokenSetting(t), Settings(rest))
  {
    match t
    case Switch(text) =>
      ParseSwitch(text, rest);
      SettingsHead(text, rest, Parsed(SwitchSetting(text), rest));
    case Valued(flag, value) =>
      ParseValued(flag, [value] + rest);
      SettingsOfTwo(flag, LongName(flag), value, rest);
    case Pid(path) =>
      ParsePid([path] + rest);
      SettingsOfTwo(PID_FLAG, "pid-file", path, rest);
    case PidInline(path) =>
      ParseInlinePid(path, rest);
      SettingsHead(PID_PREFIX + path, rest, Parsed(Setting("pid-file", path), rest));
  }

  /** A command line written out from tokens is read as their settings. */
  lemma {:induction false} SettingsOfRendered(ts: seq<Token>)
    requires AllProper(ts)
    ensures Settings(Render(ts)) == Some(TokenSettings(ts))
  {
    if ts != [] {
      SettingsOfRendered(ts[1..]);
      SettingsOfOne(ts[0], Render(ts[1..]));
    }
  }

  lemma SettingsOfCommandLine(ts: seq<Token>)
    requires AllProper(ts)
    ensures Settings(CommandLine(ts)) == Some(TokenSettings(ts))
  {
    SettingsOfRendered(ts);
    assert CommandLine(ts)[1..] == Render(ts) && "server"[0] == 's';
  }

  // ---------------------------------------------------------------- what the sanitizer loses

  /** Detaching and asking for help are not part of what a server runs with. */
  predicate IsServerSetting(s: Setting) {
    s.flag != "detach" && s.flag != "help"
  }

  function ServerSettings(ss: seq<Setting>): seq<Setting> {
    if ss == [] then []
    else (if IsServerSetting(ss[0]) then [ss[0]] else []) + ServerSettings(ss[1..])
  }

  /** A shorthand with a joined value, or the development flag with one. */
  predicate IsLostForm(a: string) {
    (|a| > 2 && a[0] == '-' && (a[1] == 'p' || a[1] == 'c')) || "--dev=" <= a
  }

  /** The arguments in flag position that have such a form. */
  function Lost(args: seq<string>): nat
    decreases |args|
  {
    if args == [] then 0
    else if IsPositional(args[0]) then Lost(args[1..])
    else if args[0] == "--" then 0
    else
      match ParseFlag(args[0], args[1..])
      case None => 0
      case Some(p) => (if IsLostForm(args[0]) then 1 else 0) + Lost(p.rest)
  }

  /** The arguments behind the end of the flags. */
  function Behind(args: seq<string>): seq<string>
    decreases |args|
  {
    if args == [] then []
    else if IsPositional(args[0]) then Behind(args[1..])
    else if args[0] == "--" then args[1..]
    else
      match ParseFlag(args[0], args[1..])
      case None => []
      case Some(p) => Behind(p.rest)
  }

  lemma PositionalIsDropped(a: string)
    requires IsPositional(a)
    ensures KindOf(a) == Dropped
  {
    assert PID_PREFIX[0] == PID_FLAG[0] == "--port="[0] == "--config="[0] == '-';
    assert "--clickhouse-url="[0] == "--connection-name="[0] == "--stop-timeout="[0] == '-';
  }

  lemma NotKnownIsDropped(a: string)
    requires |a| > 2 && (a[1] != '-' || (a[2] == 'd' && a != "--dev") || a[2] == 'h')
    ensures KindOf(a) == Dropped
  {
    assert PID_PREFIX[1] == PID_FLAG[1] == "--port="[1] == "--config="[1] == '-';
    assert "--clickhouse-url="[1] == "--connection-name="[1] == "--stop-timeout="[1] == '-';
    assert PID_PREFIX[2] == PID_FLAG[2] == "--port="[2] == 'p';
    assert "--clickhouse-url="[2] == "--connection-name="[2] == "--config="[2] == 'c' && "--stop-timeout="[2] == 's';
    assert "--port"[1] == "--config"[1] == "--dev"[1] == "--clickhouse-url"[1] == '-';
    assert "--connection-name"[1] == "--stop-timeout"[1] == '-';
    assert "--port"[2] == 'p' && "--clickhouse-url"[2] == "--config"[2] == "--connection-name"[2] == 'c';
    assert "--stop-timeout"[2] == 's';
  }

  lemma KnownIsNotLost(a: string)
    requires KindOf(a) != Dropped && |a| > 2
    ensures !IsLostForm(a) && a[0] == a[1] == '-'
  {
    if !IsPositional(a) {
      if a[1] != '-' || (a[2] == 'd' && a != "--dev") {
        NotKnownIsDropped(a);
      }
      assert "--dev="[2] == 'd';
    } else {
      PositionalIsDropped(a);
    }
  }

  lemma TokensHead(a: string, rest: seq<string>)
    ensures KindOf(a) == Dropped ==> Tokens([a] + rest) == Tokens(rest)
    ensures KindOf(a) == Alone ==> Tokens([a] + rest) == [Switch(a)] + Tokens(rest)
    ensures KindOf(a) == InlinePid ==> Tokens([a] + rest) == [PidInline(a[|PID_PREFIX|..])] + Tokens(rest)
    ensures KindOf(a) == TakesValue && rest != [] ==> Tokens([a] + rest) == [Valued(a, rest[0])] + Tokens(rest[1..])
    ensures KindOf(a) == TakesPid && rest != [] ==> Tokens([a] + rest) == [Pid(rest[0])] + Tokens(rest[1..])
  {
    assert ([a] + rest)[1..] == rest;
    if rest != [] {
      assert ([a] + rest)[2..] == rest[1..] && ([a] + rest)[1] == rest[0];
    }
  }

  /** An argument that the sanitizer keeps is kept with all that it sets. */
  lemma KeptFlag(a: string, rest: seq<string>) returns (t: Token)
    requires !IsPositional(a) && KindOf(a) != Dropped && ParseFlag(a, rest).Some?
    ensures var p := ParseFlag(a, rest).value;
            && Tokens([a] + rest) == [t] + Tokens(p.rest) && TokenSetting(t) == p.setting
            && IsServerSetting(p.setting) && !IsLostForm(a)
  {
    TokensHead(a, rest);
    if |a| > 2 {
      KnownIsNotLost(a);
    }
    match KindOf(a)
    case Alone =>
      ParseSwitch(a, rest);
      t := Switch(a);
    case TakesValue =>
      ParseValued(a, rest);
      t := Valued(a, rest[0]);
    case TakesPid =>
      ParsePid(rest);
      t := Pid(rest[0]);
    case InlinePid =>
      assert a == PID_PREFIX + a[|PID_PREFIX|..];
      ParseInlinePid(a[|PID_PREFIX|..], rest);
      t := PidInline(a[|PID_PREFIX|..]);
  }

  lemma LongParts(a: string)
    requires |a| > 2 && a[0] == a[1] == '-'
    ensures a == "--" + Stem(a[2..]) || "--" + Stem(a[2..]) + "=" <= a
  {
    var i := IndexOf(a[2..], '=');
    assert a == "--" + a[2..];
    if i >= 0 {
      assert a[2..] == Stem(a[2..]) + "=" + a[2..][i + 1..];
    }
  }

  lemma NamedIsKept(a: string)
    requires |a| > 2 && a[0] == a[1] == '-' && (TakesText(Stem(a[2..])) || a == "--dev")
    ensures KindOf(a) != Dropped
  {
    if a != "--dev" {
      var stem := Stem(a[2..]);
      LongParts(a);
      if a == "--" + stem {
        BareIsKept(stem);
      } else {
        JoinedIsKept(a, stem);
      }
    }
  }

  lemma BareIsKept(stem: string)
    requires TakesText(stem)
    ensures KindOf("--" + stem) != Dropped
  {
    BareForms();
  }

  lemma JoinedIsKept(a: string, stem: string)
    requires TakesText(stem) && "--" + stem + "=" <= a
    ensures KindOf(a) != Dropped
  {
    LongForms();
  }

  /** An argument that the sanitizer drops sets nothing the server runs with, unless it has a form that is lost. */
  lemma DroppedFlag(a: string, rest: seq<string>)
    requires !IsPositional(a) && KindOf(a) == Dropped && a != "--" && ParseFlag(a, rest).Some?
    ensures var p := ParseFlag(a, rest).value;
            p.rest == rest && (IsLostForm(a) <==> IsServerSetting(p.setting))
  {
    if a[1] == '-' {
      assert |a| > 2;
      DroppedLong(a, rest);
    } else if |a| == 2 {
      assert a == "-" + a[1..];
      assert a != "-p" && a != "-c";
    }
  }

  lemma DroppedLong(a: string, rest: seq<string>)
    requires |a| > 2 && a[0] == a[1] == '-' && KindOf(a) == Dropped && ParseFlag(a, rest).Some?
    ensures var p := ParseFlag(a, rest).value;
            p.rest == rest && (IsLostForm(a) <==> IsServerSetting(p.setting))
  {
    var stem := Stem(a[2..]);
    if a == "--dev" || TakesText(stem) {
      NamedIsKept(a);
    }
    BoolSetting(a[2..], rest);
    if stem == "dev" {
      DevJoined(a);
    } else {
      DevIsStem(a);
    }
  }

  lemma BoolSetting(name: string, rest: seq<string>)
    requires IsBool(Stem(name))
    ensures ParseLong(name, rest).Some?
    ensures ParseLong(name, rest).value.rest == rest && ParseLong(name, rest).value.setting.flag == Stem(name)
  {
    if TakesText(Stem(name)) {
      NameIsNoSwitch(Stem(name));
    }
  }

  lemma DevIsStem(a: string)
    requires |a| > 2
    ensures "--dev=" <= a ==> Stem(a[2..]) == "dev"
  {
    if "--dev=" <= a {
      assert "dev" + "=" <= a[2..] && '=' !in "dev";
      FirstEquals("dev", a[2..]);
    }
  }

  lemma DevJoined(a: string)
    requires |a| > 2 && a[0] == a[1] == '-' && a != "--dev" && Stem(a[2..]) == "dev"
    ensures "--dev=" <= a
  {
    var name := a[2..];
    var i := IndexOf(name, '=');
    assert a == "--" + name;
    assert i >= 0;
    assert name == "dev" + "=" + name[i + 1..];
    assert a == "--dev=" + name[i + 1..];
  }

  // ---------------------------------------------------------------- the settings of a restart

  lemma TokenSettingsHead(t: Token, ts: seq<Token>)
    ensures TokenSettings([t] + ts) == [TokenSetting(t)] + TokenSettings(ts)
  {
    assert ([t] + ts)[1..] == ts;
  }

  lemma ServerSettingsHead(s: Setting, ss: seq<Setting>)
    ensures ServerSettings([s] + ss) == (if IsServerSetting(s) then [s] else []) + ServerSettings(ss)
  {
    assert ([s] + ss)[1..] == ss;
  }

  /** The difference between what the server runs with and what the kept tokens set. */
  ghost predicate Balanced(was: seq<Setting>, kept: seq<Setting>, lost: nat, gained: seq<Setting>) {
    |was| + |gained| == |kept| + lost && (lost == 0 ==> kept == was + gained)
  }

  lemma BalancedMore(s: Setting, server: bool, lostForm: bool, was: seq<Setting>, kept: seq<Setting>, lost: nat,
                     gained: seq<Setting>, was': seq<Setting>, kept': seq<Setting>, lost': nat)
    requires Balanced(was, kept, lost, gained) && (lostForm ==> server)
    requires was' == (if server then [s] else []) + was
    requires kept' == (if server && !lostForm then [s] else []) + kept
    requires lost' == (if lostForm then 1 else 0) + lost
    ensures Balanced(was', kept', lost', gained)
  {
    if lost' == 0 && server {
      assert [s] + (was + gained) == ([s] + was) + gained;
    }
  }

  function Was(args: seq<string>): seq<Setting>
    requires Settings(args).Some?
  {
    ServerSettings(Settings(args).value)
  }

  function KeptSettings(args: seq<string>): seq<Setting> {
    TokenSettings(Tokens(args))
  }

  /** One flag more in front of arguments, kept or not. */
  lemma OneFlagMore(a: string, rest: seq<string>)
    requires !IsPositional(a) && a != "--" && ParseFlag(a, rest).Some?
    requires Settings(ParseFlag(a, rest).value.rest).Some?
    ensures var p, args := ParseFlag(a, rest).value, [a] + rest;
            && Settings(args).Some? && Behind(args) == Behind(p.rest)
            && Was(args) == (if IsServerSetting(p.setting) then [p.setting] else []) + Was(p.rest)
            && KeptSettings(args) ==
               (if IsServerSetting(p.setting) && !IsLostForm(a) then [p.setting] else []) + KeptSettings(p.rest)
            && Lost(args) == (if IsLostForm(a) then 1 else 0) + Lost(p.rest)
            && (IsLostForm(a) ==> IsServerSetting(p.setting))
  {
    var p, args := ParseFlag(a, rest).value, [a] + rest;
    assert args[1..] == rest && args[0] == a;
    ServerSettingsHead(p.setting, Settings(p.rest).value);
    if KindOf(a) == Dropped {
      TokensHead(a, rest);
      DroppedFlag(a, rest);
    } else {
      var t := KeptFlag(a, rest);
      TokenSettingsHead(t, Tokens(p.rest));
    }
  }

  lemma PositionalMore(a: string, rest: seq<string>)
    requires IsPositional(a)
    ensures var args := [a] + rest;
            && Settings(args) == Settings(rest) && Tokens(args) == Tokens(rest)
            && Lost(args) == Lost(rest) && Behind(args) == Behind(rest)
  {
    TokensHead(a, rest);
    PositionalIsDropped(a);
    assert ([a] + rest)[1..] == rest;
  }

  lemma EndOfFlags(rest: seq<string>)
    ensures var args := ["--"] + rest;
            Settings(args) == Some([]) && Tokens(args) == Tokens(rest) && Lost(args) == 0 && Behind(args) == rest
  {
    TokensHead("--", rest);
    assert (["--"] + rest)[1..] == rest;
  }

  /** What the server runs with, and what the kept tokens set, differ by what is lost and by what stands behind the
      end of the flags. */
  lemma {:induction false} KeptAndLost(args: seq<string>)
    requires Settings(args).Some?
    ensures Balanced(Was(args), KeptSettings(args), Lost(args), KeptSettings(Behind(args)))
    decreases |args|
  {
    if args != [] {
      var a, rest := args[0], args[1..];
      assert args == [a] + rest;
      if IsPositional(a) {
        PositionalMore(a, rest);
        KeptAndLost(rest);
      } else if a == "--" {
        EndOfFlags(rest);
      } else {
        var p := ParseFlag(a, rest).value;
        KeptAndLost(p.rest);
        FlagBalance(a, rest);
      }
    }
  }

  lemma FlagBalance(a: string, rest: seq<string>)
    requires !IsPositional(a) && a != "--" && ParseFlag(a, rest).Some?
    requires var more := ParseFlag(a, rest).value.rest;
             && Settings(more).Some?
             && Balanced(Was(more), KeptSettings(more), Lost(more), KeptSettings(Behind(more)))
    ensures var args := [a] + rest;
            && Settings(args).Some?
            && Balanced(Was(args), KeptSettings(args), Lost(args), KeptSettings(Behind(args)))
  {
    var p, args := ParseFlag(a, rest).value, [a] + rest;
    OneFlagMore(a, rest);
    BalancedMore(p.setting, IsServerSetting(p.setting), IsLostForm(a), Was(p.rest), KeptSettings(p.rest), Lost(p.rest),
                 KeptSettings(Behind(p.rest)), Was(args), KeptSettings(args), Lost(args));
  }

  function ResolvedSetting(s: Setting, abs: string -> Option<string>): Setting {
    if s.flag == "pid-file" then Setting("pid-file", Resolve(s.value, abs)) else s
  }

  /** The same settings with every PID file path made absolute. */
  function ResolvedSettings(ss: seq<Setting>, abs: string -> Option<string>): (r: seq<Setting>)
    ensures |r| == |ss|
  {
    if ss == [] then [] else [ResolvedSetting(ss[0], abs)] + ResolvedSettings(ss[1..], abs)
  }

  lemma ResolvedToken(t: Token, abs: string -> Option<string>)
    requires Proper(t)
    ensures TokenSetting(ResolvedOne(t, abs)) == ResolvedSetting(TokenSetting(t), abs)
  {
    if t.Valued? {
      ParseValued(t.flag, []);
    } else if t.Switch? {
      ParseSwitch(t.text, []);
    }
  }

  lemma {:induction false} ResolvedTokenSettings(ts: seq<Token>, abs: string -> Option<string>)
    requires AllProper(ts)
    ensures TokenSettings(Resolved(ts, abs)) == ResolvedSettings(TokenSettings(ts), abs)
  {
    if ts != [] {
      ResolvedTokenSettings(ts[1..], abs);
      ResolvedToken(ts[0], abs);
      assert Resolved(ts, abs) == [ResolvedOne(ts[0], abs)] + Resolved(ts[1..], abs);
      TokenSettingsHead(ResolvedOne(ts[0], abs), Resolved(ts[1..], abs));
    }
  }

  lemma {:induction false} TokenSettingsAppend(ts: seq<Token>, t: Token)
    ensures TokenSettings(ts + [t]) == TokenSettings(ts) + [TokenSetting(t)]
  {
    if ts == [] {
      assert ts + [t] == [t] && [t][1..] == [];
    } else {
      assert (ts + [t])[1..] == ts[1..] + [t];
      TokenSettingsAppend(ts[1..], t);
    }
  }

  /** The PID file is added unless a flag or a value shows one. */
  function AddedPid(args: seq<string>, pidFile: string): seq<Setting> {
    if AnyShows(Tokens(args)) then [] else [Setting("pid-file", pidFile)]
  }

  lemma SettingsWithPid(r: seq<Token>, added: bool, pidFile: string)
    requires AllProper(r)
    ensures Settings(CommandLine(r + if added then [Pid(pidFile)] else [])) ==
            Some(TokenSettings(r) + if added then [Setting("pid-file", pidFile)] else [])
  {
    if added {
      SettingsOfCommandLine(r + [Pid(pidFile)]);
      TokenSettingsAppend(r, Pid(pidFile));
    } else {
      assert r + [] == r && TokenSettings(r) + [] == TokenSettings(r);
      SettingsOfCommandLine(r);
    }
  }

  /** The flags and values of a restart. */
  lemma RestartSettings(args: seq<string>, pidFile: string, abs: string -> Option<string>)
    ensures Settings(Sanitized(args, pidFile, abs)) ==
            Some(ResolvedSettings(KeptSettings(args), abs) + AddedPid(args, pidFile))
  {
    PidIsAddedExactly(args, pidFile, abs);
    ResolvedTokenSettings(Tokens(args), abs);
    SettingsWithPid(Resolved(Tokens(args), abs), !AnyShows(Tokens(args)), pidFile);
  }

  /** What a restart should run with: the same settings, with PID file paths made absolute and one added. */
  function Expected(args: seq<string>, pidFile: string, abs: string -> Option<string>): seq<Setting>
    requires Settings(args).Some?
  {
    ResolvedSettings(Was(args), abs) + AddedPid(args, pidFile)
  }

  /** A restart runs with the flags and values of the server exactly when no argument in flag position is a shorthand
      with a joined value or `--dev=…`, and nothing that looks like a flag stands behind the end of the flags. Only
      where both happen at once can the two make up for each other. */
  lemma RestartKeepsSettingsExactly(args: seq<string>, pidFile: string, abs: string -> Option<string>)
    requires Settings(args).Some?
    ensures Lost(args) == 0 || Tokens(Behind(args)) == [] ==>
              (Settings(Sanitized(args, pidFile, abs)) == Some(Expected(args, pidFile, abs))
               <==> Lost(args) == 0 && Tokens(Behind(args)) == [])
  {
    KeptAndLost(args);
    RestartSettings(args, pidFile, abs);
    BalancedIsEqualExactly(Was(args), KeptSettings(args), Lost(args), KeptSettings(Behind(args)),
                           AddedPid(args, pidFile), abs);
  }

  lemma BalancedIsEqualExactly(was: seq<Setting>, kept: seq<Setting>, lost: nat, gained: seq<Setting>,
                               added: seq<Setting>, abs: string -> Option<string>)
    requires Balanced(was, kept, lost, gained)
    ensures lost == 0 || gained == [] ==>
              (ResolvedSettings(kept, abs) + added == ResolvedSettings(was, abs) + added
               <==> lost == 0 && gained == [])
  {
    if lost == 0 && gained == [] {
      assert was + gained == was;
    } else if lost == 0 || gained == [] {
      assert |ResolvedSettings(kept, abs) + added| != |ResolvedSettings(was, abs) + added|;
    }
  }

  /** It happens: a shorthand with its value joined to it is lost, whatever the value. */
  lemma JoinedPortIsLost(text: string, pidFile: string, abs: string -> Option<string>)
    requires text != ""
    ensures var args := ["server", "-p" + text];
            && Settings(args) == Some([Setting("port", JoinedValue(text))])
            && Sanitized(args, pidFile, abs) == ["server", PID_FLAG, pidFile]
  {
    var a, s := "-p" + text, Setting("port", JoinedValue(text));
    assert ["server", a] == ["server"] + [a] && "server"[0] == 's' && [a] + [] == [a];
    PositionalMore("server", [a]);
    JoinedFlag(text, []);
    assert Settings([]) == Some([]) && [s] + [] == [s];
    NotKnownIsDropped(a);
    NothingIsKept(a, pidFile, abs);
  }

  lemma NothingIsKept(a: string, pidFile: string, abs: string -> Option<string>)
    requires KindOf(a) == Dropped
    ensures Sanitized(["server", a], pidFile, abs) == ["server", PID_FLAG, pidFile]
  {
    var args := ["server", a];
    CommandWordHasNoToken("server", [a]);
    TokensHead(a, []);
    assert args == ["server"] + [a] && [a] + [] == [a];
    PidIsAddedExactly(args, pidFile, abs);
    assert [] + [Pid(pidFile)] == [Pid(pidFile)];
    assert Render([Pid(pidFile)]) == [PID_FLAG, pidFile];
  }

  lemma PortBehindEnd(value: string)
    ensures var tail := ["--", "--port", value];
            && Settings(tail) == Some([]) && Tokens(tail) == [Valued("--port", value)]
            && Lost(tail) == 0 && Behind(tail) == ["--port", value]
  {
    EndOfFlags(["--port", value]);
    PortToken(value);
    assert ["--"] + ["--port", value] == ["--", "--port", value];
  }

  lemma JoinedThenBehind(value: string)
    requires value != "" && value[0] != '='
    ensures var args := ["server", "-p" + value, "--", "--port", value];
            && Settings(args) == Some([Setting("port", value)]) && Tokens(args) == [Valued("--port", value)]
            && Lost(args) == 1 && Behind(args) == ["--port", value]
  {
    var a, tail := "-p" + value, ["--", "--port", value];
    PortBehindEnd(value);
    JoinedFlag(value, tail);
    assert JoinedValue(value) == value;
    assert [Setting("port", value)] + [] == [Setting("port", value)] && "server"[0] == 's';
    PositionalMore("server", [a] + tail);
    assert ["server"] + ([a] + tail) == ["server", a, "--", "--port", value];
  }

  /** It happens that a lost flag and one behind the end of the flags make up for each other. */
  lemma LostAndGained(value: string, pidFile: string, abs: string -> Option<string>)
    requires value != "" && value[0] != '='
    ensures var args := ["server", "-p" + value, "--", "--port", value];
            && Lost(args) == 1 && Tokens(Behind(args)) != []
            && Settings(args).Some? && Settings(Sanitized(args, pidFile, abs)) == Some(Expected(args, pidFile, abs))
  {
    var args, s := ["server", "-p" + value, "--", "--port", value], Setting("port", value);
    JoinedThenBehind(value);
    PortToken(value);
    RestartSettings(args, pidFile, abs);
    OneSetting(value);
  }

  lemma OneSetting(value: string)
    ensures TokenSettings([Valued("--port", value)]) == ServerSettings([Setting("port", value)])
  {
    assert "--port"[2..] == "port";
    TokenSettingsHead(Valued("--port", value), []);
    ServerSettingsHead(Setting("port", value), []);
    assert [Valued("--port", value)] + [] == [Valued("--port", value)];
    assert [Setting("port", value)] + [] == [Setting("port", value)];
  }

  lemma JoinedFlag(text: string, tail: seq<string>)
    requires text != ""
    ensures var args := ["-p" + text] + tail;
            && Settings(args) == Before(Setting("port", JoinedValue(text)), Settings(tail))
            && Tokens(args) == Tokens(tail) && Lost(args) == 1 + Lost(tail) && Behind(args) == Behind(tail)
  {
    var a := "-p" + text;
    ParseShorthand(text, tail);
    SettingsHead(a, tail, Parsed(Setting("port", JoinedValue(text)), tail));
    NotKnownIsDropped(a);
    TokensHead(a, tail);
    assert ([a] + tail)[1..] == tail;
  }

  lemma ParseShorthand(text: string, tail: seq<string>)
    requires text != ""
    ensures var a := "-p" + text;
            && |a| > 2 && a[0] == '-' && a[1] == 'p' && a != "--"
            && ParseFlag(a, tail) == Some(Parsed(Setting("port", JoinedValue(text)), tail))
  {
    var group := ("-p" + text)[1..];
    assert group == "p" + text && group[1..] == text;
  }

  // ---------------------------------------------------------------- blank values

  /** A flag whose value, in an argument of its own, is blank. */
  predicate HasBlankValue(t: Token) {
    match t
    case Switch(_) => false
    case Valued(_, value) => Trim(value) == ""
    case Pid(path) => Trim(path) == ""
    case PidInline(_) => false
  }

  ghost predicate NoBlankValue(ts: seq<Token>) {
    forall k | 0 <= k < |ts| :: !HasBlankValue(ts[k])
  }

  lemma BlankIsDropped(a: string)
    requires Trim(a) == ""
    ensures IsPositional(a) && KindOf(a) == Dropped
  {
    if a != "" && !IsBlank(a[0]) {
      FirstCharShows(a);
    }
    PositionalIsDropped(a);
  }

  lemma NoBlankHead(t: Token, ts: seq<Token>)
    ensures NoBlankValue([t] + ts) <==> !HasBlankValue(t) && NoBlankValue(ts)
  {
    assert ([t] + ts)[0] == t;
    assert forall k | 0 <= k < |ts| :: ([t] + ts)[k + 1] == ts[k];
    if NoBlankValue([t] + ts) {
      forall k | 0 <= k < |ts|
        ensures !HasBlankValue(ts[k])
      {
        assert !HasBlankValue(([t] + ts)[k + 1]);
      }
    }
  }

  /** Without blank arguments no value is blank. */
  lemma {:induction false} VisibleValues(args: seq<string>)
    requires forall k | 0 <= k < |args| :: Trim(args[k]) != ""
    ensures NoBlankValue(Tokens(args))
    decreases |args|
  {
    if args != [] {
      VisibleValues(args[1..]);
      match KindOf(args[0])
      case Dropped =>
      case Alone => NoBlankHead(Switch(args[0]), Tokens(args[1..]));
      case InlinePid => NoBlankHead(PidInline(args[0][|PID_PREFIX|..]), Tokens(args[1..]));
      case TakesValue =>
        if |args| > 1 {
          VisibleValues(args[2..]);
          NoBlankHead(Valued(args[0], args[1]), Tokens(args[2..]));
        }
      case TakesPid =>
        if |args| > 1 {
          VisibleValues(args[2..]);
          NoBlankHead(Pid(args[1]), Tokens(args[2..]));
        }
    }
  }

  lemma {:induction false} NonBlankIsVisible(args: seq<string>)
    ensures forall k | 0 <= k < |NonBlank(args)| :: Trim(NonBlank(args)[k]) != ""
  {
    if args != [] { NonBlankIsVisible(args[1..]); }
  }

  lemma NonBlankHead(a: string, rest: seq<string>)
    ensures NonBlank([a] + rest) == (if Trim(a) == "" then [] else [a]) + NonBlank(rest)
  {
    assert ([a] + rest)[1..] == rest;
  }

  lemma {:induction false} NoBlankValueIsKept(args: seq<string>)
    requires NoBlankValue(Tokens(args))
    ensures Tokens(NonBlank(args)) == Tokens(args)
    decreases |args|
  {
    if args != [] {
      var a, rest := args[0], args[1..];
      assert args == [a] + rest;
      NonBlankHead(a, rest);
      TokensHead(a, rest);
      if Trim(a) == "" {
        BlankIsDropped(a);
        NoBlankValueIsKept(rest);
      } else if KindOf(a) in {TakesValue, TakesPid} {
        if rest == [] {
          assert [a] + [] == [a];
        } else {
          assert rest == [rest[0]] + rest[1..];
          ValueIsKept(a, rest[0], rest[1..]);
        }
      } else {
        TokensHead(a, NonBlank(rest));
        NoBlankRest(args);
        NoBlankValueIsKept(rest);
      }
    }
  }

  lemma NoBlankRest(args: seq<string>)
    requires args != [] && NoBlankValue(Tokens(args)) && KindOf(args[0]) !in {TakesValue, TakesPid}
    ensures NoBlankValue(Tokens(args[1..]))
  {
    match KindOf(args[0])
    case Dropped =>
    case Alone => NoBlankHead(Switch(args[0]), Tokens(args[1..]));
    case InlinePid => NoBlankHead(PidInline(args[0][|PID_PREFIX|..]), Tokens(args[1..]));
    case TakesValue =>
    case TakesPid =>
  }

  lemma {:induction false} ValueIsKept(a: string, value: string, more: seq<string>)
    requires KindOf(a) in {TakesValue, TakesPid} && Trim(a) != "" && NoBlankValue(Tokens([a] + ([value] + more)))
    ensures Tokens(NonBlank([a] + ([value] + more))) == Tokens([a] + ([value] + more))
    decreases |more| + 1
  {
    var rest := [value] + more;
    var t := if KindOf(a) == TakesValue then Valued(a, value) else Pid(value);
    assert rest[1..] == more;
    TokensHead(a, rest);
    NoBlankHead(t, Tokens(more));
    NonBlankHead(a, rest);
    NonBlankHead(value, more);
    NoBlankValueIsKept(more);
    TokensHead(a, [value] + NonBlank(more));
    assert ([value] + NonBlank(more))[1..] == NonBlank(more);
  }

  /** Leaving blank arguments out keeps every flag and value exactly when no flag has a blank value. */
  lemma BlankValuesAreLostExactly(args: seq<string>)
    ensures Tokens(NonBlank(args)) == Tokens(args) <==> NoBlankValue(Tokens(args))
  {
    if NoBlankValue(Tokens(args)) {
      NoBlankValueIsKept(args);
    }
    NonBlankIsVisible(args);
    VisibleValues(NonBlank(args));
  }

  /** It happens: behind a blank configuration file name the flag for the port is read as that name. */
  lemma BlankConfigTakesPort(port: string)
    requires port != "" && '0' <= port[0] <= '9'
    ensures var args := ["server", "--config", "", "--port", port];
            && Tokens(args) == [Valued("--config", ""), Valued("--port", port)]
            && Tokens(NonBlank(args)) == [Valued("--config", "--port")]
  {
    var tail := ["--port", port];
    ConfigAndPort("", tail);
    assert ["server", "--config", "", "--port", port] == ["server"] + (["--config"] + ([""] + tail));
    PortToken(port);
    WithoutBlanks(port);
    assert ["server", "--config", "--port", port] == ["server"] + (["--config"] + (["--port"] + [port]));
    ConfigAndPort("--port", [port]);
    PositionalIsDropped(port);
    TokensHead(port, []);
    assert [port] + [] == [port];
  }

  lemma ConfigAndPort(value: string, tail: seq<string>)
    ensures Tokens(["server"] + (["--config"] + ([value] + tail))) == [Valued("--config", value)] + Tokens(tail)
  {
    var more := [value] + tail;
    CommandWordHasNoToken("server", ["--config"] + more);
    ValueFlagTakesValue("--config");
    TokensHead("--config", more);
    assert more[1..] == tail;
  }

  lemma PortToken(port: string)
    ensures Tokens(["--port", port]) == [Valued("--port", port)]
  {
    ValueFlagTakesValue("--port");
    TokensHead("--port", [port]);
    assert ["--port"] + [port] == ["--port", port];
    assert [port][1..] == [] && Tokens([]) == [];
  }

  lemma WithoutBlanks(port: string)
    requires port != "" && !IsBlank(port[0])
    ensures NonBlank(["server", "--config", "", "--port", port]) == ["server", "--config", "--port", port]
  {
    assert "server"[0] == 's' && "--config"[0] == "--port"[0] == '-' && Trim("") == "";
    FirstCharShows("server");
    FirstCharShows("--config");
    FirstCharShows("--port");
    FirstCharShows(port);
    NonBlankHead(port, []);
    NonBlankHead("--port", [port]);
    NonBlankHead("", ["--port", port]);
    NonBlankHead("--config", ["", "--port", port]);
    NonBlankHead("server", ["--config", "", "--port", port]);
  }

  /** A server whose flags are all kept is read back with the same settings from its process. */
  lemma RestartFromProcess(exe: string, argv: seq<string>, pidFile: string, abs: string -> Option<string>)
    requires NUL !in exe && WithoutNul(argv)
    requires Settings(argv).Some? && Lost(argv) == 0 && Tokens(Behind(argv)) == [] && NoBlankValue(Tokens(argv))
    ensures Settings(Sanitized(NonBlank(Split(ProcessText([exe] + argv), NUL)[1..]), pidFile, abs)) ==
            Some(Expected(argv, pidFile, abs))
  {
    ReadBack(exe, argv);
    NoBlankValueIsKept(argv);
    KeptAndLost(argv);
    assert Was(argv) + [] == Was(argv);
    RestartSettings(NonBlank(argv), pidFile, abs);
  }

  lemma ReadBack(exe: string, argv: seq<string>)
    requires NUL !in exe && WithoutNul(argv)
    ensures NonBlank(Split(ProcessText([exe] + argv), NUL)[1..]) == NonBlank(argv)
  {
    SplitExecutable(exe, argv);
    TrailingBlank(argv);
  }

  lemma {:induction false} TrailingBlank(args: seq<string>)
    ensures NonBlank(args + [""]) == NonBlank(args)
  {
    if args == [] {
      assert args + [""] == [""] && [""][1..] == [] && Trim("") == "";
    } else {
      assert (args + [""])[1..] == args[1..] + [""];
      TrailingBlank(args[1..]);
    }
  }
}
