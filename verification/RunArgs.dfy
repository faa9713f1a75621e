/** The run-mode command line (cmd/rca/run.go): rca's own flags picked out from among a command and its arguments. */
module RunArgs {
  datatype Opts = Opts(
    command: string, args: seq<string>, code: string, peer: string, sock: string, via: string, workdir: string,
    remotePrefixes: seq<string>, localPrefixes: seq<string>, defaultRemote: bool, profile: string, resign: bool,
    printCmd: bool, serveFSOnly: bool, adapterSock: string, sentinel: string, dylib: string, supervisor: string,
    spawnProxy: string)

  datatype Error = BadValue(name: string, val: string) | NeedsValue(name: string) | UnknownFlag(tok: string)
                 | NoCommand | Transports(n: nat)

  datatype Result = Ok(o: Opts) | Err(error: Error)

  datatype Kind = Bool | Valued

  /** The flags rca claims for itself. */
  datatype Flag = Code | Peer | Sock | Via | Workdir | Profile | RemotePrefix | LocalPrefix | AdapterSock | Sentinel
                | Dylib | Supervisor | SpawnProxy | DefaultRemote | Resign | PrintCmd | ServeFSOnly

  datatype Owner = Ours(flag: Flag) | NotOurs

  /** What an empty command line stands for; two of the values depend on the host. */
  function Defaults(resign: bool, adapterSock: string): Opts {
    Opts("", [], "", "", "", "", "", [], [], false, "", resign, false, false, adapterSock, "RCC_REMOTE_MARK",
         "", "", "")
  }

  function Spelling(f: Flag): string {
    match f
    case Code => "code"
    case Peer => "peer"
    case Sock => "sock"
    case Via => "via"
    case Workdir => "workdir"
    case Profile => "profile"
    case RemotePrefix => "remote-prefix"
    case LocalPrefix => "local-prefix"
    case AdapterSock => "adapter-sock"
    case Sentinel => "spawn-sentinel"
    case Dylib => "dylib"
    case Supervisor => "supervisor"
    case SpawnProxy => "spawn-proxy"
    case DefaultRemote => "default-remote"
    case Resign => "resign"
    case PrintCmd => "print-cmd"
    case ServeFSOnly => "serve-fs-only"
  }

  function OwnerOf(name: string): Owner {
    if name == "code" then Ours(Code)
    else if name == "peer" then Ours(Peer)
    else if name == "sock" then Ours(Sock)
    else if name == "via" then Ours(Via)
    else if name == "workdir" then Ours(Workdir)
    else if name == "profile" then Ours(Profile)
    else if name == "remote-prefix" then Ours(RemotePrefix)
    else if name == "local-prefix" then Ours(LocalPrefix)
    else if name == "adapter-sock" then Ours(AdapterSock)
    else if name == "spawn-sentinel" then Ours(Sentinel)
    else if name == "dylib" then Ours(Dylib)
    else if name == "supervisor" then Ours(Supervisor)
    else if name == "spawn-proxy" then Ours(SpawnProxy)
    else if name == "default-remote" then Ours(DefaultRemote)
    else if name == "resign" then Ours(Resign)
    else if name == "print-cmd" then Ours(PrintCmd)
    else if name == "serve-fs-only" then Ours(ServeFSOnly)
    else NotOurs
  }

  function KindOf(f: Flag): Kind {
    if f.DefaultRemote? || f.Resign? || f.PrintCmd? || f.ServeFSOnly? then Bool else Valued
  }

  predicate Transport(f: Flag) { f.Code? || f.Peer? || f.Sock? || f.Via? }

  function Set(o: Opts, f: Flag, val: string): Opts {
    match f
    case Code => o.(code := val)
    case Peer => o.(peer := val)
    case Sock => o.(sock := val)
    case Via => o.(via := val)
    case Workdir => o.(workdir := val)
    case Profile => o.(profile := val)
    case RemotePrefix => o.(remotePrefixes := o.remotePrefixes + [val])
    case LocalPrefix => o.(localPrefixes := o.localPrefixes + [val])
    case AdapterSock => o.(adapterSock := val)
    case Sentinel => o.(sentinel := val)
    case Dylib => o.(dylib := val)
    case Supervisor => o.(supervisor := val)
    case SpawnProxy => o.(spawnProxy := val)
    case _ => o
  }

  function SetBool(o: Opts, f: Flag, v: bool): Opts {
    match f
    case DefaultRemote => o.(defaultRemote := v)
    case Resign => o.(resign := v)
    case PrintCmd => o.(printCmd := v)
    case ServeFSOnly => o.(serveFSOnly := v)
    case _ => o
  }

  datatype Parsed = Yes | No | Neither

  /** strconv.ParseBool. */
  function ParseBool(s: string): Parsed {
    if s in {"1", "t", "T", "TRUE", "true", "True"} then Yes
    else if s in {"0", "f", "F", "FALSE", "false", "False"} then No
    else Neither
  }

  function DropDashes(s: string): string { if s != [] && s[0] == '-' then DropDashes(s[1..]) else s }

  predicate IsFlag(tok: string) { tok != [] && tok[0] == '-' && tok != "-" }

  /** Where the first '=' is, or the length when there is none. */
  function IndexOfEq(s: string): (i: nat)
    ensures i <= |s| && (i < |s| ==> s[i] == '=') && '=' !in s[..i]
  {
    if s == [] || s[0] == '=' then 0 else 1 + IndexOfEq(s[1..])
  }

  function NameOf(tok: string): string { DropDashes(tok)[..IndexOfEq(DropDashes(tok))] }

  predicate HasVal(tok: string) { IndexOfEq(DropDashes(tok)) < |DropDashes(tok)| }

  function ValOf(tok: string): string
    requires HasVal(tok)
  {
    DropDashes(tok)[IndexOfEq(DropDashes(tok)) + 1..]
  }

  /** One round of the parser: on to the rest after one token or two, done, or an error. */
  datatype Round = Next(o: Opts, n: nat) | Stop(o: Opts) | Fail(error: Error)

  function Verbatim(o: Opts, rest: seq<string>): Opts {
    if o.command == "" && rest != [] then o.(command := rest[0], args := o.args + rest[1..])
    else o.(args := o.args + rest)
  }

  function OneFlag(o: Opts, tok: string, rest: seq<string>): Round {
    match OwnerOf(NameOf(tok))
    case NotOurs => if o.command == "" then Fail(UnknownFlag(tok)) else Next(o.(args := o.args + [tok]), 1)
    case Ours(f) =>
      if KindOf(f).Bool? then
        if !HasVal(tok) then Next(SetBool(o, f, true), 1)
        else
          (match ParseBool(ValOf(tok))
           case Yes => Next(SetBool(o, f, true), 1)
           case No => Next(SetBool(o, f, false), 1)
           case Neither => Fail(BadValue(NameOf(tok), ValOf(tok))))
      else if HasVal(tok) then Next(Set(o, f, ValOf(tok)), 1)
      else if rest == [] then Fail(NeedsValue(NameOf(tok)))
      else Next(Set(o, f, rest[0]), 2)
  }

  function One(o: Opts, toks: seq<string>): (r: Round)
    requires toks != []
    ensures r.Next? ==> 1 <= r.n <= |toks|
  {
    var tok := toks[0];
    if tok == "--" then Stop(Verbatim(o, toks[1..]))
    else if IsFlag(tok) then OneFlag(o, tok, toks[1..])
    else if o.command == "" then Next(o.(command := tok), 1)
    else Next(o.(args := o.args + [tok]), 1)
  }

  function ParseFrom(o: Opts, toks: seq<string>): Result
    decreases |toks|
  {
    if toks == [] then Ok(o)
    else
      match One(o, toks)
      case Next(o', n) => ParseFrom(o', toks[n..])
      case Stop(o') => Ok(o')
      case Fail(e) => Err(e)
  }

  function TransportsOf(o: Opts): nat {
    (if o.code != "" then 1 else 0) + (if o.peer != "" then 1 else 0) + (if o.sock != "" then 1 else 0)
    + (if o.via != "" then 1 else 0)
  }

  function Check(o: Opts): Result {
    if o.command == "" && !o.serveFSOnly then Err(NoCommand)
    else if TransportsOf(o) != 1 then Err(Transports(TransportsOf(o)))
    else Ok(o)
  }

  function Parse(defaults: Opts, toks: seq<string>): Result {
    match ParseFrom(defaults, toks)
    case Err(e) => Err(e)
    case Ok(o) => Check(o)
  }

  method ParseRunArgs(args: seq<string>, resign: bool, adapterSock: string) returns (r: Result)
    ensures r == Parse(Defaults(resign, adapterSock), args)
  {
    hide KindOf, OwnerOf, Set, SetBool, ParseBool, NameOf, HasVal, IsFlag;
    var o := Defaults(resign, adapterSock);
    ghost var all := ParseFrom(o, args);
    var i := 0;
    while i < |args|
      invariant i <= |args| && ParseFrom(o, args[i..]) == all
    {
      var tok := args[i];
      RoundOn(o, args, i);
      if tok == "--" {
        var rest := args[i + 1..];
        if o.command == "" && |rest| > 0 {
          o := o.(command := rest[0]);
          rest := rest[1..];
        }
        o := o.(args := o.args + rest);
        return Check(o);
      }
      if IsFlag(tok) {
        var name, hasVal := NameOf(tok), HasVal(tok);
        match OwnerOf(name)
        case NotOurs =>
          if o.command == "" {
            return Err(UnknownFlag(tok));
          }
          o := o.(args := o.args + [tok]);
        case Ours(f) =>
          if KindOf(f).Bool? {
            var b := true;
            if hasVal {
              var parsed := ParseBool(ValOf(tok));
              if parsed.Neither? {
                return Err(BadValue(name, ValOf(tok)));
              }
              b := parsed.Yes?;
            }
            o := SetBool(o, f, b);
          } else {
            var val := "";
            if hasVal {
              val := ValOf(tok);
            } else {
              i := i + 1;
              if i >= |args| {
                return Err(NeedsValue(name));
              }
              val := args[i];
            }
            o := Set(o, f, val);
          }
      } else if o.command == "" {
        o := o.(command := tok);
      } else {
        o := o.(args := o.args + [tok]);
      }
      i := i + 1;
    }
    return Check(o);
  }

  lemma RoundOn(o: Opts, args: seq<string>, i: nat)
    requires i < |args|
    ensures args[i..][0] == args[i] && args[i..][1..] == args[i + 1..]
    ensures i + 1 < |args| ==> args[i..][2..] == args[i + 2..]
    ensures ParseFrom(o, args[i..])
         == match One(o, args[i..])
            case Next(o', n) => ParseFrom(o', args[i..][n..])
            case Stop(o') => Ok(o')
            case Fail(e) => Err(e)
  {
    hide One;
  }

  /** The twelve spellings of a boolean, and no other. */
  lemma BooleansAre(s: string)
    ensures ParseBool(s).Yes? <==> s == "1" || s == "t" || s == "T" || s == "TRUE" || s == "true" || s == "True"
    ensures ParseBool(s).No? <==> s == "0" || s == "f" || s == "F" || s == "FALSE" || s == "false" || s == "False"
  {
  }

  // ---- which lines are accepted --------------------------------------------------------------------------

  /** Exactly one of the four is given. */
  predicate OneOf(a: string, b: string, c: string, d: string) {
    || (a != "" && b == "" && c == "" && d == "")
    || (a == "" && b != "" && c == "" && d == "")
    || (a == "" && b == "" && c != "" && d == "")
    || (a == "" && b == "" && c == "" && d != "")
  }

  function NonEmpty(ss: seq<string>): seq<string> {
    if ss == [] then [] else (if ss[0] == "" then [] else [ss[0]]) + NonEmpty(ss[1..])
  }

  /** A line that reads without error is accepted exactly if it names a command or has the serve-fs-only switch on, and
      names exactly one transport; the record is then the one read. A missing command is reported first. */
  lemma AcceptedIff(d: Opts, toks: seq<string>)
    ensures ParseFrom(d, toks).Err? ==> Parse(d, toks) == ParseFrom(d, toks)
    ensures ParseFrom(d, toks).Ok?
            ==> var o, r := ParseFrom(d, toks).o, Parse(d, toks);
                && (r.Ok? <==> (o.command != "" || o.serveFSOnly) && OneOf(o.code, o.peer, o.sock, o.via))
                && (r.Ok? ==> r.o == o)
                && (r.Err? ==> if o.command == "" && !o.serveFSOnly then r.error == NoCommand
                               else r.error == Transports(|NonEmpty([o.code, o.peer, o.sock, o.via])|))
  {
    hide ParseFrom;
    if ParseFrom(d, toks).Ok? {
      GivenTransports(ParseFrom(d, toks).o);
    }
  }

  lemma GivenTransports(o: Opts)
    ensures TransportsOf(o) == |NonEmpty([o.code, o.peer, o.sock, o.via])|
  {
    var one: seq<string> := [o.via];
    var two, three, four := [o.sock, o.via], [o.peer, o.sock, o.via], [o.code, o.peer, o.sock, o.via];
    assert one[1..] == [] && two[1..] == one && three[1..] == two && four[1..] == three;
    assert |NonEmpty(one)| == if o.via == "" then 0 else 1;
    assert |NonEmpty(two)| == |NonEmpty(one)| + if o.sock == "" then 0 else 1;
    assert |NonEmpty(three)| == |NonEmpty(two)| + if o.peer == "" then 0 else 1;
  }

  // ---- rendering and parsing back ----------------------------------------------------------------------

  datatype Setting = Setting(flag: Flag, val: string)

  function Token(s: Setting): string { "--" + Spelling(s.flag) + "=" + s.val }

  function Tokens(ss: seq<Setting>): seq<string> { seq(|ss|, i requires 0 <= i < |ss| => Token(ss[i])) }

  predicate Good(s: Setting) { KindOf(s.flag).Bool? ==> !ParseBool(s.val).Neither? }

  function ApplySetting(o: Opts, s: Setting): Opts {
    if KindOf(s.flag).Bool? then SetBool(o, s.flag, ParseBool(s.val).Yes?) else Set(o, s.flag, s.val)
  }

  function ApplyAll(o: Opts, ss: seq<Setting>): Opts {
    if ss == [] then o else ApplySetting(ApplyAll(o, ss[..|ss| - 1]), ss[|ss| - 1])
  }

  function Switch(b: bool): string { if b then "true" else "false" }

  function Listed(f: Flag, vals: seq<string>): seq<Setting> {
    seq(|vals|, i requires 0 <= i < |vals| => Setting(f, vals[i]))
  }

  function Transports4(o: Opts): seq<Setting> {
    [Setting(Code, o.code), Setting(Peer, o.peer), Setting(Sock, o.sock), Setting(Via, o.via)]
  }

  function Places(o: Opts): seq<Setting> {
    [Setting(Workdir, o.workdir), Setting(Profile, o.profile), Setting(AdapterSock, o.adapterSock),
     Setting(Sentinel, o.sentinel)]
  }

  function Switches(o: Opts): seq<Setting> {
    [Setting(DefaultRemote, Switch(o.defaultRemote)), Setting(Resign, Switch(o.resign)),
     Setting(PrintCmd, Switch(o.printCmd)), Setting(ServeFSOnly, Switch(o.serveFSOnly))]
  }

  function Tools(o: Opts): seq<Setting> {
    [Setting(Dylib, o.dylib), Setting(Supervisor, o.supervisor), Setting(SpawnProxy, o.spawnProxy)]
  }

  function Settings(o: Opts): seq<Setting> {
    Transports4(o) + (Places(o) + (Switches(o) + (Tools(o) + (Listed(RemotePrefix, o.remotePrefixes)
                                                               + Listed(LocalPrefix, o.localPrefixes)))))
  }

  /** A command line for a record: every option as --name=value, then "--", the command and its arguments. */
  function Render(o: Opts): seq<string> { Tokens(Settings(o)) + (["--", o.command] + o.args) }

  predicate PlainName(name: string) { name != [] && name[0] != '-' && '=' !in name }

  lemma FlagsAreOurs(f: Flag)
    ensures PlainName(Spelling(f)) && OwnerOf(Spelling(f)) == Ours(f)
  {
    if KindOf(f).Bool? {
      SwitchFlags(f);
    } else if f.AdapterSock? || f.Sentinel? || f.Dylib? || f.Supervisor? || f.SpawnProxy? {
      MiddleFlags(f);
    } else {
      EarlyFlags(f);
    }
  }

  lemma EarlyFlags(f: Flag)
    requires f.Code? || f.Peer? || f.Sock? || f.Via? || f.Workdir? || f.Profile? || f.RemotePrefix? || f.LocalPrefix?
    ensures PlainName(Spelling(f)) && OwnerOf(Spelling(f)) == Ours(f)
  {
  }

  lemma MiddleFlags(f: Flag)
    requires f.AdapterSock? || f.Sentinel? || f.Dylib? || f.Supervisor? || f.SpawnProxy?
    ensures PlainName(Spelling(f)) && OwnerOf(Spelling(f)) == Ours(f)
  {
  }

  lemma SwitchFlags(f: Flag)
    requires KindOf(f).Bool?
    ensures PlainName(Spelling(f)) && OwnerOf(Spelling(f)) == Ours(f)
  {
    hide PlainName, OwnerOf;
    DefaultRemoteName();
    ResignName();
    PrintCmdName();
    ServeFSOnlyName();
  }

  lemma DefaultRemoteName()
    ensures PlainName("default-remote") && OwnerOf("default-remote") == Ours(DefaultRemote)
  {
  }

  lemma ResignName()
    ensures PlainName("resign") && OwnerOf("resign") == Ours(Resign)
  {
  }

  lemma PrintCmdName()
    ensures PlainName("print-cmd") && OwnerOf("print-cmd") == Ours(PrintCmd)
  {
  }

  lemma ServeFSOnlyName()
    ensures PlainName("serve-fs-only") && OwnerOf("serve-fs-only") == Ours(ServeFSOnly)
  {
  }

  lemma {:induction false} EqAfterName(name: string, val: string)
    requires '=' !in name
    ensures IndexOfEq(name + "=" + val) == |name|
  {
    if name != [] {
      assert (name + "=" + val)[1..] == name[1..] + "=" + val;
      assert name[0] in name;
      EqAfterName(name[1..], val);
    }
  }

  lemma TokenParts(name: string, val: string)
    requires PlainName(name)
    ensures var tok := "--" + name + "=" + val;
            IsFlag(tok) && tok != "--" && NameOf(tok) == name && HasVal(tok) && ValOf(tok) == val
  {
    var tok, body := "--" + name + "=" + val, name + "=" + val;
    assert tok[1..] == "-" + body && tok[1..][1..] == body;
    assert body[0] == name[0];
    assert DropDashes(body) == body;
    assert DropDashes(tok) == DropDashes(tok[1..]) == DropDashes(tok[1..][1..]);
    EqAfterName(name, val);
    assert body[..|name|] == name && body[|name| + 1..] == val;
  }

  lemma SettingRound(o: Opts, s: Setting, rest: seq<string>)
    requires Good(s)
    ensures ParseFrom(o, [Token(s)] + rest) == ParseFrom(ApplySetting(o, s), rest)
  {
    hide NameOf, HasVal, ValOf, IsFlag, Set, SetBool, ParseBool, KindOf, OwnerOf, Spelling;
    FlagsAreOurs(s.flag);
    TokenParts(Spelling(s.flag), s.val);
    assert ([Token(s)] + rest)[1..] == rest;
  }

  lemma {:induction false} SettingsParse(o: Opts, ss: seq<Setting>, rest: seq<string>)
    requires forall i :: 0 <= i < |ss| ==> Good(ss[i])
    ensures ParseFrom(o, Tokens(ss) + rest) == ParseFrom(ApplyAll(o, ss), rest)
  {
    hide Good, ParseFrom, ApplySetting, Token;
    if ss == [] {
      assert Tokens(ss) + rest == rest;
    } else {
      var init, last := ss[..|ss| - 1], ss[|ss| - 1];
      assert Tokens(ss) + rest == Tokens(init) + ([Token(last)] + rest);
      SettingsParse(o, init, [Token(last)] + rest);
      SettingRound(ApplyAll(o, init), last, rest);
    }
  }

  lemma {:induction false} ApplyConcat(o: Opts, a: seq<Setting>, b: seq<Setting>)
    ensures ApplyAll(o, a + b) == ApplyAll(ApplyAll(o, a), b)
  {
    hide ApplySetting;
    if b == [] {
      assert a + b == a;
    } else {
      assert (a + b)[..|a + b| - 1] == a + b[..|b| - 1];
      ApplyConcat(o, a, b[..|b| - 1]);
    }
  }

  lemma {:induction false} ListsAppend(o: Opts, vals: seq<string>)
    ensures ApplyAll(o, Listed(RemotePrefix, vals)) == o.(remotePrefixes := o.remotePrefixes + vals)
    ensures ApplyAll(o, Listed(LocalPrefix, vals)) == o.(localPrefixes := o.localPrefixes + vals)
  {
    hide ApplySetting;
    if vals == [] {
      assert o.remotePrefixes + vals == o.remotePrefixes && o.localPrefixes + vals == o.localPrefixes;
    } else {
      var n := |vals| - 1;
      ListsAppend(o, vals[..n]);
      assert Listed(RemotePrefix, vals)[..n] == Listed(RemotePrefix, vals[..n]);
      assert Listed(LocalPrefix, vals)[..n] == Listed(LocalPrefix, vals[..n]);
      assert o.remotePrefixes + vals[..n] + [vals[n]] == o.remotePrefixes + vals;
      assert o.localPrefixes + vals[..n] + [vals[n]] == o.localPrefixes + vals;
      OneListed(ApplyAll(o, Listed(RemotePrefix, vals[..n])), vals[n]);
      OneListed(ApplyAll(o, Listed(LocalPrefix, vals[..n])), vals[n]);
    }
  }

  lemma OneListed(o: Opts, v: string)
    ensures ApplySetting(o, Setting(RemotePrefix, v)) == o.(remotePrefixes := o.remotePrefixes + [v])
    ensures ApplySetting(o, Setting(LocalPrefix, v)) == o.(localPrefixes := o.localPrefixes + [v])
  {
  }

  lemma ApplyFour(o: Opts, a: Setting, b: Setting, c: Setting, d: Setting)
    ensures ApplyAll(o, [a, b, c]) == ApplySetting(ApplySetting(ApplySetting(o, a), b), c)
    ensures ApplyAll(o, [a, b, c, d]) == ApplySetting(ApplySetting(ApplySetting(ApplySetting(o, a), b), c), d)
  {
    hide ApplySetting;
    var one: seq<Setting> := [a];
    var two: seq<Setting> := [a, b];
    var three: seq<Setting> := [a, b, c];
    var four: seq<Setting> := [a, b, c, d];
    assert one[..0] == [] && two[..1] == one && three[..2] == two && four[..3] == three;
    assert ApplyAll(o, one) == ApplySetting(o, a);
  }

  lemma FlagsParse(b: bool)
    ensures ParseBool(Switch(b)) == if b then Yes else No
  {
  }

  lemma TransportsApply(o: Opts, p: Opts)
    ensures ApplyAll(o, Transports4(p)) == o.(code := p.code, peer := p.peer, sock := p.sock, via := p.via)
  {
    hide ApplyAll;
    var ss := Transports4(p);
    ApplyFour(o, ss[0], ss[1], ss[2], ss[3]);
  }

  lemma PlacesApply(o: Opts, p: Opts)
    ensures ApplyAll(o, Places(p))
         == o.(workdir := p.workdir, profile := p.profile, adapterSock := p.adapterSock, sentinel := p.sentinel)
  {
    hide ApplyAll;
    var ss := Places(p);
    ApplyFour(o, ss[0], ss[1], ss[2], ss[3]);
  }

  lemma SwitchesApply(o: Opts, p: Opts)
    ensures ApplyAll(o, Switches(p))
         == o.(defaultRemote := p.defaultRemote, resign := p.resign, printCmd := p.printCmd,
               serveFSOnly := p.serveFSOnly)
  {
    hide ApplyAll, ApplySetting, Switch, SetBool, Set, KindOf;
    SwitchApplies(o, DefaultRemote, p.defaultRemote);
    var o1 := o.(defaultRemote := p.defaultRemote);
    SwitchApplies(o1, Resign, p.resign);
    var o2 := o1.(resign := p.resign);
    SwitchApplies(o2, PrintCmd, p.printCmd);
    var o3 := o2.(printCmd := p.printCmd);
    SwitchApplies(o3, ServeFSOnly, p.serveFSOnly);
    ApplyFour(o, Setting(DefaultRemote, Switch(p.defaultRemote)), Setting(Resign, Switch(p.resign)),
              Setting(PrintCmd, Switch(p.printCmd)), Setting(ServeFSOnly, Switch(p.serveFSOnly)));
  }

  lemma SwitchApplies(o: Opts, f: Flag, b: bool)
    requires f.DefaultRemote? || f.Resign? || f.PrintCmd? || f.ServeFSOnly?
    ensures ApplySetting(o, Setting(f, Switch(b)))
         == match f
            case DefaultRemote => o.(defaultRemote := b)
            case Resign => o.(resign := b)
            case PrintCmd => o.(printCmd := b)
            case _ => o.(serveFSOnly := b)
  {
    hide ParseBool, Switch;
    FlagsParse(b);
  }

  lemma ToolsApply(o: Opts, p: Opts)
    ensures ApplyAll(o, Tools(p)) == o.(dylib := p.dylib, supervisor := p.supervisor, spawnProxy := p.spawnProxy)
  {
    hide ApplyAll;
    var ss := Tools(p);
    ApplyFour(o, ss[0], ss[1], ss[2], ss[2]);
  }

  /** Applied to any defaults, a record's settings give back all of it but the command and the arguments. */
  lemma SettingsApply(d: Opts, p: Opts)
    requires d.remotePrefixes == [] && d.localPrefixes == []
    ensures ApplyAll(d, Settings(p)) == p.(command := d.command, args := d.args)
  {
    hide ApplyAll, Transports4, Places, Switches, Tools, Listed;
    var far, near := Listed(RemotePrefix, p.remotePrefixes), Listed(LocalPrefix, p.localPrefixes);
    var d1 := ApplyAll(d, Transports4(p));
    TransportsApply(d, p);
    ApplyConcat(d, Transports4(p), Places(p) + (Switches(p) + (Tools(p) + (far + near))));
    var d2 := ApplyAll(d1, Places(p));
    PlacesApply(d1, p);
    ApplyConcat(d1, Places(p), Switches(p) + (Tools(p) + (far + near)));
    var d3 := ApplyAll(d2, Switches(p));
    SwitchesApply(d2, p);
    ApplyConcat(d2, Switches(p), Tools(p) + (far + near));
    var d4 := ApplyAll(d3, Tools(p));
    ToolsApply(d3, p);
    ApplyConcat(d3, Tools(p), far + near);
    ApplyConcat(d4, far, near);
    ListsAppend(d4, p.remotePrefixes);
    ListsAppend(ApplyAll(d4, far), p.localPrefixes);
    assert [] + p.remotePrefixes == p.remotePrefixes && [] + p.localPrefixes == p.localPrefixes;
  }

  lemma SettingsAreGood(p: Opts)
    ensures forall i :: 0 <= i < |Settings(p)| ==> Good(Settings(p)[i])
  {
    hide Good, Transports4, Places, Switches, Tools, Listed;
    PartsAreGood(p);
    ListedIsGood(p.remotePrefixes);
    ListedIsGood(p.localPrefixes);
  }

  ghost predicate AllGood(ss: seq<Setting>) { forall i :: 0 <= i < |ss| ==> Good(ss[i]) }

  lemma PartsAreGood(p: Opts)
    ensures AllGood(Transports4(p)) && AllGood(Places(p)) && AllGood(Switches(p)) && AllGood(Tools(p))
  {
    hide ParseBool, Switch;
    FlagsParse(p.defaultRemote);
    FlagsParse(p.resign);
    FlagsParse(p.printCmd);
    FlagsParse(p.serveFSOnly);
  }

  lemma ListedIsGood(vals: seq<string>)
    ensures AllGood(Listed(RemotePrefix, vals)) && AllGood(Listed(LocalPrefix, vals))
  {
  }

  /** Rendering a record that names a command and exactly one transport, and parsing it back, gives that record. */
  lemma RenderRoundTrip(d: Opts, p: Opts)
    requires d.command == "" && d.args == [] && d.remotePrefixes == [] && d.localPrefixes == []
    requires p.command != "" && TransportsOf(p) == 1
    ensures Parse(d, Render(p)) == Ok(p)
  {
    hide Settings, ApplyAll, Good, TransportsOf, ParseFrom;
    SettingsAreGood(p);
    SettingsParse(d, Settings(p), ["--", p.command] + p.args);
    SettingsApply(d, p);
    CommandAtEnd(p.(command := "", args := []), p.command, p.args);
  }

  lemma CommandAtEnd(o: Opts, command: string, args: seq<string>)
    requires o.command == "" && o.args == []
    ensures ParseFrom(o, ["--", command] + args) == Ok(o.(command := command, args := args))
  {
    var tail := ["--", command] + args;
    assert tail[0] == "--" && tail[1..] == [command] + args && tail[1..][1..] == args;
    assert [] + args == args;
  }

  // ---- putting one more flag in ------------------------------------------------------------------------

  /** The ways to write a setting: --name=value, --name value, or a bare --name for a switch turned on. */
  datatype Form = Joined | Apart | Bare

  predicate Writable(s: Setting, form: Form) {
    match form
    case Joined => Good(s)
    case Apart => KindOf(s.flag).Valued?
    case Bare => KindOf(s.flag).Bool? && s.val == "true"
  }

  function Written(s: Setting, form: Form): seq<string> {
    match form
    case Joined => [Token(s)]
    case Apart => ["--" + Spelling(s.flag), s.val]
    case Bare => ["--" + Spelling(s.flag)]
  }

  /** How many tokens the parser takes at a time. */
  function Width(tok: string): nat {
    if IsFlag(tok) && !HasVal(tok) && OwnerOf(NameOf(tok)).Ours? && KindOf(OwnerOf(NameOf(tok)).flag).Valued? then 2
    else 1
  }

  /** `i` is where the parser starts on a token, and no "--" comes before it. */
  predicate Boundary(toks: seq<string>, i: nat)
    decreases |toks|
  {
    i == 0
    || (toks != [] && toks[0] != "--" && Width(toks[0]) <= i <= |toks|
        && Boundary(toks[Width(toks[0])..], i - Width(toks[0])))
  }

  /** How much of a record to compare: the words of the command, the transport too, the serve-fs-only switch too. */
  datatype View = Words | Line | LineAndServe

  datatype Core = Core(command: string, args: seq<string>, transport: seq<string>, serve: bool)

  function CoreOf(o: Opts, view: View): Core {
    Core(o.command, o.args, if view.Words? then [] else [o.code, o.peer, o.sock, o.via],
         view.LineAndServe? && o.serveFSOnly)
  }

  predicate SameCommand(a: Opts, b: Opts, view: View) { CoreOf(a, view) == CoreOf(b, view) }

  /** What an inserted flag leaves alone. */
  function ViewFor(f: Flag): View { if f.ServeFSOnly? then Line else LineAndServe }

  predicate SameOutcome(x: Result, y: Result, view: View) {
    match x
    case Ok(o) => y.Ok? && SameCommand(o, y.o, view)
    case Err(_) => y == x
  }

  lemma BareParts(name: string)
    requires PlainName(name)
    ensures IsFlag("--" + name) && "--" + name != "--" && NameOf("--" + name) == name && !HasVal("--" + name)
  {
    var tok := "--" + name;
    assert tok[1..] == "-" + name && tok[1..][1..] == name;
    assert DropDashes(tok) == DropDashes(tok[1..]) == DropDashes(tok[1..][1..]) == name;
    NoEq(name);
    assert name[..|name|] == name;
  }

  lemma {:induction false} NoEq(name: string)
    requires '=' !in name
    ensures IndexOfEq(name) == |name|
  {
    if name != [] {
      assert name[0] in name;
      NoEq(name[1..]);
    }
  }

  lemma WrittenRound(o: Opts, s: Setting, form: Form, rest: seq<string>)
    requires Writable(s, form)
    ensures ParseFrom(o, Written(s, form) + rest) == ParseFrom(ApplySetting(o, s), rest)
  {
    hide NameOf, HasVal, ValOf, IsFlag, Token, Set, SetBool, OwnerOf, Spelling;
    FlagsAreOurs(s.flag);
    BareParts(Spelling(s.flag));
    var toks := Written(s, form) + rest;
    match form
    case Joined => SettingRound(o, s, rest);
    case Apart => assert toks[1..] == [s.val] + rest && toks[2..] == rest;
    case Bare => assert toks[1..] == rest;
  }

  lemma SettingKeepsCommand(o: Opts, s: Setting)
    requires !Transport(s.flag)
    ensures SameCommand(o, ApplySetting(o, s), ViewFor(s.flag))
  {
    hide ParseBool;
  }

  /** Records that agree on the command go through every round alike. */
  lemma RoundsAlike(a: Opts, b: Opts, toks: seq<string>, view: View)
    requires SameCommand(a, b, view) && toks != []
    ensures var x, y := One(a, toks), One(b, toks);
            && (x.Next? ==> y.Next? && x.n == y.n && SameCommand(x.o, y.o, view))
            && (x.Stop? ==> y.Stop? && SameCommand(x.o, y.o, view))
            && (x.Fail? ==> y == x)
  {
    hide NameOf, HasVal, ValOf, IsFlag, KindOf, OwnerOf, ParseBool, Set, SetBool, SameCommand;
    var tok := toks[0];
    if OwnerOf(NameOf(tok)).Ours? {
      var f := OwnerOf(NameOf(tok)).flag;
      SetAlike(a, b, f, if HasVal(tok) then ValOf(tok) else if |toks| > 1 then toks[1] else "", view);
      SetBoolAlike(a, b, f, true, view);
      SetBoolAlike(a, b, f, false, view);
    }
    ArgsAlike(a, b, toks[0], [toks[0]], view);
    VerbatimAlike(a, b, toks[1..], view);
  }

  lemma SetAlike(a: Opts, b: Opts, f: Flag, val: string, view: View)
    requires SameCommand(a, b, view)
    ensures SameCommand(Set(a, f, val), Set(b, f, val), view)
  {
  }

  lemma SetBoolAlike(a: Opts, b: Opts, f: Flag, v: bool, view: View)
    requires SameCommand(a, b, view)
    ensures SameCommand(SetBool(a, f, v), SetBool(b, f, v), view)
  {
  }

  lemma ArgsAlike(a: Opts, b: Opts, tok: string, rest: seq<string>, view: View)
    requires SameCommand(a, b, view)
    ensures a.command == b.command
    ensures SameCommand(a.(command := tok), b.(command := tok), view)
    ensures SameCommand(a.(args := a.args + rest), b.(args := b.args + rest), view)
  {
  }

  function CoreVerbatim(c: Core, rest: seq<string>): Core {
    if c.command == "" && rest != [] then c.(command := rest[0], args := c.args + rest[1..])
    else c.(args := c.args + rest)
  }

  lemma VerbatimOnCore(o: Opts, rest: seq<string>, view: View)
    ensures CoreOf(Verbatim(o, rest), view) == CoreVerbatim(CoreOf(o, view), rest)
  {
  }

  lemma VerbatimAlike(a: Opts, b: Opts, rest: seq<string>, view: View)
    requires SameCommand(a, b, view)
    ensures SameCommand(Verbatim(a, rest), Verbatim(b, rest), view)
  {
    hide Verbatim, CoreVerbatim;
    VerbatimOnCore(a, rest, view);
    VerbatimOnCore(b, rest, view);
  }

  lemma {:induction false} ParseAlike(a: Opts, b: Opts, toks: seq<string>, view: View)
    requires SameCommand(a, b, view)
    ensures SameOutcome(ParseFrom(a, toks), ParseFrom(b, toks), view)
    decreases |toks|
  {
    hide One, SameCommand;
    if toks != [] {
      RoundsAlike(a, b, toks, view);
      var x := One(a, toks);
      if x.Next? {
        ParseAlike(x.o, One(b, toks).o, toks[x.n..], view);
      }
    }
  }

  function With(toks: seq<string>, i: nat, s: Setting, form: Form): seq<string>
    requires i <= |toks|
  {
    toks[..i] + Written(s, form) + toks[i..]
  }

  /** A round looks at no more tokens than it takes. */
  lemma RoundIsLocal(o: Opts, toks: seq<string>, other: seq<string>)
    requires toks != [] && toks[0] != "--" && Width(toks[0]) <= |toks| && toks[..Width(toks[0])] <= other
    ensures One(o, other) == One(o, toks)
    ensures One(o, toks).Next? ==> One(o, toks).n == Width(toks[0])
    ensures !One(o, toks).Stop?
  {
    hide NameOf, HasVal, ValOf, IsFlag, KindOf, OwnerOf, ParseBool, Set, SetBool;
    assert other[0] == toks[..Width(toks[0])][0] == toks[0];
    if Width(toks[0]) == 2 {
      assert other[1] == toks[..2][1] == toks[1];
    }
  }

  lemma {:induction false} InsertionKeepsParse(o: Opts, toks: seq<string>, i: nat, s: Setting, form: Form)
    requires Boundary(toks, i) && i <= |toks| && Writable(s, form) && !Transport(s.flag)
    ensures SameOutcome(ParseFrom(o, toks), ParseFrom(o, With(toks, i, s, form)), ViewFor(s.flag))
    decreases |toks|
  {
    hide One, SameCommand, Width, Writable, Written, Transport, ApplySetting;
    var view := ViewFor(s.flag);
    if i == 0 {
      assert With(toks, i, s, form) == Written(s, form) + toks;
      WrittenRound(o, s, form, toks);
      SettingKeepsCommand(o, s);
      ParseAlike(o, ApplySetting(o, s), toks, view);
    } else {
      var w := Width(toks[0]);
      var longer := With(toks, i, s, form);
      assert w > 0 by {
        WidthIsPositive(toks[0]);
      }
      assert toks[..w] <= longer;
      RoundIsLocal(o, toks, longer);
      assert longer[w..] == With(toks[w..], i - w, s, form);
      var x := One(o, toks);
      if x.Next? {
        InsertionKeepsParse(x.o, toks[w..], i - w, s, form);
      }
    }
  }

  lemma WidthIsPositive(tok: string)
    ensures 1 <= Width(tok) <= 2
  {
  }

  /** One of rca's flags that names no transport, put in at any token boundary before "--", never changes the command,
      its arguments or their order. For the serve-fs-only switch on a line without a command see InsertedServeFSOnly. */
  lemma InsertedFlagIsHarmless(d: Opts, toks: seq<string>, i: nat, s: Setting, form: Form)
    requires Boundary(toks, i) && i <= |toks| && Writable(s, form) && !Transport(s.flag)
    requires s.flag.ServeFSOnly? && ParseFrom(d, toks).Ok? ==> ParseFrom(d, toks).o.command != ""
    ensures SameOutcome(Parse(d, toks), Parse(d, With(toks, i, s, form)), ViewFor(s.flag))
  {
    hide ParseFrom, Boundary, Writable, Transport, With;
    InsertionKeepsParse(d, toks, i, s, form);
  }

  // ---- putting a token between a flag and its value ------------------------------------------------------

  predicate Owned(tok: string) { IsFlag(tok) && OwnerOf(NameOf(tok)).Ours? }

  /** An owned flag that parses: a switch whose value, if it has one, is a boolean, or a flag whose value is there. */
  predicate Complete(toks: seq<string>)
    requires toks != [] && Owned(toks[0])
  {
    if KindOf(OwnerOf(NameOf(toks[0])).flag).Bool? then HasVal(toks[0]) ==> !ParseBool(ValOf(toks[0])).Neither?
    else Width(toks[0]) <= |toks|
  }

  /** Nothing in it is claimed for rca: parsed behind a command, all of it becomes arguments. */
  predicate Unclaimed(toks: seq<string>) {
    toks == [] || (toks[0] != "--" && !Owned(toks[0]) && Unclaimed(toks[1..]))
  }

  /** Parsed or taken verbatim, it gives the same words; `known` says whether the command has been seen. */
  predicate Plain(known: bool, toks: seq<string>) {
    if known || toks == [] then Unclaimed(toks)
    else !IsFlag(toks[0]) && (toks[0] == "" ==> |toks| == 1) && Unclaimed(toks[1..])
  }

  /** Reading on from the first of these tokens or from the second gives the same command and arguments. */
  predicate Skippable(known: bool, toks: seq<string>)
    requires toks != []
  {
    if toks[0] == "--" then Plain(known, toks[1..])
    else if !Owned(toks[0]) then !known && toks[0] == ""
    else Complete(toks) && (Width(toks[0]) == 2 ==> Skippable(known, toks[1..]))
  }

  predicate SameWords(x: Result, y: Result) { x.Ok? && y.Ok? && SameCommand(x.o, y.o, Words) }

  /** What one round does to command and arguments. */
  lemma RoundWords(o: Opts, toks: seq<string>)
    requires toks != [] && toks[0] != "--"
    ensures Owned(toks[0]) && !Complete(toks) ==> One(o, toks).Fail?
    ensures Owned(toks[0]) && Complete(toks)
            ==> && One(o, toks).Next? && One(o, toks).n == Width(toks[0]) && SameCommand(One(o, toks).o, o, Words)
    ensures !Owned(toks[0]) && o.command != "" ==> One(o, toks) == Next(o.(args := o.args + [toks[0]]), 1)
    ensures !Owned(toks[0]) && o.command == "" && IsFlag(toks[0]) ==> One(o, toks).Fail?
    ensures !IsFlag(toks[0]) && o.command == "" ==> One(o, toks) == Next(o.(command := toks[0]), 1)
  {
    hide NameOf, HasVal, ValOf, IsFlag, KindOf, OwnerOf, ParseBool, Set, SetBool, SameCommand;
    if Owned(toks[0]) {
      var f := OwnerOf(NameOf(toks[0])).flag;
      SettersKeepWords(o, f, if HasVal(toks[0]) then ValOf(toks[0]) else if |toks| > 1 then toks[1] else "");
    }
  }

  lemma SettersKeepWords(o: Opts, f: Flag, val: string)
    ensures SameCommand(Set(o, f, val), o, Words)
    ensures SameCommand(SetBool(o, f, true), o, Words) && SameCommand(SetBool(o, f, false), o, Words)
  {
  }

  lemma VerbatimRound(o: Opts, toks: seq<string>)
    requires toks != [] && toks[0] == "--"
    ensures ParseFrom(o, toks) == Ok(Verbatim(o, toks[1..]))
  {
  }

  /** Every owned flag before "--" parses. */
  predicate Readable(toks: seq<string>)
    decreases |toks|
  {
    toks == [] || toks[0] == "--"
    || if Owned(toks[0]) then Complete(toks) && Readable(toks[Width(toks[0])..]) else Readable(toks[1..])
  }

  /** What the parser leaves for the arguments of a command already seen. */
  function Collected(toks: seq<string>): seq<string>
    requires Readable(toks)
    decreases |toks|
  {
    if toks == [] then []
    else if toks[0] == "--" then toks[1..]
    else if Owned(toks[0]) then Collected(toks[Width(toks[0])..])
    else [toks[0]] + Collected(toks[1..])
  }

  lemma {:induction false} KnownParse(o: Opts, toks: seq<string>)
    requires o.command != ""
    ensures ParseFrom(o, toks).Ok? <==> Readable(toks)
    ensures Readable(toks)
            ==> && ParseFrom(o, toks).o.command == o.command
                && ParseFrom(o, toks).o.args == o.args + Collected(toks)
    decreases |toks|
  {
    hide One, Owned, Complete, IsFlag, Width;
    if toks == [] {
      assert o.args + [] == o.args;
    } else if toks[0] == "--" {
      VerbatimRound(o, toks);
    } else {
      RoundWords(o, toks);
      WidthIsPositive(toks[0]);
      var x := One(o, toks);
      if x.Next? {
        KnownParse(x.o, toks[x.n..]);
        if !Owned(toks[0]) && Readable(toks) {
          assert o.args + [toks[0]] + Collected(toks[1..]) == o.args + ([toks[0]] + Collected(toks[1..]));
        }
      }
    }
  }

  lemma {:induction false} UnclaimedIff(toks: seq<string>)
    ensures Readable(toks) ==> |Collected(toks)| <= |toks|
    ensures Unclaimed(toks) <==> Readable(toks) && Collected(toks) == toks
    decreases |toks|
  {
    hide IsFlag, NameOf, OwnerOf, KindOf, HasVal, ParseBool;
    if toks != [] && toks[0] != "--" {
      WidthIsPositive(toks[0]);
      if !Owned(toks[0]) {
        UnclaimedIff(toks[1..]);
      } else if Readable(toks) {
        UnclaimedIff(toks[Width(toks[0])..]);
      }
    }
  }

  function Count(o: Opts): nat { |o.args| + if o.command == "" then 0 else 1 }

  /** Before there is a command, the rest adds no more words than it would behind one, and fewer arguments than it has
      tokens. */
  lemma {:induction false} UnknownParse(o: Opts, toks: seq<string>)
    requires o.command == "" && ParseFrom(o, toks).Ok?
    ensures Readable(toks) && Count(ParseFrom(o, toks).o) <= |o.args| + |Collected(toks)|
    ensures toks != [] ==> |ParseFrom(o, toks).o.args| < |o.args| + |toks|
    decreases |toks|
  {
    hide One, Owned, Complete, IsFlag, Width;
    if toks != [] && toks[0] == "--" {
      VerbatimRound(o, toks);
    } else if toks != [] {
      RoundWords(o, toks);
      WidthIsPositive(toks[0]);
      var x := One(o, toks);
      if x.o.command == "" {
        UnknownParse(x.o, toks[x.n..]);
      } else {
        KnownParse(x.o, toks[1..]);
        UnclaimedIff(toks[1..]);
      }
    }
  }

  lemma AppendIff(args: seq<string>, a: seq<string>, b: seq<string>)
    ensures args + a == args + b <==> a == b
  {
    assert (args + a)[|args|..] == a && (args + b)[|args|..] == b;
  }

  lemma PlainIff(o: Opts, toks: seq<string>)
    ensures SameWords(ParseFrom(o, toks), Ok(Verbatim(o, toks))) <==> Plain(o.command != "", toks)
  {
    hide One, Owned, Complete, IsFlag, Width, Unclaimed;
    if o.command != "" || toks == [] {
      if o.command != "" {
        KnownParse(o, toks);
      }
      UnclaimedIff(toks);
      if Readable(toks) {
        AppendIff(o.args, Collected(toks), toks);
      }
    } else if IsFlag(toks[0]) {
      FlagIsNotPlain(o, toks);
    } else {
      PlainWord(o, toks);
    }
  }

  lemma FlagIsNotPlain(o: Opts, toks: seq<string>)
    requires o.command == "" && toks != [] && IsFlag(toks[0])
    ensures !SameWords(ParseFrom(o, toks), Ok(Verbatim(o, toks)))
  {
    hide One, Owned, Complete, Width;
    if toks[0] == "--" {
      VerbatimRound(o, toks);
    } else {
      RoundWords(o, toks);
      WidthIsPositive(toks[0]);
      var x := One(o, toks);
      if x.Next? && ParseFrom(x.o, toks[x.n..]).Ok? {
        UnknownParse(x.o, toks[x.n..]);
      }
    }
  }

  lemma PlainWord(o: Opts, toks: seq<string>)
    requires o.command == "" && toks != [] && !IsFlag(toks[0])
    ensures SameWords(ParseFrom(o, toks), Ok(Verbatim(o, toks))) <==> Plain(false, toks)
  {
    hide One, Owned, Complete, IsFlag, Width, Unclaimed;
    var tok, rest, o' := toks[0], toks[1..], o.(command := toks[0]);
    DashesAreFlag();
    RoundWords(o, toks);
    assert ParseFrom(o, toks) == ParseFrom(o', rest);
    UnclaimedIff(rest);
    if tok != "" {
      KnownParse(o', rest);
      if Readable(rest) {
        AppendIff(o.args, Collected(rest), rest);
      }
    } else if rest != [] && ParseFrom(o', rest).Ok? {
      UnknownParse(o', rest);
    } else if rest == [] {
      assert o.args + rest == o.args;
    }
  }

  lemma DashesAreFlag()
    ensures IsFlag("--") && !Owned("--") && Width("--") == 1
  {
  }

  /** Reading on from the first token or from the second: when one of the two parses, both do and give the same words
      exactly when the first token is skippable. */
  lemma {:induction false} SkippableIff(o: Opts, toks: seq<string>)
    requires toks != [] && (ParseFrom(o, toks).Ok? || ParseFrom(o, toks[1..]).Ok?)
    ensures SameWords(ParseFrom(o, toks), ParseFrom(o, toks[1..])) <==> Skippable(o.command != "", toks)
    decreases |toks|
  {
    hide One, ParseFrom, Owned, Complete, IsFlag, Plain, Width;
    WidthIsPositive(toks[0]);
    if toks[0] == "--" {
      VerbatimRound(o, toks);
      PlainIff(o, toks[1..]);
    } else if !Owned(toks[0]) {
      SkippableWord(o, toks);
    } else {
      SkippableFlag(o, toks);
      if Complete(toks) && Width(toks[0]) == 2 {
        SkippableIff(o, toks[1..]);
      }
    }
  }

  lemma SkippableWord(o: Opts, toks: seq<string>)
    requires toks != [] && toks[0] != "--" && !Owned(toks[0])
    requires ParseFrom(o, toks).Ok? || ParseFrom(o, toks[1..]).Ok?
    ensures SameWords(ParseFrom(o, toks), ParseFrom(o, toks[1..])) <==> o.command == "" && toks[0] == ""
  {
    hide One, Owned, Complete, IsFlag, Width;
    RoundWords(o, toks);
    var rest := toks[1..];
    if o.command != "" {
      KnownParse(o, rest);
      KnownParse(o.(args := o.args + [toks[0]]), rest);
    } else if IsFlag(toks[0]) {
      EmptyIsNoFlag();
    } else if toks[0] == "" {
      assert o.(command := "") == o;
    } else if ParseFrom(o, rest).Ok? {
      KnownParse(o.(command := toks[0]), rest);
      UnknownParse(o, rest);
    }
  }

  lemma EmptyIsNoFlag()
    ensures !IsFlag("")
  {
  }

  /** Behind an owned flag, reading on from the flag is reading on from behind what it takes. */
  lemma SkippableFlag(o: Opts, toks: seq<string>)
    requires toks != [] && toks[0] != "--" && Owned(toks[0])
    requires ParseFrom(o, toks).Ok? || ParseFrom(o, toks[1..]).Ok?
    ensures !Complete(toks) ==> ParseFrom(o, toks).Err?
    ensures Complete(toks)
            ==> && Width(toks[0]) <= |toks|
                && SameOutcome(ParseFrom(o, toks[Width(toks[0])..]), ParseFrom(o, toks), Words)
  {
    hide One, Owned, IsFlag, Width, SameCommand;
    RoundWords(o, toks);
    if Complete(toks) {
      CompleteFits(toks);
      SameCommandIsSymmetric(One(o, toks).o, o);
      ParseAlike(o, One(o, toks).o, toks[Width(toks[0])..], Words);
    }
  }

  lemma SameCommandIsSymmetric(a: Opts, b: Opts)
    ensures SameCommand(a, b, Words) <==> SameCommand(b, a, Words)
  {
  }

  lemma CompleteFits(toks: seq<string>)
    requires toks != [] && Owned(toks[0]) && Complete(toks)
    ensures 1 <= Width(toks[0]) <= |toks|
  {
    hide IsFlag, NameOf, OwnerOf, HasVal, ParseBool;
  }

  /** Up to a boundary, the parser has done what it does with the tokens before it alone. */
  lemma {:induction false} BoundaryState(d: Opts, toks: seq<string>, other: seq<string>, i: nat)
    requires Boundary(toks, i) && i <= |toks| && toks[..i] <= other
    ensures ParseFrom(d, toks[..i]).Err? ==> ParseFrom(d, other) == ParseFrom(d, toks[..i])
    ensures ParseFrom(d, toks[..i]).Ok? ==> ParseFrom(d, other) == ParseFrom(ParseFrom(d, toks[..i]).o, other[i..])
    decreases |toks|
  {
    hide One, Width;
    if i == 0 {
      assert other[0..] == other;
    } else {
      var w := Width(toks[0]);
      WidthIsPositive(toks[0]);
      assert toks[..i][..w] == toks[..w] && toks[..i][w..] == toks[w..][..i - w];
      PrefixOfPrefix(toks, other, w, i);
      RoundIsLocal(d, toks, toks[..i]);
      RoundIsLocal(d, toks, other);
      var x := One(d, toks);
      if x.Next? {
        BoundaryState(x.o, toks[w..], other[w..], i - w);
        assert other[w..][i - w..] == other[i..];
      }
    }
  }

  lemma PrefixOfPrefix(toks: seq<string>, other: seq<string>, w: nat, i: nat)
    requires w <= i <= |toks| && toks[..i] <= other
    ensures toks[..w] <= other && toks[..w] <= toks[..i] && toks[w..][..i - w] <= other[w..]
  {
    assert toks[..w] == toks[..i][..w] == other[..w];
    assert toks[w..][..i - w] == toks[..i][w..] == other[..i][w..] == other[w..][..i - w];
  }

  /** A flag that waits for its value takes whatever token comes next. */
  lemma FlagTakesNext(o: Opts, toks: seq<string>)
    requires |toks| >= 2 && Width(toks[0]) == 2
    ensures SameOutcome(ParseFrom(o, toks[2..]), ParseFrom(o, toks), Words)
  {
    hide One, IsFlag, NameOf, OwnerOf, HasVal, ParseBool, SameCommand;
    DashesAreFlag();
    RoundWords(o, toks);
    SameCommandIsSymmetric(One(o, toks).o, o);
    ParseAlike(o, One(o, toks).o, toks[2..], Words);
  }

  /** The tokens with one more between the flag at `i` and its value. */
  function Between(toks: seq<string>, i: nat, tok: string): seq<string>
    requires i < |toks|
  {
    toks[..i + 1] + [tok] + toks[i + 1..]
  }

  /** Whatever token is put between a flag and its value becomes the value, and parsing goes on from the old value: when
      the line parses, with that token or without it, it keeps its command and arguments exactly when the old value is
      skippable. */
  lemma ValuePositionIff(d: Opts, toks: seq<string>, i: nat, tok: string)
    requires Boundary(toks, i) && i + 1 < |toks| && Width(toks[i]) == 2
    requires ParseFrom(d, toks).Ok? || ParseFrom(d, Between(toks, i, tok)).Ok?
    ensures ParseFrom(d, toks[..i]).Ok?
    ensures SameWords(ParseFrom(d, toks), ParseFrom(d, Between(toks, i, tok)))
       <==> Skippable(ParseFrom(d, toks[..i]).o.command != "", toks[i + 1..])
  {
    hide ParseFrom, Boundary, Width, Skippable;
    var longer := Between(toks, i, tok);
    BoundaryState(d, toks, toks, i);
    assert toks[..i] <= longer;
    BoundaryState(d, toks, longer, i);
    var o := ParseFrom(d, toks[..i]).o;
    assert toks[i..][0] == longer[i..][0] == toks[i];
    assert toks[i..][2..] == toks[i + 1..][1..] && longer[i..][2..] == toks[i + 1..];
    FlagTakesNext(o, toks[i..]);
    FlagTakesNext(o, longer[i..]);
    SkippableIff(o, toks[i + 1..]);
  }

  /** In particular an old value that is a word becomes the command, or one more argument of the command before it. */
  lemma ValueBecomesWord(d: Opts, toks: seq<string>, i: nat, tok: string)
    requires Boundary(toks, i) && i + 1 < |toks| && Width(toks[i]) == 2
    requires ParseFrom(d, toks).Ok? && !IsFlag(toks[i + 1]) && toks[i + 1] != ""
    ensures ParseFrom(d, toks[..i]).Ok? && Readable(toks[i + 2..]) && ParseFrom(d, Between(toks, i, tok)).Ok?
    ensures var o, p, q := ParseFrom(d, toks[..i]).o, ParseFrom(d, toks).o, ParseFrom(d, Between(toks, i, tok)).o;
            var word, more := toks[i + 1], Collected(toks[i + 2..]);
            if o.command == "" then q.command == word && q.args == o.args + more
            else && p.command == o.command && p.args == o.args + more
                 && q.command == o.command && q.args == o.args + [word] + more
  {
    hide ParseFrom, Boundary, Width, One, Collected, Readable, IsFlag;
    var longer := Between(toks, i, tok);
    BoundaryState(d, toks, toks, i);
    assert toks[..i] <= longer;
    BoundaryState(d, toks, longer, i);
    var o := ParseFrom(d, toks[..i]).o;
    assert toks[i..][0] == longer[i..][0] == toks[i];
    assert toks[i..][2..] == toks[i + 2..] && longer[i..][2..] == toks[i + 1..];
    FlagTakesNext(o, toks[i..]);
    FlagTakesNext(o, longer[i..]);
    assert toks[i + 1..][1..] == toks[i + 2..];
    WordFirst(o, toks[i + 1..]);
    if o.command == "" {
      UnknownParse(o, toks[i + 2..]);
    } else {
      KnownParse(o, toks[i + 2..]);
    }
  }

  lemma WordFirst(o: Opts, toks: seq<string>)
    requires toks != [] && !IsFlag(toks[0]) && toks[0] != ""
    ensures ParseFrom(o, toks).Ok? <==> Readable(toks[1..])
    ensures Readable(toks[1..])
            ==> if o.command == ""
                then ParseFrom(o, toks).o.command == toks[0]
                     && ParseFrom(o, toks).o.args == o.args + Collected(toks[1..])
                else ParseFrom(o, toks).o.command == o.command
                     && ParseFrom(o, toks).o.args == o.args + [toks[0]] + Collected(toks[1..])
  {
    hide One, Owned, Complete, IsFlag, Width, Collected, Readable;
    DashesAreFlag();
    OwnedIsFlag(toks[0]);
    RoundWords(o, toks);
    KnownParse(One(o, toks).o, toks[1..]);
  }

  lemma OwnedIsFlag(tok: string)
    ensures Owned(tok) ==> IsFlag(tok)
  {
  }

  // ---- putting in the switch that needs no command -------------------------------------------------------

  /** What a flag that parses makes of the serve-fs-only switch. */
  function ServeAfterFlag(tok: string, serve: bool): bool
    requires Owned(tok)
  {
    if OwnerOf(NameOf(tok)).flag.ServeFSOnly? then !HasVal(tok) || ParseBool(ValOf(tok)).Yes? else serve
  }

  /** What these tokens make of it: the last of its occurrences before "--" decides. */
  function ServeAfter(toks: seq<string>, serve: bool): bool
    decreases |toks|
  {
    if toks == [] || toks[0] == "--" then serve
    else if !Owned(toks[0]) then ServeAfter(toks[1..], serve)
    else if Width(toks[0]) > |toks| then serve
    else ServeAfter(toks[Width(toks[0])..], ServeAfterFlag(toks[0], serve))
  }

  lemma RoundServes(o: Opts, toks: seq<string>)
    requires toks != [] && toks[0] != "--" && One(o, toks).Next?
    ensures !Owned(toks[0]) ==> One(o, toks).n == 1 && One(o, toks).o.serveFSOnly == o.serveFSOnly
    ensures Owned(toks[0]) ==> One(o, toks).n == Width(toks[0])
                               && One(o, toks).o.serveFSOnly == ServeAfterFlag(toks[0], o.serveFSOnly)
  {
    hide NameOf, HasVal, ValOf, IsFlag, OwnerOf, ParseBool, Set, SetBool, KindOf;
    if Owned(toks[0]) {
      var f := OwnerOf(NameOf(toks[0])).flag;
      SettersServe(o, f, if HasVal(toks[0]) then ValOf(toks[0]) else if |toks| > 1 then toks[1] else "");
    }
  }

  lemma SettersServe(o: Opts, f: Flag, val: string)
    ensures f.ServeFSOnly? <==> KindOf(f).Bool? && !f.DefaultRemote? && !f.Resign? && !f.PrintCmd?
    ensures Set(o, f, val).serveFSOnly == o.serveFSOnly
    ensures forall b :: SetBool(o, f, b).serveFSOnly == if f.ServeFSOnly? then b else o.serveFSOnly
  {
  }

  lemma {:induction false} ParseServes(o: Opts, toks: seq<string>)
    requires ParseFrom(o, toks).Ok?
    ensures ParseFrom(o, toks).o.serveFSOnly == ServeAfter(toks, o.serveFSOnly)
    decreases |toks|
  {
    hide One, Owned, Width, ServeAfterFlag;
    if toks != [] && toks[0] == "--" {
      VerbatimRound(o, toks);
    } else if toks != [] {
      RoundWords(o, toks);
      RoundServes(o, toks);
      ParseServes(One(o, toks).o, toks[One(o, toks).n..]);
    }
  }

  /** A line that reads without error and names no command, with the serve-fs-only switch put in at any boundary: it is
      accepted exactly when the switch, or its last occurrence behind that place, is on and there is one transport, and
      then it still names no command. */
  lemma InsertedServeFSOnly(d: Opts, toks: seq<string>, i: nat, s: Setting, form: Form)
    requires Boundary(toks, i) && i <= |toks| && Writable(s, form) && s.flag.ServeFSOnly?
    requires ParseFrom(d, toks).Ok? && ParseFrom(d, toks).o.command == ""
    ensures var o, r := ParseFrom(d, toks).o, Parse(d, With(toks, i, s, form));
            if !ServeAfter(toks[i..], ParseBool(s.val).Yes?) then r == Err(NoCommand)
            else if TransportsOf(o) != 1 then r == Err(Transports(TransportsOf(o)))
            else r.Ok? && r.o.serveFSOnly && SameCommand(o, r.o, Line)
  {
    hide ParseFrom, Boundary, Writable, ServeAfter, Written, ParseBool;
    var longer := With(toks, i, s, form);
    InsertionKeepsParse(d, toks, i, s, form);
    BoundaryState(d, toks, toks, i);
    assert toks[..i] <= longer;
    BoundaryState(d, toks, longer, i);
    var o := ParseFrom(d, toks[..i]).o;
    assert longer[i..] == Written(s, form) + toks[i..];
    WrittenRound(o, s, form, toks[i..]);
    ParseServes(ApplySetting(o, s), toks[i..]);
  }

  // ---- the flags by name -------------------------------------------------------------------------------

  /** "--name=val", one token. */
  function Assigned(name: string, val: string): string { "--" + name + "=" + val }

  lemma ValueIs(o: Opts, f: Flag, name: string, val: string, rest: seq<string>, p: Opts)
    requires Spelling(f) == name && KindOf(f).Valued? && Set(o, f, val) == p
    ensures ParseFrom(o, [Assigned(name, val)] + rest) == ParseFrom(p, rest)
  {
    hide ParseFrom, Set, Spelling, SetBool, ParseBool;
    SettingRound(o, Setting(f, val), rest);
  }

  lemma SwitchIs(o: Opts, f: Flag, name: string, rest: seq<string>, on: Opts, off: Opts)
    requires Spelling(f) == name && KindOf(f).Bool? && SetBool(o, f, true) == on && SetBool(o, f, false) == off
    ensures ParseFrom(o, ["--" + name] + rest) == ParseFrom(on, rest)
    ensures ParseFrom(o, [Assigned(name, "false")] + rest) == ParseFrom(off, rest)
  {
    hide ParseFrom, Set, Spelling, SetBool;
    WrittenRound(o, Setting(f, "true"), Bare, rest);
    SettingRound(o, Setting(f, "false"), rest);
  }

  /** The transports, each by its name, set their own field and no other; */
  lemma NamedTransports(o: Opts, v: string, rest: seq<string>)
    ensures ParseFrom(o, [Assigned("code", v)] + rest) == ParseFrom(o.(code := v), rest)
    ensures ParseFrom(o, [Assigned("peer", v)] + rest) == ParseFrom(o.(peer := v), rest)
    ensures ParseFrom(o, [Assigned("sock", v)] + rest) == ParseFrom(o.(sock := v), rest)
    ensures ParseFrom(o, [Assigned("via", v)] + rest) == ParseFrom(o.(via := v), rest)
  {
    hide ParseFrom, Assigned;
    ValueIs(o, Code, "code", v, rest, o.(code := v));
    ValueIs(o, Peer, "peer", v, rest, o.(peer := v));
    ValueIs(o, Sock, "sock", v, rest, o.(sock := v));
    ValueIs(o, Via, "via", v, rest, o.(via := v));
  }

  /** so do the engine's directory and profile, */
  lemma NamedEngine(o: Opts, v: string, rest: seq<string>)
    ensures ParseFrom(o, [Assigned("workdir", v)] + rest) == ParseFrom(o.(workdir := v), rest)
    ensures ParseFrom(o, [Assigned("profile", v)] + rest) == ParseFrom(o.(profile := v), rest)
  {
    hide ParseFrom, Assigned;
    ValueIs(o, Workdir, "workdir", v, rest, o.(workdir := v));
    ValueIs(o, Profile, "profile", v, rest, o.(profile := v));
  }

  /** the adapter's socket and the sentinel, */
  lemma NamedAdapter(o: Opts, v: string, rest: seq<string>)
    ensures ParseFrom(o, [Assigned("adapter-sock", v)] + rest) == ParseFrom(o.(adapterSock := v), rest)
    ensures ParseFrom(o, [Assigned("spawn-sentinel", v)] + rest) == ParseFrom(o.(sentinel := v), rest)
  {
    hide ParseFrom, Assigned;
    ValueIs(o, AdapterSock, "adapter-sock", v, rest, o.(adapterSock := v));
    ValueIs(o, Sentinel, "spawn-sentinel", v, rest, o.(sentinel := v));
  }

  /** the programs taken along, */
  lemma NamedPrograms(o: Opts, v: string, rest: seq<string>)
    ensures ParseFrom(o, [Assigned("dylib", v)] + rest) == ParseFrom(o.(dylib := v), rest)
    ensures ParseFrom(o, [Assigned("supervisor", v)] + rest) == ParseFrom(o.(supervisor := v), rest)
    ensures ParseFrom(o, [Assigned("spawn-proxy", v)] + rest) == ParseFrom(o.(spawnProxy := v), rest)
  {
    hide ParseFrom, Assigned;
    ValueIs(o, Dylib, "dylib", v, rest, o.(dylib := v));
    ValueIs(o, Supervisor, "supervisor", v, rest, o.(supervisor := v));
    ValueIs(o, SpawnProxy, "spawn-proxy", v, rest, o.(spawnProxy := v));
  }

  /** and a prefix goes behind the ones given before. */
  lemma NamedPrefixes(o: Opts, v: string, rest: seq<string>)
    ensures ParseFrom(o, [Assigned("remote-prefix", v)] + rest)
         == ParseFrom(o.(remotePrefixes := o.remotePrefixes + [v]), rest)
    ensures ParseFrom(o, [Assigned("local-prefix", v)] + rest)
         == ParseFrom(o.(localPrefixes := o.localPrefixes + [v]), rest)
  {
    hide ParseFrom, Assigned;
    ValueIs(o, RemotePrefix, "remote-prefix", v, rest, o.(remotePrefixes := o.remotePrefixes + [v]));
    ValueIs(o, LocalPrefix, "local-prefix", v, rest, o.(localPrefixes := o.localPrefixes + [v]));
  }

  /** A switch is turned on by its name, and off by its name with "=false": */
  lemma NamedServing(o: Opts, rest: seq<string>)
    ensures ParseFrom(o, ["--" + "default-remote"] + rest) == ParseFrom(o.(defaultRemote := true), rest)
    ensures ParseFrom(o, [Assigned("default-remote", "false")] + rest) == ParseFrom(o.(defaultRemote := false), rest)
    ensures ParseFrom(o, ["--" + "serve-fs-only"] + rest) == ParseFrom(o.(serveFSOnly := true), rest)
    ensures ParseFrom(o, [Assigned("serve-fs-only", "false")] + rest) == ParseFrom(o.(serveFSOnly := false), rest)
  {
    hide ParseFrom, Assigned;
    SwitchIs(o, DefaultRemote, "default-remote", rest, o.(defaultRemote := true), o.(defaultRemote := false));
    SwitchIs(o, ServeFSOnly, "serve-fs-only", rest, o.(serveFSOnly := true), o.(serveFSOnly := false));
  }

  /** those of the engine's start too. */
  lemma NamedStarting(o: Opts, rest: seq<string>)
    ensures ParseFrom(o, ["--" + "resign"] + rest) == ParseFrom(o.(resign := true), rest)
    ensures ParseFrom(o, [Assigned("resign", "false")] + rest) == ParseFrom(o.(resign := false), rest)
    ensures ParseFrom(o, ["--" + "print-cmd"] + rest) == ParseFrom(o.(printCmd := true), rest)
    ensures ParseFrom(o, [Assigned("print-cmd", "false")] + rest) == ParseFrom(o.(printCmd := false), rest)
  {
    hide ParseFrom, Assigned;
    SwitchIs(o, Resign, "resign", rest, o.(resign := true), o.(resign := false));
    SwitchIs(o, PrintCmd, "print-cmd", rest, o.(printCmd := true), o.(printCmd := false));
  }

  // ---- the tokens by their text ------------------------------------------------------------------------

  function Dashes(n: nat): string { if n == 0 then "" else "-" + Dashes(n - 1) }

  /** A dashed token is its dashes, a name, and nothing or "=" and a value; "-" and "--" alone are none. */
  predicate DashedText(n: nat, name: string, tail: string) {
    && n >= (if name + tail == "" then 3 else 1)
    && '=' !in name && (name != "" ==> name[0] != '-')
    && (tail != "" ==> tail[0] == '=')
  }

  lemma {:induction false} DashesCount(n: nat)
    ensures |Dashes(n)| == n && (n > 0 ==> Dashes(n)[0] == '-')
  {
    if n > 0 {
      DashesCount(n - 1);
    }
  }

  lemma {:induction false} DashesDrop(n: nat, body: string)
    requires body == "" || body[0] != '-'
    ensures DropDashes(Dashes(n) + body) == body
  {
    if n == 0 {
      assert Dashes(n) + body == body;
    } else {
      assert (Dashes(n) + body)[1..] == Dashes(n - 1) + body;
      DashesDrop(n - 1, body);
    }
  }

  lemma {:induction false} EqBehind(name: string, tail: string)
    requires '=' !in name && (tail != "" ==> tail[0] == '=')
    ensures IndexOfEq(name + tail) == |name|
  {
    if name != [] {
      assert (name + tail)[1..] == name[1..] + tail;
      assert name[0] in name;
      EqBehind(name[1..], tail);
    } else {
      assert name + tail == tail;
    }
  }

  lemma TextParts(n: nat, name: string, tail: string)
    requires DashedText(n, name, tail)
    ensures var tok := Dashes(n) + (name + tail);
            && IsFlag(tok) && tok != "--" && NameOf(tok) == name
            && (HasVal(tok) <==> tail != "") && (HasVal(tok) ==> ValOf(tok) == tail[1..])
  {
    var body := name + tail;
    var tok := Dashes(n) + body;
    if body != "" {
      assert body[0] == if name != "" then name[0] else tail[0];
      assert tok[0] == '-' && tok[|tok| - |body|] == body[0] != '-';
    }
    DashesCount(n);
    DashesDrop(n, body);
    EqBehind(name, tail);
    assert body[..|name|] == name && body[|name|..] == tail;
  }

  /** A word is the command if there is none yet, and an argument otherwise. */
  lemma WordsAre(o: Opts, tok: string, rest: seq<string>)
    requires tok == "" || tok == "-" || tok[0] != '-'
    ensures ParseFrom(o, [tok] + rest)
         == ParseFrom(if o.command == "" then o.(command := tok) else o.(args := o.args + [tok]), rest)
  {
    assert ([tok] + rest)[1..] == rest;
  }

  /** Behind "--" everything is the command's, word for word. */
  lemma VerbatimAre(o: Opts, rest: seq<string>)
    ensures ParseFrom(o, ["--"] + rest)
         == Ok(if rest == [] then o
               else if o.command == "" then o.(command := rest[0], args := o.args + rest[1..])
               else o.(args := o.args + rest))
  {
    assert (["--"] + rest)[1..] == rest;
    assert o.args + [] == o.args;
  }

  /** A dashed token that is none of rca's is an error before the command and an argument behind it. */
  lemma StrangeFlagsAre(o: Opts, n: nat, name: string, tail: string, rest: seq<string>)
    requires DashedText(n, name, tail) && forall f :: Spelling(f) != name
    ensures var tok := Dashes(n) + (name + tail);
            && (o.command == "" ==> ParseFrom(o, [tok] + rest) == Err(UnknownFlag(tok)))
            && (o.command != "" ==> ParseFrom(o, [tok] + rest) == ParseFrom(o.(args := o.args + [tok]), rest))
  {
    hide IsFlag, NameOf, HasVal, OwnerOf, Spelling, Dashes, DashedText;
    var tok := Dashes(n) + (name + tail);
    TextParts(n, name, tail);
    OwnersAreSpelled(name);
    assert ([tok] + rest)[1..] == rest;
  }

  lemma OwnersAreSpelled(name: string)
    ensures OwnerOf(name).Ours? ==> Spelling(OwnerOf(name).flag) == name
  {
  }

  /** How many dashes stand before one of rca's flags makes no difference. */
  lemma DashesDoNotMatter(o: Opts, n: nat, f: Flag, tail: string, rest: seq<string>)
    requires n >= 1 && (tail != "" ==> tail[0] == '=')
    ensures ParseFrom(o, [Dashes(n) + (Spelling(f) + tail)] + rest)
         == ParseFrom(o, ["--" + (Spelling(f) + tail)] + rest)
  {
    hide IsFlag, NameOf, HasVal, ValOf, OwnerOf, Spelling, Set, SetBool, ParseBool, KindOf;
    FlagsAreOurs(f);
    TextParts(n, Spelling(f), tail);
    TextParts(2, Spelling(f), tail);
    assert Dashes(2) == "--";
    OneByParts(o, Dashes(n) + (Spelling(f) + tail), "--" + (Spelling(f) + tail), rest);
  }

  lemma OneByParts(o: Opts, x: string, y: string, rest: seq<string>)
    requires IsFlag(x) && IsFlag(y) && x != "--" && y != "--" && NameOf(x) == NameOf(y) && OwnerOf(NameOf(x)).Ours?
    requires HasVal(x) == HasVal(y) && (HasVal(x) ==> ValOf(x) == ValOf(y))
    ensures ParseFrom(o, [x] + rest) == ParseFrom(o, [y] + rest)
  {
    hide IsFlag, NameOf, HasVal, ValOf, OwnerOf, Set, SetBool, ParseBool, KindOf;
    assert ([x] + rest)[1..] == rest == ([y] + rest)[1..];
    assert rest != [] ==> ([x] + rest)[2..] == rest[1..] == ([y] + rest)[2..];
  }

  /** A flag that takes a value needs one behind it, and a switch takes no value that is not a boolean. */
  lemma FlagErrors(o: Opts, f: Flag, val: string, rest: seq<string>)
    ensures KindOf(f).Valued? ==> ParseFrom(o, ["--" + Spelling(f)]) == Err(NeedsValue(Spelling(f)))
    ensures KindOf(f).Bool? && ParseBool(val).Neither?
            ==> ParseFrom(o, [Assigned(Spelling(f), val)] + rest) == Err(BadValue(Spelling(f), val))
  {
    hide IsFlag, NameOf, HasVal, ValOf, OwnerOf, Spelling, Set, SetBool, ParseBool, KindOf, PlainName;
    FlagsAreOurs(f);
    BareParts(Spelling(f));
    TokenParts(Spelling(f), val);
    assert ["--" + Spelling(f)][1..] == [];
    assert ([Assigned(Spelling(f), val)] + rest)[1..] == rest;
  }

  /** The shortest line there is: a pairing code and a command, everything else as it stands without a flag. */
  lemma ShortestLine(resign: bool, adapterSock: string, code: string, command: string, args: seq<string>)
    requires code != "" && command != ""
    ensures Parse(Defaults(resign, adapterSock), [Assigned("code", code)] + (["--"] + ([command] + args)))
         == Ok(Opts(command, args, code, "", "", "", "", [], [], false, "", resign, false, false, adapterSock,
                    "RCC_REMOTE_MARK", "", "", ""))
  {
    hide ParseFrom, Assigned;
    var d := Defaults(resign, adapterSock);
    NamedTransports(d, code, ["--"] + ([command] + args));
    VerbatimAre(d.(code := code), [command] + args);
    assert ([command] + args)[1..] == args && [] + args == args;
  }
}
