/** The application core (package app): where the external tools are looked
    for, how missing tool paths in the configuration are filled in, and how
    a tool's path is looked up. */
module App {
  import opened Wrappers
  import opened Fs

  // ---------------------------------------------------------------------------
  // The environment
  // ---------------------------------------------------------------------------

  /** What the tool search asks of the operating system: the filesystem, the
      executable's path (`os.Executable`, None when it fails), the working
      directory (`os.Getwd`, None when it fails) and the path separator. */
  datatype Env = Env(fs: FileSystem, executable: Option<string>, workingDir: Option<string>, separator: char)
  {
    predicate IsWindows() { separator == '\\' }
  }

  /** The error `findToolPath` passes on: the working directory is unknown. */
  datatype ToolError = GetwdFailed

  /** `filepath.Join`: the non-empty elements separated by the separator.
      The final `Clean` is not applied. */
  function JoinPath(elements: seq<string>, sep: char): (p: string)
    ensures p == [] <==> forall k | 0 <= k < |elements| :: elements[k] == []
  {
    if elements == [] then []
    else if elements[|elements| - 1] == [] then JoinPath(elements[..|elements| - 1], sep)
    else
      var init := JoinPath(elements[..|elements| - 1], sep);
      if init == [] then elements[|elements| - 1] else init + [sep] + elements[|elements| - 1]
  }

  /** `filepath.Dir`: everything before the last separator; "." when there
      is none and the root when the last separator is the first character.
      The final `Clean` is not applied. */
  function Dir(p: string, sep: char): (d: string)
    ensures |d| <= |p| || d == "."
  {
    if sep !in p then "."
    else
      var i := LastSeparator(p, sep);
      if i == 0 then [sep] else p[..i]
  }

  function LastSeparator(p: string, sep: char): (i: nat)
    requires sep in p
    ensures i < |p| && p[i] == sep && sep !in p[i + 1..]
  {
    if p[|p| - 1] == sep then |p| - 1
    else
      assert sep in p[..|p| - 1] by {
        var k :| 0 <= k < |p| && p[k] == sep;
        assert p[..|p| - 1][k] == sep;
      }
      LastSeparator(p[..|p| - 1], sep)
  }

  /** The application root: three `Dir`s up from the executable (which sits
      in cmd/ptmuxer), or the working directory when the executable's path
      is unknown. */
  function AppRoot(env: Env): Result<string, ToolError>
  {
    match env.executable
    case Some(e) => Ok(Dir(Dir(Dir(e, env.separator), env.separator), env.separator))
    case None =>
      match env.workingDir
      case Some(w) => Ok(w)
      case None => Err(GetwdFailed)
  }

  function PlatformDir(env: Env): string
  {
    if env.IsWindows() then "Windows" else "Linux"
  }

  /** The twelve places searched, highest priority first. */
  function Candidates(appRoot: string, toolName: string, platformDir: string, sep: char): (paths: seq<string>)
    ensures |paths| == 12
  {
    seq(12, k requires 0 <= k < 12 => Candidate(appRoot, toolName, platformDir, sep, k))
  }

  /** Candidate k (from 0): four places named after the tool, then eight
      fixed ones. */
  function Candidate(appRoot: string, toolName: string, platformDir: string, sep: char, k: nat): string
    requires k < 12
  {
    match k
    case 0 => JoinPath([appRoot, "tools", toolName, toolName], sep)
    case 1 => JoinPath([appRoot, "tools", toolName, platformDir, toolName], sep)
    case 2 => JoinPath([appRoot, "tools", toolName, toolName + ".exe"], sep)
    case 3 => JoinPath([appRoot, "tools", toolName, platformDir, toolName + ".exe"], sep)
    case 4 => JoinPath([appRoot, "tools", "ffmpeg", "ffmpeg"], sep)
    case 5 => JoinPath([appRoot, "tools", "eac3to", "eac3to.exe"], sep)
    case 6 => JoinPath([appRoot, "tools", "mkvmerge", platformDir, "mkvmerge"], sep)
    case 7 => JoinPath([appRoot, "tools", "mkvmerge", platformDir, "mkvmerge.exe"], sep)
    case 8 => JoinPath([appRoot, "tools", "dgdemux", platformDir, "dgdemux"], sep)
    case 9 => JoinPath([appRoot, "tools", "dgdemux", platformDir, "DGDemux.exe"], sep)
    case 10 => JoinPath([appRoot, "tools", "7z", platformDir, "7za.exe"], sep)
    case 11 => JoinPath([appRoot, "tools", "7z", platformDir, "7zzs"], sep)
  }

  /** The first of `paths[k..]` that `stat` succeeds on. */
  function FirstExisting(fs: FileSystem, paths: seq<string>, k: nat): (r: Option<nat>)
    requires k <= |paths|
    ensures r.Some? ==> k <= r.value < |paths| && fs.Stat(paths[r.value]).Some?
    ensures r.Some? ==> forall j | k <= j < r.value :: fs.Stat(paths[j]).None?
    ensures r.None? ==> forall j | k <= j < |paths| :: fs.Stat(paths[j]).None?
    decreases |paths| - k
  {
    if k == |paths| then None
    else if fs.Stat(paths[k]).Some? then Some(k)
    else FirstExisting(fs, paths, k + 1)
  }

  /** `filepath.Abs` of a tool name: the name joined to the working
      directory (a name starting with the separator is kept as it is). */
  function Abs(env: Env, name: string): Result<string, ToolError>
  {
    if |name| > 0 && name[0] == env.separator then Ok(name)
    else match env.workingDir
      case Some(w) => Ok(JoinPath([w, name], env.separator))
      case None => Err(GetwdFailed)
  }

  /** What `findToolPath` returns. */
  function FindToolPathSpec(env: Env, toolName: string): Result<string, ToolError>
  {
    match AppRoot(env)
    case Err(e) => Err(e)
    case Ok(root) =>
      var paths := Candidates(root, toolName, PlatformDir(env), env.separator);
      match FirstExisting(env.fs, paths, 0)
      case Some(i) => Ok(paths[i])
      case None => Abs(env, if env.IsWindows() then toolName + ".exe" else toolName)
  }

  /** findToolPath: the search loop over the candidates, then the fallback. */
  method FindToolPath(env: Env, toolName: string) returns (r: Result<string, ToolError>)
    ensures r == FindToolPathSpec(env, toolName)
  {
    var appRoot: string;
    if env.executable.None? {
      if env.workingDir.None? {
        return Err(GetwdFailed);
      }
      appRoot := env.workingDir.value;
    } else {
      var execPath := env.executable.value;
      appRoot := Dir(Dir(Dir(execPath, env.separator), env.separator), env.separator);
    }
    var isWindows := env.separator == '\\';
    var toolPath := "";
    var found := false;
    var platformDir := "Linux";
    if isWindows {
      platformDir := "Windows";
    }
    var toolPaths := Candidates(appRoot, toolName, platformDir, env.separator);
    var k := 0;
    while k < |toolPaths|
      invariant k <= |toolPaths|
      invariant FirstExisting(env.fs, toolPaths, k) == FirstExisting(env.fs, toolPaths, 0)
    {
      if env.fs.Stat(toolPaths[k]).Some? {
        toolPath := toolPaths[k];
        found := true;
        break;
      }
      k := k + 1;
    }
    if found {
      return Ok(toolPath);
    }
    if isWindows {
      return Abs(env, toolName + ".exe");
    }
    return Abs(env, toolName);
  }

  /** The search returns the first candidate that exists; only when none
      does is the name resolved against the working directory. */
  lemma FindToolPathFirstMatch(env: Env, toolName: string)
    requires AppRoot(env).Ok?
    ensures var paths := Candidates(AppRoot(env).value, toolName, PlatformDir(env), env.separator);
      && (forall i | 0 <= i < |paths| && env.fs.Stat(paths[i]).Some? && (forall j | 0 <= j < i :: env.fs.Stat(paths[j]).None?) ::
            FindToolPathSpec(env, toolName) == Ok(paths[i]))
      && ((forall i | 0 <= i < |paths| :: env.fs.Stat(paths[i]).None?) ==>
            FindToolPathSpec(env, toolName) == Abs(env, if env.IsWindows() then toolName + ".exe" else toolName))
  {
    var paths := Candidates(AppRoot(env).value, toolName, PlatformDir(env), env.separator);
    var r := FirstExisting(env.fs, paths, 0);
    forall i | 0 <= i < |paths| && env.fs.Stat(paths[i]).Some? && (forall j | 0 <= j < i :: env.fs.Stat(paths[j]).None?)
      ensures FindToolPathSpec(env, toolName) == Ok(paths[i])
    {
      assert r.Some? && r.value >= i;
    }
  }

  /** Candidates five to twelve do not mention the tool: they are the same
      whichever tool is searched for. */
  lemma SharedCandidates(appRoot: string, tool1: string, tool2: string, platformDir: string, sep: char)
    ensures Candidates(appRoot, tool1, platformDir, sep)[4..] == Candidates(appRoot, tool2, platformDir, sep)[4..]
  {
  }

  /** Hence a search for mkvmerge where the only file is the ffmpeg binary
      at tools/ffmpeg/ffmpeg returns that binary. */
  lemma MkvmergeFindsFfmpeg(env: Env)
    requires AppRoot(env).Ok? && AppRoot(env).value != []
    requires env.fs.nodes.Keys == {JoinPath([AppRoot(env).value, "tools", "ffmpeg", "ffmpeg"], env.separator)}
    ensures FindToolPathSpec(env, "mkvmerge") == Ok(JoinPath([AppRoot(env).value, "tools", "ffmpeg", "ffmpeg"], env.separator))
  {
    var root, sep := AppRoot(env).value, env.separator;
    var paths := Candidates(root, "mkvmerge", PlatformDir(env), sep);
    MkvmergeCandidateLengths(root, PlatformDir(env), sep);
    assert paths[4] == JoinPath([root, "tools", "ffmpeg", "ffmpeg"], sep);
    FindToolPathFirstMatch(env, "mkvmerge");
  }

  lemma MkvmergeCandidateLengths(root: string, platformDir: string, sep: char)
    requires root != [] && platformDir != []
    ensures var paths := Candidates(root, "mkvmerge", platformDir, sep);
      && |JoinPath([root, "tools", "ffmpeg", "ffmpeg"], sep)| == |root| + 20
      && |paths[0]| == |root| + 24 && |paths[1]| > |root| + 24
      && |paths[2]| == |root| + 28 && |paths[3]| > |root| + 28
  {
    var paths := Candidates(root, "mkvmerge", platformDir, sep);
    JoinPath4(root, "tools", "ffmpeg", "ffmpeg", sep);
    JoinPath4(root, "tools", "mkvmerge", "mkvmerge", sep);
    assert paths[0] == JoinPath([root, "tools", "mkvmerge", "mkvmerge"], sep);
    JoinPath5(root, "tools", "mkvmerge", platformDir, "mkvmerge", sep);
    assert paths[1] == JoinPath([root, "tools", "mkvmerge", platformDir, "mkvmerge"], sep);
    JoinPath4(root, "tools", "mkvmerge", "mkvmerge" + ".exe", sep);
    assert paths[2] == JoinPath([root, "tools", "mkvmerge", "mkvmerge" + ".exe"], sep);
    JoinPath5(root, "tools", "mkvmerge", platformDir, "mkvmerge" + ".exe", sep);
    assert paths[3] == JoinPath([root, "tools", "mkvmerge", platformDir, "mkvmerge" + ".exe"], sep);
  }

  /** An executable at root/a/b/exe (cmd/ptmuxer in the installed layout)
      has `root` as the application root. */
  lemma AppRootOfInstall(env: Env, root: string, a: string, b: string, exe: string)
    requires root != [] && a != [] && b != []
    requires env.separator !in a && env.separator !in b && env.separator !in exe
    requires env.executable == Some(root + [env.separator] + a + [env.separator] + b + [env.separator] + exe)
    ensures AppRoot(env) == Ok(root)
  {
    var sep := env.separator;
    var d1, d2 := root + [sep] + a, root + [sep] + a + [sep] + b;
    DirOfChild(d2, exe, sep);
    DirOfChild(d1, b, sep);
    DirOfChild(root, a, sep);
  }

  /** `Dir` of a non-empty directory, a separator and a name without one is
      the directory. */
  lemma DirOfChild(dir: string, name: string, sep: char)
    requires dir != [] && sep !in name
    ensures Dir(dir + [sep] + name, sep) == dir
  {
    var p := dir + [sep] + name;
    assert p[|dir|] == sep;
    LastSeparatorOf(dir, name, sep);
    assert p[..|dir|] == dir;
  }

  lemma {:induction false} LastSeparatorOf(dir: string, name: string, sep: char)
    requires sep !in name
    ensures sep in dir + [sep] + name && LastSeparator(dir + [sep] + name, sep) == |dir|
    decreases |name|
  {
    var p := dir + [sep] + name;
    assert p[|dir|] == sep;
    if name != [] {
      var name' := name[..|name| - 1];
      assert p[..|p| - 1] == dir + [sep] + name';
      LastSeparatorOf(dir, name', sep);
    }
  }

  /** With no empty element the joined path has every element and one
      separator between neighbours. */
  lemma JoinPath4(a: string, b: string, c: string, d: string, sep: char)
    requires a != [] && b != [] && c != [] && d != []
    ensures JoinPath([a, b, c, d], sep) == a + [sep] + b + [sep] + c + [sep] + d
  {
    assert [a][..0] == [];
    assert JoinPath([a], sep) == a;
    assert [a, b][..1] == [a];
    assert JoinPath([a, b], sep) == a + [sep] + b;
    assert [a, b, c][..2] == [a, b];
    assert JoinPath([a, b, c], sep) == a + [sep] + b + [sep] + c;
    assert [a, b, c, d][..3] == [a, b, c];
  }

  lemma JoinPath5(a: string, b: string, c: string, d: string, e: string, sep: char)
    requires a != [] && b != [] && c != [] && d != [] && e != []
    ensures JoinPath([a, b, c, d, e], sep) == a + [sep] + b + [sep] + c + [sep] + d + [sep] + e
  {
    assert [a, b, c, d, e][..4] == [a, b, c, d];
    JoinPath4(a, b, c, d, sep);
  }

  /** The search fails only when the working directory is unknown, and
      always does when the executable's path is unknown as well. */
  lemma FindToolPathErrors(env: Env, toolName: string)
    ensures FindToolPathSpec(env, toolName).Err? ==> env.workingDir.None?
    ensures env.executable.None? && env.workingDir.None? ==> FindToolPathSpec(env, toolName) == Err(GetwdFailed)
  {
  }

  /** The platform directory is "Windows" exactly when the separator is a
      backslash. */
  lemma PlatformDirWindows(env: Env)
    ensures PlatformDir(env) == "Windows" <==> env.separator == '\\'
    ensures PlatformDir(env) != "Windows" ==> PlatformDir(env) == "Linux"
  {
  }

  /** A successful search never yields the empty path: every candidate holds
      "tools", and the fallback holds the tool's name. */
  lemma FoundPathNotEmpty(env: Env, toolName: string)
    requires toolName != []
    ensures FindToolPathSpec(env, toolName).Ok? ==> FindToolPathSpec(env, toolName).value != []
  {
    match AppRoot(env)
    case Err(_) =>
    case Ok(root) =>
      var paths := Candidates(root, toolName, PlatformDir(env), env.separator);
      var r := FirstExisting(env.fs, paths, 0);
      if r.Some? {
        var i := r.value;
        assert paths[i] != [] by {
          assert forall k | 0 <= k < |paths| :: paths[k] != [];
        }
      } else {
        var name := if env.IsWindows() then toolName + ".exe" else toolName;
        if env.workingDir.Some? {
          assert JoinPath([env.workingDir.value, name], env.separator) != [] by {
            assert [env.workingDir.value, name][1] != [];
          }
        }
      }
  }

  // ---------------------------------------------------------------------------
  // Configured tool paths
  // ---------------------------------------------------------------------------

  /** The `[tools]` section of the configuration. */
  datatype ToolsConfig = ToolsConfig(ffmpegPath: string, mkvmergePath: string, eac3toPath: string, dgdemuxPath: string)

  /** The keys of `validateToolPaths`'s map, one per configured tool. */
  const ToolNames: set<string> := {"ffmpeg", "mkvmerge", "eac3to", "dgdemux"}

  /** `GetToolPath`: the configured path of a known tool, the name itself
      for any other. */
  function GetToolPath(tools: ToolsConfig, toolName: string): (p: string)
    ensures toolName !in ToolNames ==> p == toolName
  {
    match toolName
    case "ffmpeg" => tools.ffmpegPath
    case "mkvmerge" => tools.mkvmergePath
    case "eac3to" => tools.eac3toPath
    case "dgdemux" => tools.dgdemuxPath
    case _ => toolName
  }

  /** The configuration with one tool's path replaced (the write through the
      pointer the map holds). */
  function SetToolPath(tools: ToolsConfig, toolName: string, path: string): (t: ToolsConfig)
    requires toolName in ToolNames
    ensures GetToolPath(t, toolName) == path
    ensures forall n | n in ToolNames && n != toolName :: GetToolPath(t, n) == GetToolPath(tools, n)
  {
    match toolName
    case "ffmpeg" => tools.(ffmpegPath := path)
    case "mkvmerge" => tools.(mkvmergePath := path)
    case "eac3to" => tools.(eac3toPath := path)
    case "dgdemux" => tools.(dgdemuxPath := path)
  }

  /** Two configurations that agree on every tool are the same. */
  lemma ToolsExtensional(t: ToolsConfig, t': ToolsConfig)
    requires forall n | n in ToolNames :: GetToolPath(t, n) == GetToolPath(t', n)
    ensures t == t'
  {
    assert GetToolPath(t, "ffmpeg") == GetToolPath(t', "ffmpeg");
    assert GetToolPath(t, "mkvmerge") == GetToolPath(t', "mkvmerge");
    assert GetToolPath(t, "eac3to") == GetToolPath(t', "eac3to");
    assert GetToolPath(t, "dgdemux") == GetToolPath(t', "dgdemux");
  }

  /** The path one tool ends up with: a configured path stays; an empty one
      becomes what the search finds, or stays empty when the search fails. */
  function ValidatedPath(env: Env, toolName: string, configured: string): string
  {
    if configured != [] then configured
    else match FindToolPathSpec(env, toolName)
      case Ok(p) => p
      case Err(_) => configured
  }

  /** The configuration after `validateToolPaths`. */
  function Validated(env: Env, tools: ToolsConfig): ToolsConfig
  {
    ToolsConfig(ValidatedPath(env, "ffmpeg", tools.ffmpegPath),
                ValidatedPath(env, "mkvmerge", tools.mkvmergePath),
                ValidatedPath(env, "eac3to", tools.eac3toPath),
                ValidatedPath(env, "dgdemux", tools.dgdemuxPath))
  }

  /** The part of `App` the core reads and writes: the tool paths of its
      configuration. */
  class Application {
    var tools: ToolsConfig

    constructor (tools: ToolsConfig)
      ensures this.tools == tools
    {
      this.tools := tools;
    }

    /** validateToolPaths: visits the four tools in an unspecified order (Go
        map iteration), filling each empty path from the search. Always
        returns nil. */
    method ValidateToolPaths(env: Env) returns (err: Option<ToolError>)
      modifies this
      ensures err == None
      ensures tools == Validated(env, old(tools))
    {
      var remaining := ToolNames;
      while remaining != {}
        invariant remaining <= ToolNames
        invariant forall n | n in ToolNames ::
          GetToolPath(tools, n) == if n in remaining then GetToolPath(old(tools), n)
                                   else ValidatedPath(env, n, GetToolPath(old(tools), n))
        decreases |remaining|
      {
        var toolName :| toolName in remaining;
        if GetToolPath(tools, toolName) == "" {
          var found := FindToolPath(env, toolName);
          if found.Ok? {
            tools := SetToolPath(tools, toolName, found.value);
          }
        }
        remaining := remaining - {toolName};
      }
      ValidatedPaths(env, old(tools));
      ToolsExtensional(tools, Validated(env, old(tools)));
      return None;
    }
  }

  lemma ValidatedPaths(env: Env, tools: ToolsConfig)
    ensures forall n | n in ToolNames ::
      GetToolPath(Validated(env, tools), n) == ValidatedPath(env, n, GetToolPath(tools, n))
  {
  }

  /** Validation only ever fills empty paths, only with what the search
      found, and never changes a configured one. */
  lemma ValidateOnlyFillsEmpty(env: Env, tools: ToolsConfig, n: string)
    requires n in ToolNames
    ensures GetToolPath(tools, n) != [] ==> GetToolPath(Validated(env, tools), n) == GetToolPath(tools, n)
    ensures GetToolPath(Validated(env, tools), n) != GetToolPath(tools, n) ==>
      GetToolPath(tools, n) == [] && FindToolPathSpec(env, n) == Ok(GetToolPath(Validated(env, tools), n))
    ensures GetToolPath(tools, n) == [] && FindToolPathSpec(env, n).Err? ==> GetToolPath(Validated(env, tools), n) == []
  {
    ValidatedPaths(env, tools);
  }

  /** Validating twice changes nothing more: a path the search filled in is
      never empty, so the second pass keeps it. */
  lemma ValidateIdempotent(env: Env, tools: ToolsConfig)
    ensures Validated(env, Validated(env, tools)) == Validated(env, tools)
  {
    FoundPathNotEmpty(env, "ffmpeg");
    FoundPathNotEmpty(env, "mkvmerge");
    FoundPathNotEmpty(env, "eac3to");
    FoundPathNotEmpty(env, "dgdemux");
  }
}
