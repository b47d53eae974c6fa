/** The deterministic parts of the download executor: the proxy chosen from the environment,
    the directory that `prepare_dir` makes sure exists, and what one download does to the file
    system once the HTTP response is known. The file system is a set of directory paths and a
    map from file paths to contents; the environment is a map from variable names to values. */
module AsyncExecutor {
  import opened Wrappers
  import opened Text
  import PosixPath

  // ---------------------------------------------------------------------------
  // get_proxy

  /** The variables `get_proxy` reads, in the order it reads them: each of `http_proxy` and
      `https_proxy` first as written, then upper-cased. */
  const ProxyKeys: seq<string> := ["http_proxy", "HTTP_PROXY", "https_proxy", "HTTPS_PROXY"]

  /** `os.getenv(k)` is truthy: the variable is set and not empty. */
  predicate IsSet(env: map<string, string>, k: string)
  {
    k in env && env[k] != ""
  }

  /** The value of the first key in `keys` whose variable is set to a non-empty value. */
  function FirstSet(env: map<string, string>, keys: seq<string>): (r: Option<string>)
    ensures r.None? <==> forall i :: 0 <= i < |keys| ==> !IsSet(env, keys[i])
    ensures r.Some? ==> exists i :: 0 <= i < |keys| && IsSet(env, keys[i]) && r.value == env[keys[i]]
                                   && forall j :: 0 <= j < i ==> !IsSet(env, keys[j])
    decreases |keys|
  {
    if |keys| == 0 then None
    else if IsSet(env, keys[0]) then Some(env[keys[0]])
    else
      var r := FirstSet(env, keys[1..]);
      assert forall i :: 1 <= i < |keys| ==> keys[i] == keys[1..][i - 1];
      if r.Some? then
        var i :| 0 <= i < |keys[1..]| && IsSet(env, keys[1..][i]) && r.value == env[keys[1..][i]]
                 && forall j :: 0 <= j < i ==> !IsSet(env, keys[1..][j]);
        assert forall j :: 0 <= j < i + 1 ==> !IsSet(env, keys[j]) by {
          forall j | 0 <= j < i + 1 ensures !IsSet(env, keys[j]) {
            if j > 0 {
              assert keys[j] == keys[1..][j - 1];
            }
          }
        }
        r
      else
        r
  }

  /** `get_proxy()`: the first of the proxy variables that has a non-empty value, if any. */
  function GetProxy(env: map<string, string>): Option<string>
  {
    FirstSet(env, ProxyKeys)
  }

  /** A variable set to the empty string is passed over exactly as if it were not set. */
  lemma {:induction false} EmptyValueSkipped(env: map<string, string>, keys: seq<string>, k: string)
    requires k in env && env[k] == ""
    ensures FirstSet(env, keys) == FirstSet(env - {k}, keys)
    decreases |keys|
  {
    if |keys| > 0 {
      assert IsSet(env, keys[0]) <==> IsSet(env - {k}, keys[0]);
      EmptyValueSkipped(env, keys[1..], k);
    }
  }

  /** The four variables are consulted in the order `http_proxy`, `HTTP_PROXY`, `https_proxy`,
      `HTTPS_PROXY`; with none of them set to a non-empty value there is no proxy. */
  lemma GetProxyPriority(env: map<string, string>)
    ensures IsSet(env, "http_proxy") ==> GetProxy(env) == Some(env["http_proxy"])
    ensures !IsSet(env, "http_proxy") && IsSet(env, "HTTP_PROXY") ==> GetProxy(env) == Some(env["HTTP_PROXY"])
    ensures !IsSet(env, "http_proxy") && !IsSet(env, "HTTP_PROXY") && IsSet(env, "https_proxy") ==>
              GetProxy(env) == Some(env["https_proxy"])
    ensures (!IsSet(env, "http_proxy") && !IsSet(env, "HTTP_PROXY") && !IsSet(env, "https_proxy")
             && IsSet(env, "HTTPS_PROXY")) ==> GetProxy(env) == Some(env["HTTPS_PROXY"])
    ensures (forall k :: k in ProxyKeys ==> !IsSet(env, k)) ==> GetProxy(env) == None
  {
  }

  // ---------------------------------------------------------------------------
  // prepare_dir

  /** The directory `prepare_dir(path)` makes sure of: the path itself when it ends with a
      slash, otherwise `os.path.dirname(path)`. */
  function DirOf(path: string): string
  {
    if EndsWith(path, "/") then path else PosixPath.Dirname(path)
  }

  /** The directories `os.makedirs(d)` brings into existence: `d` and each ancestor obtained by
      repeatedly taking `dirname`, down to (but excluding) the empty path. */
  function Ancestry(d: string): (r: set<string>)
    requires d != ""
    ensures d in r && "" !in r
    decreases |d|
  {
    var parent := PosixPath.Dirname(d);
    if parent != "" && |parent| < |d| then {d} + Ancestry(parent) else {d}
  }

  datatype FsError =
    | NoSuchFile      // `os.makedirs("")`
    | NotADirectory   // a path that has to be a directory is a file
    | IsADirectory    // `open(dest, "wb")` on a directory

  /** `os.makedirs(d)` over the existing `dirs` and `files`. */
  function MakeDirs(dirs: set<string>, files: set<string>, d: string): Result<set<string>, FsError>
  {
    if d == "" then Err(NoSuchFile)
    else if Ancestry(d) * files != {} then Err(NotADirectory)
    else Ok(dirs + Ancestry(d))
  }

  /** `prepare_dir(path)`: the new set of directories, or the error `os.makedirs` raises. */
  function PrepareDirSpec(dirs: set<string>, files: set<string>, path: string): (r: Result<set<string>, FsError>)
    ensures r.Ok? ==> dirs <= r.value && DirOf(path) in r.value
    ensures r.Ok? ==> "" !in r.value - dirs && (r.value - dirs) !! files
    ensures DirOf(path) in dirs ==> r == Ok(dirs)
    ensures r.Err? <==> DirOf(path) !in dirs && (DirOf(path) == "" || Ancestry(DirOf(path)) * files != {})
  {
    var d := DirOf(path);
    if d in dirs then Ok(dirs)
    else
      MakeDirsAddsAncestry(dirs, files, d);
      MakeDirs(dirs, files, d)
  }

  /** `os.makedirs(d)` adds only `d` and its ancestors, none of them empty or a file. */
  lemma MakeDirsAddsAncestry(dirs: set<string>, files: set<string>, d: string)
    ensures MakeDirs(dirs, files, d).Ok? ==>
              var r := MakeDirs(dirs, files, d).value;
              d != "" && r - dirs <= Ancestry(d) && "" !in r - dirs && (r - dirs) !! files
  {
    if d != "" && Ancestry(d) * files == {} {
      var r := dirs + Ancestry(d);
      assert r - dirs <= Ancestry(d);
      forall x | x in r - dirs ensures x !in files {
        assert x in Ancestry(d);
      }
    }
  }

  /** Preparing the same path twice leaves the directories as preparing it once. */
  lemma PrepareDirIdempotent(dirs: set<string>, files: set<string>, path: string)
    ensures PrepareDirSpec(dirs, files, path).Ok? ==>
      var once := PrepareDirSpec(dirs, files, path).value;
      PrepareDirSpec(once, files, path) == Ok(once)
    ensures PrepareDirSpec(dirs, files, path).Err? ==> DirOf(path) !in dirs
  {
  }

  /** A path ending in a slash names the directory to prepare; any other path names a file
      whose directory, `dirname(path)`, is prepared. In particular a file joined onto a
      directory prepares that directory. */
  lemma PrepareDirTarget(dirs: set<string>, files: set<string>, dir: string, leaf: string)
    requires leaf != "" && forall i :: 0 <= i < |leaf| ==> leaf[i] != PosixPath.Sep
    requires !PosixPath.AllAre(dir, PosixPath.Sep)
    ensures PrepareDirSpec(dirs, files, PosixPath.Join(dir, leaf)).Ok? ==>
              PosixPath.RStrip(dir, PosixPath.Sep) in PrepareDirSpec(dirs, files, PosixPath.Join(dir, leaf)).value
  {
    var p := PosixPath.Join(dir, leaf);
    DirOfJoin(dir, leaf);
    var r := PrepareDirSpec(dirs, files, p);
    assert r.Ok? ==> DirOf(p) in r.value;
  }

  /** A path ending in a slash is its own directory: `prepare_dir` creates it whole. */
  lemma DirOfTrailingSlash(dir: string)
    ensures DirOf(dir + "/") == dir + "/"
  {
    assert (dir + "/")[|dir|..] == "/";
  }

  lemma DirOfJoin(dir: string, leaf: string)
    requires leaf != "" && forall i :: 0 <= i < |leaf| ==> leaf[i] != PosixPath.Sep
    requires !PosixPath.AllAre(dir, PosixPath.Sep)
    ensures DirOf(PosixPath.Join(dir, leaf)) == PosixPath.RStrip(dir, PosixPath.Sep)
  {
    var p := PosixPath.Join(dir, leaf);
    assert !EndsWith(p, "/") by {
      assert EndsWith(p, leaf);
      assert p[|p| - 1] == leaf[|leaf| - 1];
    }
    PosixPath.DirnameOfJoin(dir, leaf);
  }

  /** A bare relative name such as `pics` has no directory part: preparing it asks
      `os.makedirs("")`, which raises, unless the empty path counts as a directory. */
  lemma PrepareBareNameFails(dirs: set<string>, files: set<string>, name: string)
    requires "" !in dirs
    requires forall i :: 0 <= i < |name| ==> name[i] != PosixPath.Sep
    ensures PrepareDirSpec(dirs, files, name) == Err(NoSuchFile)
  {
    PosixPath.DirnameWithoutSlash(name);
    assert !EndsWith(name, "/") by {
      if |name| > 0 {
        assert name[|name| - 1] != '/';
      }
    }
  }

  // ---------------------------------------------------------------------------
  // The file system, and what one download does to it

  /** The reply of the HTTP GET for a download: its status and its body. */
  datatype Response = Response(status: int, body: seq<bv8>)

  datatype DownloadError =
    | FileSystemError(fsError: FsError)
    | UndefinedName   // the non-200 branch names a variable that does not exist

  class FileSystem {
    var dirs: set<string>
    var files: map<string, seq<bv8>>

    /** No path is both a directory and a file, and the empty path is neither. */
    ghost predicate Valid()
      reads this
    {
      "" !in dirs && "" !in files && dirs !! files.Keys
    }

    constructor (dirs0: set<string>, files0: map<string, seq<bv8>>)
      requires "" !in dirs0 && "" !in files0 && dirs0 !! files0.Keys
      ensures Valid() && dirs == dirs0 && files == files0
    {
      dirs := dirs0;
      files := files0;
    }

    /** `os.path.exists(p)` */
    function Exists(p: string): bool
      reads this
    {
      p in dirs || p in files
    }

    /** `prepare_dir(path)` */
    method PrepareDir(path: string) returns (o: Outcome<FsError>)
      requires Valid()
      modifies this
      ensures Valid() && files == old(files)
      ensures match PrepareDirSpec(old(dirs), old(files).Keys, path)
              case Ok(d) => o == Pass && dirs == d
              case Err(e) => o == Fail(e) && dirs == old(dirs)
    {
      var r := PrepareDirSpec(dirs, files.Keys, path);
      match r
      case Ok(d) =>
        dirs := d;
        o := Pass;
      case Err(e) =>
        o := Fail(e);
    }

    /** `AsyncDownloader.download(url, dest)` once the proxy has been looked up in `env` and the
        GET has returned `response`: prepare the destination's directory, then write the body
        to `dest` on status 200. Any other status writes nothing and fails on the undefined
        name in its log message. The proxy the GET was made through is returned. */
    method Download(dest: string, env: map<string, string>, response: Response)
      returns (proxy: Option<string>, o: Outcome<DownloadError>)
      requires Valid()
      modifies this
      ensures Valid()
      ensures PrepareDirSpec(old(dirs), old(files).Keys, dest).Err? ==>
                o == Fail(FileSystemError(PrepareDirSpec(old(dirs), old(files).Keys, dest).error))
                && proxy == None && dirs == old(dirs) && files == old(files)
      ensures PrepareDirSpec(old(dirs), old(files).Keys, dest).Ok? ==>
                dirs == PrepareDirSpec(old(dirs), old(files).Keys, dest).value && proxy == GetProxy(env)
      ensures o.Pass? <==> PrepareDirSpec(old(dirs), old(files).Keys, dest).Ok? && dest !in dirs && response.status == 200
      ensures o.Pass? ==> files == old(files)[dest := response.body]
      ensures !o.Pass? ==> files == old(files)
    {
      proxy := None;
      var prepared := PrepareDir(dest);
      if prepared.Fail? {
        o := Fail(FileSystemError(prepared.error));
        return;
      }
      proxy := GetProxy(env);
      if response.status == 200 {
        if dest in dirs {
          o := Fail(FileSystemError(IsADirectory));
        } else {
          files := files[dest := response.body];
          o := Pass;
        }
      } else {
        o := Fail(UndefinedName);
      }
    }
  }
}
