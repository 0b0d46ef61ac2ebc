/**
 * Naming of the followers (checkpoint) file: getProcessedRepositoriesFileName in
 * followersIndexer.js. Paths are POSIX paths. A resolved absolute path is kept as the
 * list of its segments below the root, so `/home/u/repos.json` is
 * `["home", "u", "repos.json"]` and the root itself is `[]`.
 */
module FileNaming {
  import opened Options

  /** The extension stripped from the repositories file's basename. */
  const JsonExtension: string := ".json"

  /** What is appended to the stripped basename to name the followers file. */
  const FollowersSuffix: string := "Followers.json"

  /** A segment of a resolved path: not empty and free of separators. */
  predicate WellFormedSegment(s: string) {
    s != [] && '/' !in s
  }

  predicate WellFormed(p: seq<string>) {
    forall i :: 0 <= i < |p| ==> WellFormedSegment(p[i])
  }

  /** path.dirname of a resolved path: all segments but the last (the root stays the root). */
  function Dirname(p: seq<string>): seq<string> {
    if p == [] then [] else p[..|p| - 1]
  }

  /** path.basename of a resolved path: its last segment, empty for the root. */
  function Basename(p: seq<string>): string {
    if p == [] then "" else p[|p| - 1]
  }

  predicate EndsWith(s: string, suffix: string) {
    |suffix| <= |s| && s[|s| - |suffix|..] == suffix
  }

  /** path.basename(p, ext) applied to a basename: the extension is removed when the name
      ends with it, unless the name is the extension itself. */
  function StripExtension(base: string, ext: string): (r: string)
    ensures |r| <= |base| && r == base[..|r|]
    ensures r == base || r + ext == base
  {
    if EndsWith(base, ext) && |base| > |ext| then base[..|base| - |ext|] else base
  }

  /** The segments of a non-root path joined by separators, each preceded by '/'. */
  function RenderSegments(p: seq<string>): string
    decreases |p|
  {
    if p == [] then "" else RenderSegments(p[..|p| - 1]) + "/" + p[|p| - 1]
  }

  /** The string form of a resolved absolute path. */
  function Render(p: seq<string>): string {
    if p == [] then "/" else RenderSegments(p)
  }

  /** Index of the last '/' of a string, if any. */
  function LastSlash(s: string): (r: Option<nat>)
    ensures r.None? ==> '/' !in s
    ensures r.Some? ==> r.value < |s| && s[r.value] == '/'
                        && forall j :: r.value < j < |s| ==> s[j] != '/'
    decreases |s|
  {
    if s == [] then None
    else if s[|s| - 1] == '/' then Some(|s| - 1)
    else LastSlash(s[..|s| - 1])
  }

  /** The directory part of an absolute path string: everything before the last '/', or
      the root when that is the first character. */
  function DirOf(s: string): string {
    match LastSlash(s)
    case None => ""
    case Some(k) => if k == 0 then "/" else s[..k]
  }

  /** The file-name part of a path string: everything after the last '/'. */
  function BaseOf(s: string): string {
    match LastSlash(s)
    case None => s
    case Some(k) => s[k + 1..]
  }

  /** The basename of the derived followers file for a resolved repositories path. */
  function DerivedName(absoluteRepositories: seq<string>): string {
    StripExtension(Basename(absoluteRepositories), JsonExtension) + FollowersSuffix
  }

  /** path.join(dirname, derived name), in string form. */
  function DerivedPath(absoluteRepositories: seq<string>): string {
    Render(Dirname(absoluteRepositories) + [DerivedName(absoluteRepositories)])
  }

  /** The chosen followers file, and whether the "already exists" warning is printed. */
  datatype FollowersFile = FollowersFile(name: string, alreadyExistsWarning: bool)

  /** getProcessedRepositoriesFileName. `given` is the third command-line argument (absent
      when not supplied), `absoluteRepositories` is path.resolve of the repositories file name,
      and `existing` is the set of path strings fs.existsSync reports as present. */
  function ProcessedRepositoriesFileName(given: Option<string>, absoluteRepositories: seq<string>,
                                         existing: set<string>): (r: FollowersFile)
    ensures r.name == DerivedPath(absoluteRepositories)
            || (given.Some? && r.name == given.value && given.value in existing)
    ensures r.alreadyExistsWarning ==> r.name == DerivedPath(absoluteRepositories) && r.name in existing
  {
    if given.Some? && given.value in existing then FollowersFile(given.value, false)
    else
      var derived := DerivedPath(absoluteRepositories);
      FollowersFile(derived, derived in existing)
  }

  /** An existing followers file passed on the command line is used unchanged, silently. */
  lemma GivenFileKept(given: string, absoluteRepositories: seq<string>, existing: set<string>)
    requires given in existing
    ensures ProcessedRepositoriesFileName(Some(given), absoluteRepositories, existing)
            == FollowersFile(given, false)
  {
  }

  /** Otherwise the derived file is used, and the warning is printed exactly when that file
      already exists; the file is used even then. A given name is only used unchanged when it
      exists, or when it happens to be the derived name. */
  lemma DerivedFileChosen(given: Option<string>, absoluteRepositories: seq<string>, existing: set<string>)
    requires !(given.Some? && given.value in existing)
    ensures var r := ProcessedRepositoriesFileName(given, absoluteRepositories, existing);
            r.name == DerivedPath(absoluteRepositories)
            && (r.alreadyExistsWarning <==> DerivedPath(absoluteRepositories) in existing)
            && (given.Some? && r.name == given.value ==> given.value == DerivedPath(absoluteRepositories))
  {
  }

  /** The last '/' of `dir + "/" + name` is the one inserted, when `name` has none. */
  lemma {:induction false} LastSlashOfJoin(dir: string, name: string)
    requires '/' !in name
    ensures LastSlash(dir + "/" + name) == Some(|dir|)
    decreases |name|
  {
    if name == [] {
      assert dir + "/" + name == dir + "/";
    } else {
      var shorter := name[..|name| - 1];
      assert (dir + "/" + name)[..|dir + "/" + name| - 1] == dir + "/" + shorter;
      assert (dir + "/" + name)[|dir + "/" + name| - 1] == name[|name| - 1];
      assert name[|name| - 1] in name;
      assert forall c :: c in shorter ==> c in name;
      LastSlashOfJoin(dir, shorter);
    }
  }

  /** Appending a file name to a directory and rendering gives a string whose directory part
      is the rendered directory and whose file-name part is the name. */
  lemma RenderJoin(dir: seq<string>, name: string)
    requires '/' !in name
    ensures DirOf(Render(dir + [name])) == Render(dir)
    ensures BaseOf(Render(dir + [name])) == name
  {
    var joined := dir + [name];
    assert joined[..|joined| - 1] == dir;
    assert Render(joined) == RenderSegments(dir) + "/" + name;
    LastSlashOfJoin(RenderSegments(dir), name);
    if dir != [] {
      assert |RenderSegments(dir)| > 0;
    }
  }

  /** The stripped basename, followed by the stripped extension when it was stripped, is the
      original basename. */
  lemma StripExtensionInverse(base: string, ext: string)
    ensures EndsWith(base, ext) && |base| > |ext| ==> StripExtension(base, ext) + ext == base
    ensures !(EndsWith(base, ext) && |base| > |ext|) ==> StripExtension(base, ext) == base
  {
    if EndsWith(base, ext) && |base| > |ext| {
      assert base == base[..|base| - |ext|] + base[|base| - |ext|..];
    }
  }

  /** The derived name contains no separator when the repositories path is well formed. */
  lemma DerivedNameHasNoSeparator(absoluteRepositories: seq<string>)
    requires WellFormed(absoluteRepositories)
    ensures '/' !in DerivedName(absoluteRepositories)
  {
    var base := Basename(absoluteRepositories);
    assert '/' !in base by {
      if absoluteRepositories != [] {
        assert WellFormedSegment(absoluteRepositories[|absoluteRepositories| - 1]);
      }
    }
    var stem := StripExtension(base, JsonExtension);
    assert forall c :: c in stem ==> c in base;
    assert '/' !in FollowersSuffix;
    assert forall c :: c in stem + FollowersSuffix ==> c in stem || c in FollowersSuffix;
  }

  /** The derived followers file lies in the directory of the absolute repositories file, and
      its name is that file's basename with a trailing ".json" removed, followed by
      "Followers.json"; so it always ends in "Followers.json". */
  lemma DerivedFileInRepositoriesDirectory(absoluteRepositories: seq<string>)
    requires WellFormed(absoluteRepositories)
    ensures DirOf(DerivedPath(absoluteRepositories)) == DirOf(Render(absoluteRepositories))
    ensures BaseOf(DerivedPath(absoluteRepositories))
            == StripExtension(BaseOf(Render(absoluteRepositories)), JsonExtension) + FollowersSuffix
    ensures EndsWith(DerivedPath(absoluteRepositories), FollowersSuffix)
  {
    var dir, base := Dirname(absoluteRepositories), Basename(absoluteRepositories);
    var name := DerivedName(absoluteRepositories);
    var path := DerivedPath(absoluteRepositories);
    DerivedNameHasNoSeparator(absoluteRepositories);
    RenderJoin(dir, name);
    assert DirOf(path) == Render(dir) && BaseOf(path) == name;
    if absoluteRepositories != [] {
      assert absoluteRepositories == dir + [base];
      assert WellFormedSegment(absoluteRepositories[|absoluteRepositories| - 1]);
      RenderJoin(dir, base);
      assert DirOf(Render(absoluteRepositories)) == Render(dir);
      assert BaseOf(Render(absoluteRepositories)) == base;
    } else {
      assert LastSlash("/") == Some(0);
      assert DirOf(Render(absoluteRepositories)) == "/" == Render(dir);
      assert BaseOf(Render(absoluteRepositories)) == "" == base;
    }
    EndsWithFollowersSuffix(RenderSegments(dir), StripExtension(base, JsonExtension));
    assert path == RenderSegments(dir) + "/" + name by {
      assert (dir + [name])[..|dir + [name]| - 1] == dir;
    }
  }

  /** A path whose file name is a stem followed by the suffix ends in the suffix. */
  lemma EndsWithFollowersSuffix(prefix: string, stem: string)
    ensures EndsWith(prefix + "/" + (stem + FollowersSuffix), FollowersSuffix)
  {
    var path := prefix + "/" + (stem + FollowersSuffix);
    assert path == (prefix + "/" + stem) + FollowersSuffix;
    assert path[|path| - |FollowersSuffix|..] == FollowersSuffix;
  }

  /** `repos.json` becomes `reposFollowers.json` in the same directory, with no warning when
      that file does not exist yet. */
  lemma JsonExample(dir: seq<string>, existing: set<string>)
    requires Render(dir + ["reposFollowers.json"]) !in existing
    ensures ProcessedRepositoriesFileName(None, dir + ["repos.json"], existing)
            == FollowersFile(Render(dir + ["reposFollowers.json"]), false)
  {
    var p := dir + ["repos.json"];
    assert Basename(p) == "repos.json" && Dirname(p) == dir by {
      assert p[..|p| - 1] == dir;
    }
    assert "repos.json"[10 - 5..] == JsonExtension;
    assert StripExtension("repos.json", JsonExtension) == "repos";
    assert DerivedName(p) == "repos" + FollowersSuffix == "reposFollowers.json";
  }

  /** A basename without ".json" keeps its extension: `repos.txt` becomes
      `repos.txtFollowers.json` in the same directory, with the warning when that file
      exists already. */
  lemma TxtExample(dir: seq<string>, existing: set<string>)
    requires Render(dir + ["repos.txtFollowers.json"]) in existing
    ensures ProcessedRepositoriesFileName(None, dir + ["repos.txt"], existing)
            == FollowersFile(Render(dir + ["repos.txtFollowers.json"]), true)
  {
    var p := dir + ["repos.txt"];
    assert Basename(p) == "repos.txt" && Dirname(p) == dir by {
      assert p[..|p| - 1] == dir;
    }
    assert !EndsWith("repos.txt", JsonExtension) by {
      assert "repos.txt"[9 - 5..][2] == 't' && JsonExtension[2] == 's';
    }
    assert DerivedName(p) == "repos.txt" + FollowersSuffix == "repos.txtFollowers.json";
  }
}
