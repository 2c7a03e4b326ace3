/** `Repository` in src/git.rs: finding the repository that contains a path,
    reading the branch name from `.git/HEAD`, and the two cells in which a
    repository keeps its branch name and its status once they are computed. */
module GitRepository {
  import opened Wrappers
  import opened GitStatusParser

  // ---------------------------------------------------------------------------
  // Paths

  /** A path as its components, and whether it starts at the root ("/"). */
  datatype Path = Path(absolute: bool, components: seq<string>)

  /** `Path::parent`: the path without its last component; none for the root
      and for the empty relative path. */
  function Parent(p: Path): (r: Option<Path>)
    ensures r.Some? <==> |p.components| > 0
    ensures r.Some? ==> r.value.absolute == p.absolute && r.value.components + [p.components[|p.components| - 1]] == p.components
  {
    if |p.components| == 0 then None
    else Some(Path(p.absolute, p.components[..|p.components| - 1]))
  }

  /** `Path::join` with one component. */
  function Join(p: Path, name: string): (r: Path)
    ensures r.absolute == p.absolute && r.components == p.components + [name]
  {
    Path(p.absolute, p.components + [name])
  }

  /** Joining a name makes it the last component, and the parent of the joined
      path is the path again. */
  lemma ParentOfJoin(p: Path, name: string)
    ensures var r := Join(p, name);
      r.components[|r.components| - 1] == name && Parent(r) == Some(p)
  {
  }

  /** The ancestor of `p` (or `p` itself) made of its first `k` components. */
  function Ancestor(p: Path, k: nat): (a: Path)
    requires k <= |p.components|
  {
    Path(p.absolute, p.components[..k])
  }

  ghost predicate IsAncestorOrSelf(a: Path, p: Path)
  {
    a.absolute == p.absolute && a.components <= p.components
  }

  const GitDirName := ".git"

  // ---------------------------------------------------------------------------
  // Discovery

  /** Where a repository lives: its `.git` directory and its working-tree root. */
  datatype RepoDirs = RepoDirs(gitDir: Path, rootDir: Path)

  /** `Repository::scan`: a repository rooted at `path` if `path/.git` exists.
      `pathExists` stands for `Path::exists` on the file system. */
  function Scan(path: Path, pathExists: Path -> bool): (r: Option<RepoDirs>)
    ensures r.Some? <==> pathExists(Join(path, GitDirName))
    ensures r.Some? ==> r.value.rootDir == path && r.value.gitDir == Join(path, GitDirName)
  {
    var gitDir := Join(path, GitDirName);
    if !pathExists(gitDir) then None else Some(RepoDirs(gitDir, path))
  }

  /** `Repository::discover`: the nearest of `path` and its ancestors that has a
      `.git` child, or none. The walk ends because every parent is one
      component shorter. */
  function Discover(path: Path, pathExists: Path -> bool): (r: Option<RepoDirs>)
    ensures r.Some? ==> IsAncestorOrSelf(r.value.rootDir, path)
    ensures r.Some? ==> r.value.gitDir == Join(r.value.rootDir, GitDirName) && pathExists(r.value.gitDir)
    ensures r.Some? ==> forall k ::
              |r.value.rootDir.components| < k <= |path.components| ==> !pathExists(Join(Ancestor(path, k), GitDirName))
    ensures r.None? <==> forall k ::
              0 <= k <= |path.components| ==> !pathExists(Join(Ancestor(path, k), GitDirName))
    decreases |path.components|
  {
    match Scan(path, pathExists)
    case Some(repository) =>
      assert Ancestor(path, |path.components|) == path;
      Some(repository)
    case None =>
      match Parent(path)
      case Some(parent) =>
        assert Ancestor(path, |path.components|) == path;
        assert forall k :: 0 <= k <= |parent.components| ==> Ancestor(parent, k) == Ancestor(path, k);
        Discover(parent, pathExists)
      case None =>
        assert Ancestor(path, 0) == path;
        None
  }

  /** Discovery from a directory whose ancestor `k` levels up is the first to
      hold a `.git` finds that ancestor, however large `k` is. */
  lemma {:induction false} DiscoverFindsFirst(path: Path, pathExists: Path -> bool, k: nat)
    requires k <= |path.components|
    requires pathExists(Join(Ancestor(path, |path.components| - k), GitDirName))
    requires forall j :: |path.components| - k < j <= |path.components| ==> !pathExists(Join(Ancestor(path, j), GitDirName))
    ensures Discover(path, pathExists) == Some(RepoDirs(Join(Ancestor(path, |path.components| - k), GitDirName), Ancestor(path, |path.components| - k)))
    decreases k
  {
    var n := |path.components|;
    assert Ancestor(path, n) == path;
    if k > 0 {
      assert Scan(path, pathExists).None?;
      var parent := Parent(path).value;
      assert forall j :: 0 <= j <= |parent.components| ==> Ancestor(parent, j) == Ancestor(path, j);
      DiscoverFindsFirst(parent, pathExists, k - 1);
    }
  }

  // ---------------------------------------------------------------------------
  // Branch name

  /** `str::rfind`: the position of the last `c` in `s`. */
  function LastIndexOf(s: string, c: char): (r: Option<nat>)
    ensures r.None? <==> c !in s
    ensures r.Some? ==> r.value < |s| && s[r.value] == c && c !in s[r.value + 1..]
    decreases |s|
  {
    if |s| == 0 then None
    else if s[|s| - 1] == c then Some(|s| - 1)
    else
      var r := LastIndexOf(s[..|s| - 1], c);
      assert s == s[..|s| - 1] + [s[|s| - 1]];
      if r.Some? then
        assert s[r.value + 1..] == s[..|s| - 1][r.value + 1..] + [s[|s| - 1]];
        r
      else r
  }

  /** `char::is_whitespace`: the Unicode White_Space property. The line ending
      and spaces git writes after a ref name are whitespace; the characters of
      ordinary branch names are not. */
  predicate IsWhitespace(c: char)
    ensures c == ' ' || c == '\t' || c == '\n' || c == '\r' ==> IsWhitespace(c)
    ensures ('0' <= c <= '9' || 'a' <= c <= 'z' || 'A' <= c <= 'Z'
             || c == '/' || c == '-' || c == '_' || c == '.') ==> !IsWhitespace(c)
  {
    ('\t' <= c <= '\r') || c == ' ' || c == '\U{85}' || c == '\U{A0}' || c == '\U{1680}'
    || ('\U{2000}' <= c <= '\U{200A}') || c == '\U{2028}' || c == '\U{2029}'
    || c == '\U{202F}' || c == '\U{205F}' || c == '\U{3000}'
  }

  /** `str::trim_end`: the longest prefix that does not end in whitespace. */
  function TrimEnd(s: string): (r: string)
    ensures r <= s
    ensures r == [] || !IsWhitespace(r[|r| - 1])
    ensures forall i :: |r| <= i < |s| ==> IsWhitespace(s[i])
    decreases |s|
  {
    if |s| > 0 && IsWhitespace(s[|s| - 1]) then TrimEnd(s[..|s| - 1]) else s
  }

  /** The file that names the checked-out branch: `HEAD` inside the git
      directory. */
  function HeadFile(gitDir: Path): (r: Path)
    ensures Parent(r) == Some(gitDir)
    ensures r.components[|r.components| - 1] == "HEAD"
  {
    Join(gitDir, "HEAD")
  }

  /** `Repository::get_branch`, given what reading the HEAD file gave (`None`
      when it could not be read): the trimmed text after the last '/'. */
  function GetBranch(headContents: Option<string>): (r: Option<string>)
    ensures r.Some? <==> headContents.Some? && '/' in headContents.value
    ensures r.Some? ==> '/' !in r.value
    ensures r.Some? ==> r.value == [] || !IsWhitespace(r.value[|r.value| - 1])
  {
    match headContents
    case None => None
    case Some(contents) =>
      match LastIndexOf(contents, '/')
      case None => None
      case Some(branchStart) =>
        var branchName := contents[branchStart + 1..];
        var trimmed := TrimEnd(branchName);
        assert forall i :: 0 <= i < |trimmed| ==> trimmed[i] == branchName[i];
        Some(trimmed)
  }

  /** The closure in `Repository::branch`: "HEAD" when there is no branch name. */
  function BranchOrHead(headContents: Option<string>): (r: string)
    ensures headContents.None? || '/' !in headContents.value ==> r == "HEAD"
    ensures headContents.Some? && '/' in headContents.value ==> '/' !in r && Some(r) == GetBranch(headContents)
  {
    match GetBranch(headContents)
    case Some(branch) => branch
    case None => "HEAD"
  }

  /** However the contents are cut at their last '/', the branch is the trimmed
      text after it. */
  lemma GetBranchAfterLastSlash(prefix: string, after: string)
    requires '/' !in after
    ensures GetBranch(Some(prefix + "/" + after)) == Some(TrimEnd(after))
  {
    var contents := prefix + "/" + after;
    var i := LastIndexOf(contents, '/');
    assert contents[|prefix|] == '/';
    var last := i.value;
    assert forall j :: last < j < |contents| ==> contents[j] == contents[last + 1..][j - last - 1];
    assert forall j :: |prefix| < j < |contents| ==> contents[j] == after[j - |prefix| - 1];
    assert last == |prefix|;
    assert contents[|prefix| + 1..] == after;
  }

  /** The usual HEAD file of a checked-out branch. */
  lemma BranchOfRefHeadsMain()
    ensures BranchOrHead(Some("ref: refs/heads/main\n")) == "main"
  {
    GetBranchAfterLastSlash("ref: refs/heads", "main\n");
    assert "ref: refs/heads" + "/" + "main\n" == "ref: refs/heads/main\n";
    assert TrimEnd("main\n") == "main" by {
      assert "main\n"[..4] == "main";
    }
  }

  // ---------------------------------------------------------------------------
  // Status

  /** `Repository::get_status`, given what running `git status --porcelain`
      gave (`None` when the command could not be run): the parsed output, or
      the all-zero record. */
  function StatusOf(output: Option<string>): (r: GitStatus)
    ensures output.None? ==> r == Zero
    ensures output.Some? ==> r == Parse(output.value)
    ensures r.stashed == 0 && r.unmerged == 0 && r.ahead == 0 && r.behind == 0 && r.diverged == 0 && r.staged == 0
  {
    match output
    case None => Zero
    case Some(stdout) => Parse(stdout)
  }

  method GetStatus(output: Option<string>) returns (s: GitStatus)
    ensures s == StatusOf(output)
  {
    match output {
      case None => s := Zero;
      case Some(stdout) => s := ParsePorcelainOutput(stdout);
    }
  }

  // ---------------------------------------------------------------------------
  // The repository handle

  /** A discovered repository. `branch` and `status` are the `OnceCell`s: empty
      until first asked for, then fixed. The ghost counters record how often
      each value was computed (the HEAD file read, the git command run). */
  class Repository {
    const gitDir: Path
    const rootDir: Path
    var branch: Option<string>
    var status: Option<GitStatus>
    ghost var branchComputations: nat
    ghost var statusComputations: nat

    ghost predicate Valid()
      reads this
    {
      && branchComputations == (if branch.Some? then 1 else 0)
      && statusComputations == (if status.Some? then 1 else 0)
    }

    constructor (dirs: RepoDirs)
      ensures Valid()
      ensures gitDir == dirs.gitDir && rootDir == dirs.rootDir
      ensures branch == None && status == None
    {
      gitDir := dirs.gitDir;
      rootDir := dirs.rootDir;
      branch := None;
      status := None;
      branchComputations := 0;
      statusComputations := 0;
    }

    /** `Repository::status`. `output` is what `git status --porcelain` would
        print if it were run now; it is used only on the first call. */
    method Status(output: Option<string>) returns (s: GitStatus)
      requires Valid()
      modifies this
      ensures Valid()
      ensures old(status).Some? ==> s == old(status).value && status == old(status)
      ensures old(status).None? ==> s == StatusOf(output) && status == Some(s)
      ensures old(status).Some? ==> statusComputations == old(statusComputations)
      ensures branch == old(branch)
    {
      if status == None {
        var computed := GetStatus(output);
        status := Some(computed);
        statusComputations := statusComputations + 1;
      }
      s := status.value;
    }

    /** `Repository::branch`. `readFile` stands for reading a file (`None` when
        it cannot be read); only the first call reads the HEAD file. */
    method Branch(readFile: Path -> Option<string>) returns (b: string)
      requires Valid()
      modifies this
      ensures Valid()
      ensures old(branch).Some? ==> b == old(branch).value && branch == old(branch)
      ensures old(branch).None? ==> b == BranchOrHead(readFile(HeadFile(gitDir))) && branch == Some(b)
      ensures old(branch).Some? ==> branchComputations == old(branchComputations)
      ensures status == old(status)
    {
      if branch == None {
        var computed := BranchOrHead(readFile(HeadFile(gitDir)));
        branch := Some(computed);
        branchComputations := branchComputations + 1;
      }
      b := branch.value;
    }
  }

  /** `Repository::discover` with the handle it builds, its cells still empty. */
  method DiscoverRepository(path: Path, pathExists: Path -> bool) returns (repository: Repository?)
    ensures repository == null <==> Discover(path, pathExists).None?
    ensures repository != null ==>
              && fresh(repository) && repository.Valid()
              && RepoDirs(repository.gitDir, repository.rootDir) == Discover(path, pathExists).value
              && repository.branch == None && repository.status == None
  {
    match Discover(path, pathExists) {
      case None => repository := null;
      case Some(dirs) => repository := new Repository(dirs);
    }
  }

  /** Asking twice gives the same answers and runs the git command and reads
      the HEAD file once each, whatever the second call is offered. */
  method AskTwice(repository: Repository, output1: Option<string>, output2: Option<string>,
                  readFile1: Path -> Option<string>, readFile2: Path -> Option<string>)
    returns (s1: GitStatus, s2: GitStatus, b1: string, b2: string)
    requires repository.Valid() && repository.branch == None && repository.status == None
    modifies repository
    ensures s1 == s2 == StatusOf(output1)
    ensures b1 == b2 == BranchOrHead(readFile1(HeadFile(repository.gitDir)))
    ensures repository.statusComputations == 1 && repository.branchComputations == 1
  {
    s1 := repository.Status(output1);
    b1 := repository.Branch(readFile1);
    s2 := repository.Status(output2);
    b2 := repository.Branch(readFile2);
  }
}
