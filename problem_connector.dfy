/**
  The local problem store. A problem `key` of repository `repo` is kept as
  the archive file `root.resolve(repo).resolve(key + ".zip")`; the store is
  modelled as the map from each file's path below the root to its bytes.
  Since `repo` and `key` are resolved as paths, a separator in either of
  them reaches into other directories of the store.
 */
module ProblemConnector {
  import opened Wrappers
  import opened JavaText
  import opened Bundles

  /** Every file of the store, by its path relative to the root. */
  type Disk = map<Path, Bytes>

  /** `IOException` from `Files.readAllBytes` on a missing file. */
  datatype IoError = NoSuchFile(file: Path)

  /**
    How the configuration check fails: the configuration lookup's own
    `NoSuchElementException` for a missing or empty setting, or the
    `IllegalArgumentException` of the blank test.
   */
  datatype ConfigError = NoSuchElement | IllegalArgument(message: string)

  const BlankLocalPathMessage: string :=
    "Configuration 'com.horstmann.codecheck.s3.local' must be set and non-empty."

  /** The file name under which `write` and `read` keep problem `key`. */
  function ArchiveName(key: string): string
  {
    key + ".zip"
  }

  /**
    `root.resolve(dir).resolve(name)` as a path below the root: the names of
    `dir` followed by those of `name`.
   */
  function Resolve(dir: string, name: string): Path
  {
    PathOf(dir + "/" + name)
  }

  /** The file that `write` and `read` use for problem `key` of `repo`. */
  function ArchivePath(repo: string, key: string): Path
  {
    Resolve(repo, ArchiveName(key))
  }

  /** The directory that `delete` removes for problem `key` of `repo`. */
  function DirectoryPath(repo: string, key: string): Path
  {
    Resolve(repo, key)
  }

  /** `localPath == null || localPath.trim().isEmpty()`. */
  predicate Blank(localPath: Option<string>)
  {
    localPath.None? || Trim(localPath.value) == []
  }

  /** A setting is blank exactly when it is missing or every character is at most a space. */
  lemma {:induction false} BlankIff(localPath: Option<string>)
    ensures Blank(localPath) <==> localPath.None? || AllSpace(localPath.value)
  {
    if localPath.Some? {
      TrimEmptyIff(localPath.value);
    }
  }

  /**
    The failure of reading the setting and checking it: the lookup itself
    fails on a missing or empty value, the blank test on a value of spaces.
   */
  function ConfigFailure(localPath: Option<string>): (r: Option<ConfigError>)
    ensures r.Some? <==> Blank(localPath)
    ensures r == Some(NoSuchElement) <==> localPath.None? || localPath.value == []
  {
    if localPath.None? || localPath.value == [] then Some(NoSuchElement)
    else if Trim(localPath.value) == [] then Some(IllegalArgument(BlankLocalPathMessage))
    else None
  }

  /** The store after `write(contents, repo, key)`. */
  function Written(disk: Disk, contents: Bytes, repo: string, key: string): Disk
  {
    disk[ArchivePath(repo, key) := contents]
  }

  /** A file inside the directory `dir`, or `dir` itself; every file is inside the root. */
  predicate Below(f: Path, dir: Path)
  {
    dir == [] || f == dir || StartsWith(f, dir + "/")
  }

  /** The store after `delete(repo, key)`: the directory `<repo>/<key>` is gone. */
  function Deleted(disk: Disk, repo: string, key: string): (r: Disk)
    ensures forall f :: f in r ==> f in disk && r[f] == disk[f] && !Below(f, DirectoryPath(repo, key))
    ensures forall repo', key' :: !Below(ArchivePath(repo', key'), DirectoryPath(repo, key)) ==>
      Lookup(r, repo', key') == Lookup(disk, repo', key')
  {
    map f | f in disk && !Below(f, DirectoryPath(repo, key)) :: disk[f]
  }

  /** What `read(repo, key)` returns on the store `disk`. */
  function Lookup(disk: Disk, repo: string, key: string): Result<Bytes, IoError>
  {
    var f := ArchivePath(repo, key);
    if f in disk then Ok(disk[f]) else Err(NoSuchFile(f))
  }

  /** Different keys have different archive names. */
  lemma {:induction false} ArchiveNameInjective(a: string, b: string)
    requires ArchiveName(a) == ArchiveName(b)
    ensures a == b
  {
    assert a == ArchiveName(a)[..|a|];
    assert b == ArchiveName(b)[..|b|];
  }

  /** After a write, reading the same problem returns exactly the bytes written. */
  lemma {:induction false} ReadAfterWrite(disk: Disk, contents: Bytes, repo: string, key: string)
    ensures Lookup(Written(disk, contents, repo, key), repo, key) == Ok(contents)
  {
  }

  /**
    A write is seen by every problem that resolves to the same file, and by
    no other: each of them reads the new bytes, the others read what they did.
   */
  lemma {:induction false} WriteReachesAliases(disk: Disk, contents: Bytes, repo: string, key: string, repo': string, key': string)
    ensures Lookup(Written(disk, contents, repo, key), repo', key')
         == if ArchivePath(repo', key') == ArchivePath(repo, key) then Ok(contents) else Lookup(disk, repo', key')
  {
  }

  /** A key with a separator names the archive of a problem in a nested repository. */
  lemma {:induction false} NestedKeyAliases(repo: string, sub: string, key: string)
    ensures ArchivePath(repo, sub + "/" + key) == ArchivePath(repo + "/" + sub, key)
  {
    var x, y := repo + "/" + ArchiveName(sub + "/" + key), (repo + "/" + sub) + "/" + ArchiveName(key);
    assert x == y by {
      assert |x| == |y|;
      assert forall i :: 0 <= i < |x| ==> x[i] == y[i];
    }
  }

  /** A single name is a normal path. */
  lemma NameIsNormal(n: string)
    requires IsName(n)
    ensures IsNormal(n)
  {
  }

  /** Appending `.zip` to a single name gives a single name. */
  lemma {:induction false} ArchiveNameIsName(key: string)
    requires IsName(key)
    ensures IsName(ArchiveName(key))
  {
    var a := ArchiveName(key);
    forall i | 0 <= i < |a|
      ensures a[i] != '/'
    {
      if i >= |key| {
        assert a[i] == ".zip"[i - |key|];
      } else {
        assert a[i] == key[i];
      }
    }
  }

  /** Joining two non-empty normal paths with a separator gives a normal path. */
  lemma {:induction false} NormalJoin(a: string, b: string)
    requires IsNormal(a) && a != [] && IsNormal(b) && b != []
    ensures IsNormal(a + "/" + b)
  {
    var j := a + "/" + b;
    forall i | 0 <= i < |j| - 1
      ensures !(j[i] == '/' && j[i + 1] == '/')
    {
      if i + 1 < |a| {
        assert j[i] == a[i] && j[i + 1] == a[i + 1];
      } else if i + 1 == |a| {
        assert j[i] == a[|a| - 1];
      } else if i == |a| {
        assert j[i + 1] == b[0];
      } else {
        assert j[i] == b[i - |a| - 1] && j[i + 1] == b[i - |a|];
      }
    }
  }

  /**
    For a normal repository path and a single-name key, which is what the
    constant repositories and the generated problem ids are, the archive and
    the directory are the plain joined strings.
   */
  lemma {:induction false} SingleNameResolves(repo: string, key: string)
    requires IsNormal(repo) && repo != [] && IsName(key)
    ensures ArchivePath(repo, key) == repo + "/" + ArchiveName(key)
    ensures DirectoryPath(repo, key) == repo + "/" + key
  {
    NameIsNormal(key);
    NormalJoin(repo, key);
    PathOfNormal(repo + "/" + key);
    ArchiveNameIsName(key);
    NameIsNormal(ArchiveName(key));
    NormalJoin(repo, ArchiveName(key));
    PathOfNormal(repo + "/" + ArchiveName(key));
  }

  /** The text after the last separator determines both halves of a join. */
  lemma {:induction false} SplitLastName(a: string, k: string, a': string, k': string)
    requires IsName(k) && IsName(k')
    requires a + "/" + k == a' + "/" + k'
    ensures a == a' && k == k'
  {
    var s := a + "/" + k;
    assert |k| == |k'| by {
      assert s[|s| - |k| - 1] == '/' && s[|s| - |k'| - 1] == '/';
    }
    assert a == s[..|a|] == a';
    assert k == s[|a| + 1..] == k';
  }

  /** Single-name keys in normal repositories resolve to different archives. */
  lemma {:induction false} SingleNamesDistinct(repo: string, key: string, repo': string, key': string)
    requires IsNormal(repo) && repo != [] && IsName(key)
    requires IsNormal(repo') && repo' != [] && IsName(key')
    requires ArchivePath(repo', key') == ArchivePath(repo, key)
    ensures repo' == repo && key' == key
  {
    SingleNameResolves(repo, key);
    SingleNameResolves(repo', key');
    ArchiveNameIsName(key);
    ArchiveNameIsName(key');
    SplitLastName(repo, ArchiveName(key), repo', ArchiveName(key'));
    ArchiveNameInjective(key, key');
  }

  /**
    Problems with single-name keys in normal repositories are independent:
    a write leaves every other such problem as it was, present or missing.
   */
  lemma {:induction false} WriteKeepsOthers(disk: Disk, contents: Bytes, repo: string, key: string, repo': string, key': string)
    requires IsNormal(repo) && repo != [] && IsName(key)
    requires IsNormal(repo') && repo' != [] && IsName(key')
    requires (repo', key') != (repo, key)
    ensures Lookup(Written(disk, contents, repo, key), repo', key') == Lookup(disk, repo', key')
  {
    WriteReachesAliases(disk, contents, repo, key, repo', key');
    if ArchivePath(repo', key') == ArchivePath(repo, key) {
      SingleNamesDistinct(repo, key, repo', key');
    }
  }

  /**
    `delete(repo, key)` removes the directory `<repo>/<key>`, not the archive
    `<repo>/<key>.zip` that `write` and `read` use: for a single-name key the
    problem stays readable.
   */
  lemma {:induction false} DeleteKeepsArchive(disk: Disk, repo: string, key: string)
    requires IsNormal(repo) && repo != [] && IsName(key)
    ensures Lookup(Deleted(disk, repo, key), repo, key) == Lookup(disk, repo, key)
  {
    SingleNameResolves(repo, key);
    var dir, f := DirectoryPath(repo, key), ArchivePath(repo, key);
    assert f == dir + ".zip";
    assert f != dir by {
      assert |f| == |dir| + 4;
    }
    assert !StartsWith(f, dir + "/") by {
      assert f[|dir|] == '.';
    }
  }

  /**
    What `delete(repo, key)` does remove: the archives of the repository
    `<repo>/<key>`, which live inside that directory.
   */
  lemma {:induction false} DeleteRemovesNested(disk: Disk, repo: string, key: string, key': string)
    requires IsNormal(repo) && repo != [] && IsName(key) && IsName(key')
    ensures Lookup(Deleted(disk, repo, key), repo + "/" + key, key').Err?
  {
    SingleNameResolves(repo, key);
    NameIsNormal(key);
    NormalJoin(repo, key);
    SingleNameResolves(repo + "/" + key, key');
    var dir, f := DirectoryPath(repo, key), ArchivePath(repo + "/" + key, key');
    assert f[..|dir + "/"|] == dir + "/";
  }

  /** The local store: a root directory and the files below it. */
  class ProblemLocalConnection {
    const root: string
    var disk: Disk

    /** The store over `disk`, rooted at a non-blank local path (the blank case is `Connect`). */
    constructor(localPath: string, disk: Disk)
      requires !Blank(Some(localPath))
      ensures root == localPath && this.disk == disk
    {
      root := localPath;
      this.disk := disk;
    }

    /**
      The constructor's reading and check of the setting: `None` is a missing
      setting, on which the lookup throws as it does on an empty one.
     */
    static method Connect(localPath: Option<string>, disk: Disk) returns (r: Result<ProblemLocalConnection, ConfigError>)
      ensures r.Err? <==> Blank(localPath)
      ensures r.Err? ==> Some(r.error) == ConfigFailure(localPath)
      ensures r.Ok? ==> fresh(r.value) && r.value.root == localPath.value && r.value.disk == disk
    {
      if localPath.None? || localPath.value == [] {
        return Err(NoSuchElement);
      }
      if Trim(localPath.value) == [] {
        return Err(IllegalArgument(BlankLocalPathMessage));
      }
      var c := new ProblemLocalConnection(localPath.value, disk);
      return Ok(c);
    }

    /** Replaces the bytes of `<repo>/<key>.zip`. */
    method Write(contents: Bytes, repo: string, key: string)
      modifies this
      ensures disk == Written(old(disk), contents, repo, key)
    {
      var newFilePath := Resolve(repo, key + ".zip");
      disk := disk[newFilePath := contents];
    }

    /** Removes the directory `<repo>/<key>` with everything below it. */
    method Delete(repo: string, key: string)
      modifies this
      ensures disk == Deleted(old(disk), repo, key)
    {
      var directoryPath := Resolve(repo, key);
      disk := map f | f in disk && !Below(f, directoryPath) :: disk[f];
    }

    /** The bytes of `<repo>/<key>.zip`, or the `IOException` for a missing file. */
    method Read(repo: string, key: string) returns (r: Result<Bytes, IoError>)
      ensures r == Lookup(disk, repo, key)
    {
      var f := Resolve(repo, key + ".zip");
      if f in disk {
        return Ok(disk[f]);
      }
      return Err(NoSuchFile(f));
    }
  }

  /** The injected store: every call goes unchanged to the one local delegate. */
  class ProblemConnector {
    const delegate: ProblemLocalConnection

    constructor(delegate: ProblemLocalConnection)
      ensures this.delegate == delegate
    {
      this.delegate := delegate;
    }

    /**
      Validates the configuration, then builds the delegate (whose own check
      of the same setting then passes): a missing or empty setting fails in
      the lookup, a blank one with `IllegalArgumentException`.
     */
    static method Create(localPath: Option<string>, disk: Disk) returns (r: Result<ProblemConnector, ConfigError>)
      ensures r.Err? <==> Blank(localPath)
      ensures r.Err? ==> Some(r.error) == ConfigFailure(localPath)
      ensures r.Ok? ==> fresh(r.value) && fresh(r.value.delegate)
      ensures r.Ok? ==> r.value.delegate.root == localPath.value && r.value.delegate.disk == disk
    {
      if localPath.None? || localPath.value == [] {
        return Err(NoSuchElement);
      }
      if Trim(localPath.value) == [] {
        return Err(IllegalArgument(BlankLocalPathMessage));
      }
      var local := new ProblemLocalConnection(localPath.value, disk);
      var c := new ProblemConnector(local);
      return Ok(c);
    }

    method Write(contents: Bytes, repo: string, key: string)
      modifies delegate
      ensures delegate.disk == Written(old(delegate.disk), contents, repo, key)
    {
      delegate.Write(contents, repo, key);
    }

    method Delete(repo: string, key: string)
      modifies delegate
      ensures delegate.disk == Deleted(old(delegate.disk), repo, key)
    {
      delegate.Delete(repo, key);
    }

    method Read(repo: string, key: string) returns (r: Result<Bytes, IoError>)
      ensures r == Lookup(delegate.disk, repo, key)
    {
      r := delegate.Read(repo, key);
    }
  }
}
