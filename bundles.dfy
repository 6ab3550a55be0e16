/**
  Problem bundles: the in-memory `Map<Path, byte[]>` that the pipeline
  unzips, rewrites, filters and zips again, and the `java.nio.file.Path`
  operations used on its keys.
 */
module Bundles {
  import opened JavaText

  newtype byte = x: int | 0 <= x < 256

  /** Raw bytes, as stored by the problem store (a zip archive). */
  type Bytes = seq<byte>

  /**
    A relative `java.nio.file.Path`, held as its `toString()`: the names of
    the path joined by single '/' separators (see `IsNormal`).
   */
  type Path = string

  /** A problem or submission: file path to file contents (as text). */
  type Bundle = map<Path, string>

  const ParamJs: Path := "param.js"
  const EditKeyFile: Path := "edit.key"
  const TracerJs: Path := "tracer.js"
  const ReportHtml: Path := "report.html"
  const OutputsDir: string := "_outputs"
  const InputsDir: string := "_inputs"

  /** `p.getName(0)`: the text before the first separator. */
  function FirstName(p: Path): string
  {
    var i := IndexOf(p, "/", 0);
    if i < 0 then p else p[..i]
  }

  /** `p.getNameCount()`. */
  function NameCount(p: Path): nat
  {
    CountChar(p, '/') + 1
  }

  /** `p.subpath(1, p.getNameCount())`: the path without its first name. */
  function DropFirstName(p: Path): (r: Path)
    requires NameCount(p) > 1
    ensures p == FirstName(p) + "/" + r
  {
    SeparatorFound(p);
    var i := IndexOf(p, "/", 0);
    FirstSeparator(p, i);
    assert p == p[..i] + "/" + p[i + 1..];
    p[i + 1..]
  }

  lemma {:induction false} SeparatorFound(p: string)
    requires CountChar(p, '/') > 0
    ensures IndexOf(p, "/", 0) >= 0
    decreases |p|
  {
    IndexOfFirst(p, "/", 0);
    if p[0] == '/' {
      assert MatchAt(p, "/", 0);
    } else {
      SeparatorFound(p[1..]);
      var i := IndexOf(p[1..], "/", 0);
      IndexOfFirst(p[1..], "/", 0);
      MatchAtSuffix(p, 1, "/", i);
    }
  }

  /** `p.getFileName()`: the text after the last separator. */
  function LastName(p: Path): string
    decreases |p|
  {
    var i := IndexOf(p, "/", 0);
    if i < 0 then p else LastName(p[i + 1..])
  }

  /**
    The file name is a suffix of the path without a separator in it, and a
    path without a separator is its own file name.
   */
  lemma {:induction false} LastNameSuffix(p: Path)
    ensures var r := LastName(p);
      && |r| <= |p| && r == p[|p| - |r|..]
      && (forall k :: 0 <= k < |r| ==> r[k] != '/')
      && ((forall k :: 0 <= k < |p| ==> p[k] != '/') ==> r == p)
    decreases |p|
  {
    var i := IndexOf(p, "/", 0);
    if i < 0 {
      NoSeparator(p);
    } else {
      FirstSeparator(p, i);
      LastNameSuffix(p[i + 1..]);
      var r := LastName(p[i + 1..]);
      assert p[i + 1..][|p[i + 1..]| - |r|..] == p[|p| - |r|..];
    }
  }

  /** `p.startsWith(name)` for a one-name argument, equivalently `p.getName(0).equals(name)`. */
  predicate StartsWithName(p: Path, name: string)
  {
    FirstName(p) == name
  }

  // ---------------------------------------------------------------------------
  // Path.of(s).toString()

  /** A path string with no empty names: no leading, trailing or doubled separator. */
  predicate IsNormal(p: string)
  {
    && (p != [] ==> p[0] != '/' && p[|p| - 1] != '/')
    && forall i :: 0 <= i < |p| - 1 ==> !(p[i] == '/' && p[i + 1] == '/')
  }

  /** A single name: non-empty and free of separators. */
  predicate IsName(n: string)
  {
    n != [] && forall i :: 0 <= i < |n| ==> n[i] != '/'
  }

  /** The non-empty '/'-separated names of `s`, in order. */
  function Names(s: string): (ns: seq<string>)
    ensures forall k :: 0 <= k < |ns| ==> IsName(ns[k])
    decreases |s|
  {
    var i := IndexOf(s, "/", 0);
    if i < 0 then
      NoSeparator(s);
      if s == [] then [] else [s]
    else
      FirstSeparator(s, i);
      (if i == 0 then [] else [s[..i]]) + Names(s[i + 1..])
  }

  lemma {:induction false} NoSeparator(s: string)
    requires IndexOf(s, "/", 0) < 0
    ensures forall k :: 0 <= k < |s| ==> s[k] != '/'
  {
    IndexOfFirst(s, "/", 0);
    forall k | 0 <= k < |s| ensures s[k] != '/' {
      if s[k] == '/' {
        assert MatchAt(s, "/", k);
      }
    }
  }

  lemma {:induction false} FirstSeparator(s: string, i: int)
    requires 0 <= i && IndexOf(s, "/", 0) == i
    ensures i < |s| && s[i] == '/'
    ensures forall k :: 0 <= k < i ==> s[k] != '/'
  {
    IndexOfFirst(s, "/", 0);
    assert s[i..i + 1] == "/";
    forall k | 0 <= k < i ensures s[k] != '/' {
      if s[k] == '/' {
        assert MatchAt(s, "/", k);
      }
    }
  }

  function JoinNames(ns: seq<string>): string
  {
    if ns == [] then []
    else if |ns| == 1 then ns[0]
    else ns[0] + "/" + JoinNames(ns[1..])
  }

  /** `Path.of(s).toString()` for a relative `s`: empty names are dropped. */
  function PathOf(s: string): Path
  {
    JoinNames(Names(s))
  }

  lemma {:induction false} JoinNamesIsNormal(ns: seq<string>)
    requires forall k :: 0 <= k < |ns| ==> IsName(ns[k])
    ensures IsNormal(JoinNames(ns))
    ensures ns != [] ==> JoinNames(ns) != []
  {
    if |ns| > 1 {
      JoinNamesIsNormal(ns[1..]);
      var head, tail := ns[0], JoinNames(ns[1..]);
      var j := head + "/" + tail;
      assert forall i :: 0 <= i < |head| ==> j[i] == head[i];
      assert j[|head|] == '/';
      assert forall i :: |head| < i < |j| ==> j[i] == tail[i - |head| - 1];
    }
  }

  /** `Path.of` always yields a normal path. */
  lemma {:induction false} PathOfIsNormal(s: string)
    ensures IsNormal(PathOf(s))
  {
    JoinNamesIsNormal(Names(s));
  }

  /** `Path.of` leaves a normal path as it is. */
  lemma {:induction false} PathOfNormal(p: string)
    requires IsNormal(p)
    ensures PathOf(p) == p
    decreases |p|
  {
    var i := IndexOf(p, "/", 0);
    if i >= 0 {
      var rest := NormalTail(p, i);
      PathOfNormal(rest);
      var ns := Names(rest);
      JoinNamesIsNormal(ns);
      JoinCons(p[..i], ns);
    }
  }

  /** Behind the first separator of a normal path lies a shorter, non-empty normal path. */
  lemma {:induction false} NormalTail(p: string, i: int) returns (rest: string)
    requires IsNormal(p) && 0 <= i && IndexOf(p, "/", 0) == i
    ensures 0 < i < |p| - 1 && rest == p[i + 1..]
    ensures IsNormal(rest) && rest != []
    ensures p == p[..i] + "/" + rest
    ensures Names(p) == [p[..i]] + Names(rest)
  {
    FirstSeparator(p, i);
    rest := p[i + 1..];
    assert forall k :: 0 <= k < |rest| ==> rest[k] == p[i + 1 + k];
    assert p[i..i + 1] == "/";
  }

  lemma {:induction false} JoinCons(head: string, ns: seq<string>)
    requires ns != []
    ensures JoinNames([head] + ns) == head + "/" + JoinNames(ns)
  {
    assert ([head] + ns)[1..] == ns;
  }
}
