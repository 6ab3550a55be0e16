/**
  The java.lang.String operations the pipeline relies on: indexOf, contains,
  trim, replaceAll("\r\n", "\n"), the decimal rendering of an int, and
  character counting. Indices count characters.
 */
module JavaText {

  /** The characters of `s` from index `j` on agree with `p`, one by one. */
  predicate Agree(s: string, p: string, j: nat)
    requires j + |p| <= |s|
    decreases |p|
  {
    p == [] || (s[j] == p[0] && Agree(s, p[1..], j + 1))
  }

  /** `p` occurs in `s` starting at index `j`. */
  predicate MatchAt(s: string, p: string, j: int)
  {
    0 <= j && j + |p| <= |s| && Agree(s, p, j)
  }

  lemma {:induction false} AgreeIff(s: string, p: string, j: nat)
    requires j + |p| <= |s|
    ensures Agree(s, p, j) <==> s[j..j + |p|] == p
    decreases |p|
  {
    if p != [] {
      AgreeIff(s, p[1..], j + 1);
      assert s[j..j + |p|] == [s[j]] + s[j + 1..j + |p|];
      assert p == [p[0]] + p[1..];
    }
  }

  /** An occurrence is a slice equal to the pattern. */
  lemma {:induction false} MatchAtIff(s: string, p: string, j: int)
    ensures MatchAt(s, p, j) <==> 0 <= j && j + |p| <= |s| && s[j..j + |p|] == p
  {
    if 0 <= j && j + |p| <= |s| {
      AgreeIff(s, p, j);
    }
  }

  /**
    `s.indexOf(p, k)` for `0 <= k <= |s|`: the first occurrence of `p` at or
    after `k`, or -1. An empty `p` is found at `k` itself.
   */
  function IndexOf(s: string, p: string, k: nat): (r: int)
    requires k <= |s|
    ensures r == -1 || (k <= r && r + |p| <= |s|)
    decreases |s| - k
  {
    if k + |p| > |s| then -1
    else if MatchAt(s, p, k) then k
    else IndexOf(s, p, k + 1)
  }

  /** `IndexOf` finds an occurrence, and there is none between `k` and it (or after `k` at all, for -1). */
  lemma {:induction false} IndexOfFirst(s: string, p: string, k: nat)
    requires k <= |s|
    ensures IndexOf(s, p, k) == -1 || MatchAt(s, p, IndexOf(s, p, k))
    ensures forall j :: k <= j && (IndexOf(s, p, k) == -1 || j < IndexOf(s, p, k)) ==> !MatchAt(s, p, j)
    decreases |s| - k
  {
    if k + |p| <= |s| && !MatchAt(s, p, k) {
      IndexOfFirst(s, p, k + 1);
    }
  }

  /** `s.contains(p)`, which Java defines as `s.indexOf(p) >= 0`. */
  function Contains(s: string, p: string): bool
  {
    IndexOf(s, p, 0) >= 0
  }

  /** `s` contains `p` exactly when `p` occurs somewhere in `s`. */
  lemma {:induction false} ContainsIff(s: string, p: string)
    ensures Contains(s, p) <==> exists j :: MatchAt(s, p, j)
  {
    IndexOfFirst(s, p, 0);
  }

  /** Every string contains the empty string. */
  lemma {:induction false} ContainsEmpty(s: string)
    ensures Contains(s, [])
  {
    assert MatchAt(s, [], 0);
  }

  /** `r` is the first occurrence of `p` in `s` at or after `k`. */
  predicate FirstMatch(s: string, p: string, k: int, r: int)
  {
    0 <= k <= r && MatchAt(s, p, r) && forall j :: k <= j < r ==> !MatchAt(s, p, j)
  }

  /** Whatever is the first occurrence at or after `k` is what `IndexOf` returns. */
  lemma {:induction false} IndexOfIsFirst(s: string, p: string, k: nat, r: int)
    requires k <= |s|
    requires r == -1 || (k <= r && MatchAt(s, p, r))
    requires forall j :: k <= j && (r == -1 || j < r) ==> !MatchAt(s, p, j)
    ensures IndexOf(s, p, k) == r
  {
    IndexOfFirst(s, p, k);
  }

  /** An occurrence inside the slice `s[a..b]` is an occurrence in `s`, shifted by `a`. */
  lemma {:induction false} MatchAtSlice(s: string, a: nat, b: nat, p: string, j: nat)
    requires a <= b <= |s| && j + |p| <= b - a
    ensures MatchAt(s[a..b], p, j) <==> MatchAt(s, p, a + j)
  {
    MatchAtIff(s[a..b], p, j);
    MatchAtIff(s, p, a + j);
    forall k | j <= k < j + |p|
      ensures s[a..b][k] == s[a + k]
    {
    }
    assert s[a..b][j..j + |p|] == s[a + j..a + j + |p|];
  }

  /** An occurrence in the suffix `s[a..]` is an occurrence in `s`, shifted by `a`. */
  lemma {:induction false} MatchAtSuffix(s: string, a: nat, p: string, j: nat)
    requires a <= |s|
    ensures MatchAt(s[a..], p, j) <==> MatchAt(s, p, a + j)
  {
    if j + |p| <= |s| - a {
      MatchAtSlice(s, a, |s|, p, j);
      assert s[a..|s|] == s[a..];
    }
  }

  /** A first occurrence in the suffix `s[a..]` is a first occurrence in `s`, shifted by `a`. */
  lemma {:induction false} FirstMatchSuffix(s: string, a: nat, p: string, k: int, r: int)
    requires a <= |s| && FirstMatch(s[a..], p, k, r)
    ensures FirstMatch(s, p, a + k, a + r)
  {
    MatchAtSuffix(s, a, p, r);
    forall j | a + k <= j < a + r
      ensures !MatchAt(s, p, j)
    {
      MatchAtSuffix(s, a, p, j - a);
    }
  }

  /** Nothing is found from `a` on exactly when the suffix from `a` does not contain `p`. */
  lemma {:induction false} NotFoundSuffix(s: string, p: string, a: nat)
    requires a <= |s|
    ensures IndexOf(s, p, a) < 0 <==> !Contains(s[a..], p)
  {
    IndexOfSuffix(s, p, a, 0);
  }

  /** Cutting `s[..j]` at `i`. */
  lemma {:induction false} Cut(s: string, i: nat, j: nat)
    requires i <= j <= |s|
    ensures s[..j] == s[..i] + s[i..j]
  {
  }

  /** The text from `i` on, cut at four further indices. */
  lemma {:induction false} Cut5(s: string, i: nat, j: nat, k: nat, l: nat, m: nat)
    requires i <= j <= k <= l <= m <= |s|
    ensures s[i..] == s[i..j] + s[j..k] + s[k..l] + s[l..m] + s[m..]
  {
    var u := s[i..];
    assert u[..j - i] == s[i..j];
    assert u[j - i..k - i] == s[j..k];
    assert u[k - i..l - i] == s[k..l];
    assert u[l - i..m - i] == s[l..m];
    assert u[m - i..] == s[m..];
    Cut(u, j - i, k - i);
    Cut(u, k - i, l - i);
    Cut(u, l - i, m - i);
    assert u == u[..m - i] + u[m - i..];
  }

  /** Searching a suffix is searching the whole string from further on. */
  lemma {:induction false} IndexOfSuffix(s: string, p: string, a: nat, k: nat)
    requires a + k <= |s|
    ensures var r := IndexOf(s, p, a + k);
      IndexOf(s[a..], p, k) == if r < 0 then -1 else r - a
  {
    var r := IndexOf(s, p, a + k);
    var r' := if r < 0 then -1 else r - a;
    IndexOfFirst(s, p, a + k);
    if r >= 0 {
      MatchAtSuffix(s, a, p, r - a);
    }
    forall j | k <= j && (r' == -1 || j < r')
      ensures !MatchAt(s[a..], p, j)
    {
      MatchAtSuffix(s, a, p, j);
    }
    IndexOfIsFirst(s[a..], p, k, r');
  }

  // ---------------------------------------------------------------------------
  // trim()

  /** The characters `String.trim()` strips: code points up to and including the space. */
  predicate IsSpace(c: char)
  {
    c <= ' '
  }

  predicate AllSpace(s: string)
  {
    forall i :: 0 <= i < |s| ==> IsSpace(s[i])
  }

  /** Neither starts nor ends with a strippable character. */
  predicate IsTrimmed(t: string)
  {
    t == [] || (!IsSpace(t[0]) && !IsSpace(t[|t| - 1]))
  }

  function TrimStart(s: string): (r: string)
    ensures |r| <= |s|
    ensures r == [] || !IsSpace(r[0])
  {
    if |s| > 0 && IsSpace(s[0]) then TrimStart(s[1..]) else s
  }

  /** What `TrimStart` removes is strippable characters only. */
  lemma {:induction false} TrimStartRest(s: string) returns (a: string)
    ensures AllSpace(a) && s == a + TrimStart(s)
    decreases |s|
  {
    if |s| > 0 && IsSpace(s[0]) {
      var a' := TrimStartRest(s[1..]);
      a := [s[0]] + a';
      assert s == [s[0]] + s[1..];
    } else {
      a := [];
    }
  }

  function TrimEnd(s: string): (r: string)
    ensures |r| <= |s| && r == s[..|r|]
    ensures AllSpace(s[|r|..])
    ensures r == [] || !IsSpace(r[|r| - 1])
  {
    if |s| > 0 && IsSpace(s[|s| - 1]) then
      var r := TrimEnd(s[..|s| - 1]);
      assert s[|r|..] == s[..|s| - 1][|r|..] + [s[|s| - 1]];
      r
    else s
  }

  /** `s.trim()`. */
  function Trim(s: string): (t: string)
    ensures IsTrimmed(t)
  {
    TrimEnd(TrimStart(s))
  }

  /** `trim()` only removes strippable characters, and only at the two ends. */
  lemma {:induction false} TrimSplits(s: string)
    ensures exists a, b :: AllSpace(a) && AllSpace(b) && s == a + Trim(s) + b
  {
    var a, b := TrimSplit(s);
  }

  lemma {:induction false} TrimSplit(s: string) returns (a: string, b: string)
    ensures AllSpace(a) && AllSpace(b) && s == a + Trim(s) + b
  {
    var u := TrimStart(s);
    a := TrimStartRest(s);
    b := TrimEndRest(u);
    assert a + Trim(s) + b == a + (TrimEnd(u) + b);
  }

  lemma {:induction false} TrimEndRest(u: string) returns (b: string)
    ensures AllSpace(b) && u == TrimEnd(u) + b
  {
    var t := TrimEnd(u);
    b := u[|t|..];
  }

  lemma {:induction false} TrimStartSkips(a: string, u: string)
    requires AllSpace(a)
    requires u == [] || !IsSpace(u[0])
    ensures TrimStart(a + u) == u
  {
    if a != [] {
      assert (a + u)[1..] == a[1..] + u;
      TrimStartSkips(a[1..], u);
    }
  }

  lemma {:induction false} TrimEndSkips(u: string, b: string)
    requires AllSpace(b)
    requires u == [] || !IsSpace(u[|u| - 1])
    ensures TrimEnd(u + b) == u
  {
    if b != [] {
      var b' := b[..|b| - 1];
      assert (u + b)[..|u + b| - 1] == u + b';
      TrimEndSkips(u, b');
    }
  }

  /** `trim()` returns the one trimmed string that strippable characters surround. */
  lemma {:induction false} TrimUnique(a: string, t: string, b: string)
    requires AllSpace(a) && AllSpace(b) && IsTrimmed(t)
    ensures Trim(a + t + b) == t
  {
    if t == [] {
      assert a + t + b == a + b;
      TrimStartSkips(a + b, []);
      assert a + b + [] == a + b;
    } else {
      assert a + t + b == a + (t + b);
      TrimStartSkips(a, t + b);
      TrimEndSkips(t, b);
    }
  }

  /**
    The two directions together: `t == s.trim()` exactly when `t` is trimmed
    and `s` is `t` with strippable characters around it.
   */
  lemma {:induction false} TrimIff(s: string, t: string)
    ensures t == Trim(s) <==>
      IsTrimmed(t) && exists a, b :: AllSpace(a) && AllSpace(b) && s == a + t + b
  {
    if t == Trim(s) {
      TrimSplits(s);
    }
    if IsTrimmed(t) && exists a, b :: AllSpace(a) && AllSpace(b) && s == a + t + b {
      var a, b :| AllSpace(a) && AllSpace(b) && s == a + t + b;
      TrimUnique(a, t, b);
    }
  }

  /** `s.trim().length() > 0` holds exactly when some character of `s` is above the space. */
  lemma {:induction false} TrimEmptyIff(s: string)
    ensures Trim(s) == [] <==> AllSpace(s)
  {
    TrimSplits(s);
    if AllSpace(s) {
      TrimUnique(s, [], []);
      assert s + [] + [] == s;
    }
  }

  // ---------------------------------------------------------------------------
  // replaceAll("\r\n", "\n")

  /** `s.replaceAll("\r\n", "\n")`: a left-to-right pass replacing each CR LF pair. */
  function ReplaceCrlf(s: string): string
  {
    if |s| == 0 then []
    else if |s| >= 2 && s[0] == '\r' && s[1] == '\n' then "\n" + ReplaceCrlf(s[2..])
    else [s[0]] + ReplaceCrlf(s[1..])
  }

  /** A carriage return that immediately precedes a line feed. */
  predicate CrBeforeLf(s: string, i: nat)
    requires i < |s|
  {
    s[i] == '\r' && i + 1 < |s| && s[i + 1] == '\n'
  }

  /** The characters of `s` from index `i` on, except every CR that precedes an LF. */
  function DropCrBeforeLf(s: string, i: nat): string
    requires i <= |s|
    decreases |s| - i
  {
    if i == |s| then []
    else (if CrBeforeLf(s, i) then [] else [s[i]]) + DropCrBeforeLf(s, i + 1)
  }

  lemma {:induction false} DropCrBeforeLfSuffix(s: string, i: nat, d: nat)
    requires d <= i <= |s|
    ensures DropCrBeforeLf(s, i) == DropCrBeforeLf(s[d..], i - d)
    decreases |s| - i
  {
    if i < |s| {
      DropCrBeforeLfSuffix(s, i + 1, d);
      var u := s[d..];
      assert u[i - d] == s[i];
      assert i + 1 < |s| ==> u[i + 1 - d] == s[i + 1];
      assert CrBeforeLf(s, i) == CrBeforeLf(u, i - d);
    }
  }

  /** Replacing CR LF by LF removes exactly the CRs that stand before an LF, and nothing else. */
  lemma {:induction false} ReplaceCrlfDropsCr(s: string)
    ensures ReplaceCrlf(s) == DropCrBeforeLf(s, 0)
    decreases |s|
  {
    if |s| >= 2 && s[0] == '\r' && s[1] == '\n' {
      ReplaceCrlfDropsCr(s[2..]);
      DropCrBeforeLfSuffix(s, 2, 2);
      assert !CrBeforeLf(s, 1);
    } else if |s| > 0 {
      ReplaceCrlfDropsCr(s[1..]);
      DropCrBeforeLfSuffix(s, 1, 1);
    }
  }

  // ---------------------------------------------------------------------------
  // Decimal rendering, as in `"filename" + n`

  function Digit(d: nat): char
    requires d < 10
  {
    "0123456789"[d]
  }

  /** The decimal digits of `n`, without sign or leading zeros. */
  function Decimal(n: nat): (r: string)
    ensures |r| >= 1
    ensures n >= 10 ==> |r| >= 2
  {
    if n < 10 then [Digit(n)] else Decimal(n / 10) + [Digit(n % 10)]
  }

  /** Different numbers have different decimal renderings. */
  lemma {:induction false} DecimalInjective(a: nat, b: nat)
    requires Decimal(a) == Decimal(b)
    ensures a == b
    decreases a
  {
    if a >= 10 && b >= 10 {
      var da, db := Decimal(a), Decimal(b);
      assert da[..|da| - 1] == Decimal(a / 10);
      assert db[..|db| - 1] == Decimal(b / 10);
      DecimalInjective(a / 10, b / 10);
      assert Digit(a % 10) == da[|da| - 1] == Digit(b % 10);
    }
  }

  /** The number of times `c` occurs in `s`, as `s.chars().filter(ch -> ch == c).count()`. */
  function CountChar(s: string, c: char): (n: nat)
    ensures n <= |s|
  {
    if s == [] then 0 else (if s[0] == c then 1 else 0) + CountChar(s[1..], c)
  }

  /** Counting is additive over concatenation. */
  lemma {:induction false} CountAppend(a: string, b: string, c: char)
    ensures CountChar(a + b, c) == CountChar(a, c) + CountChar(b, c)
    decreases |a|
  {
    if a == [] {
      assert a + b == b;
    } else {
      assert (a + b)[0] == a[0];
      assert (a + b)[1..] == a[1..] + b;
      CountAppend(a[1..], b, c);
    }
  }

  predicate StartsWith(s: string, prefix: string)
  {
    |prefix| <= |s| && s[..|prefix|] == prefix
  }

  predicate EndsWith(s: string, suffix: string)
  {
    |suffix| <= |s| && s[|s| - |suffix|..] == suffix
  }
}
