/**
  Util: the relative URL prefix that pages use to reach the server's root,
  and the cookie that remembers a student or an editor.
 */
module Util {
  import opened Wrappers
  import opened JavaText

  // ---------------------------------------------------------------------------
  // prefix

  /** `k` steps up the directory tree, `..` joined by `/`. */
  function Ups(k: nat): string
    requires k >= 1
  {
    if k == 1 then ".." else Ups(k - 1) + "/.."
  }

  /** The shape of `Ups(k)`: it starts with `..`, ends with `.`, is `3k - 1` characters long and holds `k - 1` slashes. */
  lemma {:induction false} UpsShape(k: nat)
    requires k >= 1
    ensures var u := Ups(k);
      && |u| == 3 * k - 1
      && StartsWith(u, "..")
      && u[|u| - 1] == '.'
      && CountChar(u, '/') == k - 1
    decreases k
  {
    if k > 1 {
      UpsShape(k - 1);
      var v := Ups(k - 1);
      assert Ups(k)[..2] == v[..2];
      CountAppend(v, "/..", '/');
      assert CountChar("/..", '/') == 1;
    } else {
      assert CountChar("..", '/') == 0;
    }
  }

  function Max(a: int, b: int): int
  {
    if a < b then b else a
  }

  /**
    The prefix the source promises: on `localhost` one `..` per `/` of the
    request path (at least one), elsewhere the scheme and the host.
   */
  function ExpectedPrefix(host: string, path: string, secure: bool): string
  {
    if host == "localhost" then Ups(Max(1, CountChar(path, '/')))
    else (if secure then "https://" else "http://") + host
  }

  /** On `localhost` the prefix climbs one level per slash of the path and never ends with `/`. */
  lemma LocalPrefixClimbs(path: string, secure: bool)
    ensures var r := ExpectedPrefix("localhost", path, secure);
      && StartsWith(r, "..")
      && r[|r| - 1] != '/'
      && CountChar(r, '/') + 1 == Max(1, CountChar(path, '/'))
  {
    UpsShape(Max(1, CountChar(path, '/')));
  }

  /** Elsewhere the prefix is an absolute URL of the host, secure exactly when the proxy said so. */
  lemma RemotePrefixScheme(host: string, path: string, secure: bool)
    requires host != "localhost"
    ensures var r := ExpectedPrefix(host, path, secure);
      && (secure <==> StartsWith(r, "https://"))
      && (StartsWith(r, "https://") || StartsWith(r, "http://"))
      && EndsWith(r, host)
  {
    var r := ExpectedPrefix(host, path, secure);
    if !secure {
      assert r[4] == ':';
    }
    if secure {
      assert r[..8] == "https://";
    } else {
      assert r[..7] == "http://";
    }
    assert r[|r| - |host|..] == host;
  }

  /**
    The `localhost` branch of `prefix`: `"../"` and one more `"../"` per slash
    beyond the first, then the last character dropped.
   */
  method LocalPrefix(path: string) returns (r: string)
    ensures r == Ups(Max(1, CountChar(path, '/')))
  {
    r := "../";
    var countSlash := CountChar(path, '/') - 1;
    var i := 0;
    while i < countSlash
      invariant 0 <= i <= Max(0, countSlash)
      invariant r == Ups(i + 1) + "/"
    {
      r := r + "../";
      i := i + 1;
    }
    assert i + 1 == Max(1, CountChar(path, '/'));
    assert r[..|r| - 1] == Ups(i + 1);
    r := r[..|r| - 1];
  }

  /**
    `prefix` as written: the `X-Forwarded-Proto` header values are read
    first, for every host; `None` stands for the absent header, whose `null`
    list makes `contains` throw, and for that thrown exception as result.
   */
  method PrefixAsWritten(host: string, path: string, forwardedProto: Option<seq<string>>) returns (r: Option<string>)
    ensures forwardedProto.None? ==> r.None?
    ensures forwardedProto.Some? ==> r == Some(ExpectedPrefix(host, path, "https" in forwardedProto.value))
  {
    if forwardedProto.None? {
      return None;
    }
    var secure := "https" in forwardedProto.value;
    var prefix;
    if host == "localhost" {
      prefix := LocalPrefix(path);
    } else {
      prefix := (if secure then "https://" else "http://") + host;
    }
    return Some(prefix);
  }

  /** `prefix` with an absent header read as "not https", which is what every branch can use. */
  method Prefix(host: string, path: string, forwardedProto: Option<seq<string>>) returns (r: string)
    ensures r == ExpectedPrefix(host, path, forwardedProto.Some? && "https" in forwardedProto.value)
  {
    var secure := forwardedProto.Some? && "https" in forwardedProto.value;
    if host == "localhost" {
      r := LocalPrefix(path);
    } else {
      r := (if secure then "https://" else "http://") + host;
    }
  }

  // ---------------------------------------------------------------------------
  // buildCookie

  /** Java's `(int)` cast of a `long`: the low 32 bits, read as two's complement. */
  function ToInt32(x: int): (r: int)
    ensures -0x8000_0000 <= r < 0x8000_0000
    ensures (x - r) % 0x1_0000_0000 == 0
    ensures -0x8000_0000 <= x < 0x8000_0000 ==> r == x
  {
    var m := x % 0x1_0000_0000;
    if m >= 0x8000_0000 then m - 0x1_0000_0000 else m
  }

  const SecondsPerDay: int := 24 * 60 * 60

  datatype SameSite = Strict | Lax | NoRestriction

  datatype Cookie = Cookie(name: string, value: string, path: string, maxAge: int,
                           httpOnly: bool, secure: bool, sameSite: SameSite)

  /** `buildCookie(name, value)`: a cookie for the whole site, kept for 180 days, hidden from scripts. */
  function BuildCookie(name: string, value: string): Cookie
  {
    Cookie(name, value, "/", ToInt32(180 * SecondsPerDay), true, false, Strict)
  }

  /** The narrowing cast keeps 180 days intact: the cookie lives 15552000 seconds. */
  lemma BuildCookieLifetime(name: string, value: string)
    ensures var c := BuildCookie(name, value);
      && c.maxAge == 15552000 && c.maxAge == 180 * SecondsPerDay
      && c.name == name && c.value == value && c.path == "/"
      && c.httpOnly && !c.secure && c.sameSite == Strict
  {
  }
}
