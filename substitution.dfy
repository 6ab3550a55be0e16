/**
  The template language of parametric problems: a file is literal text with
  substitution sites `left expr right`; substituting replaces each site by
  the value of its expression. This module gives the meaning of the
  delimiter scan in CodeCheck.replaceParametersInFile as a parser (`Parse`)
  and an expansion (`Expand`), and proves what the scan accepts and rejects.
 */
module Substitution {
  import opened Wrappers
  import opened JavaText

  /** A substitution site: the literal text in front of it and the expression between the delimiters. */
  datatype Site = Site(text: string, expr: string)

  /** A file read as a template: its sites in order, then the literal text after the last one. */
  datatype Template = Template(sites: seq<Site>, tail: string)

  /** The template without its first site. */
  function Rest(t: Template): Template
    requires t.sites != []
  {
    Template(t.sites[1..], t.tail)
  }

  /** Putting a site in front of a template. */
  function Cons(st: Site, t: Template): Template
  {
    Template([st] + t.sites, t.tail)
  }

  lemma {:induction false} ConsParts(st: Site, t: Template)
    ensures Cons(st, t).sites != [] && Cons(st, t).sites[0] == st && Rest(Cons(st, t)) == t
  {
    assert Cons(st, t).sites[1..] == t.sites;
  }

  /** What the scan meets from a position: the end, a dead end, or a site and where to go on. */
  datatype Step = Done | Stuck | Found(site: Site, next: nat)

  /**
    One step of the delimiter scan over `s` from index `pos`: find the left
    delimiter, then the right delimiter after it; the text between them is
    the expression, which must not contain the left delimiter.
   */
  function NextSite(s: string, left: string, right: string, pos: nat): (r: Step)
    requires pos <= |s|
    ensures r.Found? ==> pos < r.next <= |s|
  {
    var from := IndexOf(s, left, pos);
    if from < 0 then Done
    else
      var to := IndexOf(s, right, from + |left|);
      if to < 0 then Stuck
      else
        var expr := s[from + |left|..to];
        if Contains(expr, left) then Stuck
        else
          assert |left| > 0 by {
            if left == [] { ContainsEmpty(expr); }
          }
          Found(Site(s[pos..from], expr), to + |right|)
  }

  /**
    The delimiter scan from `pos` as a parser: site after site until no left
    delimiter is left. `None` is the scan giving up (the source's `return null`).
   */
  function Parse(s: string, left: string, right: string, pos: nat): Option<Template>
    requires pos <= |s|
    decreases |s| - pos
  {
    match NextSite(s, left, right, pos)
    case Done => Some(Template([], s[pos..]))
    case Stuck => None
    case Found(st, next) =>
      match Parse(s, left, right, next)
      case None => None
      case Some(t) => Some(Cons(st, t))
  }

  /** The text a template is written as. */
  function Render(t: Template, left: string, right: string): string
    decreases |t.sites|
  {
    if t.sites == [] then t.tail
    else t.sites[0].text + left + t.sites[0].expr + right + Render(Rest(t), left, right)
  }

  /** The text a template stands for: every site replaced by the value of its expression. */
  function Expand(t: Template, eval: string -> string): string
    decreases |t.sites|
  {
    if t.sites == [] then t.tail
    else t.sites[0].text + eval(t.sites[0].expr) + Expand(Rest(t), eval)
  }

  /** The left delimiter starts nowhere inside `text`, also not straddling its end. */
  predicate LeftFirstAfter(text: string, left: string)
  {
    forall j :: 0 <= j < |text| ==> !MatchAt(text + left, left, j)
  }

  /** The right delimiter starts nowhere inside `expr`, also not straddling its end. */
  predicate RightFirstAfter(expr: string, right: string)
  {
    forall j :: 0 <= j < |expr| ==> !MatchAt(expr + right, right, j)
  }

  predicate WellFormedSite(st: Site, left: string, right: string)
  {
    && LeftFirstAfter(st.text, left)
    && !Contains(st.expr, left)
    && RightFirstAfter(st.expr, right)
  }

  /**
    A template whose rendering the scan reads back site by site: each literal
    text ends where the next left delimiter begins, no expression holds a left
    delimiter or ends before its right delimiter, and the tail holds no left
    delimiter.
   */
  predicate WellFormed(t: Template, left: string, right: string)
  {
    && (forall i :: 0 <= i < |t.sites| ==> WellFormedSite(t.sites[i], left, right))
    && !Contains(t.tail, left)
  }

  function Prepend(prefix: string, r: Option<string>): Option<string>
  {
    match r
    case None => None
    case Some(text) => Some(prefix + text)
  }

  /**
    The scan from `pos` with every site replaced by its value as it is met:
    the literal text before the site, the value, then the scan after the
    right delimiter. `ExpandTextParses` shows it is parsing, then expanding.
   */
  function ExpandText(s: string, left: string, right: string, eval: string -> string, pos: nat): Option<string>
    requires pos <= |s|
    decreases |s| - pos
  {
    match NextSite(s, left, right, pos)
    case Done => Some(s[pos..])
    case Stuck => None
    case Found(st, next) => Prepend(st.text + eval(st.expr), ExpandText(s, left, right, eval, next))
  }

  /**
    What replaceParametersInFile returns for `s`: the scan from its initial
    state. Besides the failures of the parser, a text without any left
    delimiter gives `None` when the right delimiter is one character long
    (`SubstituteScans`): the source tests `to == -1` where `to` starts at
    minus the right delimiter's length.
   */
  function Substitute(s: string, left: string, right: string, eval: string -> string): Option<string>
  {
    ScanTo(s, left, right, eval, -|right|, [])
  }

  // ---------------------------------------------------------------------------
  // Unfolding the parser

  /** The cases of one scan step, stated by where the delimiters are. */
  lemma {:induction false} NextShape(s: string, left: string, right: string, pos: nat) returns (from: int, to: int)
    requires pos <= |s| && IndexOf(s, left, pos) >= 0
    ensures from == IndexOf(s, left, pos) && FirstMatch(s, left, pos, from)
    ensures to == IndexOf(s, right, from + |left|)
    ensures to < 0 ==> NextSite(s, left, right, pos) == Stuck
    ensures to >= 0 ==> FirstMatch(s, right, from + |left|, to)
    ensures to >= 0 && Contains(s[from + |left|..to], left) ==> NextSite(s, left, right, pos) == Stuck
    ensures to >= 0 && !Contains(s[from + |left|..to], left) ==>
      && |left| > 0
      && NextSite(s, left, right, pos) == Found(Site(s[pos..from], s[from + |left|..to]), to + |right|)
  {
    from := IndexOf(s, left, pos);
    to := IndexOf(s, right, from + |left|);
    IndexOfFirst(s, left, pos);
    IndexOfFirst(s, right, from + |left|);
    if to >= 0 && left == [] {
      ContainsEmpty(s[from + |left|..to]);
    }
  }

  /** The scan from `pos` is one step, then the scan from where that step ends. */
  lemma {:induction false} ParseFound(s: string, left: string, right: string, pos: nat, st: Site, next: nat)
    requires pos <= |s| && NextSite(s, left, right, pos) == Found(st, next)
    ensures Parse(s, left, right, pos) == match Parse(s, left, right, next)
      case None => None
      case Some(t) => Some(Cons(st, t))
  {
  }

  /** The step reads a site at the first delimiters it meets. */
  lemma {:induction false} NextCons(s: string, left: string, right: string, pos: nat, from: int, to: int)
    requires pos <= |s|
    requires FirstMatch(s, left, pos, from) && FirstMatch(s, right, from + |left|, to)
    requires !Contains(s[from + |left|..to], left)
    ensures NextSite(s, left, right, pos) == Found(Site(s[pos..from], s[from + |left|..to]), to + |right|)
  {
    IndexOfIsFirst(s, left, pos, from);
    IndexOfIsFirst(s, right, from + |left|, to);
    NextFound(s, left, right, pos, from, to);
  }

  lemma {:induction false} NextFound(s: string, left: string, right: string, pos: nat, from: int, to: int)
    requires pos <= |s| && 0 <= from == IndexOf(s, left, pos)
    requires 0 <= to == IndexOf(s, right, from + |left|)
    requires !Contains(s[from + |left|..to], left)
    ensures NextSite(s, left, right, pos) == Found(Site(s[pos..from], s[from + |left|..to]), to + |right|)
  {
  }

  lemma {:induction false} ConsRenderWellFormed(st: Site, t: Template, left: string, right: string)
    ensures Render(Cons(st, t), left, right) == st.text + left + st.expr + right + Render(t, left, right)
    ensures WellFormed(Cons(st, t), left, right) <==> WellFormedSite(st, left, right) && WellFormed(t, left, right)
  {
    var r := Cons(st, t);
    ConsParts(st, t);
    assert forall i :: 0 <= i < |t.sites| ==> r.sites[i + 1] == t.sites[i];
    if WellFormedSite(st, left, right) && WellFormed(t, left, right) {
      forall i | 0 <= i < |r.sites|
        ensures WellFormedSite(r.sites[i], left, right)
      {
        if i > 0 {
          assert r.sites[i] == t.sites[i - 1];
        }
      }
    }
  }

  // ---------------------------------------------------------------------------
  // The scan reads back exactly the well-formed templates

  /** The first site the scan finds from `pos` is well formed, and the text from `pos` is that site followed by the rest. */
  lemma {:induction false} FirstSiteSplits(s: string, left: string, right: string, pos: nat, from: int, to: int)
    requires FirstMatch(s, left, pos, from)
    requires FirstMatch(s, right, from + |left|, to)
    ensures LeftFirstAfter(s[pos..from], left)
    ensures RightFirstAfter(s[from + |left|..to], right)
    ensures s[pos..] == s[pos..from] + left + s[from + |left|..to] + right + s[to + |right|..]
  {
    var a, b := from + |left|, to + |right|;
    var text, expr := s[pos..from], s[a..to];
    MatchAtIff(s, left, from);
    MatchAtIff(s, right, to);
    assert text + left == s[pos..a];
    forall j | 0 <= j < |text|
      ensures !MatchAt(text + left, left, j)
    {
      MatchAtSlice(s, pos, a, left, j);
    }
    assert expr + right == s[a..b];
    forall j | 0 <= j < |expr|
      ensures !MatchAt(expr + right, right, j)
    {
      MatchAtSlice(s, a, b, right, j);
    }
    Cut5(s, pos, from, a, to, b);
  }

  /** Whatever the scan accepts from `pos` is a well-formed template, written out as the text from `pos`. */
  lemma {:induction false} ParseSound(s: string, left: string, right: string, pos: nat)
    requires pos <= |s| && Parse(s, left, right, pos).Some?
    ensures Render(Parse(s, left, right, pos).value, left, right) == s[pos..]
    ensures WellFormed(Parse(s, left, right, pos).value, left, right)
    decreases |s| - pos
  {
    if IndexOf(s, left, pos) < 0 {
      NotFoundSuffix(s, left, pos);
    } else {
      var from, to := NextShape(s, left, right, pos);
      var st := Site(s[pos..from], s[from + |left|..to]);
      var next := to + |right|;
      ParseFound(s, left, right, pos, st, next);
      ParseSound(s, left, right, next);
      FirstSiteSplits(s, left, right, pos, from, to);
      ConsRenderWellFormed(st, Parse(s, left, right, next).value, left, right);
    }
  }

  /** The delimiters of a well-formed first site are the first ones, where they were written. */
  lemma {:induction false} SiteFound(st: Site, rest: string, left: string, right: string)
    requires WellFormedSite(st, left, right)
    ensures var u := st.text + left + st.expr + right + rest;
      var from, to := |st.text|, |st.text| + |left| + |st.expr|;
      && FirstMatch(u, left, 0, from)
      && FirstMatch(u, right, from + |left|, to)
  {
    var u := st.text + left + st.expr + right + rest;
    var from, to := |st.text|, |st.text| + |left| + |st.expr|;
    var a := from + |left|;
    assert u[0..a] == st.text + left;
    assert u[from..a] == left;
    MatchAtIff(u, left, from);
    forall j | 0 <= j < from
      ensures !MatchAt(u, left, j)
    {
      MatchAtSlice(u, 0, a, left, j);
    }
    assert u[a..to + |right|] == st.expr + right;
    assert u[to..to + |right|] == right;
    MatchAtIff(u, right, to);
    forall j | a <= j < to
      ensures !MatchAt(u, right, j)
    {
      MatchAtSlice(u, a, to + |right|, right, j - a);
    }
  }

  /** A well-formed site written at `pos` is where the scan finds its delimiters. */
  lemma {:induction false} SiteAt(s: string, pos: nat, st: Site, rest: string, left: string, right: string)
    requires pos <= |s| && s[pos..] == st.text + left + st.expr + right + rest
    requires WellFormedSite(st, left, right)
    ensures var from := pos + |st.text|;
      var to := from + |left| + |st.expr|;
      && FirstMatch(s, left, pos, from)
      && FirstMatch(s, right, from + |left|, to)
      && s[pos..from] == st.text
      && s[from + |left|..to] == st.expr
      && s[to + |right|..] == rest
  {
    SiteFound(st, rest, left, right);
    var u := s[pos..];
    var from', to' := |st.text|, |st.text| + |left| + |st.expr|;
    FirstMatchSuffix(s, pos, left, 0, from');
    FirstMatchSuffix(s, pos, right, from' + |left|, to');
    assert u[..from'] == st.text;
    assert u[from' + |left|..to'] == st.expr;
    assert u[to' + |right|..] == rest;
  }

  /** Every well-formed template written from `pos` on is read back by the scan as itself. */
  lemma {:induction false} ParseComplete(t: Template, s: string, left: string, right: string, pos: nat)
    requires pos <= |s| && s[pos..] == Render(t, left, right)
    requires WellFormed(t, left, right)
    ensures Parse(s, left, right, pos) == Some(t)
    decreases |t.sites|
  {
    if t.sites == [] {
      ParseCompleteTail(t, s, left, right, pos);
    } else {
      var st, t' := t.sites[0], Rest(t);
      assert Cons(st, t') == t by {
        assert [st] + t'.sites == t.sites;
      }
      ConsRenderWellFormed(st, t', left, right);
      var next := SiteNext(s, pos, st, Render(t', left, right), left, right);
      ParseComplete(t', s, left, right, next);
      ParseFound(s, left, right, pos, st, next);
    }
  }

  lemma {:induction false} ParseCompleteTail(t: Template, s: string, left: string, right: string, pos: nat)
    requires pos <= |s| && s[pos..] == Render(t, left, right)
    requires t.sites == [] && !Contains(t.tail, left)
    ensures Parse(s, left, right, pos) == Some(t)
  {
    NotFoundSuffix(s, left, pos);
  }

  /** A well-formed site written at `pos` is the step the scan takes there. */
  lemma {:induction false} SiteNext(s: string, pos: nat, st: Site, rest: string, left: string, right: string) returns (next: nat)
    requires pos <= |s| && s[pos..] == st.text + left + st.expr + right + rest
    requires WellFormedSite(st, left, right)
    ensures next <= |s| && s[next..] == rest
    ensures NextSite(s, left, right, pos) == Found(st, next)
  {
    SiteAt(s, pos, st, rest, left, right);
    var from := pos + |st.text|;
    var to := from + |left| + |st.expr|;
    NextCons(s, left, right, pos, from, to);
    next := to + |right|;
  }

  // ---------------------------------------------------------------------------
  // Inputs the scan rejects

  /** A left delimiter after which no right delimiter ends makes the parser give up. */
  lemma {:induction false} UnmatchedLeftFails(s: string, left: string, right: string, pos: nat, j: int)
    requires pos <= j && MatchAt(s, left, j)
    requires forall k :: pos <= k && MatchAt(s, right, k) ==> k + |right| <= j
    ensures Parse(s, left, right, pos) == None
    decreases |s| - pos
  {
    IndexOfFirst(s, left, pos);
    var from, to := NextShape(s, left, right, pos);
    if to >= 0 && !Contains(s[from + |left|..to], left) {
      var next := to + |right|;
      ParseFound(s, left, right, pos, Site(s[pos..from], s[from + |left|..to]), next);
      UnmatchedLeftFails(s, left, right, next, j);
    }
  }

  /**
    Two left delimiters with no right delimiter in between make the parser
    give up: the expression that starts at the first one would contain the
    second.
   */
  lemma {:induction false} NestedLeftFails(s: string, left: string, right: string, pos: nat, j1: int, j2: int)
    requires pos <= j1 && MatchAt(s, left, j1) && MatchAt(s, left, j2) && j1 + |left| <= j2
    requires forall k :: pos <= k && MatchAt(s, right, k) ==> k + |right| <= j1 || j2 + |left| <= k
    ensures Parse(s, left, right, pos) == None
    decreases |s| - pos
  {
    IndexOfFirst(s, left, pos);
    var from, to := NextShape(s, left, right, pos);
    if to >= 0 {
      var a := from + |left|;
      if to + |right| > j1 {
        MatchAtSlice(s, a, to, left, j2 - a);
        ContainsIff(s[a..to], left);
      } else if !Contains(s[a..to], left) {
        var next := to + |right|;
        ParseFound(s, left, right, pos, Site(s[pos..from], s[a..to]), next);
        NestedLeftFails(s, left, right, next, j1, j2);
      }
    }
  }

  // ---------------------------------------------------------------------------
  // What Substitute (the file-level result) promises

  /** A text without any left delimiter is left as it is, or given up on when the right delimiter has length 1. */
  lemma {:induction false} SubstituteWithoutDelimiter(s: string, left: string, right: string, eval: string -> string)
    requires !Contains(s, left)
    ensures Substitute(s, left, right, eval) == if |right| == 1 then None else Some(s)
  {
    SubstituteScans(s, left, right, eval);
    ExpandTextParses(s, left, right, eval, 0);
    assert s[0..] == s;
  }

  /**
    On success the result is the text read as a well-formed template, with
    every site replaced by the value of its expression.
   */
  lemma {:induction false} SubstituteSound(s: string, left: string, right: string, eval: string -> string)
    requires Substitute(s, left, right, eval).Some?
    ensures exists t :: && WellFormed(t, left, right)
                        && Render(t, left, right) == s
                        && Expand(t, eval) == Substitute(s, left, right, eval).value
  {
    SubstituteScans(s, left, right, eval);
    ExpandTextParses(s, left, right, eval, 0);
    ParseSound(s, left, right, 0);
    var t := Parse(s, left, right, 0).value;
    assert s[0..] == s;
    assert WellFormed(t, left, right) && Render(t, left, right) == s;
  }

  /**
    Conversely, the rendering of a well-formed template is substituted site by
    site, unless it has no site and the right delimiter has length 1.
   */
  lemma {:induction false} SubstituteComplete(t: Template, left: string, right: string, eval: string -> string)
    requires WellFormed(t, left, right)
    requires t.sites != [] || |right| != 1
    ensures Substitute(Render(t, left, right), left, right, eval) == Some(Expand(t, eval))
  {
    var s := Render(t, left, right);
    SubstituteScans(s, left, right, eval);
    ExpandTextParses(s, left, right, eval, 0);
    assert s[0..] == s;
    ParseComplete(t, s, left, right, 0);
  }

  /** A left delimiter after which no right delimiter ends makes the file unsubstitutable. */
  lemma {:induction false} UnmatchedLeftRejects(s: string, left: string, right: string, eval: string -> string, j: int)
    requires MatchAt(s, left, j)
    requires forall k :: MatchAt(s, right, k) ==> k + |right| <= j
    ensures Substitute(s, left, right, eval) == None
  {
    SubstituteScans(s, left, right, eval);
    ExpandTextParses(s, left, right, eval, 0);
    UnmatchedLeftFails(s, left, right, 0, j);
  }

  /** Two left delimiters with no right delimiter between them make the file unsubstitutable. */
  lemma {:induction false} NestedLeftRejects(s: string, left: string, right: string, eval: string -> string, j1: int, j2: int)
    requires MatchAt(s, left, j1) && MatchAt(s, left, j2) && j1 + |left| <= j2
    requires forall k :: MatchAt(s, right, k) ==> k + |right| <= j1 || j2 + |left| <= k
    ensures Substitute(s, left, right, eval) == None
  {
    SubstituteScans(s, left, right, eval);
    ExpandTextParses(s, left, right, eval, 0);
    NestedLeftFails(s, left, right, 0, j1, j2);
  }

  // ---------------------------------------------------------------------------
  // Expanding while scanning is parsing, then expanding

  lemma {:induction false} ExpandCons(st: Site, t: Template, eval: string -> string)
    ensures Expand(Cons(st, t), eval) == st.text + eval(st.expr) + Expand(t, eval)
  {
    ConsParts(st, t);
  }

  lemma {:induction false} ExpandTextParses(s: string, left: string, right: string, eval: string -> string, pos: nat)
    requires pos <= |s|
    ensures ExpandText(s, left, right, eval, pos) == match Parse(s, left, right, pos)
      case None => None
      case Some(t) => Some(Expand(t, eval))
    decreases |s| - pos
  {
    match NextSite(s, left, right, pos)
    case Done =>
    case Stuck =>
    case Found(st, next) =>
      ExpandTextParses(s, left, right, eval, next);
      ParseFound(s, left, right, pos, st, next);
      var rest := Parse(s, left, right, next);
      if rest.Some? {
        ExpandCons(st, rest.value, eval);
      }
  }
  // ---------------------------------------------------------------------------
  // The scan as the loop of replaceParametersInFile keeps it

  /**
    The scan with the loop's own state: `to` is where the last right
    delimiter began (minus the right delimiter's length before the first
    site) and `done` is what has been produced. Its `to == -1` test gives up
    on a text without left delimiter when the right delimiter is one
    character long.
   */
  function ScanTo(s: string, left: string, right: string, eval: string -> string, to: int, done: string): Option<string>
    requires -|right| <= to && to + |right| <= |s|
    decreases |s| - (to + |right|)
  {
    var from := IndexOf(s, left, to + |right|);
    if from == -1 then
      if to == -1 then None else Some(done + s[to + |right|..])
    else
      var nextTo := IndexOf(s, right, from + |left|);
      if nextTo == -1 then None
      else
        var expr := s[from + |left|..nextTo];
        if Contains(expr, left) then None
        else
          assert |left| > 0 by {
            if left == [] { ContainsEmpty(expr); }
          }
          ScanTo(s, left, right, eval, nextTo, done + s[to + |right|..from] + eval(expr))
  }

  /** One step of the scan, by where the next delimiters are. */
  lemma {:induction false} ScanToStep(s: string, left: string, right: string, eval: string -> string, to: int, done: string, from: int, nextTo: int)
    requires -|right| <= to && to + |right| <= |s|
    requires from == IndexOf(s, left, to + |right|)
    requires from != -1 ==> nextTo == IndexOf(s, right, from + |left|)
    ensures from == -1 && to == -1 ==> ScanTo(s, left, right, eval, to, done) == None
    ensures from == -1 && to != -1 ==> ScanTo(s, left, right, eval, to, done) == Some(done + s[to + |right|..])
    ensures from != -1 && nextTo == -1 ==> ScanTo(s, left, right, eval, to, done) == None
    ensures from != -1 && nextTo != -1 && Contains(s[from + |left|..nextTo], left) ==> ScanTo(s, left, right, eval, to, done) == None
    ensures from != -1 && nextTo != -1 && !Contains(s[from + |left|..nextTo], left) ==>
      && -|right| <= nextTo && nextTo + |right| <= |s|
      && ScanTo(s, left, right, eval, to, done)
         == ScanTo(s, left, right, eval, nextTo, done + s[to + |right|..from] + eval(s[from + |left|..nextTo]))
  {
  }

  /**
    The loop's scan is `ExpandText` from after the last right delimiter with
    what has been produced in front, except for the `to == -1` test.
   */
  lemma {:induction false} ScanToExpands(s: string, left: string, right: string, eval: string -> string, to: int, done: string)
    requires -|right| <= to && to + |right| <= |s|
    ensures ScanTo(s, left, right, eval, to, done)
         == if to == -1 && IndexOf(s, left, to + |right|) < 0 then None
            else Prepend(done, ExpandText(s, left, right, eval, to + |right|))
    decreases |s| - (to + |right|)
  {
    var pos := to + |right|;
    var from := IndexOf(s, left, pos);
    if from >= 0 {
      var nextTo := IndexOf(s, right, from + |left|);
      if nextTo >= 0 && !Contains(s[from + |left|..nextTo], left) {
        var text, value := s[pos..from], eval(s[from + |left|..nextTo]);
        NextFound(s, left, right, pos, from, nextTo);
        ScanToExpands(s, left, right, eval, nextTo, done + text + value);
        PrependTwice(done, text + value, ExpandText(s, left, right, eval, nextTo + |right|));
        assert done + text + value == done + (text + value);
      }
    }
  }

  /**
    `Substitute` is `ExpandText` from the start, except that a text without
    left delimiter is given up on when the right delimiter is one character
    long.
   */
  lemma {:induction false} SubstituteScans(s: string, left: string, right: string, eval: string -> string)
    ensures Substitute(s, left, right, eval)
         == if IndexOf(s, left, 0) < 0 && |right| == 1 then None else ExpandText(s, left, right, eval, 0)
  {
    ScanToExpands(s, left, right, eval, -|right|, []);
    PrependEmpty(ExpandText(s, left, right, eval, 0));
  }

  lemma {:induction false} PrependEmpty(r: Option<string>)
    ensures Prepend([], r) == r
  {
    if r.Some? {
      assert [] + r.value == r.value;
    }
  }

  lemma {:induction false} PrependTwice(a: string, b: string, r: Option<string>)
    ensures Prepend(a, Prepend(b, r)) == Prepend(a + b, r)
  {
    if r.Some? {
      assert a + (b + r.value) == a + b + r.value;
    }
  }
}
