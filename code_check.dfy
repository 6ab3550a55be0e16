/**
  The problem pipeline of `models.CodeCheck`: template parameters are
  substituted into the files of a problem bundle, problems are loaded from
  and saved to the problem store, and submissions are graded.
 */
module CodeCheck {
  import opened Wrappers
  import opened JavaText
  import opened Bundles
  import opened Substitution
  import opened ProblemConnector

  /** What the grading engine hands back: the report text (`null` allowed) and the solution outputs. */
  datatype Plan = Plan(report: Option<string>, outputs: Bundle)

  /** `java.util.Properties` as used for the report metadata. */
  type Properties = map<string, string>

  /**
    The collaborators outside this model, as functions:
    - `zip`, `unzip`: the archive codec;
    - `boot(seed, paramJs)`: the script engine after `preload.js`,
      `Math.seedrandom(seed)` and the evaluation of `param.js`, as the
      function from an expression to the text of its value;
    - `grade(submission, problem, reportType, metaData)`: the grading engine;
    - `solutionFiles`, `inputFiles`: the two views of a `Problem`;
    - `isLetterOrDigit`: the Unicode classes `\pL` and `\pN`.
   */
  datatype Engines = Engines(
    zip: Bundle -> Bytes,
    unzip: Bytes -> Bundle,
    boot: (string, string) -> (string -> string),
    grade: (Bundle, Bundle, string, Properties) -> Plan,
    solutionFiles: Bundle -> Bundle,
    inputFiles: Bundle -> Bundle,
    isLetterOrDigit: char -> bool)

  /** The script expressions that name the two delimiters. */
  const LeftDelimiterExpr: string := "delimiters[0]"
  const RightDelimiterExpr: string := "delimiters[1]"

  /** The repository that uploaded problems are saved to. */
  const ExtRepo: string := "ext"

  // ---------------------------------------------------------------------------
  // Parameterization of a bundle

  /** `replaceParametersInFile` as a function of the contents and the engine. */
  function SubstituteFile(contents: string, eval: string -> string): Option<string>
  {
    Substitute(contents, eval(LeftDelimiterExpr), eval(RightDelimiterExpr), eval)
  }

  /**
    The files that `Util.filterNot(keys, "param.js", "*.jar", "*.gif",
    "*.png", "*.jpg", "*.wav")` leaves out, matched on the file name.
   */
  predicate Excluded(p: Path)
  {
    var name := LastName(p);
    || name == ParamJs
    || EndsWith(name, ".jar") || EndsWith(name, ".gif") || EndsWith(name, ".png")
    || EndsWith(name, ".jpg") || EndsWith(name, ".wav")
  }

  /** The new contents of a rewritten file: the substitution, or the old contents where it gives up. */
  function Rewritten(contents: string, eval: string -> string): string
  {
    match SubstituteFile(contents, eval)
    case None => contents
    case Some(text) => text
  }

  /** The bundle after `replaceParametersInDirectory(seed, files)`. */
  function Parameterize(files: Bundle, seed: string, boot: (string, string) -> (string -> string)): (r: Bundle)
    ensures r.Keys == files.Keys
    ensures ParamJs !in files ==> r == files
    ensures forall p :: p in files && Excluded(p) ==> r[p] == files[p]
  {
    if ParamJs !in files then files
    else
      var eval := boot(seed, files[ParamJs]);
      map p | p in files :: if Excluded(p) then files[p] else Rewritten(files[p], eval)
  }

  /** A bundle that agrees with `Parameterize` file by file is the parameterized bundle. */
  lemma {:induction false} ParameterizeAll(files: Bundle, seed: string, boot: (string, string) -> (string -> string), r: Bundle)
    requires ParamJs in files && r.Keys == files.Keys
    requires forall p :: p in files ==>
      r[p] == if Excluded(p) then files[p] else Rewritten(files[p], boot(seed, files[ParamJs]))
    ensures r == Parameterize(files, seed, boot)
  {
    var goal := Parameterize(files, seed, boot);
    assert forall p :: p in goal ==> r[p] == goal[p];
  }

  /**
    A file changes only when the bundle has a `param.js`, the file is not
    excluded and the scan of its contents succeeds; the new contents are
    what the scan returns.
   */
  lemma {:induction false} ChangedOnlyBySubstitution(files: Bundle, seed: string, boot: (string, string) -> (string -> string), p: Path)
    requires p in files && Parameterize(files, seed, boot)[p] != files[p]
    ensures ParamJs in files && !Excluded(p)
    ensures SubstituteFile(files[p], boot(seed, files[ParamJs])) == Some(Parameterize(files, seed, boot)[p])
  {
  }

  /** `param.js` itself is never rewritten. */
  lemma {:induction false} ParamJsKept(files: Bundle, seed: string, boot: (string, string) -> (string -> string))
    requires ParamJs in files
    ensures Parameterize(files, seed, boot)[ParamJs] == files[ParamJs]
  {
    assert forall k :: 0 <= k < |ParamJs| ==> ParamJs[k] != '/';
    LastNameSuffix(ParamJs);
  }

  /**
    A file in which the left delimiter does not occur keeps its contents:
    the scan gives up on it or copies it through.
   */
  lemma {:induction false} UndelimitedFileKept(files: Bundle, seed: string, boot: (string, string) -> (string -> string), p: Path)
    requires p in files && ParamJs in files
    requires !Contains(files[p], boot(seed, files[ParamJs])(LeftDelimiterExpr))
    ensures Parameterize(files, seed, boot)[p] == files[p]
  {
    var eval := boot(seed, files[ParamJs]);
    SubstituteWithoutDelimiter(files[p], eval(LeftDelimiterExpr), eval(RightDelimiterExpr), eval);
  }

  /**
    A rewritten file is a well-formed template with every site replaced by
    the value of its expression.
   */
  lemma {:induction false} RewrittenFileExpands(files: Bundle, seed: string, boot: (string, string) -> (string -> string), p: Path)
    requires p in files && Parameterize(files, seed, boot)[p] != files[p]
    ensures ParamJs in files
    ensures var eval := boot(seed, files[ParamJs]);
      exists t :: && WellFormed(t, eval(LeftDelimiterExpr), eval(RightDelimiterExpr))
                  && Render(t, eval(LeftDelimiterExpr), eval(RightDelimiterExpr)) == files[p]
                  && Expand(t, eval) == Parameterize(files, seed, boot)[p]
  {
    var eval := boot(seed, files[ParamJs]);
    SubstituteSound(files[p], eval(LeftDelimiterExpr), eval(RightDelimiterExpr), eval);
  }

  // ---------------------------------------------------------------------------
  // The save decision and the metadata of `run`

  /** `save` in `run`: no `param.js` and no path whose first name is `_outputs`. */
  predicate Save(files: Bundle)
  {
    ParamJs !in files && !exists p :: p in files && StartsWithName(p, OutputsDir)
  }

  /** Parameterization does not change the save decision, and a bundle that is saved was not parameterized. */
  lemma {:induction false} SaveAfterParameterize(files: Bundle, seed: string, boot: (string, string) -> (string -> string))
    ensures Save(Parameterize(files, seed, boot)) <==> Save(files)
    ensures Save(files) ==> Parameterize(files, seed, boot) == files
  {
    var r := Parameterize(files, seed, boot);
    assert forall p :: p in r <==> p in files;
  }

  /** The characters `[^\pL\pN_/-]` does not match, which `replaceAll` keeps. */
  predicate LabelChar(c: char, isLetterOrDigit: char -> bool)
  {
    isLetterOrDigit(c) || c == '_' || c == '/' || c == '-'
  }

  /** `s.replaceAll("[^\\pL\\pN_/-]", "")`. */
  function Sanitize(s: string, isLetterOrDigit: char -> bool): (r: string)
    ensures forall i :: 0 <= i < |r| ==> LabelChar(r[i], isLetterOrDigit)
    ensures |r| <= |s|
  {
    if s == [] then []
    else (if LabelChar(s[0], isLetterOrDigit) then [s[0]] else []) + Sanitize(s[1..], isLetterOrDigit)
  }

  /** Sanitizing keeps every allowed character, as often as it occurs, and drops every other. */
  lemma {:induction false} SanitizeCounts(s: string, isLetterOrDigit: char -> bool, c: char)
    ensures CountChar(Sanitize(s, isLetterOrDigit), c) == if LabelChar(c, isLetterOrDigit) then CountChar(s, c) else 0
    decreases |s|
  {
    if s != [] {
      SanitizeCounts(s[1..], isLetterOrDigit, c);
      var head := if LabelChar(s[0], isLetterOrDigit) then [s[0]] else [];
      CountAppend(head, Sanitize(s[1..], isLetterOrDigit), c);
    }
  }

  /** A label made of allowed characters only is left as it is, so sanitizing twice changes nothing more. */
  lemma {:induction false} SanitizeKeeps(s: string, isLetterOrDigit: char -> bool)
    requires forall i :: 0 <= i < |s| ==> LabelChar(s[i], isLetterOrDigit)
    ensures Sanitize(s, isLetterOrDigit) == s
    decreases |s|
  {
    if s != [] {
      SanitizeKeeps(s[1..], isLetterOrDigit);
    }
  }

  lemma {:induction false} SanitizeIdempotent(s: string, isLetterOrDigit: char -> bool)
    ensures Sanitize(Sanitize(s, isLetterOrDigit), isLetterOrDigit) == Sanitize(s, isLetterOrDigit)
  {
    SanitizeKeeps(Sanitize(s, isLetterOrDigit), isLetterOrDigit);
  }

  /** The metadata of a graded run: the user and the sanitized problem label. */
  function MetaData(repo: string, problem: string, ccid: string, isLetterOrDigit: char -> bool): (m: Properties)
    ensures m.Keys == {"User", "Problem"}
    ensures m["User"] == ccid
    ensures forall i :: 0 <= i < |m["Problem"]| ==> LabelChar(m["Problem"][i], isLetterOrDigit)
  {
    map["User" := ccid, "Problem" := Sanitize(repo + "/" + problem, isLetterOrDigit)]
  }

  /**
    The report of checking an uploaded problem: the bundle is parameterized
    for `studentId` and graded with its own solution and input files as the
    submission.
   */
  function SelfCheckReport(engines: Engines, files: Bundle, studentId: string): Option<string>
  {
    var f := Parameterize(files, studentId, engines.boot);
    engines.grade(engines.solutionFiles(f) + engines.inputFiles(f), f, "html", map[]).report
  }

  /** The report of a graded run and the store it leaves behind. */
  datatype RunResult = RunResult(report: Result<Option<string>, IoError>, disk: Disk)

  /**
    `run(reportType, repo, problem, ccid, submissionFiles)` on the store
    `disk`: the stored problem, parameterized for `ccid`, grades the
    submission; a problem that `Save` admits is written back with the
    solution outputs added.
   */
  function RunOutcome(engines: Engines, disk: Disk, reportType: string, repo: string, problem: string, ccid: string,
                      submissionFiles: Bundle): RunResult
  {
    match Lookup(disk, repo, problem)
    case Err(e) => RunResult(Err(e), disk)
    case Ok(stored) =>
      var files := Parameterize(engines.unzip(stored), ccid, engines.boot);
      var plan := engines.grade(submissionFiles, files, reportType, MetaData(repo, problem, ccid, engines.isLetterOrDigit));
      RunResult(Ok(plan.report), if Save(files) then Written(disk, engines.zip(files + plan.outputs), repo, problem) else disk)
  }

  /**
    A run changes the store only for a stored problem that has neither
    `param.js` nor `_outputs` files, and then only the archive file of that
    problem, which afterwards holds the problem with the solution outputs.
   */
  lemma {:induction false} RunCaches(engines: Engines, disk: Disk, reportType: string, repo: string, problem: string, ccid: string,
                                     submissionFiles: Bundle, repo': string, key': string)
    ensures var outcome := RunOutcome(engines, disk, reportType, repo, problem, ccid, submissionFiles);
      && (outcome.disk != disk ==>
            && Lookup(disk, repo, problem).Ok?
            && var stored := engines.unzip(Lookup(disk, repo, problem).value);
               var plan := engines.grade(submissionFiles, stored, reportType, MetaData(repo, problem, ccid, engines.isLetterOrDigit));
               && Save(stored)
               && Lookup(outcome.disk, repo, problem) == Ok(engines.zip(stored + plan.outputs)))
      && (ArchivePath(repo', key') != ArchivePath(repo, problem) ==> Lookup(outcome.disk, repo', key') == Lookup(disk, repo', key'))
  {
    var outcome := RunOutcome(engines, disk, reportType, repo, problem, ccid, submissionFiles);
    var stored := Lookup(disk, repo, problem);
    if stored.Ok? {
      var files := Parameterize(engines.unzip(stored.value), ccid, engines.boot);
      var plan := engines.grade(submissionFiles, files, reportType, MetaData(repo, problem, ccid, engines.isLetterOrDigit));
      SaveAfterParameterize(engines.unzip(stored.value), ccid, engines.boot);
      if Save(files) {
        ReadAfterWrite(disk, engines.zip(files + plan.outputs), repo, problem);
        WriteReachesAliases(disk, engines.zip(files + plan.outputs), repo, problem, repo', key');
      }
    }
  }

  // ---------------------------------------------------------------------------
  // Maps passed by reference

  /** A `Map<Path, byte[]>` that callers share and the pipeline updates in place. */
  class FileMap {
    var entries: Bundle

    constructor(entries: Bundle)
      ensures this.entries == entries
    {
      this.entries := entries;
    }
  }

  /** Puts every entry of `from` into a copy of `into`, one `put` at a time. */
  method PutAll(into: Bundle, from: Bundle) returns (r: Bundle)
    ensures forall k :: k in r <==> k in into || k in from
    ensures forall k :: k in r ==> r[k] == if k in from then from[k] else into[k]
  {
    r := into;
    var todo := from.Keys;
    while todo != {}
      invariant todo <= from.Keys
      invariant forall k :: k in r <==> k in into || (k in from && k !in todo)
      invariant forall k :: k in r ==> r[k] == if k in from && k !in todo then from[k] else into[k]
      decreases |todo|
    {
      var p :| p in todo;
      r := r[p := from[p]];
      todo := todo - {p};
    }
  }

  // ---------------------------------------------------------------------------
  // The service

  class CodeCheck {
    const probConn: ProblemConnector
    const engines: Engines

    constructor(probConn: ProblemConnector, engines: Engines)
      ensures this.probConn == probConn && this.engines == engines
    {
      this.probConn := probConn;
      this.engines := engines;
    }

    /**
      The delimiter scan over one file. The left and right delimiters are the
      engine's values of `delimiters[0]` and `delimiters[1]`; `None` is the
      `null` the source returns when it gives up on the file.
     */
    method ReplaceParametersInFile(contents: string, eval: string -> string) returns (r: Option<string>)
      ensures r == SubstituteFile(contents, eval)
    {
      var leftDelimiter := eval(LeftDelimiterExpr);
      var rightDelimiter := eval(RightDelimiterExpr);
      ghost var target := Substitute(contents, leftDelimiter, rightDelimiter, eval);
      var result := "";
      var from := 0;
      var to := -|rightDelimiter|;
      var done := false;
      while !done
        invariant -|rightDelimiter| <= to && to + |rightDelimiter| <= |contents|
        invariant !done ==> target == ScanTo(contents, leftDelimiter, rightDelimiter, eval, to, result)
        invariant done ==> target == Some(result)
        decreases !done, |contents| - (to + |rightDelimiter|)
      {
        from := IndexOf(contents, leftDelimiter, to + |rightDelimiter|);
        var nextTo := if from == -1 then -1 else IndexOf(contents, rightDelimiter, from + |leftDelimiter|);
        ScanToStep(contents, leftDelimiter, rightDelimiter, eval, to, result, from, nextTo);
        if from == -1 {
          if to == -1 {
            return None;
          } else {
            result := result + contents[to + |rightDelimiter|..];
            done := true;
          }
        } else {
          if nextTo == -1 {
            return None;
          } else {
            result := result + contents[to + |rightDelimiter|..from];
            to := nextTo;
            var toEval := contents[from + |leftDelimiter|..to];
            if Contains(toEval, leftDelimiter) {
              return None;
            }
            result := result + eval(toEval);
          }
        }
      }
      return Some(result);
    }

    /**
      Substitutes parameters into every file that is not excluded, in place,
      when the bundle has a `param.js`; tells whether it had one.
     */
    method ReplaceParametersInDirectory(studentId: string, problemFiles: FileMap) returns (parametric: bool)
      modifies problemFiles
      ensures parametric <==> ParamJs in old(problemFiles.entries)
      ensures problemFiles.entries == Parameterize(old(problemFiles.entries), studentId, engines.boot)
    {
      if ParamJs !in problemFiles.entries {
        return false;
      }
      ghost var original := problemFiles.entries;
      var eval := engines.boot(studentId, problemFiles.entries[ParamJs]);
      var todo := set p | p in problemFiles.entries && !Excluded(p);
      while todo != {}
        invariant todo <= original.Keys
        invariant forall p :: p in todo ==> !Excluded(p)
        invariant problemFiles.entries.Keys == original.Keys
        invariant forall p :: p in original ==>
          problemFiles.entries[p] == if p in todo || Excluded(p) then original[p] else Rewritten(original[p], eval)
        decreases |todo|
      {
        var p :| p in todo;
        var result := ReplaceParametersInFile(problemFiles.entries[p], eval);
        if result.Some? {
          problemFiles.entries := problemFiles.entries[p := result.value];
        }
        todo := todo - {p};
      }
      ParameterizeAll(original, studentId, engines.boot, problemFiles.entries);
      return true;
    }

    /** The bundle stored as problem `problemName` of `repo`, unzipped. */
    method LoadProblem(repo: string, problemName: string) returns (r: Result<FileMap, IoError>)
      ensures var stored := Lookup(probConn.delegate.disk, repo, problemName);
        && (r.Err? <==> stored.Err?)
        && (r.Err? ==> r.error == stored.error)
        && (r.Ok? ==> fresh(r.value) && r.value.entries == engines.unzip(stored.value))
    {
      var zipFile := probConn.Read(repo, problemName);
      if zipFile.Err? {
        return Err(zipFile.error);
      }
      var result := new FileMap(engines.unzip(zipFile.value));
      return Ok(result);
    }

    /** The stored bundle, parameterized for `studentId`. */
    method LoadProblemForStudent(repo: string, problemName: string, studentId: string) returns (r: Result<FileMap, IoError>)
      ensures var stored := Lookup(probConn.delegate.disk, repo, problemName);
        && (r.Err? <==> stored.Err?)
        && (r.Err? ==> r.error == stored.error)
        && (r.Ok? ==> fresh(r.value) && r.value.entries == Parameterize(engines.unzip(stored.value), studentId, engines.boot))
    {
      r := LoadProblem(repo, problemName);
      if r.Ok? {
        var _ := ReplaceParametersInDirectory(studentId, r.value);
      }
    }

    /** Zips the bundle and writes it as problem `problem` of `repo`. */
    method SaveProblem(repo: string, problem: string, problemFiles: FileMap)
      modifies probConn.delegate
      ensures probConn.delegate.disk == Written(old(probConn.delegate.disk), engines.zip(problemFiles.entries), repo, problem)
    {
      var problemZip := engines.zip(problemFiles.entries);
      probConn.Write(problemZip, repo, problem);
    }

    /**
      Grades a submission against a stored problem, parameterized for the
      student `ccid`. Only a bundle without `param.js` and without
      `_outputs` files is saved back, with the solution outputs added.
     */
    method Run(reportType: string, repo: string, problem: string, ccid: string, submissionFiles: Bundle)
      returns (r: Result<Option<string>, IoError>)
      modifies probConn.delegate
      ensures var outcome := RunOutcome(engines, old(probConn.delegate.disk), reportType, repo, problem, ccid, submissionFiles);
        r == outcome.report && probConn.delegate.disk == outcome.disk
    {
      var loaded := LoadProblemForStudent(repo, problem, ccid);
      if loaded.Err? {
        return Err(loaded.error);
      }
      var problemFiles := loaded.value;
      var save := Save(problemFiles.entries);
      var metaData := MetaData(repo, problem, ccid, engines.isLetterOrDigit);
      var plan := engines.grade(submissionFiles, problemFiles.entries, reportType, metaData);
      if save {
        // plan.writeSolutionOutputs(problemFiles)
        problemFiles.entries := problemFiles.entries + plan.outputs;
        SaveProblem(repo, problem, problemFiles);
      }
      return Ok(plan.report);
    }

    /** Grades a submission on its own: the submission is also the problem, and nothing is stored. */
    method RunSubmission(reportType: string, submissionFiles: Bundle) returns (r: Option<string>)
      ensures r == engines.grade(submissionFiles, submissionFiles, reportType, map[]).report
    {
      var problemFiles := PutAll(map[], submissionFiles);
      assert problemFiles == submissionFiles;
      var plan := engines.grade(submissionFiles, problemFiles, reportType, map[]);
      return plan.report;
    }

    /**
      Checks an uploaded problem: a parameterized copy is graded against its
      own solution and input files, and the original, unparameterized bundle
      is saved to the `ext` repository.
     */
    method CheckAndSave(problem: string, originalProblemFiles: FileMap, studentId: string) returns (r: Option<string>)
      modifies probConn.delegate
      ensures r == SelfCheckReport(engines, originalProblemFiles.entries, studentId)
      ensures probConn.delegate.disk == Written(old(probConn.delegate.disk), engines.zip(originalProblemFiles.entries), ExtRepo, problem)
    {
      var problemFiles := new FileMap(originalProblemFiles.entries);
      var isParametric := ReplaceParametersInDirectory(studentId, problemFiles);
      var submissionFiles := PutAll(map[], engines.solutionFiles(problemFiles.entries));
      submissionFiles := PutAll(submissionFiles, engines.inputFiles(problemFiles.entries));
      assert submissionFiles == engines.solutionFiles(problemFiles.entries) + engines.inputFiles(problemFiles.entries);
      var plan := engines.grade(submissionFiles, problemFiles.entries, "html", map[]);
      if !isParametric {
        // plan.writeSolutionOutputs(problemFiles), on the copy only
        problemFiles.entries := problemFiles.entries + plan.outputs;
      }
      SaveProblem(ExtRepo, problem, originalProblemFiles);
      return plan.report;
    }
  }
}
