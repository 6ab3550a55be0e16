/**
  The check service (`services.CheckService`): the reports of graded runs
  with their fallbacks, the echo of a form post, and the report archive of
  an NJS check.
 */
module CheckService {
  import opened Wrappers
  import opened JavaText
  import opened Bundles
  import opened ProblemConnector
  import opened CodeCheck

  /**
    `String.format("Timed out after %5.0f seconds\n", elapsed)`, with the
    elapsed time already rendered by `%5.0f` as `seconds`.
   */
  function TimeoutMessage(seconds: string): string
  {
    "Timed out after " + seconds + " seconds\n"
  }

  const NoReportMessage: string := "No report generated."

  /** `report == null || report.length() == 0 ? fallback : report`. */
  function Fallback(report: Option<string>, fallback: string): string
  {
    if report.None? || report.value == [] then fallback else report.value
  }

  /** With a non-empty fallback the caller always receives a non-empty report, and a second fallback changes nothing. */
  lemma {:induction false} FallbackNonEmpty(report: Option<string>, fallback: string)
    requires fallback != []
    ensures Fallback(report, fallback) != []
    ensures Fallback(Some(Fallback(report, fallback)), fallback) == Fallback(report, fallback)
  {
  }

  // ---------------------------------------------------------------------------
  // runFormPost

  /** The values of a field joined by ", ". */
  function Joined(values: seq<string>): string
  {
    if values == [] then []
    else if |values| == 1 then values[0]
    else values[0] + ", " + Joined(values[1..])
  }

  /** The line of one field: the key, then ": " and the joined values when there are any. */
  function FormLine(key: string, values: seq<string>): string
  {
    (if values == [] then key else key + ": " + Joined(values)) + "\n"
  }

  /** The lines of the fields, in iteration order. */
  function FormLines(entries: seq<(string, seq<string>)>): string
  {
    if entries == [] then []
    else FormLines(entries[..|entries| - 1]) + FormLine(entries[|entries| - 1].0, entries[|entries| - 1].1)
  }

  const FormHeader: string := "Processed form data:\n"

  /** Every value followed by ", ", as the inner loop appends them. */
  function Trailing(values: seq<string>): string
  {
    if values == [] then [] else Trailing(values[..|values| - 1]) + values[|values| - 1] + ", "
  }

  /** Dropping the last ", " of the trailing form gives the joined form. */
  lemma {:induction false} TrailingJoined(values: seq<string>)
    requires values != []
    ensures Trailing(values) == Joined(values) + ", "
    decreases |values|
  {
    if |values| > 1 {
      var init := values[..|values| - 1];
      TrailingJoined(init);
      JoinedSnoc(init, values[|values| - 1]);
      assert values == init + [values[|values| - 1]];
    }
  }

  lemma {:induction false} JoinedSnoc(values: seq<string>, v: string)
    requires values != []
    ensures Joined(values + [v]) == Joined(values) + ", " + v
    decreases |values|
  {
    var w := values + [v];
    if |values| == 1 {
      assert w[1..] == [v];
    } else {
      assert w[1..] == values[1..] + [v];
      JoinedSnoc(values[1..], v);
    }
  }

  /** `values.forEach(value -> report.append(value).append(", "))`. */
  method AppendValues(report: string, values: seq<string>) returns (r: string)
    ensures r == report + Trailing(values)
  {
    r := report;
    for j := 0 to |values|
      invariant r == report + Trailing(values[..j])
    {
      assert values[..j + 1][..j] == values[..j];
      r := r + values[j] + ", ";
    }
    assert values[..|values|] == values;
  }

  /** One pass of the outer loop of `runFormPost`: key and ": ", the values, the last two characters dropped, a line break. */
  method AppendField(report: string, key: string, values: seq<string>) returns (r: string)
    ensures r == report + FormLine(key, values)
  {
    r := AppendValues(report + key + ": ", values);
    ghost var text := if values == [] then key else key + ": " + Joined(values);
    if values != [] {
      TrailingJoined(values);
      Concat3(report, key + ": ", Trailing(values));
      Concat3(report, key + ": ", Joined(values));
      assert r == report + text + ", ";
    } else {
      assert r == report + key + ": ";
    }
    r := r[..|r| - 2];
    assert r == report + text;
    r := r + "\n";
    Concat3(report, text, "\n");
  }

  /**
    `runFormPost(formParams)`: the header, then one line per field;
    `entries` is the map's iteration order.
   */
  method RunFormPost(entries: seq<(string, seq<string>)>) returns (r: string)
    ensures r == FormHeader + FormLines(entries)
  {
    r := FormHeader;
    for i := 0 to |entries|
      invariant r == FormHeader + FormLines(entries[..i])
    {
      r := AppendField(r, entries[i].0, entries[i].1);
      assert entries[..i + 1][..i] == entries[..i];
      Concat3(FormHeader, FormLines(entries[..i]), FormLine(entries[i].0, entries[i].1));
    }
    assert entries[..|entries|] == entries;
  }

  lemma {:induction false} Concat3(a: string, b: string, c: string)
    ensures a + b + c == a + (b + c)
  {
  }

  /** A field whose key and values have no line break gives exactly one line. */
  predicate SingleLine(entry: (string, seq<string>))
  {
    CountChar(entry.0, '\n') == 0 && forall k :: 0 <= k < |entry.1| ==> CountChar(entry.1[k], '\n') == 0
  }

  lemma {:induction false} JoinedLines(values: seq<string>)
    requires forall k :: 0 <= k < |values| ==> CountChar(values[k], '\n') == 0
    ensures CountChar(Joined(values), '\n') == 0
    decreases |values|
  {
    if |values| > 1 {
      JoinedLines(values[1..]);
      CountAppend(values[0], ", ", '\n');
      CountAppend(values[0] + ", ", Joined(values[1..]), '\n');
    }
  }

  lemma {:induction false} FormLineCount(key: string, values: seq<string>)
    requires SingleLine((key, values))
    ensures CountChar(FormLine(key, values), '\n') == 1
  {
    JoinedLines(values);
    assert CountChar(": ", '\n') == 0;
    CountAppend(key, ": ", '\n');
    CountAppend(key + ": ", Joined(values), '\n');
    var text := if values == [] then key else key + ": " + Joined(values);
    assert CountChar("\n", '\n') == 1;
    CountAppend(text, "\n", '\n');
  }

  /** The fields give one line each. */
  lemma {:induction false} FormReportLines(entries: seq<(string, seq<string>)>)
    requires forall e :: e in entries ==> SingleLine(e)
    ensures CountChar(FormLines(entries), '\n') == |entries|
    decreases |entries|
  {
    if entries != [] {
      var init := entries[..|entries| - 1];
      var (key, values) := entries[|entries| - 1];
      assert forall e :: e in init ==> e in entries;
      FormReportLines(init);
      FormLineCount(key, values);
      CountAppend(FormLines(init), FormLine(key, values), '\n');
    }
  }

  // ---------------------------------------------------------------------------
  // The service

  /** Why `checkNJS` fails: the store's `IOException`, or a `null` report that the JSON parser refuses. */
  datatype NjsError = Io(error: IoError) | NullReport

  /**
    What `checkNJS` returns: the engine's JSON report, to which the files of
    the report archive are added (before signing and Base64 encoding) as its
    `zip` field.
   */
  datatype NjsResult = NjsResult(json: string, archive: Bundle)

  class CheckService {
    const codeCheck: CodeCheck

    constructor(codeCheck: CodeCheck)
      ensures this.codeCheck == codeCheck
    {
      this.codeCheck := codeCheck;
    }

    /** `checkHTML`: the HTML report of a run, or the timeout message when there is none. */
    method CheckHtml(repo: string, problem: string, ccid: string, submissionFiles: Bundle, seconds: string)
      returns (r: Result<string, IoError>)
      modifies codeCheck.probConn.delegate
      ensures var outcome := RunOutcome(codeCheck.engines, old(codeCheck.probConn.delegate.disk), "html", repo, problem, ccid, submissionFiles);
        && codeCheck.probConn.delegate.disk == outcome.disk
        && (outcome.report.Err? ==> r == Err(outcome.report.error))
        && (outcome.report.Ok? ==> r == Ok(Fallback(outcome.report.value, TimeoutMessage(seconds))))
    {
      var report := codeCheck.Run("html", repo, problem, ccid, submissionFiles);
      if report.Err? {
        return Err(report.error);
      }
      var text := report.value;
      if text.None? || text.value == [] {
        return Ok(TimeoutMessage(seconds));
      }
      return Ok(text.value);
    }

    /** `run(submissionFiles)`: the text report of a submission graded on its own, or the timeout message. */
    method Run(submissionFiles: Bundle, seconds: string) returns (r: string)
      ensures r == Fallback(codeCheck.engines.grade(submissionFiles, submissionFiles, "Text", map[]).report, TimeoutMessage(seconds))
    {
      var report := codeCheck.RunSubmission("Text", submissionFiles);
      if report.None? || report.value == [] {
        return TimeoutMessage(seconds);
      }
      return report.value;
    }

    /** `runFileUpload`: the report of a submission graded on its own, or "No report generated.". */
    method RunFileUpload(repo: string, submissionFiles: Bundle) returns (r: string)
      ensures r == Fallback(codeCheck.engines.grade(submissionFiles, submissionFiles, "FileUpload", map[]).report, NoReportMessage)
    {
      var report := codeCheck.RunSubmission("FileUpload", submissionFiles);
      if report.None? || report.value == [] {
        return NoReportMessage;
      }
      return report.value;
    }

    /**
      The copying loop of `checkNJS`: each submission file is put back
      unchanged into the submission map and copied into the report archive
      and the student work.
     */
    method CopySubmission(submissionFiles: FileMap) returns (archive: Bundle, studentWork: map<string, string>)
      modifies submissionFiles
      ensures submissionFiles.entries == old(submissionFiles.entries)
      ensures forall p :: p in archive <==> p in submissionFiles.entries
      ensures forall p :: p in archive ==> archive[p] == submissionFiles.entries[p]
      ensures forall p :: p in studentWork <==> p in submissionFiles.entries
      ensures forall p :: p in studentWork ==> studentWork[p] == submissionFiles.entries[p]
    {
      studentWork := map[];
      archive := map[];
      var todo := submissionFiles.entries.Keys;
      while todo != {}
        invariant todo <= submissionFiles.entries.Keys
        invariant submissionFiles.entries == old(submissionFiles.entries)
        invariant forall p :: p in archive <==> p in submissionFiles.entries && p !in todo
        invariant forall p :: p in archive ==> archive[p] == submissionFiles.entries[p]
        invariant forall p :: p in studentWork <==> p in submissionFiles.entries && p !in todo
        invariant forall p :: p in studentWork ==> studentWork[p] == submissionFiles.entries[p]
        decreases |todo|
      {
        var p :| p in todo;
        var contents := submissionFiles.entries[p];
        submissionFiles.entries := submissionFiles.entries[p := contents];
        archive := archive[p := contents];
        studentWork := studentWork[p := contents];
        todo := todo - {p};
      }
    }

    /**
      `checkNJS`: the submission is copied into the report archive, each file
      under its own path, and put back into the submission map unchanged;
      the student work it also builds is never used and is dropped here.
      After the run, `report.html` holds the `report` field of the JSON
      report, which `reportOf` extracts.
     */
    method CheckNjs(repo: string, problem: string, ccid: string, submissionFiles: FileMap, reportOf: string -> string)
      returns (r: Result<NjsResult, NjsError>)
      modifies codeCheck.probConn.delegate, submissionFiles
      ensures submissionFiles.entries == old(submissionFiles.entries)
      ensures var outcome := RunOutcome(codeCheck.engines, old(codeCheck.probConn.delegate.disk), "NJS", repo, problem, ccid,
                                        old(submissionFiles.entries));
        && codeCheck.probConn.delegate.disk == outcome.disk
        && (outcome.report.Err? ==> r == Err(Io(outcome.report.error)))
        && (outcome.report == Ok(None) ==> r == Err(NullReport))
        && (outcome.report.Ok? && outcome.report.value.Some? ==>
              && r.Ok?
              && r.value.json == outcome.report.value.value
              && (forall p :: p in r.value.archive <==> p in old(submissionFiles.entries) || p == ReportHtml)
              && r.value.archive[ReportHtml] == reportOf(r.value.json)
              && (forall p :: p in r.value.archive && p != ReportHtml ==> r.value.archive[p] == old(submissionFiles.entries)[p]))
    {
      var reportZipFiles, studentWork := CopySubmission(submissionFiles);
      var report := codeCheck.Run("NJS", repo, problem, ccid, submissionFiles.entries);
      if report.Err? {
        return Err(Io(report.error));
      }
      if report.value.None? {
        return Err(NullReport);
      }
      var json := report.value.value;
      var reportHtml := reportOf(json);
      reportZipFiles := reportZipFiles[ReportHtml := reportHtml];
      return Ok(NjsResult(json, reportZipFiles));
    }
  }
}
