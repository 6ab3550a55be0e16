/**
  The upload controller (`controllers.Upload`): a problem arrives as numbered
  form fields or as a zip archive, gets an edit key, is checked and stored in
  the `ext` repository; the edit key guards every later edit.
 */
module Upload {
  import opened Wrappers
  import opened JavaText
  import opened Bundles
  import opened ProblemConnector
  import opened CodeCheck

  /** `request.body().asFormUrlEncoded()`: each field name with its values. */
  type FormParams = map<string, seq<string>>

  /** What an endpoint answers. */
  datatype Response =
    | Html(body: string)            // 200 with an HTML page
    | BadRequest(message: string)   // 400 with a plain-text message
    | ServerError                   // 500 with the stack trace, whose text is not modelled
    | EditView(problem: string, files: map<string, string>, editKey: string, problemUrl: string)

  // ---------------------------------------------------------------------------
  // The numbered form fields of `uploadFiles`

  function FilenameKey(n: nat): string
  {
    "filename" + Decimal(n)
  }

  function ContentsKey(n: nat): string
  {
    "contents" + Decimal(n)
  }

  /**
    Field `n` names a file: its first value is not blank, that is, not empty
    after `trim()` (see `TrimEmptyIff`).
   */
  predicate NamesFile(params: FormParams, n: nat)
  {
    FilenameKey(n) in params && params[FilenameKey(n)] != [] && !AllSpace(params[FilenameKey(n)][0])
  }

  /**
    Field `n` makes the loop throw: the name has no value, or a non-blank name
    has no contents field or a contents field without a value.
   */
  predicate Malformed(params: FormParams, n: nat)
  {
    && FilenameKey(n) in params
    && (|| params[FilenameKey(n)] == []
        || (!AllSpace(params[FilenameKey(n)][0]) && (ContentsKey(n) !in params || params[ContentsKey(n)] == [])))
  }

  /** The path that field `n` names. */
  function NameOf(params: FormParams, n: nat): Path
    requires NamesFile(params, n)
  {
    PathOf(params[FilenameKey(n)][0])
  }

  /** The contents that field `n` supplies, with every CR LF turned into LF. */
  function ContentsOf(params: FormParams, n: nat): string
    requires NamesFile(params, n) && !Malformed(params, n)
  {
    ReplaceCrlf(params[ContentsKey(n)][0])
  }

  /** The fields `filename1` up to `filename<n - 1>` are all present. */
  predicate PresentBelow(params: FormParams, n: nat)
  {
    forall i :: 1 <= i < n ==> FilenameKey(i) in params
  }

  lemma {:induction false} FilenameKeyInjective(a: nat, b: nat)
    requires FilenameKey(a) == FilenameKey(b)
    ensures a == b
  {
    assert FilenameKey(a)[8..] == Decimal(a);
    assert FilenameKey(b)[8..] == Decimal(b);
    DecimalInjective(a, b);
  }

  lemma {:induction false} FilenameKeysCount(n: nat)
    requires n >= 1
    ensures |set i | 1 <= i < n :: FilenameKey(i)| == n - 1
    decreases n
  {
    var keys := set i | 1 <= i < n :: FilenameKey(i);
    if n == 1 {
      assert keys == {};
    } else {
      FilenameKeysCount(n - 1);
      var below := set i | 1 <= i < n - 1 :: FilenameKey(i);
      assert keys == below + {FilenameKey(n - 1)};
      if FilenameKey(n - 1) in below {
        var i :| 1 <= i < n - 1 && FilenameKey(i) == FilenameKey(n - 1);
        FilenameKeyInjective(i, n - 1);
      }
    }
  }

  lemma {:induction false} SubsetSize<T>(a: set<T>, b: set<T>)
    requires a <= b
    ensures |a| <= |b|
    decreases |a|
  {
    if a != {} {
      var x :| x in a;
      SubsetSize(a - {x}, b - {x});
    }
  }

  /** The loop can only run as many rounds as the form has fields. */
  lemma {:induction false} KeysBound(params: FormParams, n: nat)
    requires n >= 1 && PresentBelow(params, n)
    ensures n - 1 <= |params|
  {
    FilenameKeysCount(n);
    SubsetSize(set i | 1 <= i < n :: FilenameKey(i), params.Keys);
  }

  /**
    The loop of `uploadFiles` from field `n` on, with `files` collected so
    far; `None` where the loop throws.
   */
  function FormFiles(params: FormParams, n: nat, files: Bundle): Option<Bundle>
    requires n >= 1 && PresentBelow(params, n)
    decreases |params| + 1 - n
  {
    if FilenameKey(n) !in params then Some(files)
    else
      KeysBound(params, n + 1);
      if Malformed(params, n) then None
      else if !NamesFile(params, n) then FormFiles(params, n + 1, files)
      else FormFiles(params, n + 1, files[NameOf(params, n) := ContentsOf(params, n)])
  }

  /** The first absent field is field `k`. */
  predicate StopsAt(params: FormParams, n: nat, k: nat)
  {
    n >= 1 && n <= k && PresentBelow(params, k) && FilenameKey(k) !in params
  }

  /** The loop throws exactly when one of the fields it reads is malformed. */
  lemma {:induction false} FormFilesFails(params: FormParams, n: nat, k: nat, files: Bundle)
    requires StopsAt(params, n, k)
    ensures FormFiles(params, n, files).None? <==> exists i :: n <= i < k && Malformed(params, i)
    decreases k - n
  {
    if n < k {
      KeysBound(params, n + 1);
      if !Malformed(params, n) {
        var next := if NamesFile(params, n) then files[NameOf(params, n) := ContentsOf(params, n)] else files;
        FormFilesFails(params, n + 1, k, next);
        if exists i :: n <= i < k && Malformed(params, i) {
          var i :| n <= i < k && Malformed(params, i);
          assert i != n;
        }
      }
    }
  }

  /**
    The collected paths are the ones collected before and the paths of the
    fields from `n` on whose names are not blank.
   */
  lemma {:induction false} FormFilesKeys(params: FormParams, n: nat, k: nat, files: Bundle, p: Path)
    requires StopsAt(params, n, k) && FormFiles(params, n, files).Some?
    ensures p in FormFiles(params, n, files).value <==>
      p in files || exists i :: n <= i < k && NamesFile(params, i) && NameOf(params, i) == p
    decreases k - n
  {
    if n < k {
      KeysBound(params, n + 1);
      var next := if NamesFile(params, n) then files[NameOf(params, n) := ContentsOf(params, n)] else files;
      assert FormFiles(params, n, files) == FormFiles(params, n + 1, next);
      FormFilesKeys(params, n + 1, k, next, p);
      if NamesFile(params, n) && p == NameOf(params, n) {
        assert p in next;
      } else {
        assert p in next <==> p in files;
        assert forall i :: n <= i < k && NamesFile(params, i) && NameOf(params, i) == p ==> n + 1 <= i;
      }
    }
  }

  /** A path that no field names again later holds the contents of the field that named it. */
  lemma {:induction false} FormFilesLastWins(params: FormParams, n: nat, k: nat, files: Bundle, i: nat)
    requires StopsAt(params, n, k) && FormFiles(params, n, files).Some?
    requires n <= i < k && NamesFile(params, i)
    requires forall j :: i < j < k && NamesFile(params, j) ==> NameOf(params, j) != NameOf(params, i)
    ensures !Malformed(params, i)
    ensures NameOf(params, i) in FormFiles(params, n, files).value
    ensures FormFiles(params, n, files).value[NameOf(params, i)] == ContentsOf(params, i)
    decreases k - n
  {
    KeysBound(params, n + 1);
    var next := if NamesFile(params, n) then files[NameOf(params, n) := ContentsOf(params, n)] else files;
    if i == n {
      FormFilesKept(params, n + 1, k, next, NameOf(params, n));
    } else {
      FormFilesLastWins(params, n + 1, k, next, i);
    }
  }

  /** A path that no field from `n` on names keeps what was collected before. */
  lemma {:induction false} FormFilesKept(params: FormParams, n: nat, k: nat, files: Bundle, p: Path)
    requires StopsAt(params, n, k) && FormFiles(params, n, files).Some?
    requires p in files
    requires forall j :: n <= j < k && NamesFile(params, j) ==> NameOf(params, j) != p
    ensures p in FormFiles(params, n, files).value
    ensures FormFiles(params, n, files).value[p] == files[p]
    decreases k - n
  {
    if n < k {
      KeysBound(params, n + 1);
      var next := if NamesFile(params, n) then files[NameOf(params, n) := ContentsOf(params, n)] else files;
      FormFilesKept(params, n + 1, k, next, p);
    }
  }

  // ---------------------------------------------------------------------------
  // fixZip

  /** The path `fixZip` files an entry under: a leading `_inputs` name is dropped. */
  function Fixed(p: Path): (q: Path)
    ensures NameCount(p) > 1 && FirstName(p) == InputsDir ==> p == InputsDir + "/" + q
    ensures !(NameCount(p) > 1 && FirstName(p) == InputsDir) ==> q == p
  {
    if NameCount(p) > 1 && FirstName(p) == InputsDir then DropFirstName(p) else p
  }

  /**
    The map `fixZip` builds when it meets the entries of `files` in the order
    `order` (the iteration order of the unzipped map).
   */
  function FixedBundle(files: Bundle, order: seq<Path>): Bundle
    requires forall i :: 0 <= i < |order| ==> order[i] in files
  {
    if order == [] then map[]
    else
      var last := order[|order| - 1];
      FixedBundle(files, order[..|order| - 1])[Fixed(last) := files[last]]
  }

  /** The keys of the fixed map are the fixed paths of the entries met. */
  lemma {:induction false} FixedBundleKeys(files: Bundle, order: seq<Path>)
    requires forall i :: 0 <= i < |order| ==> order[i] in files
    ensures forall q :: q in FixedBundle(files, order) <==> exists i :: 0 <= i < |order| && Fixed(order[i]) == q
    decreases |order|
  {
    if order != [] {
      var init := order[..|order| - 1];
      FixedBundleKeys(files, init);
      forall q | exists i :: 0 <= i < |order| && Fixed(order[i]) == q
        ensures q in FixedBundle(files, order)
      {
        var i :| 0 <= i < |order| && Fixed(order[i]) == q;
        if i < |order| - 1 {
          assert init[i] == order[i];
        }
      }
      forall q | q in FixedBundle(files, init)
        ensures exists i :: 0 <= i < |order| && Fixed(order[i]) == q
      {
        var i :| 0 <= i < |init| && Fixed(init[i]) == q;
        assert order[i] == init[i];
      }
    }
  }

  /** An entry whose fixed path no later entry shares keeps its contents under that path. */
  lemma {:induction false} FixedBundleLastWins(files: Bundle, order: seq<Path>, i: nat)
    requires forall j :: 0 <= j < |order| ==> order[j] in files
    requires i < |order|
    requires forall j :: i < j < |order| ==> Fixed(order[j]) != Fixed(order[i])
    ensures Fixed(order[i]) in FixedBundle(files, order)
    ensures FixedBundle(files, order)[Fixed(order[i])] == files[order[i]]
    decreases |order|
  {
    if i < |order| - 1 {
      var init := order[..|order| - 1];
      assert init[i] == order[i];
      FixedBundleLastWins(files, init, i);
    }
  }

  /** An archive without `_inputs` entries comes through `fixZip` unchanged. */
  lemma {:induction false} FixedBundleNoInputs(files: Bundle, order: seq<Path>)
    requires forall i :: 0 <= i < |order| ==> order[i] in files
    requires forall p :: p in files ==> p in order
    requires forall p :: p in files ==> !(NameCount(p) > 1 && FirstName(p) == InputsDir)
    ensures FixedBundle(files, order) == files
  {
    FixedBundleKeeps(files, order);
    var r := FixedBundle(files, order);
    forall p | p in files ensures p in r {
      var i :| 0 <= i < |order| && order[i] == p;
    }
    assert r.Keys == files.Keys;
  }

  lemma {:induction false} FixedBundleKeeps(files: Bundle, order: seq<Path>)
    requires forall i :: 0 <= i < |order| ==> order[i] in files
    requires forall p :: p in files ==> !(NameCount(p) > 1 && FirstName(p) == InputsDir)
    ensures forall p :: p in FixedBundle(files, order) <==> p in order
    ensures forall p :: p in FixedBundle(files, order) ==> FixedBundle(files, order)[p] == files[p]
    decreases |order|
  {
    if order != [] {
      var init := order[..|order| - 1];
      FixedBundleKeeps(files, init);
      assert order == init + [order[|order| - 1]];
    }
  }

  /** `order` visits every path of `files` exactly once, as iterating over a map's entries does. */
  predicate Enumerates(files: Bundle, order: seq<Path>)
  {
    && (forall i :: 0 <= i < |order| ==> order[i] in files)
    && (forall p :: p in files ==> p in order)
    && (forall i, j :: 0 <= i < j < |order| ==> order[i] != order[j])
  }

  /**
    Over a full iteration of the archive, the fixed map holds the fixed path
    of every entry and nothing else, and an entry whose fixed path no other
    entry shares keeps its contents.
   */
  lemma {:induction false} FixedBundleCovers(files: Bundle, order: seq<Path>)
    requires Enumerates(files, order)
    ensures forall q :: q in FixedBundle(files, order) <==> exists p :: p in files && Fixed(p) == q
    ensures forall p :: p in files && (forall p' :: p' in files && p' != p ==> Fixed(p') != Fixed(p)) ==>
      Fixed(p) in FixedBundle(files, order) && FixedBundle(files, order)[Fixed(p)] == files[p]
  {
    var r := FixedBundle(files, order);
    FixedBundleKeys(files, order);
    forall q | exists p :: p in files && Fixed(p) == q
      ensures q in r
    {
      var p :| p in files && Fixed(p) == q;
      var i :| 0 <= i < |order| && order[i] == p;
    }
    forall p | p in files && (forall p' :: p' in files && p' != p ==> Fixed(p') != Fixed(p))
      ensures Fixed(p) in r && r[Fixed(p)] == files[p]
    {
      var i :| 0 <= i < |order| && order[i] == p;
      forall j | i < j < |order|
        ensures Fixed(order[j]) != Fixed(order[i])
      {
        assert order[j] in files && order[j] != p;
      }
      FixedBundleLastWins(files, order, i);
    }
  }

  /** `fixZip(problemFiles)`, visiting the entries in the order `order`. */
  method FixZip(problemFiles: Bundle, order: seq<Path>) returns (result: Bundle)
    requires Enumerates(problemFiles, order)
    ensures result == FixedBundle(problemFiles, order)
  {
    result := map[];
    for i := 0 to |order|
      invariant result == FixedBundle(problemFiles, order[..i])
    {
      var path := order[i];
      var contents := problemFiles[path];
      if NameCount(path) > 1 && FirstName(path) == InputsDir {
        path := DropFirstName(path);
      }
      assert order[..i + 1][..i] == order[..i];
      result := result[path := contents];
    }
    assert order[..|order|] == order;
  }

  // ---------------------------------------------------------------------------
  // The edit key and the edit view

  /** `checkEditKey` on a loaded bundle: a stored key that equals the given one once trimmed. */
  predicate EditKeyMatches(files: Bundle, editKey: string)
  {
    EditKeyFile in files && editKey == Trim(files[EditKeyFile])
  }

  /**
    The key matches exactly when it is trimmed and the stored key is the
    given key with strippable characters around it.
   */
  lemma {:induction false} EditKeyMatchesIff(files: Bundle, editKey: string)
    ensures EditKeyMatches(files, editKey) <==>
      && EditKeyFile in files && IsTrimmed(editKey)
      && exists a, b :: AllSpace(a) && AllSpace(b) && files[EditKeyFile] == a + editKey + b
  {
    if EditKeyFile in files {
      TrimIff(files[EditKeyFile], editKey);
    }
  }

  /**
    The files shown for editing: every file whose first name is not
    `_outputs`, without `edit.key`.
   */
  method EditableFiles(problemFiles: Bundle) returns (filesAndContents: map<string, string>)
    ensures forall p :: p in filesAndContents <==> p in problemFiles && FirstName(p) != OutputsDir && p != EditKeyFile
    ensures forall p :: p in filesAndContents ==> filesAndContents[p] == problemFiles[p]
  {
    filesAndContents := map[];
    var todo := problemFiles.Keys;
    while todo != {}
      invariant todo <= problemFiles.Keys
      invariant forall p :: p in filesAndContents <==> p in problemFiles && p !in todo && FirstName(p) != OutputsDir
      invariant forall p :: p in filesAndContents ==> filesAndContents[p] == problemFiles[p]
      decreases |todo|
    {
      var p :| p in todo;
      if FirstName(p) != OutputsDir {
        filesAndContents := filesAndContents[p := problemFiles[p]];
      }
      todo := todo - {p};
    }
    filesAndContents := filesAndContents - {EditKeyFile};
  }

  // ---------------------------------------------------------------------------
  // The response page of an upload

  const PageHead: string :=
    "<html><head><title></title><meta http-equiv=\"Content-Type\" content=\"text/html; charset=UTF-8\"/>"
    + "<body style=\"font-family: sans-serif\">"
  const PageTail: string := "</body></html>"

  /** The page `checkAndSaveProblem` answers with: the report, or the success message. */
  function ResultPage(problem: string, report: Option<string>): string
  {
    PageHead
    + (match report
       case Some(text) => "<pre>" + text + "</pre>"
       case None => "<p>Upload of problem " + problem + " was successful.</p>")
    + PageTail
  }

  /** The page building of `checkAndSaveProblem`, appended piece by piece. */
  method RenderPage(problem: string, report: Option<string>) returns (response: string)
    ensures response == ResultPage(problem, report)
  {
    response := PageHead;
    if report.Some? {
      response := response + "<pre>" + report.value + "</pre>";
    } else {
      response := response + "<p>Upload of problem " + problem + " was successful.</p>";
    }
    response := response + PageTail;
  }

  /** What an upload reports: nothing for a tracer problem, else the self-check. */
  function UploadReport(engines: Engines, files: Bundle, studentId: string): Option<string>
  {
    if TracerJs in files then None else SelfCheckReport(engines, files, studentId)
  }

  // ---------------------------------------------------------------------------
  // The controller

  class Upload {
    const codeCheck: CodeCheck

    constructor(codeCheck: CodeCheck)
      ensures this.codeCheck == codeCheck
    {
      this.codeCheck := codeCheck;
    }

    /**
      The form-field loop of `uploadFiles`: `filename1`, `filename2`, … up to
      the first missing one; a blank name is skipped.
     */
    method CollectFiles(params: FormParams) returns (r: Option<Bundle>)
      ensures r == FormFiles(params, 1, map[])
    {
      var n := 1;
      var problemFiles: Bundle := map[];
      while FilenameKey(n) in params
        invariant n >= 1 && PresentBelow(params, n)
        invariant FormFiles(params, n, problemFiles) == FormFiles(params, 1, map[])
        decreases |params| + 1 - n
      {
        KeysBound(params, n + 1);
        var names := params[FilenameKey(n)];
        if names == [] {
          return None;
        }
        var filename := names[0];
        TrimEmptyIff(filename);
        if Trim(filename) != [] {
          if ContentsKey(n) !in params || params[ContentsKey(n)] == [] {
            return None;
          }
          var contents := ReplaceCrlf(params[ContentsKey(n)][0]);
          problemFiles := problemFiles[PathOf(filename) := contents];
        }
        n := n + 1;
      }
      return Some(problemFiles);
    }

    /**
      `checkAndSaveProblem`: a tracer problem is only saved, any other is
      checked and saved; the page shows the report or the success message.
     */
    method CheckAndSaveProblem(problem: string, problemFiles: Bundle, studentId: string) returns (response: string)
      modifies codeCheck.probConn.delegate
      ensures response == ResultPage(problem, UploadReport(codeCheck.engines, problemFiles, studentId))
      ensures codeCheck.probConn.delegate.disk
        == Written(old(codeCheck.probConn.delegate.disk), codeCheck.engines.zip(problemFiles), ExtRepo, problem)
    {
      var report: Option<string> := None;
      var files := new FileMap(problemFiles);
      if TracerJs in problemFiles {
        codeCheck.SaveProblem(ExtRepo, problem, files);
      } else {
        report := codeCheck.CheckAndSave(problem, files, studentId);
      }
      response := RenderPage(problem, report);
    }

    /**
      `uploadFiles(formData, problem, editKey, request)`: the form's files,
      with `edit.key` set to the given key whether or not the form had one,
      are checked and saved as `problem`.
     */
    method UploadFiles(params: FormParams, problem: Option<string>, editKey: string, studentId: string)
      returns (response: Response)
      modifies codeCheck.probConn.delegate
      ensures problem.None? ==>
        response == BadRequest("No problem id") && unchanged(codeCheck.probConn.delegate)
      ensures problem.Some? && FormFiles(params, 1, map[]).None? ==>
        response == ServerError && unchanged(codeCheck.probConn.delegate)
      ensures problem.Some? && FormFiles(params, 1, map[]).Some? ==>
        var files := FormFiles(params, 1, map[]).value[EditKeyFile := editKey];
        && response == Html(ResultPage(problem.value, UploadReport(codeCheck.engines, files, studentId)))
        && codeCheck.probConn.delegate.disk
           == Written(old(codeCheck.probConn.delegate.disk), codeCheck.engines.zip(files), ExtRepo, problem.value)
    {
      if problem.None? {
        return BadRequest("No problem id");
      }
      var problemFiles := CollectFiles(params);
      if problemFiles.None? {
        return ServerError;
      }
      var files := problemFiles.value[EditKeyFile := editKey];
      var page := CheckAndSaveProblem(problem.value, files, studentId);
      return Html(page);
    }

    /**
      The three-string `uploadFiles(request, problem, editKey)` as written:
      its call passes `request` and two freshly generated ids, three
      `String`s, and so resolves to itself, whatever its arguments. `ids`
      holds the ids that `createPublicUID` and `createPrivateUID` generate
      in each nested call, one pair per stack frame the thread still has
      room for. Every request that reaches this overload, a direct POST to
      `/upload/files` or the forwarding of `editedFiles`, recurses until the
      stack is exhausted; the `StackOverflowError` is not an `Exception`,
      escapes every handler and ends the request with status 500. Nothing
      is stored.
     */
    method UploadFilesAsWritten(request: string, problem: Option<string>, editKey: Option<string>, ids: seq<(string, string)>)
      returns (response: Response)
      ensures response == ServerError
      decreases |ids|
    {
      if ids == [] {
        // The stack is exhausted: the error escapes to the runtime.
        return ServerError;
      }
      var (freshId, freshKey) := ids[0];
      response := UploadFilesAsWritten(request, Some(freshId), Some(freshKey), ids[1..]);
    }

    /**
      `uploadProblem(request, problem, editKey, form)`: the unzipped archive,
      fixed by `fixZip`, gets `edit.key` only where it has none, and is
      checked and saved as `problem`. `order` is the iteration order of the
      unzipped map.
     */
    method UploadProblem(problem: Option<string>, editKey: string, contents: Bytes, order: seq<Path>, studentId: string)
      returns (response: Response)
      requires Enumerates(codeCheck.engines.unzip(contents), order)
      modifies codeCheck.probConn.delegate
      ensures problem.None? ==>
        response == BadRequest("No problem id") && unchanged(codeCheck.probConn.delegate)
      ensures problem.Some? ==>
        var fixed := FixedBundle(codeCheck.engines.unzip(contents), order);
        var files := if EditKeyFile in fixed then fixed else fixed[EditKeyFile := editKey];
        && response == Html(ResultPage(problem.value, UploadReport(codeCheck.engines, files, studentId)))
        && codeCheck.probConn.delegate.disk
           == Written(old(codeCheck.probConn.delegate.disk), codeCheck.engines.zip(files), ExtRepo, problem.value)
        && (forall q :: q in files <==> q == EditKeyFile || exists p :: p in codeCheck.engines.unzip(contents) && Fixed(p) == q)
    {
      if problem.None? {
        return BadRequest("No problem id");
      }
      FixedBundleCovers(codeCheck.engines.unzip(contents), order);
      var problemFiles := codeCheck.engines.unzip(contents);
      problemFiles := FixZip(problemFiles, order);
      if EditKeyFile !in problemFiles {
        problemFiles := problemFiles[EditKeyFile := editKey];
      }
      var page := CheckAndSaveProblem(problem.value, problemFiles, studentId);
      return Html(page);
    }

    /** `checkEditKey`: loads the stored problem; the `IOException` of a missing one is passed on. */
    method CheckEditKey(problem: string, editKey: string) returns (r: Result<bool, IoError>)
      ensures var stored := Lookup(codeCheck.probConn.delegate.disk, ExtRepo, problem);
        && (r.Err? <==> stored.Err?)
        && (r.Err? ==> r.error == stored.error)
        && (r.Ok? ==> r.value == EditKeyMatches(codeCheck.engines.unzip(stored.value), editKey))
    {
      var problemFiles := codeCheck.LoadProblem(ExtRepo, problem);
      if problemFiles.Err? {
        return Err(problemFiles.error);
      }
      var files := problemFiles.value.entries;
      if EditKeyFile in files {
        var correctEditKey := files[EditKeyFile];
        return Ok(editKey == Trim(correctEditKey));
      } else {
        return Ok(false);
      }
    }

    /**
      `editKeySubmit`: with the right key, the stored files except the
      `_outputs` ones and `edit.key`, for the edit page.
     */
    method EditKeySubmit(request: string, problem: string, editKey: string) returns (response: Response)
      ensures problem == "" ==> response == BadRequest("No problem id")
      ensures problem != "" ==>
        var stored := Lookup(codeCheck.probConn.delegate.disk, ExtRepo, problem);
        && (stored.Err? ==> response == BadRequest("Problem not found: " + problem))
        && (stored.Ok? && !EditKeyMatches(codeCheck.engines.unzip(stored.value), editKey) ==>
              response == BadRequest("Wrong edit key " + editKey + " for problem " + problem))
        && (stored.Ok? && EditKeyMatches(codeCheck.engines.unzip(stored.value), editKey) ==>
              var files := codeCheck.engines.unzip(stored.value);
              && response.EditView?
              && response.problem == problem
              && response.editKey == files[EditKeyFile]
              && response.problemUrl == request
              && (forall p :: p in response.files <==> p in files && FirstName(p) != OutputsDir && p != EditKeyFile)
              && (forall p :: p in response.files ==> response.files[p] == files[p]))
    {
      if problem == "" {
        return BadRequest("No problem id");
      }
      var loaded := codeCheck.LoadProblem(ExtRepo, problem);
      if loaded.Err? {
        return BadRequest("Problem not found: " + problem);
      }
      var problemFiles := loaded.value.entries;
      if EditKeyFile !in problemFiles {
        return BadRequest("Wrong edit key " + editKey + " for problem " + problem);
      }
      var correctEditKey := problemFiles[EditKeyFile];
      if editKey != Trim(correctEditKey) {
        return BadRequest("Wrong edit key " + editKey + " for problem " + problem);
      }
      var filesAndContents := EditableFiles(problemFiles);
      var problemUrl := request;
      return EditView(problem, filesAndContents, correctEditKey, problemUrl);
    }

    /**
      `editedFiles` as written: with the right key it calls the three-string
      `uploadFiles`, which calls itself until the stack overflows; the
      `StackOverflowError` is not an `Exception`, escapes both handlers and
      ends the request with status 500. Nothing is stored. `ids` are the
      ids the nested calls generate, as for `UploadFilesAsWritten`.
     */
    method EditedFilesAsWritten(request: string, problem: string, editKey: string, ids: seq<(string, string)>) returns (response: Response)
      ensures var stored := Lookup(codeCheck.probConn.delegate.disk, ExtRepo, problem);
        && (stored.Err? ==> response == BadRequest("Problem not found: " + problem))
        && (stored.Ok? && !EditKeyMatches(codeCheck.engines.unzip(stored.value), editKey) ==>
              response == BadRequest("Wrong edit key " + editKey + " in problem " + problem))
        && (stored.Ok? && EditKeyMatches(codeCheck.engines.unzip(stored.value), editKey) ==>
              response == ServerError)
    {
      var ok := CheckEditKey(problem, editKey);
      if ok.Err? {
        return BadRequest("Problem not found: " + problem);
      }
      if !ok.value {
        return BadRequest("Wrong edit key " + editKey + " in problem " + problem);
      }
      response := UploadFilesAsWritten(request, Some(problem), Some(editKey), ids);
    }

    /**
      `editedFiles` as intended: with the right key, the form's files are
      uploaded again under the same problem and key.
     */
    method EditedFiles(params: FormParams, problem: string, editKey: string, studentId: string) returns (response: Response)
      modifies codeCheck.probConn.delegate
      ensures var stored := Lookup(old(codeCheck.probConn.delegate.disk), ExtRepo, problem);
        && (stored.Err? ==>
              response == BadRequest("Problem not found: " + problem) && unchanged(codeCheck.probConn.delegate))
        && (stored.Ok? && !EditKeyMatches(codeCheck.engines.unzip(stored.value), editKey) ==>
              response == BadRequest("Wrong edit key " + editKey + " in problem " + problem)
              && unchanged(codeCheck.probConn.delegate))
        && (stored.Ok? && EditKeyMatches(codeCheck.engines.unzip(stored.value), editKey)
            && FormFiles(params, 1, map[]).None? ==>
              response == ServerError && unchanged(codeCheck.probConn.delegate))
        && (stored.Ok? && EditKeyMatches(codeCheck.engines.unzip(stored.value), editKey)
            && FormFiles(params, 1, map[]).Some? ==>
              var files := FormFiles(params, 1, map[]).value[EditKeyFile := editKey];
              && response == Html(ResultPage(problem, UploadReport(codeCheck.engines, files, studentId)))
              && codeCheck.probConn.delegate.disk
                 == Written(old(codeCheck.probConn.delegate.disk), codeCheck.engines.zip(files), ExtRepo, problem))
    {
      var ok := CheckEditKey(problem, editKey);
      if ok.Err? {
        return BadRequest("Problem not found: " + problem);
      }
      if !ok.value {
        return BadRequest("Wrong edit key " + editKey + " in problem " + problem);
      }
      response := UploadFiles(params, Some(problem), editKey, studentId);
    }

    /** `editedProblem`: with the right key, the archive is uploaded again under the same problem and key. */
    method EditedProblem(problem: string, editKey: string, contents: Bytes, order: seq<Path>, studentId: string)
      returns (response: Response)
      requires Enumerates(codeCheck.engines.unzip(contents), order)
      modifies codeCheck.probConn.delegate
      ensures var stored := Lookup(old(codeCheck.probConn.delegate.disk), ExtRepo, problem);
        && (stored.Err? ==>
              response == BadRequest("Problem not found: " + problem) && unchanged(codeCheck.probConn.delegate))
        && (stored.Ok? && !EditKeyMatches(codeCheck.engines.unzip(stored.value), editKey) ==>
              response == BadRequest("Wrong edit key " + editKey + " of problem " + problem)
              && unchanged(codeCheck.probConn.delegate))
        && (stored.Ok? && EditKeyMatches(codeCheck.engines.unzip(stored.value), editKey) ==>
              var fixed := FixedBundle(codeCheck.engines.unzip(contents), order);
              var files := if EditKeyFile in fixed then fixed else fixed[EditKeyFile := editKey];
              && response == Html(ResultPage(problem, UploadReport(codeCheck.engines, files, studentId)))
              && codeCheck.probConn.delegate.disk
                 == Written(old(codeCheck.probConn.delegate.disk), codeCheck.engines.zip(files), ExtRepo, problem))
    {
      var ok := CheckEditKey(problem, editKey);
      if ok.Err? {
        return BadRequest("Problem not found: " + problem);
      }
      if !ok.value {
        return BadRequest("Wrong edit key " + editKey + " of problem " + problem);
      }
      response := UploadProblem(Some(problem), editKey, contents, order, studentId);
    }
  }
}
