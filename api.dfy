/**
 * The upload endpoint of the HTTP API (api.py): the file-type check `allowed_file`
 * and the decision chain of the `/upload` handler.
 *
 * The handler is modelled as a pure decision function. The request is abstracted to
 * an optional file part (the multipart field named `file`), whose filename is the
 * client-supplied name and whose save outcome is what the file system would do
 * when asked to store it. `secure_filename` is a parameter.
 */
module Api {
  import opened Wrappers

  const UploadFolder: string := "data/docs"
  const AllowedExtensions: set<string> := {"txt"}

  const NoFilePartMessage: string := "No file part in the request"
  const NoFileSelectedMessage: string := "No file selected"
  const TypeNotAllowedMessage: string := "File type not allowed. Only .txt files are accepted"
  const UploadedMessage: string := "File uploaded successfully"
  const SaveErrorPrefix: string := "Error saving file: "

  // ---------------------------------------------------------------------------
  // String helpers: lower-casing and splitting at the last separator
  // ---------------------------------------------------------------------------

  /** Lower-casing of one character, on the ASCII letters. */
  function LowerChar(c: char): char
  {
    if 'A' <= c <= 'Z' then (c as int + 32) as char else c
  }

  /** `str.lower`, character by character. */
  function Lower(s: string): (r: string)
    ensures |r| == |s|
    ensures forall i :: 0 <= i < |s| ==> r[i] == LowerChar(s[i])
  {
    if s == [] then [] else [LowerChar(s[0])] + Lower(s[1..])
  }

  /**
   * `s.rsplit(sep, 1)`: None when `sep` does not occur (Python then yields a
   * one-element list), otherwise the text before and after the LAST `sep`.
   */
  function RSplitOnce(s: string, sep: char): (r: Option<(string, string)>)
    ensures r.None? <==> sep !in s
    ensures r.Some? ==> r.value.0 + [sep] + r.value.1 == s && sep !in r.value.1
  {
    if s == [] then None
    else if s[|s| - 1] == sep then Some((s[..|s| - 1], ""))
    else match RSplitOnce(s[..|s| - 1], sep)
      case None => None
      case Some((head, tail)) => Some((head, tail + [s[|s| - 1]]))
  }

  /** Every split of `s` whose tail has no separator is the one RSplitOnce returns. */
  lemma {:induction false} RSplitOnceOf(s: string, sep: char, head: string, tail: string)
    requires s == head + [sep] + tail && sep !in tail
    ensures RSplitOnce(s, sep) == Some((head, tail))
  {
    if tail == [] {
      assert s[..|s| - 1] == head;
    } else {
      var init := tail[..|tail| - 1];
      assert s[..|s| - 1] == head + [sep] + init;
      RSplitOnceOf(s[..|s| - 1], sep, head, init);
      assert init + [tail[|tail| - 1]] == tail;
    }
  }

  // ---------------------------------------------------------------------------
  // allowed_file
  // ---------------------------------------------------------------------------

  /** `allowed_file`: the name has a `.` and the text after the last `.`, lower-cased, is an allowed extension. */
  predicate AllowedFile(filename: string)
  {
    '.' in filename && Lower(RSplitOnce(filename, '.').value.1) in AllowedExtensions
  }

  /** A name without any `.` is rejected. */
  lemma NoDotRejected(filename: string)
    requires '.' !in filename
    ensures !AllowedFile(filename)
  {
  }

  /**
   * Only the text after the last `.` decides: whatever the stem (it may hold further
   * dots), `stem.ext` with a dot-free `ext` is accepted exactly when `ext` lower-cases
   * to `txt`.
   */
  lemma ExtensionAfterLastDot(stem: string, ext: string)
    requires '.' !in ext
    ensures AllowedFile(stem + "." + ext) <==> Lower(ext) == "txt"
  {
    RSplitOnceOf(stem + "." + ext, '.', stem, ext);
  }

  /** A name ending in `.` has an empty extension and is rejected. */
  lemma TrailingDotRejected(filename: string)
    requires |filename| > 0 && filename[|filename| - 1] == '.'
    ensures !AllowedFile(filename)
  {
  }

  /** The suffix `.` plus a dot-free three-character extension spelling `txt` in any case. */
  predicate EndsInDotTxt(filename: string)
  {
    |filename| >= 4 && filename[|filename| - 4] == '.' && Lower(filename[|filename| - 3..]) == "txt"
  }

  lemma AllowedEndsInDotTxt(filename: string)
    requires AllowedFile(filename)
    ensures EndsInDotTxt(filename)
  {
  }

  lemma EndsInDotTxtAllowed(filename: string)
    requires EndsInDotTxt(filename)
    ensures AllowedFile(filename)
  {
  }

  /** An independent reading of `allowed_file`: the name ends in `.` plus three characters spelling `txt` in any case. */
  lemma AllowedFileIffEndsInDotTxt(filename: string)
    ensures AllowedFile(filename) <==> EndsInDotTxt(filename)
  {
    if AllowedFile(filename) {
      AllowedEndsInDotTxt(filename);
    }
    if EndsInDotTxt(filename) {
      EndsInDotTxtAllowed(filename);
    }
  }

  lemma LowerAppend(a: string, b: string)
    ensures Lower(a + b) == Lower(a) + Lower(b)
  {
  }

  lemma LowerIdempotent(s: string)
    ensures Lower(Lower(s)) == Lower(s)
  {
  }

  /** `s` has a `.` exactly when its lower-cased form has one. */
  lemma DotSurvivesLower(s: string)
    ensures '.' in s <==> '.' in Lower(s)
  {
  }

  /** A name is accepted exactly when its lower-cased form is. */
  lemma AllowedFileOfLower(filename: string)
    ensures AllowedFile(filename) == AllowedFile(Lower(filename))
  {
    DotSurvivesLower(filename);
    if '.' in filename {
      var split := RSplitOnce(filename, '.').value;
      var head, tail := split.0, split.1;
      LowerAppend(head + ".", tail);
      LowerAppend(head, ".");
      assert Lower(".") == ".";
      DotSurvivesLower(tail);
      RSplitOnceOf(Lower(filename), '.', Lower(head), Lower(tail));
      LowerIdempotent(tail);
    }
  }

  /** The extension check ignores case: names equal up to case are accepted alike. */
  lemma AllowedFileCaseInsensitive(a: string, b: string)
    requires Lower(a) == Lower(b)
    ensures AllowedFile(a) == AllowedFile(b)
  {
    AllowedFileOfLower(a);
    AllowedFileOfLower(b);
  }

  /**
   * `stem.ext`, for a dot-free `ext`, is judged by `ext` alone: ExtensionAfterLastDot
   * with the whole name bound to a variable, so that proofs about literal names stay cheap.
   */
  lemma ExtensionExample(name: string, stem: string, ext: string)
    requires name == stem + "." + ext && '.' !in ext
    ensures AllowedFile(name) <==> Lower(ext) == "txt"
  {
    ExtensionAfterLastDot(stem, ext);
  }

  /** Upper- and lower-case spellings of the extension are accepted alike. */
  lemma CaseExample()
    ensures AllowedFile("notes.TXT") && AllowedFile("notes.txt")
  {
    ExtensionExample("notes.txt", "notes", "txt");
    ExtensionExample("notes.TXT", "notes", "TXT");
  }

  /** Only the last extension counts. */
  lemma LastExtensionExample()
    ensures AllowedFile("a.pdf.txt") && !AllowedFile("a.txt.pdf")
  {
    ExtensionExample("a.pdf.txt", "a.pdf", "txt");
    ExtensionExample("a.txt.pdf", "a.txt", "pdf");
  }

  /** No dot, an empty extension and a foreign extension are all rejected. */
  lemma RejectedExample()
    ensures !AllowedFile("notes") && !AllowedFile("notes.") && !AllowedFile("test.pdf")
  {
  }

  // ---------------------------------------------------------------------------
  // upload_file
  // ---------------------------------------------------------------------------

  /** What `file.save` does with the path it is given: it stores the file or raises. */
  datatype SaveOutcome = Saved | SaveFailed(reason: string)

  /** The multipart field `file`: the client's filename and the outcome of saving it. */
  datatype FilePart = FilePart(filename: string, saveOutcome: SaveOutcome)

  datatype Request = Request(file: Option<FilePart>)

  /** The JSON body: `{'error': …}` or `{'message': …, 'filename': …}`. */
  datatype Body = Error(error: string) | Uploaded(message: string, filename: string)

  datatype Response = Response(body: Body, status: int)

  /** The response sent, and the path `file.save` was called with, if it was called. */
  datatype Handled = Handled(response: Response, savedTo: Option<string>)

  /**
   * `os.path.join(dir, name)` on POSIX: an absolute `name` replaces `dir`; otherwise
   * `name` follows `dir`, with a `/` between them unless `dir` is empty or already
   * ends in one.
   */
  function PathJoin(dir: string, name: string): string
  {
    if |name| > 0 && name[0] == '/' then name
    else if dir == [] || dir[|dir| - 1] == '/' then dir + name
    else dir + "/" + name
  }

  /** The checks are one valid upload: a file part with a non-empty, allowed filename. */
  predicate PassesChecks(req: Request)
  {
    req.file.Some? && req.file.value.filename != "" && AllowedFile(req.file.value.filename)
  }

  /** `upload_file`: the first failing check decides the response; otherwise the save outcome does. */
  function UploadFile(req: Request, secureFilename: string -> string): (h: Handled)
    ensures req.file.None? ==>
      h == Handled(Response(Error(NoFilePartMessage), 400), None)
    ensures req.file.Some? && req.file.value.filename == "" ==>
      h == Handled(Response(Error(NoFileSelectedMessage), 400), None)
    ensures req.file.Some? && req.file.value.filename != "" && !AllowedFile(req.file.value.filename) ==>
      h == Handled(Response(Error(TypeNotAllowedMessage), 400), None)
    ensures PassesChecks(req) ==>
      var name := secureFilename(req.file.value.filename);
      h.savedTo == Some(PathJoin(UploadFolder, name)) &&
      h.response == match req.file.value.saveOutcome
        case Saved => Response(Uploaded(UploadedMessage, name), 201)
        case SaveFailed(reason) => Response(Error(SaveErrorPrefix + reason), 500)
  {
    if req.file.None? then
      Handled(Response(Error(NoFilePartMessage), 400), None)
    else
      var file := req.file.value;
      if file.filename == "" then
        Handled(Response(Error(NoFileSelectedMessage), 400), None)
      else if !AllowedFile(file.filename) then
        Handled(Response(Error(TypeNotAllowedMessage), 400), None)
      else
        var filename := secureFilename(file.filename);
        var path := PathJoin(UploadFolder, filename);
        match file.saveOutcome
        case Saved => Handled(Response(Uploaded(UploadedMessage, filename), 201), Some(path))
        case SaveFailed(reason) => Handled(Response(Error(SaveErrorPrefix + reason), 500), Some(path))
  }

  /**
   * Every request gets exactly one of three statuses: 400 exactly when a check
   * rejects it (and then nothing is saved), 201 exactly when it passes and the save
   * succeeds, 500 exactly when it passes and the save raises.
   */
  lemma UploadStatusClassification(req: Request, secureFilename: string -> string)
    ensures var h := UploadFile(req, secureFilename);
      (h.response.status == 400 <==> !PassesChecks(req)) &&
      (h.response.status == 201 <==> PassesChecks(req) && req.file.value.saveOutcome.Saved?) &&
      (h.response.status == 500 <==> PassesChecks(req) && req.file.value.saveOutcome.SaveFailed?) &&
      (h.savedTo.Some? <==> PassesChecks(req)) &&
      (h.response.body.Uploaded? <==> h.response.status == 201)
  {
  }

  /**
   * A file that passes the checks is saved inside the upload folder, under its secured
   * name, whenever that name is relative.
   */
  lemma UploadSavesIntoFolder(req: Request, secureFilename: string -> string)
    requires PassesChecks(req)
    requires var name := secureFilename(req.file.value.filename); !(|name| > 0 && name[0] == '/')
    ensures var name := secureFilename(req.file.value.filename);
      UploadFile(req, secureFilename).savedTo == Some("data/docs/" + name)
  {
    var name := secureFilename(req.file.value.filename);
    assert UploadFolder + "/" + name == "data/docs/" + name;
  }

  /** The successful upload of the API tests, for any `secure_filename` that keeps `test.txt`. */
  lemma UploadValidTxtCase(secureFilename: string -> string)
    requires secureFilename("test.txt") == "test.txt"
    ensures UploadFile(Request(Some(FilePart("test.txt", Saved))), secureFilename)
      == Handled(Response(Uploaded(UploadedMessage, "test.txt"), 201), Some(PathJoin(UploadFolder, "test.txt")))
  {
    ExtensionExample("test.txt", "test", "txt");
  }

  /** The three rejections of the API tests, whatever the save would have done. */
  lemma UploadRejectedCases(secureFilename: string -> string, outcome: SaveOutcome)
    ensures UploadFile(Request(Some(FilePart("test.pdf", outcome))), secureFilename)
      == Handled(Response(Error(TypeNotAllowedMessage), 400), None)
    ensures UploadFile(Request(None), secureFilename)
      == Handled(Response(Error(NoFilePartMessage), 400), None)
    ensures UploadFile(Request(Some(FilePart("", outcome))), secureFilename)
      == Handled(Response(Error(NoFileSelectedMessage), 400), None)
  {
  }
}
