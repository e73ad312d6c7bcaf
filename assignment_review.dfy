/**
 * The assignment-review page: which uploads are accepted, the order of the
 * checks before a question is sent, and how each input change and each
 * answer updates the page's state.
 */
module AssignmentReview {
  import opened Common
  import opened ClientAuth

  /** `SUPPORTED_EXTS`, in order. */
  const SupportedExts: seq<string> := [
    ".txt", ".md", ".py", ".java", ".c", ".cpp", ".csv", ".json", ".html", ".js", ".ts", ".css",
    ".pdf",
    ".jpg", ".jpeg", ".png", ".gif", ".bmp", ".webp"
  ]

  /** The largest upload, 8 MiB. */
  const MaxSize := 8 * 1024 * 1024

  /** An uploaded file: its name and its size in bytes. */
  datatype File = File(name: string, size: int)

  predicate EndsWith(s: string, suffix: string)
  {
    |suffix| <= |s| && s[|s| - |suffix|..] == suffix
  }

  /** `exts.some(ext => name.endsWith(ext))`. */
  function SomeSuffix(name: string, exts: seq<string>): (r: bool)
    ensures r <==> exists i :: 0 <= i < |exts| && EndsWith(name, exts[i])
  {
    if exts == [] then false
    else if EndsWith(name, exts[0]) then true
    else
      var r := SomeSuffix(name, exts[1..]);
      assert forall i :: 1 <= i < |exts| ==> exts[i] == exts[1..][i - 1];
      r
  }

  /** `isSupportedFile(file)`: a file whose lower-cased name ends with a supported extension. */
  function IsSupportedFile(file: Option<File>): (r: bool)
    ensures r <==> file.Some? && exists i :: 0 <= i < |SupportedExts| && EndsWith(Lower(file.value.name), SupportedExts[i])
  {
    file.Some? && SomeSuffix(Lower(file.value.name), SupportedExts)
  }

  /** The case of the name does not matter; the name must end with the extension itself. */
  lemma SupportedExamples()
    ensures IsSupportedFile(Some(File("Report.PDF", 10)))
    ensures !IsSupportedFile(Some(File("archive.zip", 10))) && !IsSupportedFile(None)
  {
    assert Lower("Report.PDF") == "report.pdf";
    assert EndsWith("report.pdf", SupportedExts[12]);
    var z := Lower("archive.zip");
    assert z == "archive.zip";
    forall i | 0 <= i < |SupportedExts| ensures !EndsWith(z, SupportedExts[i]) {
      var e := SupportedExts[i];
      assert |e| >= 2 && (e[|e| - 1] != 'p' || e[|e| - 2] != 'i');
      if |e| <= |z| {
        var t := z[|z| - |e|..];
        assert t[|e| - 1] == 'p' && t[|e| - 2] == 'i';
      }
    }
  }

  /** JavaScript's white space and line terminators, which `trim` removes. */
  predicate JsSpace(c: char)
  {
    c == '\t' || c == '\n' || c == '\U{000B}' || c == '\U{000C}' || c == '\r' || c == ' '
    || c == '\U{00A0}' || c == '\U{1680}' || ('\U{2000}' <= c <= '\U{200A}')
    || c == '\U{2028}' || c == '\U{2029}' || c == '\U{202F}' || c == '\U{205F}'
    || c == '\U{3000}' || c == '\U{FEFF}'
  }

  /** `!question.trim()`: nothing but white space. */
  predicate Blank(question: string)
  {
    forall i :: 0 <= i < |question| ==> JsSpace(question[i])
  }

  const AskQuestion := "질문을 입력해 주세요."
  const UnsupportedFile := "지원하지 않는 파일 형식입니다. (" + Join(SupportedExts, ", ") + ")"
  const TooLarge := "파일 크기는 최대 8MB까지 업로드할 수 있습니다."
  const ProOnly := "Pro 회원만 이용할 수 있습니다. 로그인 후 다시 시도해 주세요."
  const ServerError := "서버와 통신 중 오류가 발생했습니다."
  const GenericError := "오류가 발생했습니다."

  /** The checks of `handleSubmit`, in order: the first that fails gives the error. */
  function SubmitError(question: string, file: Option<File>): Option<string>
  {
    if Blank(question) then Some(AskQuestion)
    else if file.Some? && !IsSupportedFile(file) then Some(UnsupportedFile)
    else if file.Some? && file.value.size > MaxSize then Some(TooLarge)
    else None
  }

  /**
   * A blank question is reported first, then an unsupported file, then one
   * over 8 MiB; a question with no file, or with a supported file of at most
   * 8 MiB, passes; a file of exactly 8 MiB is accepted.
   */
  lemma SubmitErrorMeaning(question: string, file: Option<File>)
    ensures Blank(question) ==> SubmitError(question, file) == Some(AskQuestion)
    ensures !Blank(question) && file.Some? && !IsSupportedFile(file) ==> SubmitError(question, file) == Some(UnsupportedFile)
    ensures SubmitError(question, file) == Some(TooLarge) <==>
              !Blank(question) && IsSupportedFile(file) && file.value.size > MaxSize
    ensures SubmitError(question, file).None? <==>
              !Blank(question) && (file.None? || (IsSupportedFile(file) && file.value.size <= MaxSize))
    ensures !Blank(question) && IsSupportedFile(file) && file.value.size == 8388608 ==> SubmitError(question, file).None?
  {
    assert AskQuestion[0] != TooLarge[0];
    assert UnsupportedFile[0] == '지' && TooLarge[0] == '파';
  }

  /** The answer of `/api/chat/gpt`. */
  datatype GptReply = GptReply(status: string, answer: string, raw: Option<string>,
                               detail: Option<string>, message: Option<string>)

  /** `data.detail || data.message || '오류가 발생했습니다.'`. */
  function FailureText(d: GptReply): (r: string)
    ensures r != ""
  {
    if Truthy(d.detail) then d.detail.value
    else if Truthy(d.message) then d.message.value
    else GenericError
  }

  /** The page's state. */
  class Review {
    var file: Option<File>
    var question: string
    var answer: string
    var loading: bool
    var error: string
    var model: string
    var raw: Option<string>

    constructor ()
      ensures file == None && question == "" && answer == "" && !loading && error == ""
      ensures model == "gpt-3.5-turbo" && raw == None
    {
      file, question, answer, loading, error := None, "", "", false, "";
      model, raw := "gpt-3.5-turbo", None;
    }

    /** `handleFileChange`: the new file; the answer and raw output cleared; an unsupported file reported at once. */
    method FileChange(f: Option<File>)
      modifies this`file, this`answer, this`error, this`raw
      ensures file == f && answer == "" && raw == None
      ensures error == (if f.Some? && !IsSupportedFile(f) then UnsupportedFile else "")
    {
      file := f;
      answer := "";
      error := "";
      raw := None;
      if f.Some? && !IsSupportedFile(f) {
        error := UnsupportedFile;
      }
    }

    /** `handleQuestionChange`: the new question, with answer, error and raw output cleared. */
    method QuestionChange(q: string)
      modifies this`question, this`answer, this`error, this`raw
      ensures question == q && answer == "" && error == "" && raw == None
    {
      question, answer, error, raw := q, "", "", None;
    }

    /** `handleModelChange`: the new model, with answer, error and raw output cleared. */
    method ModelChange(m: string)
      modifies this`model, this`answer, this`error, this`raw
      ensures model == m && answer == "" && error == "" && raw == None
    {
      model, answer, error, raw := m, "", "", None;
    }

    /**
     * `handleSubmit`: a failed check sets its error and sends nothing;
     * otherwise the answer is shown, or the error of the reply.
     */
    method Submit(reply: Fetched<GptReply>) returns (requested: bool)
      modifies this`answer, this`error, this`raw, this`loading
      ensures requested <==> SubmitError(question, file).None?
      ensures !requested ==> error == SubmitError(question, file).value && answer == "" && raw == None
                             && loading == old(loading)
      ensures requested ==> !loading
      ensures requested && reply.Returned? && reply.json.Some? && reply.json.value.status == "success" ==>
                answer == reply.json.value.answer && error == ""
                && raw == (if Truthy(reply.json.value.raw) then reply.json.value.raw else None)
      ensures requested && reply.Returned? && reply.json.Some? && reply.json.value.status != "success" ==>
                error == FailureText(reply.json.value) && answer == "" && raw == None
      ensures requested && reply.Returned? && reply.json.None? ==> error == ProOnly && answer == "" && raw == None
      ensures requested && reply.Threw? ==> error == ServerError && answer == "" && raw == None
    {
      answer, error, raw := "", "", None;
      var check := SubmitError(question, file);
      if check.Some? {
        error := check.value;
        return false;
      }
      loading := true;
      match reply {
        case Threw =>
          error := ServerError;
        case Returned(None) =>
          error := ProOnly;
        case Returned(Some(d)) =>
          if d.status == "success" {
            answer := d.answer;
            raw := if Truthy(d.raw) then d.raw else None;
          } else {
            error := FailureText(d);
          }
      }
      loading := false;
      return true;
    }
  }
}
