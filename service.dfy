/**
 * pkg/service/service.go's `embedHandler`: from the page's query
 * parameters to the data the page template is rendered with, or a
 * 400 response. Base64 decoding and `strconv.Atoi` are passed in as
 * partial functions; the template itself is not modelled.
 */
module Service {
  import opened Wrappers
  import Evaluate

  const BadRequest := 400

  /** `url.Values`: the values given for each key, in order. */
  type Query = map<string, seq<string>>

  /** `Values.Get`: the first value given for `key`, or "" when there is none. */
  function Param(q: Query, key: string): string
  {
    if key in q && |q[key]| > 0 then q[key][0] else ""
  }

  datatype PageData = PageData(code: string, workload: string, version: string, timeout: int, files: string)

  /** What `http.Error` sends: a status and a text. */
  datatype HttpError = HttpError(status: int, text: string)

  /** The page data for a query, with `decode` standing for
    * `base64.StdEncoding.DecodeString` and `atoi` for `strconv.Atoi`
    * (its error text on failure).
    *
    * The page is refused exactly when a non-empty `code` or `files` does
    * not decode or a non-empty `timeout` is not an integer, with a 400
    * naming the first such parameter in the order code, files, timeout.
    * A page has the decoded code or "" when none was given, the decoded
    * files or "{}", the given version or "latest", the workload exactly as
    * given, and a timeout that is the maximum unless a parsed value with
    * 0 <= t < maxTimeout was given, so never above the maximum. */
  function EmbedPage(q: Query, maxTimeout: int,
                     decode: string -> Option<string>,
                     atoi: string -> Result<int, string>): (r: Result<PageData, HttpError>)
    ensures var c, f, t := Param(q, "code"), Param(q, "files"), Param(q, "timeout");
            var badCode, badFiles := c != "" && decode(c).None?, f != "" && decode(f).None?;
            var badTimeout := t != "" && atoi(t).Failure?;
            && (r.Failure? <==> badCode || badFiles || badTimeout)
            && (r.Failure? ==> r.error.status == BadRequest)
            && (badCode ==> r.error.text == "Failed to decode code parameter")
            && (!badCode && badFiles ==> r.error.text == "Failed to decode files parameter")
            && (!badCode && !badFiles && badTimeout ==> r.error.text == "Bad timeout: " + atoi(t).error)
    ensures var c, f, v := Param(q, "code"), Param(q, "files"), Param(q, "version");
            r.Success? ==>
              && (c == "" ==> r.value.code == "")
              && (c != "" ==> Some(r.value.code) == decode(c))
              && (f == "" ==> r.value.files == "{}")
              && (f != "" ==> Some(r.value.files) == decode(f))
              && r.value.version == (if v == "" then "latest" else v)
              && r.value.workload == Param(q, "workload")
    ensures var t := Param(q, "timeout");
            r.Success? ==>
              && (t == "" ==> r.value.timeout == maxTimeout)
              && (t != "" && 0 <= atoi(t).value < maxTimeout ==> r.value.timeout == atoi(t).value)
              && (t != "" && !(0 <= atoi(t).value < maxTimeout) ==> r.value.timeout == maxTimeout)
              && r.value.timeout <= maxTimeout
              && (maxTimeout >= 0 ==> r.value.timeout >= 0)
  {
    var codeB64, filesB64 := Param(q, "code"), Param(q, "files");
    var workload, version, timeoutStr := Param(q, "workload"), Param(q, "version"), Param(q, "timeout");
    if codeB64 != "" && decode(codeB64).None? then
      Failure(HttpError(BadRequest, "Failed to decode code parameter"))
    else
      var code := if codeB64 != "" then decode(codeB64).value else "";
      if filesB64 != "" && decode(filesB64).None? then
        Failure(HttpError(BadRequest, "Failed to decode files parameter"))
      else
        var files := if filesB64 != "" then decode(filesB64).value else "{}";
        var version' := if version == "" then "latest" else version;
        if timeoutStr != "" && atoi(timeoutStr).Failure? then
          Failure(HttpError(BadRequest, "Bad timeout: " + atoi(timeoutStr).error))
        else
          var timeout :=
            if timeoutStr != "" && 0 <= atoi(timeoutStr).value < maxTimeout then atoi(timeoutStr).value
            else maxTimeout;
          Success(PageData(code, workload, version', timeout, files))
  }

  /** The page's timeout is the one the evaluator would apply to the
    * parsed value, although the two bounds are written differently (the
    * page keeps t only below the maximum, the evaluator keeps t up to it),
    * and the evaluator leaves the page's timeout as it is. */
  lemma PageTimeoutAgreesWithEvaluator(q: Query, maxTimeout: int, decode: string -> Option<string>,
                                        atoi: string -> Result<int, string>)
    ensures var r := EmbedPage(q, maxTimeout, decode, atoi);
            var t := Param(q, "timeout");
            r.Success? ==>
              && (t != "" ==> r.value.timeout == Evaluate.EffectiveTimeout(atoi(t).value, maxTimeout))
              && (maxTimeout >= 0 ==> Evaluate.EffectiveTimeout(r.value.timeout, maxTimeout) == r.value.timeout)
  {
  }
}
