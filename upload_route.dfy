/**
 * `/api/upload`: accepts one image of at most 5 MiB from the `upload` form field, stores it in
 * the blob store under a time-stamped name and answers with its public URL.
 */
module UploadRoute {
  import opened Wrappers
  import opened Strings
  import opened Http

  /** A `File` sent in a form. */
  datatype UploadFile = UploadFile(name: string, size: nat, mimeType: string)

  /** A form entry is a file or a plain string. */
  datatype FormValue = FileValue(file: UploadFile) | TextValue(text: string)

  /** The checks a file in the `upload` field must pass before it is stored. */
  predicate Acceptable(field: Option<FormValue>) {
    && field.Some? && field.value.FileValue?
    && field.value.file.size <= MaxUploadBytes
    && StartsWith(field.value.file.mimeType, "image/")
  }

  datatype UploadReply = UploadReply(url: string)

  const MaxUploadBytes: nat := 5 * 1024 * 1024

  /** `${timestamp}-${file.name}`. */
  function StoredName(timestamp: nat, name: string): (r: string)
    ensures |r| > |name| && '-' in r
  {
    NatToDecimal(timestamp) + "-" + name
  }

  /** The stored name keeps both parts: the timestamp before the first `-`, the original name after it. */
  lemma StoredNameParts(timestamp: nat, name: string)
    ensures var r := StoredName(timestamp, name);
            var stamp := BeforeFirst(r, '-');
            && ParseInt(stamp) == Some(timestamp)
            && r[|stamp| + 1..] == name
  {
    var d := NatToDecimal(timestamp);
    var r := StoredName(timestamp, name);
    BeforeFirstDigits(d, name);
    ParseIntOfDecimal(timestamp);
    assert r[|d| + 1..] == name;
  }

  lemma {:induction false} BeforeFirstDigits(d: string, rest: string)
    requires forall i :: 0 <= i < |d| ==> '0' <= d[i] <= '9'
    ensures BeforeFirst(d + "-" + rest, '-') == d
  {
    if d != [] {
      assert (d + "-" + rest)[1..] == d[1..] + "-" + rest;
      BeforeFirstDigits(d[1..], rest);
    }
  }

  /**
   * `POST /api/upload`, with the `upload` field as `formData.get` returns it, checking in order:
   * the field is truthy, the size is at most `MaxUploadBytes`, the type starts with `image/`
   * (each failure a 400). A non-empty string passes the first check and the second one, because
   * its `size` is `undefined`; reading `type.startsWith` of it then throws (500). Finally `put`
   * stores the file, and a failed put is a 500.
   */
  function Upload(field: Option<FormValue>, timestamp: nat, put: string -> Option<string>): (r: Response<UploadReply>)
    ensures r.Reply? <==> Acceptable(field) && put(StoredName(timestamp, field.value.file.name)).Some?
    ensures r.Reply? ==> r == Reply(OK, UploadReply(put(StoredName(timestamp, field.value.file.name)).value))
    ensures r.Failure? && r.status == SERVER_ERROR <==>
      || (Acceptable(field) && put(StoredName(timestamp, field.value.file.name)).None?)
      || (field.Some? && field.value.TextValue? && field.value.text != "")
    ensures r.Failure? ==> r.status == BAD_REQUEST || r.status == SERVER_ERROR
  {
    match field
    case None => Failure(BAD_REQUEST)
    case Some(TextValue(text)) => if text == "" then Failure(BAD_REQUEST) else Failure(SERVER_ERROR)
    case Some(FileValue(file)) =>
      if file.size > MaxUploadBytes then Failure(BAD_REQUEST)
      else if !StartsWith(file.mimeType, "image/") then Failure(BAD_REQUEST)
      else match put(StoredName(timestamp, file.name))
        case None => Failure(SERVER_ERROR)
        case Some(url) => Reply(OK, UploadReply(url))
  }

  /** A string in the `upload` field is refused with 400 when empty and fails with 500 otherwise. */
  lemma TextFieldRejected(text: string, timestamp: nat, put: string -> Option<string>)
    ensures Upload(Some(TextValue(text)), timestamp, put) == Failure(if text == "" then BAD_REQUEST else SERVER_ERROR)
  {
  }

  /** A file over the limit is refused whatever its type, and the store is never asked. */
  lemma OversizeRefused(file: UploadFile, timestamp: nat, put: string -> Option<string>)
    requires file.size > MaxUploadBytes
    ensures Upload(Some(FileValue(file)), timestamp, put) == Failure(BAD_REQUEST)
  {
  }

  /** Only image types get through: a file of allowed size with any other type is refused. */
  lemma NonImageRefused(file: UploadFile, timestamp: nat, put: string -> Option<string>)
    requires file.size <= MaxUploadBytes
    requires !StartsWith(file.mimeType, "image/")
    ensures Upload(Some(FileValue(file)), timestamp, put) == Failure(BAD_REQUEST)
  {
  }

  /** For example `text/plain` is refused. */
  lemma PlainTextRefused(name: string, size: nat, timestamp: nat, put: string -> Option<string>)
    requires size <= MaxUploadBytes
    ensures Upload(Some(FileValue(UploadFile(name, size, "text/plain"))), timestamp, put) == Failure(BAD_REQUEST)
  {
    assert "text/plain"[..6][0] != "image/"[0];
    NonImageRefused(UploadFile(name, size, "text/plain"), timestamp, put);
  }
}
