/** The second Python handler, api/contact_handler.py: shared credentials only,
    a Content-Length that is not caught when malformed, and an object key
    computed by reading the formatted timestamp back. */
module ContactHandler {
  import opened Wrappers
  import opened Text
  import opened Json
  import opened Environment
  import opened Submission
  import ContactPy

  const SecretKeyNames := ["AWS_SECRET_ACCESS_KEY", "AWS_SECRET_ACESS_KEY"]

  datatype StorageConfig = StorageConfig(bucket: string, region: string, accessKeyId: string, secretAccessKey: string)

  /** `get_storage_config`: no writer-specific names and no session token. */
  function GetStorageConfig(env: Env): (r: Option<StorageConfig>)
    ensures r.None? <==>
              || GetEnv(env, "AWS_REGION") == "" || GetEnv(env, "AWS_ACCESS_KEY_ID") == ""
              || FirstSet(env, SecretKeyNames) == "" || GetEnv(env, "AWS_S3_BUCKET") == ""
    ensures r.Some? ==> r.value == StorageConfig(
              GetEnv(env, "AWS_S3_BUCKET"), GetEnv(env, "AWS_REGION"),
              GetEnv(env, "AWS_ACCESS_KEY_ID"), FirstSet(env, SecretKeyNames))
  {
    var region := GetEnv(env, "AWS_REGION");
    var accessKeyId := GetEnv(env, "AWS_ACCESS_KEY_ID");
    var secretAccessKey := OrElse(GetEnv(env, "AWS_SECRET_ACCESS_KEY"), GetEnv(env, "AWS_SECRET_ACESS_KEY"));
    var bucket := GetEnv(env, "AWS_S3_BUCKET");
    FirstSetOfTwo(env, "AWS_SECRET_ACCESS_KEY", "AWS_SECRET_ACESS_KEY");
    if region == "" || accessKeyId == "" || secretAccessKey == "" || bucket == "" then None
    else Some(StorageConfig(bucket, region, accessKeyId, secretAccessKey))
  }

  /** The client and bucket a complete configuration yields; this handler
      never passes a session token. */
  function StorageOf(env: Env): (r: Option<Storage>)
    ensures r.Some? <==> GetStorageConfig(env).Some?
    ensures r.Some? ==> r.value.client.sessionToken.None? && r.value.bucket == GetStorageConfig(env).value.bucket
    ensures r.Some? ==> && r.value.client == ClientArgs(GetEnv(env, "AWS_REGION"), GetEnv(env, "AWS_ACCESS_KEY_ID"),
                                                        FirstSet(env, SecretKeyNames), None)
                        && r.value.bucket == GetEnv(env, "AWS_S3_BUCKET")
  {
    match GetStorageConfig(env)
    case None => None
    case Some(c) => Some(Storage(ClientArgs(c.region, c.accessKeyId, c.secretAccessKey, None), c.bucket))
  }

  /** With no writer-specific variables and no session token set, both Python
      handlers store with the same client settings in the same bucket. */
  lemma ConfigAgreesWithContactPy(env: Env)
    requires GetEnv(env, "AWS_WRITER_ACCESS_KEY_ID") == "" && GetEnv(env, "AWS_WRITER_SECRET_ACCESS_KEY") == ""
    requires FirstSet(env, ContactPy.SessionTokenNames) == ""
    ensures StorageOf(env) == ContactPy.StorageOf(env)
  {
    FirstSetOfTwo(env, "AWS_WRITER_ACCESS_KEY_ID", "AWS_ACCESS_KEY_ID");
    FirstSetOfThree(env, "AWS_WRITER_SECRET_ACCESS_KEY", "AWS_SECRET_ACCESS_KEY", "AWS_SECRET_ACESS_KEY");
    FirstSetOfTwo(env, "AWS_SECRET_ACCESS_KEY", "AWS_SECRET_ACESS_KEY");
  }

  /** `int(headers.get("Content-Length", "0") or "0")`: a missing or empty
      header reads as "0"; None stands for the ValueError int() raises, which
      nothing catches. */
  function ContentLength(headers: map<string, string>): (r: Option<int>)
    ensures "content-length" !in headers || headers["content-length"] == "" ==> r == Some(0)
    ensures "content-length" in headers && headers["content-length"] != ""
            ==> r == PyInt(headers["content-length"])
  {
    var text := if "content-length" in headers && headers["content-length"] != "" then headers["content-length"] else "0";
    PyIntOfDecimal(0);
    PyInt(text)
  }

  /** The body object: None when the length raises, `{}` for a length of at
      most 0 (nothing is read), otherwise the decoded object or `{}`. */
  function BodyOf(headers: map<string, string>, decoded: Option<Json>): (r: Option<map<string, Json>>)
    ensures r.None? <==> ContentLength(headers).None?
    ensures r.Some? ==> r.value == BodyObject(ContentLength(headers).value, decoded)
  {
    match ContentLength(headers)
    case None => None
    case Some(length) => Some(BodyObject(length, decoded))
  }

  /** Where int() accepts the header, both handlers read the same length; an
      empty header is 0 to both (contact.py by catching the ValueError). */
  lemma ContentLengthAgreesWithContactPy(headers: map<string, string>)
    requires ContentLength(headers).Some?
    ensures ContentLength(headers).value == ContactPy.ContentLength(headers)
  {
    if "content-length" in headers {
      var h := headers["content-length"];
      if h == "" {
        assert Trim(h) == [];
        assert PyInt(h) == None;
      } else {
        assert ContentLength(headers) == PyInt(h);
      }
    }
  }

  /** ... and so the same body. */
  lemma BodyAgreesWithContactPy(headers: map<string, string>, decoded: Option<Json>)
    requires ContentLength(headers).Some?
    ensures BodyOf(headers, decoded) == Some(ContactPy.ParseJsonBody(headers, decoded))
  {
    ContentLengthAgreesWithContactPy(headers);
  }

  /** The key's folders: `datetime.fromisoformat` on the timestamp, read back
      in UTC; None stands for the ValueError a malformed timestamp raises. */
  function FoldersOf(timestamp: string): (r: Option<string>)
    ensures r.None? <==> ParseIsoTimestamp(timestamp).None?
    ensures r.Some? ==> var d := ParseIsoTimestamp(timestamp).value; r.value == DateFolders(d.year, d.month, d.day)
  {
    match ParseIsoTimestamp(timestamp)
    case None => None
    case Some(date) => Some(DateFolders(date.year, date.month, date.day))
  }

  /** Reading a formatted clock reading back gives its own date, so both
      Python handlers file a submission under the same folders. */
  lemma FoldersAgreeWithContactPy(now: DateTime)
    requires ValidDateTime(now)
    ensures FoldersOf(ToIsoUtc(now)) == Some(DateFolders(now.year, now.month, now.day))
  {
    IsoRoundTrip(now);
  }

  /** `do_POST`. */
  function DoPost(env: Env, headers: map<string, string>, decoded: Option<Json>, now: DateTime, suffix: string): (r: Step)
    ensures r.Respond? && r.response.status == 500 <==> GetStorageConfig(env).None?
    ensures r.Unhandled? ==> GetStorageConfig(env).Some?
                             && (ContentLength(headers).None? || FoldersOf(ToIsoUtc(now)).None?)
    ensures r.Write? ==> && StorageOf(env) == Some(Storage(r.client, r.put.bucket))
                         && FoldersOf(ToIsoUtc(now)).Some? && r.put.record.submittedAt == ToIsoUtc(now)
                         && r.put.key == ObjectKey(FoldersOf(ToIsoUtc(now)).value, BuildSubmissionId(ToIsoUtc(now), suffix))
  {
    var submittedAt := ToIsoUtc(now);
    Decide(StorageOf(env), BodyOf(headers, decoded), submittedAt, suffix, FoldersOf(submittedAt), headers)
  }

  /** The order `do_POST` decides in: storage configuration first, then the
      Content-Length (whose ValueError escapes), then the rejection chain. */
  lemma DecisionOrder(env: Env, headers: map<string, string>, decoded: Option<Json>, now: DateTime, suffix: string)
    ensures var r := DoPost(env, headers, decoded, now, suffix);
            GetStorageConfig(env).None? ==> r == Respond(Response(500, Failure(NotConfiguredMessage)))
    ensures var r := DoPost(env, headers, decoded, now, suffix);
            GetStorageConfig(env).Some? && ContentLength(headers).None? ==> r.Unhandled?
    ensures var r, body := DoPost(env, headers, decoded, now, suffix), BodyOf(headers, decoded);
            GetStorageConfig(env).Some? && body.Some? && Rejection(ReadFields(body.value)).Some?
            ==> r == Respond(Response(400, Failure(Rejection(ReadFields(body.value)).value)))
  {
    var ts := ToIsoUtc(now);
    DecideOrder(StorageOf(env), BodyOf(headers, decoded), ts, suffix, FoldersOf(ts), headers);
  }

  /** A write happens exactly for an acceptable body under a complete
      configuration, with a timestamp that reads back; it never carries a
      session token. */
  lemma WritesExactlyAcceptable(env: Env, headers: map<string, string>, decoded: Option<Json>, now: DateTime, suffix: string)
    ensures var r, body := DoPost(env, headers, decoded, now, suffix), BodyOf(headers, decoded);
            r.Write? <==>
              GetStorageConfig(env).Some? && body.Some? && Acceptable(ReadFields(body.value)) && FoldersOf(ToIsoUtc(now)).Some?
    ensures var r := DoPost(env, headers, decoded, now, suffix);
            r.Write? ==> r.client.sessionToken.None? && StorageOf(env).Some? && r.put.bucket == StorageOf(env).value.bucket
  {
    var ts := ToIsoUtc(now);
    DecideOrder(StorageOf(env), BodyOf(headers, decoded), ts, suffix, FoldersOf(ts), headers);
  }

  /** For a real clock reading the handler raises only on a malformed
      Content-Length. */
  lemma NeverUnhandledOnWellFormedLength(env: Env, headers: map<string, string>, decoded: Option<Json>, now: DateTime, suffix: string)
    requires ValidDateTime(now)
    ensures DoPost(env, headers, decoded, now, suffix).Unhandled?
            <==> GetStorageConfig(env).Some? && ContentLength(headers).None?
  {
    var ts := ToIsoUtc(now);
    DecideOrder(StorageOf(env), BodyOf(headers, decoded), ts, suffix, FoldersOf(ts), headers);
    FoldersAgreeWithContactPy(now);
  }

  /** Where the two Python handlers can both answer, they answer alike: with
      no writer-specific variables and a Content-Length int() accepts, they
      take the same step for the same request, clock reading and suffix. */
  lemma AgreesWithContactPy(env: Env, headers: map<string, string>, decoded: Option<Json>, now: DateTime, suffix: string)
    requires ValidDateTime(now)
    requires GetEnv(env, "AWS_WRITER_ACCESS_KEY_ID") == "" && GetEnv(env, "AWS_WRITER_SECRET_ACCESS_KEY") == ""
    requires FirstSet(env, ContactPy.SessionTokenNames) == ""
    requires ContentLength(headers).Some?
    ensures DoPost(env, headers, decoded, now, suffix) == ContactPy.DoPost(env, headers, decoded, now, suffix)
  {
    ConfigAgreesWithContactPy(env);
    BodyAgreesWithContactPy(headers, decoded);
    FoldersAgreeWithContactPy(now);
  }

  /** `api/contact_handler.py` dispatches on the method as `api/contact.py`
      does (Submission.Dispatch over its own `do_POST`); under the conditions
      of AgreesWithContactPy every method gets the same step from both. */
  lemma DispatchAgreesWithContactPy(verb: Method, env: Env, headers: map<string, string>, decoded: Option<Json>, now: DateTime, suffix: string)
    requires ValidDateTime(now)
    requires GetEnv(env, "AWS_WRITER_ACCESS_KEY_ID") == "" && GetEnv(env, "AWS_WRITER_SECRET_ACCESS_KEY") == ""
    requires FirstSet(env, ContactPy.SessionTokenNames) == ""
    requires ContentLength(headers).Some?
    ensures Dispatch(verb, DoPost(env, headers, decoded, now, suffix)) == ContactPy.Handle(verb, env, headers, decoded, now, suffix)
  {
    if verb.POST? {
      AgreesWithContactPy(env, headers, decoded, now, suffix);
    }
  }
}
