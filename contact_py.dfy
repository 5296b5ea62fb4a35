/** The original Python handler, api/contact.py: storage configuration with the
    writer-specific variables first, the request body read through
    Content-Length, and the POST decision. */
module ContactPy {
  import opened Wrappers
  import opened Text
  import opened Json
  import opened Environment
  import opened Submission

  /** Variables tried for each credential, first one set wins. The third secret
      name is the misspelling the deployment also accepts. */
  const AccessKeyNames := ["AWS_WRITER_ACCESS_KEY_ID", "AWS_ACCESS_KEY_ID"]
  const SecretKeyNames := ["AWS_WRITER_SECRET_ACCESS_KEY", "AWS_SECRET_ACCESS_KEY", "AWS_SECRET_ACESS_KEY"]
  const SessionTokenNames := ["AWS_WRITER_SESSION_TOKEN", "AWS_SESSION_TOKEN"]


  datatype StorageConfig = StorageConfig(
    region: string, accessKeyId: string, secretAccessKey: string,
    sessionToken: string, bucket: string)

  /** `get_storage_config`: None unless region, both key halves and the bucket
      are all set; the session token may be empty. Each value is the first set
      variable of its list. */
  function GetStorageConfig(env: Env): (r: Option<StorageConfig>)
    ensures r.None? <==>
              || GetEnv(env, "AWS_REGION") == "" || FirstSet(env, AccessKeyNames) == ""
              || FirstSet(env, SecretKeyNames) == "" || GetEnv(env, "AWS_S3_BUCKET") == ""
    ensures r.Some? ==> r.value == StorageConfig(
              GetEnv(env, "AWS_REGION"), FirstSet(env, AccessKeyNames), FirstSet(env, SecretKeyNames),
              FirstSet(env, SessionTokenNames), GetEnv(env, "AWS_S3_BUCKET"))
  {
    var region := GetEnv(env, "AWS_REGION");
    var accessKeyId := OrElse(GetEnv(env, "AWS_WRITER_ACCESS_KEY_ID"), GetEnv(env, "AWS_ACCESS_KEY_ID"));
    var secretAccessKey := OrElse(OrElse(GetEnv(env, "AWS_WRITER_SECRET_ACCESS_KEY"), GetEnv(env, "AWS_SECRET_ACCESS_KEY")),
                                  GetEnv(env, "AWS_SECRET_ACESS_KEY"));
    var sessionToken := OrElse(GetEnv(env, "AWS_WRITER_SESSION_TOKEN"), GetEnv(env, "AWS_SESSION_TOKEN"));
    var bucket := GetEnv(env, "AWS_S3_BUCKET");
    FirstSetOfTwo(env, "AWS_WRITER_ACCESS_KEY_ID", "AWS_ACCESS_KEY_ID");
    FirstSetOfThree(env, "AWS_WRITER_SECRET_ACCESS_KEY", "AWS_SECRET_ACCESS_KEY", "AWS_SECRET_ACESS_KEY");
    FirstSetOfTwo(env, "AWS_WRITER_SESSION_TOKEN", "AWS_SESSION_TOKEN");
    if region == "" || accessKeyId == "" || secretAccessKey == "" || bucket == "" then None
    else Some(StorageConfig(region, accessKeyId, secretAccessKey, sessionToken, bucket))
  }

  /** A writer-specific credential overrides the shared one, and the misspelled
      secret name is used only when both correct names are unset. */
  lemma WriterCredentialsTakePrecedence(env: Env)
    requires GetStorageConfig(env).Some?
    ensures GetEnv(env, "AWS_WRITER_ACCESS_KEY_ID") != ""
            ==> GetStorageConfig(env).value.accessKeyId == GetEnv(env, "AWS_WRITER_ACCESS_KEY_ID")
    ensures GetEnv(env, "AWS_WRITER_SECRET_ACCESS_KEY") != ""
            ==> GetStorageConfig(env).value.secretAccessKey == GetEnv(env, "AWS_WRITER_SECRET_ACCESS_KEY")
    ensures GetEnv(env, "AWS_WRITER_SECRET_ACCESS_KEY") == "" && GetEnv(env, "AWS_SECRET_ACCESS_KEY") == ""
            ==> GetStorageConfig(env).value.secretAccessKey == GetEnv(env, "AWS_SECRET_ACESS_KEY")
  {
    FirstSetOfTwo(env, "AWS_WRITER_ACCESS_KEY_ID", "AWS_ACCESS_KEY_ID");
    FirstSetOfThree(env, "AWS_WRITER_SECRET_ACCESS_KEY", "AWS_SECRET_ACCESS_KEY", "AWS_SECRET_ACESS_KEY");
  }

  /** The client settings: `session_token or None`. */
  function ClientArgsOf(c: StorageConfig): (r: ClientArgs)
    ensures r.region == c.region && r.accessKeyId == c.accessKeyId && r.secretAccessKey == c.secretAccessKey
    ensures r.sessionToken.None? <==> c.sessionToken == ""
    ensures r.sessionToken.Some? ==> r.sessionToken.value == c.sessionToken
  {
    ClientArgs(c.region, c.accessKeyId, c.secretAccessKey, if c.sessionToken == "" then None else Some(c.sessionToken))
  }

  /** `int(headers.get("content-length", "0"))`, with 0 when int() raises. */
  function ContentLength(headers: map<string, string>): (r: int)
    ensures "content-length" !in headers ==> r == 0
    ensures "content-length" in headers && PyInt(headers["content-length"]).None? ==> r == 0
    ensures "content-length" in headers && PyInt(headers["content-length"]).Some?
            ==> r == PyInt(headers["content-length"]).value
  {
    if "content-length" !in headers then 0
    else match PyInt(headers["content-length"])
      case Some(n) => n
      case None => 0
  }

  /** `parse_json_body`: the decoded object, or `{}` for a missing, malformed,
      zero or negative length, undecodable bytes, or a non-object document. */
  function ParseJsonBody(headers: map<string, string>, decoded: Option<Json>): (r: map<string, Json>)
    ensures ContentLength(headers) <= 0 ==> r == map[]
    ensures r != map[] ==> decoded.Some? && decoded.value.JObject? && r == decoded.value.fields
    ensures ContentLength(headers) > 0 && decoded.Some? && decoded.value.JObject? ==> r == decoded.value.fields
    ensures decoded.None? || !decoded.value.JObject? ==> r == map[]
  {
    BodyObject(ContentLength(headers), decoded)
  }

  /** The client and bucket a complete configuration yields. */
  function StorageOf(env: Env): (r: Option<Storage>)
    ensures r.Some? <==> GetStorageConfig(env).Some?
    ensures r.Some? ==> r.value == Storage(ClientArgsOf(GetStorageConfig(env).value), GetStorageConfig(env).value.bucket)
  {
    match GetStorageConfig(env)
    case None => None
    case Some(c) => Some(Storage(ClientArgsOf(c), c.bucket))
  }

  /** `do_POST`. `now` is the clock reading, `suffix` the random id suffix and
      `decoded` what json.loads made of the body bytes. The body is always
      read (parse_json_body catches everything) and the key's folders come
      straight from `now`. */
  function DoPost(env: Env, headers: map<string, string>, decoded: Option<Json>, now: DateTime, suffix: string): (r: Step)
    ensures !r.Unhandled?
    ensures r.Respond? && r.response.status == 500 <==> GetStorageConfig(env).None?
    ensures r.Write? ==> && StorageOf(env) == Some(Storage(r.client, r.put.bucket))
                         && r.put.record.submittedAt == ToIsoUtc(now)
                         && r.put.key == ObjectKey(DateFolders(now.year, now.month, now.day),
                                                   BuildSubmissionId(ToIsoUtc(now), suffix))
  {
    Decide(StorageOf(env), Some(ParseJsonBody(headers, decoded)), ToIsoUtc(now), suffix,
           Some(DateFolders(now.year, now.month, now.day)), headers)
  }

  /** The order `do_POST` decides in: storage configuration before anything
      is read, then the rejection chain; a write happens exactly for an
      acceptable body under a complete configuration, and the handler always
      answers itself. */
  lemma DecisionOrder(env: Env, headers: map<string, string>, decoded: Option<Json>, now: DateTime, suffix: string)
    ensures var r := DoPost(env, headers, decoded, now, suffix);
            !r.Unhandled?
    ensures var r := DoPost(env, headers, decoded, now, suffix);
            GetStorageConfig(env).None? ==> r == Respond(Response(500, Failure(NotConfiguredMessage)))
    ensures var r, fields := DoPost(env, headers, decoded, now, suffix), ReadFields(ParseJsonBody(headers, decoded));
            GetStorageConfig(env).Some? && Rejection(fields).Some?
            ==> r == Respond(Response(400, Failure(Rejection(fields).value)))
    ensures var r, fields := DoPost(env, headers, decoded, now, suffix), ReadFields(ParseJsonBody(headers, decoded));
            r.Write? <==> GetStorageConfig(env).Some? && Acceptable(fields)
  {
    DecideOrder(StorageOf(env), Some(ParseJsonBody(headers, decoded)), ToIsoUtc(now), suffix,
                Some(DateFolders(now.year, now.month, now.day)), headers);
  }

  /** What a stored submission looks like: a well-formed record whose id is
      made from its own timestamp, under a key whose date folders repeat that
      timestamp's date, written with the configured client to the configured
      bucket. */
  lemma StoredSubmission(env: Env, headers: map<string, string>, decoded: Option<Json>, now: DateTime, suffix: string)
    requires ValidDateTime(now) && now.year >= 1000 && IsPythonSuffix(suffix)
    requires DoPost(env, headers, decoded, now, suffix).Write?
    ensures var w := DoPost(env, headers, decoded, now, suffix);
            var ts := w.put.record.submittedAt;
            var id := w.put.record.submissionId;
            && ts == ToIsoUtc(now) && IsoShape(ts)
            && GetStorageConfig(env).Some?
            && w.client == ClientArgsOf(GetStorageConfig(env).value)
            && w.put.bucket == GetStorageConfig(env).value.bucket
            && WellFormedRecord(w.put.record, BuildSubmissionId(ts, suffix), ts)
            && w.put.key == ObjectKey(ts[0..4] + "/" + ts[5..7] + "/" + ts[8..10], id)
            && ':' !in id && '.' !in id
  {
    var ts := ToIsoUtc(now);
    DecideOrder(StorageOf(env), Some(ParseJsonBody(headers, decoded)), ts, suffix,
                Some(DateFolders(now.year, now.month, now.day)), headers);
    FoldersMatchTimestamp(now);
    SubmissionIdIsPathSafe(ts, suffix);
    IsoRoundTrip(now);
  }

  /** The handler as dispatched by the request method `verb`: POST runs `do_POST`, the other
      listed methods get 405, and any other method is answered by the server
      framework itself. */
  function Handle(verb: Method, env: Env, headers: map<string, string>, decoded: Option<Json>, now: DateTime, suffix: string): (r: Step)
    ensures verb.POST? ==> r == DoPost(env, headers, decoded, now, suffix)
    ensures !verb.POST? && !verb.Other? ==> r == Respond(Response(405, Failure(MethodNotAllowedMessage)))
    ensures verb.Other? ==> r.Unhandled?
    ensures r.Write? ==> verb.POST?
  {
    Dispatch(verb, DoPost(env, headers, decoded, now, suffix))
  }
}
