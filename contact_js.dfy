/** The JavaScript handler, api/contact.js: the method is checked before the
    configuration, the body is whatever object the runtime parsed, the id's
    separators are replaced in one pass, and the key's date is read back with
    `new Date`. */
module ContactJs {
  import opened Wrappers
  import opened Text
  import opened Json
  import opened Environment
  import opened Submission
  import ContactPy
  import ContactHandler

  /** `{region, credentials: {accessKeyId, secretAccessKey}}` as handed to the client. */
  datatype Credentials = Credentials(accessKeyId: string, secretAccessKey: string)
  datatype ClientConfig = ClientConfig(region: string, credentials: Credentials)
  datatype StorageConfig = StorageConfig(bucket: string, clientConfig: ClientConfig)

  /** `getStorageConfig`: null unless region, both key halves and the bucket are
      set; the secret falls back to the misspelled name. */
  function GetStorageConfig(env: Env): (r: Option<StorageConfig>)
    ensures r.None? <==>
              || GetEnv(env, "AWS_REGION") == "" || GetEnv(env, "AWS_ACCESS_KEY_ID") == ""
              || FirstSet(env, ContactHandler.SecretKeyNames) == "" || GetEnv(env, "AWS_S3_BUCKET") == ""
    ensures r.Some? ==> r.value == StorageConfig(
              GetEnv(env, "AWS_S3_BUCKET"),
              ClientConfig(GetEnv(env, "AWS_REGION"),
                           Credentials(GetEnv(env, "AWS_ACCESS_KEY_ID"), FirstSet(env, ContactHandler.SecretKeyNames))))
  {
    var region := GetEnv(env, "AWS_REGION");
    var accessKeyId := GetEnv(env, "AWS_ACCESS_KEY_ID");
    var secretAccessKey := OrElse(GetEnv(env, "AWS_SECRET_ACCESS_KEY"), GetEnv(env, "AWS_SECRET_ACESS_KEY"));
    var bucket := GetEnv(env, "AWS_S3_BUCKET");
    FirstSetOfTwo(env, "AWS_SECRET_ACCESS_KEY", "AWS_SECRET_ACESS_KEY");
    if region == "" || accessKeyId == "" || secretAccessKey == "" || bucket == "" then None
    else Some(StorageConfig(bucket, ClientConfig(region, Credentials(accessKeyId, secretAccessKey))))
  }

  /** The client and bucket `getStorageConfig` yields; no session token. */
  function StorageOf(env: Env): (r: Option<Storage>)
    ensures r.Some? <==> GetStorageConfig(env).Some?
    ensures r.Some? ==> r.value == Storage(ClientArgs(GetEnv(env, "AWS_REGION"), GetEnv(env, "AWS_ACCESS_KEY_ID"),
                                                      FirstSet(env, ContactHandler.SecretKeyNames), None),
                                           GetEnv(env, "AWS_S3_BUCKET"))
  {
    match GetStorageConfig(env)
    case None => None
    case Some(c) =>
      var cred := c.clientConfig.credentials;
      Some(Storage(ClientArgs(c.clientConfig.region, cred.accessKeyId, cred.secretAccessKey, None), c.bucket))
  }

  /** The JavaScript handler and api/contact_handler.py read the same variables
      into the same client settings and bucket. */
  lemma ConfigAgreesWithContactHandler(env: Env)
    ensures StorageOf(env) == ContactHandler.StorageOf(env)
    ensures GetStorageConfig(env).None? <==> ContactHandler.GetStorageConfig(env).None?
  {
  }

  /** `req.body && typeof req.body === 'object' ? req.body : {}`: a parsed
      object is read as is; anything else, including no body, reads as `{}`.
      A parsed array is an object too, but has none of the field names, so it
      reads like `{}`. */
  function RequestBody(body: Option<Json>): (r: map<string, Json>)
    ensures body.Some? && body.value.JObject? ==> r == body.value.fields
    ensures body.None? || !body.value.JObject? ==> r == map[]
    ensures r == BodyObject(1, body)
  {
    match body
    case Some(JObject(m)) => m
    case _ => map[]
  }

  /** `timestamp.replace(/[:.]/g, '-')`: one pass over both separators. */
  function ReplaceSeparators(s: string): (r: string)
    ensures |r| == |s| && ':' !in r && '.' !in r
  {
    if s == [] then [] else [if s[0] == ':' || s[0] == '.' then '-' else s[0]] + ReplaceSeparators(s[1..])
  }

  lemma {:induction false} ReplaceSeparatorsAt(s: string)
    ensures |ReplaceSeparators(s)| == |s|
    ensures forall i :: 0 <= i < |s| ==>
              ReplaceSeparators(s)[i] == if s[i] == ':' || s[i] == '.' then '-' else s[i]
  {
    if s != [] {
      ReplaceSeparatorsAt(s[1..]);
      var r := ReplaceSeparators(s);
      forall i | 1 <= i < |s|
        ensures r[i] == ReplaceSeparators(s[1..])[i - 1] && s[1..][i - 1] == s[i]
      {
      }
    }
  }

  /** `buildSubmissionId`: the suffix is `Math.random().toString(36).slice(2, 10)`,
      passed in. */
  function JsSubmissionId(timestamp: string, suffix: string): (r: string)
    ensures |r| == |timestamp| + 1 + |suffix|
    ensures ':' !in r[..|timestamp|] && '.' !in r[..|timestamp|]
    ensures r[|timestamp|] == '-' && r[|timestamp| + 1..] == suffix
  {
    assert (ReplaceSeparators(timestamp) + "-" + suffix)[..|timestamp|] == ReplaceSeparators(timestamp);
    ReplaceSeparators(timestamp) + "-" + suffix
  }

  /** The one-pass replacement gives the same id as the Python handlers' two
      chained replacements. */
  lemma {:induction false} JsSubmissionIdAgrees(timestamp: string, suffix: string)
    ensures JsSubmissionId(timestamp, suffix) == BuildSubmissionId(timestamp, suffix)
  {
    ReplaceSeparatorsAt(timestamp);
    var a, b := JsSubmissionId(timestamp, suffix), BuildSubmissionId(timestamp, suffix);
    assert |a| == |b|;
    forall i | 0 <= i < |a|
      ensures a[i] == b[i]
    {
      if i > |timestamp| {
        assert a[i] == suffix[i - |timestamp| - 1];
        assert b[i] == b[|timestamp| + 1..][i - |timestamp| - 1];
      }
    }
  }

  /** What the JavaScript suffix can be: the digits of a random fraction in
      base 36 after "0.", at most eight of them and possibly fewer. */
  predicate IsJsSuffix(suffix: string) {
    |suffix| <= 8 && forall i :: 0 <= i < |suffix| ==> IsSuffixChar(suffix[i])
  }

  /** With such a suffix the id has no ':' or '.', and is at most nine
      characters longer than the timestamp. */
  lemma JsSubmissionIdIsPathSafe(timestamp: string, suffix: string)
    requires IsJsSuffix(suffix)
    ensures |JsSubmissionId(timestamp, suffix)| <= |timestamp| + 9
    ensures ':' !in JsSubmissionId(timestamp, suffix) && '.' !in JsSubmissionId(timestamp, suffix)
  {
    JsSubmissionIdAgrees(timestamp, suffix);
    var r := BuildSubmissionId(timestamp, suffix);
    forall i | 0 <= i < |r|
      ensures r[i] != ':' && r[i] != '.'
    {
      if i > |timestamp| {
        assert r[i] == r[|timestamp| + 1..][i - |timestamp| - 1] == suffix[i - |timestamp| - 1];
      }
    }
  }

  /** `padDatePart`: `String(value).padStart(2, '0')` on a whole number. */
  function PadDatePart(n: nat): (r: string)
    ensures |r| == if n < 10 then 2 else |NatToString(n)|
    ensures AllDigits(r) && ParseNat(r) == n
    ensures n >= 10 ==> r == NatToString(n)
  {
    assert Pow10(1) == 10;
    NatToStringLength(n, 1);
    NatToStringLength(n, 2);
    var r := ZeroPad(n, 2);
    assert n >= 10 ==> r == r[|r| - |NatToString(n)|..];
    r
  }

  /** The date folders of `buildObjectKey`: `new Date(timestamp)` read in UTC.
      A timestamp that does not read back gives an invalid date, whose parts
      all print as "NaN". */
  function JsFolders(timestamp: string): (r: string)
    ensures r == "NaN/NaN/NaN" <==> ParseIsoTimestamp(timestamp).None?
    ensures ParseIsoTimestamp(timestamp).Some? ==>
              var d := ParseIsoTimestamp(timestamp).value; r == DateFolders(d.year, d.month, d.day)
  {
    match ParseIsoTimestamp(timestamp)
    case None => "NaN/NaN/NaN"
    case Some(d) =>
      var r := NatToString(d.year) + "/" + PadDatePart(d.month) + "/" + PadDatePart(d.day);
      assert r[0] == NatToString(d.year)[0] && IsDigit(r[0]);
      r
  }

  /** For the handler's own clock reading the folders are the reading's date,
      as every handler files it. */
  lemma JsFoldersOfClock(now: DateTime)
    requires ValidDateTime(now)
    ensures JsFolders(ToIsoUtc(now)) == DateFolders(now.year, now.month, now.day)
  {
    IsoRoundTrip(now);
  }

  /** A text that is not in the `toISOString` shape is filed under NaN
      folders: the model's `new Date` reads only the shape the handler's own
      clock reading has. */
  lemma JsFoldersOfGarbage(timestamp: string)
    requires !IsoShape(timestamp)
    ensures JsFolders(timestamp) == "NaN/NaN/NaN"
  {
  }

  /** The exported handler, for request method `verb`, the variables `env`,
      the parsed body `body`, the request headers, the clock reading `now`
      and the random suffix. */
  function Handle(verb: Method, env: Env, body: Option<Json>, headers: map<string, string>, now: DateTime, suffix: string): (r: Step)
    ensures !r.Unhandled?
    ensures r.Respond? && r.response.status == 405 <==> !verb.POST?
    ensures r.Respond? && r.response.status == 500 <==> verb.POST? && GetStorageConfig(env).None?
    ensures r.Write? ==> && verb.POST? && StorageOf(env) == Some(Storage(r.client, r.put.bucket))
                         && r.put.record.submittedAt == ToIsoUtc(now)
                         && r.put.key == ObjectKey(JsFolders(ToIsoUtc(now)), BuildSubmissionId(ToIsoUtc(now), suffix))
  {
    if !verb.POST? then Respond(Response(405, Failure(MethodNotAllowedMessage)))
    else
      var submittedAt := ToIsoUtc(now);
      Decide(StorageOf(env), Some(RequestBody(body)), submittedAt, suffix, Some(JsFolders(submittedAt)), headers)
  }

  /** Every method other than POST is refused before the configuration is
      looked at, and only POST can write. */
  lemma MethodCheckedFirst(verb: Method, env: Env, body: Option<Json>, headers: map<string, string>, now: DateTime, suffix: string)
    ensures !verb.POST? ==> Handle(verb, env, body, headers, now, suffix) == Respond(Response(405, Failure(MethodNotAllowedMessage)))
    ensures Handle(verb, env, body, headers, now, suffix).Write? ==> verb.POST?
  {
  }

  /** For POST: configuration first, then the rejection chain. */
  lemma DecisionOrder(env: Env, body: Option<Json>, headers: map<string, string>, now: DateTime, suffix: string)
    ensures GetStorageConfig(env).None? ==>
              Handle(POST, env, body, headers, now, suffix) == Respond(Response(500, Failure(NotConfiguredMessage)))
    ensures var fields := ReadFields(RequestBody(body));
            GetStorageConfig(env).Some? && Rejection(fields).Some? ==>
              Handle(POST, env, body, headers, now, suffix) == Respond(Response(400, Failure(Rejection(fields).value)))
  {
    var ts := ToIsoUtc(now);
    DecideOrder(StorageOf(env), Some(RequestBody(body)), ts, suffix, Some(JsFolders(ts)), headers);
  }

  /** A POST writes exactly when the configuration is complete and the body's
      fields are acceptable; the handler always answers itself. */
  lemma WritesExactlyAcceptable(env: Env, body: Option<Json>, headers: map<string, string>, now: DateTime, suffix: string)
    ensures Handle(POST, env, body, headers, now, suffix).Write? <==>
              GetStorageConfig(env).Some? && Acceptable(ReadFields(RequestBody(body)))
    ensures !Handle(POST, env, body, headers, now, suffix).Unhandled?
  {
    var ts := ToIsoUtc(now);
    DecideOrder(StorageOf(env), Some(RequestBody(body)), ts, suffix, Some(JsFolders(ts)), headers);
  }

  /** What a stored submission looks like: its id is the JavaScript id of its
      own timestamp, its key's folders are that timestamp's date characters,
      and it goes to the configured bucket without a session token. */
  lemma StoredSubmission(env: Env, body: Option<Json>, headers: map<string, string>, now: DateTime, suffix: string)
    requires ValidDateTime(now) && now.year >= 1000 && IsJsSuffix(suffix)
    requires Handle(POST, env, body, headers, now, suffix).Write?
    ensures var w := Handle(POST, env, body, headers, now, suffix);
            var ts := w.put.record.submittedAt;
            var id := w.put.record.submissionId;
            && ts == ToIsoUtc(now)
            && id == JsSubmissionId(ts, suffix)
            && w.put.key == ObjectKey(ts[0..4] + "/" + ts[5..7] + "/" + ts[8..10], id)
            && ':' !in id && '.' !in id
            && GetStorageConfig(env).Some? && w.put.bucket == GetStorageConfig(env).value.bucket
            && w.client.sessionToken.None?
  {
    var ts := ToIsoUtc(now);
    DecideOrder(StorageOf(env), Some(RequestBody(body)), ts, suffix, Some(JsFolders(ts)), headers);
    JsFoldersOfClock(now);
    FoldersMatchTimestamp(now);
    JsSubmissionIdAgrees(ts, suffix);
    JsSubmissionIdIsPathSafe(ts, suffix);
  }

  /** Every string value of the body lies in the Basic Multilingual Plane, where
      JavaScript's UTF-16 `slice` and Python's code-point slicing cut alike. */
  predicate BmpBody(m: map<string, Json>) {
    forall k :: k in m && m[k].JString? ==> InBmp(m[k].s)
  }

  /** Given the same body object, a POST to the JavaScript handler takes the
      same step as api/contact.py wherever the latter's writer-specific
      variables and session token are unset. */
  lemma AgreesWithContactPy(env: Env, body: Option<Json>, headers: map<string, string>, decoded: Option<Json>, now: DateTime, suffix: string)
    requires ValidDateTime(now)
    requires GetEnv(env, "AWS_WRITER_ACCESS_KEY_ID") == "" && GetEnv(env, "AWS_WRITER_SECRET_ACCESS_KEY") == ""
    requires FirstSet(env, ContactPy.SessionTokenNames) == ""
    requires RequestBody(body) == ContactPy.ParseJsonBody(headers, decoded)
    requires BmpBody(RequestBody(body))
    ensures Handle(POST, env, body, headers, now, suffix) == ContactPy.DoPost(env, headers, decoded, now, suffix)
  {
    ConfigAgreesWithContactHandler(env);
    ContactHandler.ConfigAgreesWithContactPy(env);
    JsFoldersOfClock(now);
  }
}
