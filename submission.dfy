/** The submission pipeline shared by api/contact.py, api/contact_handler.py and
    api/contact.js: field cleaning, the validation chain, the submission record,
    the id and object-key builders, the ISO-8601 timestamp, and what a handler
    decides to do with a request. */
module Submission {
  import opened Wrappers
  import opened Text
  import opened Email
  import opened Json

  const NotConfiguredMessage := "Storage is not configured."
  const HoneypotMessage := "Unable to process submission."
  const RequiredMessage := "First name, last name, and email are required."
  const InvalidEmailMessage := "Please provide a valid email address."
  const SaveFailedMessage := "Unable to save your message right now."
  const MethodNotAllowedMessage := "Method not allowed."
  const KeyRoot := "contact-submissions/"

  // ---------------------------------------------------------------------------
  // Fields

  /** `body.get(name)` on a decoded object; a JSON null reads like a missing key. */
  function Lookup(body: map<string, Json>, name: string): Option<Json> {
    if name in body then Some(body[name]) else None
  }

  /** `clean_text(value)` / `cleanText(value)`: "" for anything but a string. */
  function CleanValue(v: Option<Json>): (r: string)
    ensures !(v.Some? && v.value.JString?) ==> r == ""
    ensures r == "" <==> !(v.Some? && v.value.JString?) || AllSpace(v.value.s)
    ensures |r| <= MaxFieldLength && Collapsed(r) && (r == [] || !IsSpace(r[0]))
  {
    match v
    case Some(JString(s)) => CleanText(s)
    case _ => ""
  }

  /** The nine cleaned form fields. */
  datatype Fields = Fields(
    firstName: string, lastName: string, email: string, phone: string,
    careerStage: string, sport: string, message: string, referral: string,
    website: string)

  /** A field a handler reads as empty: absent, not a string, or only whitespace. */
  predicate Blank(body: map<string, Json>, name: string) {
    var v := Lookup(body, name);
    !(v.Some? && v.value.JString?) || AllSpace(v.value.s)
  }

  /** The nine fields, each read from the body and cleaned; a field is empty
      exactly when the body leaves it blank. */
  function ReadFields(body: map<string, Json>): (r: Fields)
    ensures r.firstName == "" <==> Blank(body, "firstName")
    ensures r.lastName == "" <==> Blank(body, "lastName")
    ensures r.email == "" <==> Blank(body, "email")
    ensures r.phone == "" <==> Blank(body, "phone")
    ensures r.careerStage == "" <==> Blank(body, "careerStage")
    ensures r.sport == "" <==> Blank(body, "sport")
    ensures r.message == "" <==> Blank(body, "message")
    ensures r.referral == "" <==> Blank(body, "referral")
    ensures r.website == "" <==> Blank(body, "website")
  {
    Fields(
      CleanValue(Lookup(body, "firstName")), CleanValue(Lookup(body, "lastName")),
      CleanValue(Lookup(body, "email")), CleanValue(Lookup(body, "phone")),
      CleanValue(Lookup(body, "careerStage")), CleanValue(Lookup(body, "sport")),
      CleanValue(Lookup(body, "message")), CleanValue(Lookup(body, "referral")),
      CleanValue(Lookup(body, "website")))
  }

  /** The rejection chain every handler runs, in its order: honeypot, then the
      required fields, then the address pattern. None means the fields pass. */
  function Rejection(f: Fields): (r: Option<string>)
    ensures r.None? <==> f.website == "" && f.firstName != "" && f.lastName != "" && f.email != "" && IsValidEmail(f.email)
    ensures r.Some? ==> r.value in {HoneypotMessage, RequiredMessage, InvalidEmailMessage}
  {
    if f.website != "" then Some(HoneypotMessage)
    else if f.firstName == "" || f.lastName == "" || f.email == "" then Some(RequiredMessage)
    else if !IsValidEmail(f.email) then Some(InvalidEmailMessage)
    else None
  }

  /** Fields that a handler goes on to store. */
  ghost predicate Acceptable(f: Fields) {
    f.website == "" && f.firstName != "" && f.lastName != "" && f.email != "" && MatchesEmailPattern(f.email)
  }

  /** Each check decides only when every earlier one passed, and the chain lets
      through exactly the acceptable fields. */
  lemma RejectionOrder(f: Fields)
    ensures f.website != "" ==> Rejection(f) == Some(HoneypotMessage)
    ensures f.website == "" && (f.firstName == "" || f.lastName == "" || f.email == "")
            ==> Rejection(f) == Some(RequiredMessage)
    ensures f.website == "" && f.firstName != "" && f.lastName != "" && f.email != "" && !MatchesEmailPattern(f.email)
            ==> Rejection(f) == Some(InvalidEmailMessage)
    ensures Rejection(f) == None <==> Acceptable(f)
  {
    EmailCheckMatchesPattern(f.email);
  }

  // ---------------------------------------------------------------------------
  // Responses and the handler's decision

  /** `{ok: false, error}` or `{ok: true, id}`. */
  datatype Payload = Failure(error: string) | Success(id: string)

  datatype Response = Response(status: nat, payload: Payload)

  datatype SubmissionRecord = SubmissionRecord(
    submissionId: string, firstName: string, lastName: string, email: string,
    phone: string, careerStage: string, sport: string, message: string,
    referral: string, submittedAt: string, source: string, userAgent: string)

  /** The connection settings a handler hands to the storage client: region,
      key pair, and a session token only when one is configured. */
  datatype ClientArgs = ClientArgs(region: string, accessKeyId: string, secretAccessKey: string, sessionToken: Option<string>)

  /** One object write: bucket, key and the record serialised as its body
      (always sent as JSON with AES256 server-side encryption). */
  datatype PutRequest = PutRequest(bucket: string, key: string, record: SubmissionRecord)

  /** What a handler does with a request: answer at once, write and then answer,
      or let an exception escape so that the server framework answers (no JSON
      response from the handler). */
  datatype Step = Respond(response: Response) | Write(client: ClientArgs, put: PutRequest) | Unhandled

  /** An HTTP request method; `Other` is any method none of the handlers names. */
  datatype Method = GET | POST | PUT | PATCH | DELETE | OPTIONS | HEAD | Other(name: string)

  /** How both Python handlers dispatch on the request method: POST takes the
      step `post` that `do_POST` decides, GET, HEAD, PUT, PATCH, DELETE and
      OPTIONS get the 405, and any other method is answered by the server
      framework itself. */
  function Dispatch(verb: Method, post: Step): (r: Step)
    ensures verb.POST? ==> r == post
    ensures !verb.POST? && !verb.Other? ==> r == Respond(Response(405, Failure(MethodNotAllowedMessage)))
    ensures verb.Other? ==> r.Unhandled?
    ensures r.Write? ==> verb.POST?
  {
    match verb
    case POST => post
    case Other(_) => Unhandled
    case _ => Respond(Response(405, Failure(MethodNotAllowedMessage)))
  }

  /** The handler's JSON response once the write, if any, has succeeded or failed. */
  function Complete(step: Step, writeSucceeded: bool): (r: Option<Response>)
    ensures r.Some? && r.value.status == 200 && !step.Respond? <==> step.Write? && writeSucceeded
    ensures step.Write? && writeSucceeded ==> r == Some(Response(200, Success(step.put.record.submissionId)))
    ensures step.Write? && !writeSucceeded ==> r == Some(Response(500, Failure(SaveFailedMessage)))
    ensures step.Respond? ==> r == Some(step.response)
    ensures step.Unhandled? <==> r.None?
  {
    match step
    case Respond(resp) => Some(resp)
    case Write(_, put) =>
      if writeSucceeded then Some(Response(200, Success(put.record.submissionId)))
      else Some(Response(500, Failure(SaveFailedMessage)))
    case Unhandled => None
  }

  /** Where a handler stores submissions: client settings and bucket. */
  datatype Storage = Storage(client: ClientArgs, bucket: string)

  /** The POST path all three handlers share, once each has worked out its own
      inputs: the storage settings (None when not configured), the decoded
      body object (None when reading it raised), the formatted timestamp, the
      random suffix, the key's date folders (None when computing them raised),
      and the request headers. */
  function Decide(storage: Option<Storage>, body: Option<map<string, Json>>, submittedAt: string, suffix: string,
                  folders: Option<string>, headers: map<string, string>): (r: Step)
    ensures r.Respond? ==> r.response.status == 500 || r.response.status == 400
    ensures r.Respond? && r.response.status == 400 ==> storage.Some? && body.Some?
    ensures r.Write? ==> storage.Some? && body.Some? && folders.Some? && Rejection(ReadFields(body.value)).None?
    ensures r.Respond? && r.response.status == 500 <==> storage.None?
    ensures r.Unhandled? ==> storage.Some? && (body.None? || folders.None?)
    ensures r.Write? ==> && Some(Storage(r.client, r.put.bucket)) == storage && r.put.record.submittedAt == submittedAt
                         && r.put.key == ObjectKey(folders.value, BuildSubmissionId(submittedAt, suffix))
  {
    match storage
    case None => Respond(Response(500, Failure(NotConfiguredMessage)))
    case Some(st) =>
      match body
      case None => Unhandled
      case Some(obj) =>
        var fields := ReadFields(obj);
        match Rejection(fields)
        case Some(message) => Respond(Response(400, Failure(message)))
        case None =>
          var id := BuildSubmissionId(submittedAt, suffix);
          match folders
          case None => Unhandled
          case Some(f) => Write(st.client, PutRequest(st.bucket, ObjectKey(f, id), BuildRecord(fields, id, submittedAt, headers)))
  }

  /** The order of the shared path: configuration first, then reading the
      body, then honeypot, required fields and address pattern; only a body
      that passes them all is written, with an id made from the timestamp and
      the suffix, under `contact-submissions/{folders}/{id}.json`, in the
      configured bucket with the configured client. */
  lemma DecideOrder(storage: Option<Storage>, body: Option<map<string, Json>>, submittedAt: string, suffix: string,
                    folders: Option<string>, headers: map<string, string>)
    ensures var r := Decide(storage, body, submittedAt, suffix, folders, headers);
            storage.None? ==> r == Respond(Response(500, Failure(NotConfiguredMessage)))
    ensures var r := Decide(storage, body, submittedAt, suffix, folders, headers);
            storage.Some? && body.None? ==> r.Unhandled?
    ensures storage.Some? && body.Some? && Rejection(ReadFields(body.value)).Some? ==>
              Decide(storage, body, submittedAt, suffix, folders, headers)
              == Respond(Response(400, Failure(Rejection(ReadFields(body.value)).value)))
    ensures var r := Decide(storage, body, submittedAt, suffix, folders, headers);
            r.Write? <==> storage.Some? && body.Some? && Acceptable(ReadFields(body.value)) && folders.Some?
    ensures var r := Decide(storage, body, submittedAt, suffix, folders, headers);
            r.Unhandled? ==> storage.Some? && (body.None? || folders.None?)
    ensures var r := Decide(storage, body, submittedAt, suffix, folders, headers);
            r.Write? ==>
              && storage.Some? && body.Some? && folders.Some?
              && r.client == storage.value.client && r.put.bucket == storage.value.bucket
              && r.put.record == BuildRecord(ReadFields(body.value), BuildSubmissionId(submittedAt, suffix), submittedAt, headers)
              && r.put.key == ObjectKey(folders.value, BuildSubmissionId(submittedAt, suffix))
              && WellFormedRecord(r.put.record, BuildSubmissionId(submittedAt, suffix), submittedAt)
  {
    if storage.Some? && body.Some? {
      RejectionOrder(ReadFields(body.value));
      if Rejection(ReadFields(body.value)).None? {
        AcceptedRecordWellFormed(body.value, BuildSubmissionId(submittedAt, suffix), submittedAt, headers);
      }
    }
  }

  /** Request headers by lower-case name. */
  function Header(headers: map<string, string>, name: string): string {
    if name in headers then headers[name] else ""
  }

  /** `headers.get("origin") or headers.get("referer") or ""`. */
  function RequestSource(headers: map<string, string>): (r: string)
    ensures Header(headers, "origin") != "" ==> r == Header(headers, "origin")
    ensures Header(headers, "origin") == "" ==> r == Header(headers, "referer")
  {
    if Header(headers, "origin") != "" then Header(headers, "origin") else Header(headers, "referer")
  }

  /** The stored record: the cleaned fields other than the honeypot, the id and
      timestamp, the request's source and user agent. */
  function BuildRecord(f: Fields, id: string, submittedAt: string, headers: map<string, string>): (r: SubmissionRecord)
    ensures r.submissionId == id && r.submittedAt == submittedAt
    ensures Fields(r.firstName, r.lastName, r.email, r.phone, r.careerStage, r.sport, r.message, r.referral, f.website) == f
    ensures r.source == RequestSource(headers) && r.userAgent == Header(headers, "user-agent")
  {
    SubmissionRecord(
      id, f.firstName, f.lastName, f.email, f.phone, f.careerStage, f.sport,
      f.message, f.referral, submittedAt, RequestSource(headers), Header(headers, "user-agent"))
  }

  /** What `clean_text` leaves in a form field: at most MaxFieldLength
      characters, every whitespace run a single space, and no whitespace in
      front. (A trailing space can survive the cut at MaxFieldLength, see
      Text.CleanTextNotIdempotent, so this is weaker than Text.Normalized.) */
  predicate CleanField(s: string) {
    |s| <= MaxFieldLength && Collapsed(s) && (s == [] || !IsSpace(s[0]))
  }

  /** What every stored record satisfies: the required fields are present, the
      address matches the pattern, every form field is cleaned, and the id
      and timestamp are the ones the key was built from. */
  ghost predicate WellFormedRecord(r: SubmissionRecord, id: string, submittedAt: string) {
    && r.firstName != "" && r.lastName != "" && r.email != ""
    && MatchesEmailPattern(r.email)
    && r.submissionId == id && r.submittedAt == submittedAt
    && CleanField(r.firstName) && CleanField(r.lastName) && CleanField(r.email)
    && CleanField(r.phone) && CleanField(r.careerStage) && CleanField(r.sport)
    && CleanField(r.message) && CleanField(r.referral)
  }

  /** A record built from fields that pass the chain is well formed, and each
      optional field is "" exactly when the body leaves it blank. */
  lemma AcceptedRecordWellFormed(body: map<string, Json>, id: string, ts: string, headers: map<string, string>)
    requires Rejection(ReadFields(body)) == None
    ensures WellFormedRecord(BuildRecord(ReadFields(body), id, ts, headers), id, ts)
    ensures BuildRecord(ReadFields(body), id, ts, headers).phone == "" <==> Blank(body, "phone")
    ensures BuildRecord(ReadFields(body), id, ts, headers).careerStage == "" <==> Blank(body, "careerStage")
    ensures BuildRecord(ReadFields(body), id, ts, headers).sport == "" <==> Blank(body, "sport")
    ensures BuildRecord(ReadFields(body), id, ts, headers).message == "" <==> Blank(body, "message")
    ensures BuildRecord(ReadFields(body), id, ts, headers).referral == "" <==> Blank(body, "referral")
  {
    RejectionOrder(ReadFields(body));
  }

  // ---------------------------------------------------------------------------
  // Submission id

  /** Python `s.replace(a, b)` for one-character `a` and `b`. */
  function ReplaceChar(s: string, a: char, b: char): (r: string)
    ensures |r| == |s|
    ensures forall i :: 0 <= i < |s| ==> r[i] == if s[i] == a then b else s[i]
  {
    seq(|s|, i requires 0 <= i < |s| => if s[i] == a then b else s[i])
  }

  /** A character `random.choices(string.ascii_lowercase + string.digits)` can
      draw, which is also a digit of `Number.prototype.toString(36)`. */
  predicate IsSuffixChar(c: char) {
    ('a' <= c <= 'z') || IsDigit(c)
  }

  /** What the Python handlers' random suffix always is: eight such characters. */
  predicate IsPythonSuffix(suffix: string) {
    |suffix| == 8 && forall i :: 0 <= i < |suffix| ==> IsSuffixChar(suffix[i])
  }

  /** `build_submission_id`: `timestamp.replace(":", "-").replace(".", "-")`, a
      hyphen, and the random suffix (passed in). */
  function BuildSubmissionId(timestamp: string, suffix: string): (r: string)
    ensures |r| == |timestamp| + 1 + |suffix|
    ensures forall i :: 0 <= i < |timestamp| ==>
              r[i] == if timestamp[i] == ':' || timestamp[i] == '.' then '-' else timestamp[i]
    ensures r[|timestamp|] == '-' && r[|timestamp| + 1..] == suffix
  {
    ReplaceChar(ReplaceChar(timestamp, ':', '-'), '.', '-') + "-" + suffix
  }

  /** With a generated suffix the id is nine characters longer than the
      timestamp and has no ':' or '.' left. */
  lemma SubmissionIdIsPathSafe(timestamp: string, suffix: string)
    requires IsPythonSuffix(suffix)
    ensures |BuildSubmissionId(timestamp, suffix)| == |timestamp| + 9
    ensures ':' !in BuildSubmissionId(timestamp, suffix) && '.' !in BuildSubmissionId(timestamp, suffix)
  {
    var r := BuildSubmissionId(timestamp, suffix);
    forall i | 0 <= i < |r|
      ensures r[i] != ':' && r[i] != '.'
    {
      if i > |timestamp| {
        assert r[i] == r[|timestamp| + 1..][i - |timestamp| - 1] == suffix[i - |timestamp| - 1];
      }
    }
  }

  /** For one timestamp, different suffixes give different ids. */
  lemma SubmissionIdDeterminesSuffix(timestamp: string, s1: string, s2: string)
    requires BuildSubmissionId(timestamp, s1) == BuildSubmissionId(timestamp, s2)
    ensures s1 == s2
  {
  }

  // ---------------------------------------------------------------------------
  // Timestamps and dates

  /** A UTC instant with millisecond precision, as `datetime.now(timezone.utc)`
      or `new Date()` gives it (microseconds are dropped by the formatting). */
  datatype DateTime = DateTime(year: nat, month: nat, day: nat, hour: nat, minute: nat, second: nat, millisecond: nat)

  predicate IsLeapYear(y: nat) {
    y % 4 == 0 && (y % 100 != 0 || y % 400 == 0)
  }

  function DaysInMonth(y: nat, m: nat): nat
    requires 1 <= m <= 12
  {
    if m == 2 then (if IsLeapYear(y) then 29 else 28)
    else if m == 4 || m == 6 || m == 9 || m == 11 then 30
    else 31
  }

  /** The instants Python's `datetime` can represent. */
  predicate ValidDateTime(d: DateTime) {
    && 1 <= d.year <= 9999
    && 1 <= d.month <= 12
    && 1 <= d.day <= DaysInMonth(d.year, d.month)
    && d.hour < 24 && d.minute < 60 && d.second < 60 && d.millisecond < 1000
  }

  /** `isoformat(timespec="milliseconds").replace("+00:00", "Z")` and
      `toISOString()`: `YYYY-MM-DDThh:mm:ss.mmmZ`. */
  function ToIsoUtc(d: DateTime): (r: string)
    ensures |r| >= 24 && r[|r| - 1] == 'Z'
  {
    IsoJoin(ZeroPad(d.year, 4), ZeroPad(d.month, 2), ZeroPad(d.day, 2),
            ZeroPad(d.hour, 2), ZeroPad(d.minute, 2), ZeroPad(d.second, 2), ZeroPad(d.millisecond, 3))
  }

  /** The ISO layout around already formatted fields. */
  function IsoJoin(y: string, mo: string, da: string, h: string, mi: string, se: string, ms: string): string {
    (y + "-" + mo + "-" + da) + "T" + (h + ":" + mi + ":" + se + "." + ms) + "Z"
  }

  /** Places of the separators in `YYYY-MM-DDThh:mm:ss.mmmZ`. */
  predicate IsoShape(ts: string) {
    && |ts| == 24
    && ts[4] == '-' && ts[7] == '-' && ts[10] == 'T' && ts[13] == ':'
    && ts[16] == ':' && ts[19] == '.' && ts[23] == 'Z'
    && AllDigits(ts[0..4]) && AllDigits(ts[5..7]) && AllDigits(ts[8..10])
    && AllDigits(ts[11..13]) && AllDigits(ts[14..16]) && AllDigits(ts[17..19])
    && AllDigits(ts[20..23])
  }

  /** Reads back a timestamp in the form ToIsoUtc writes, as
      `datetime.fromisoformat` and `new Date` do on that form; None for any
      other text or an impossible date. */
  function ParseIsoTimestamp(ts: string): (r: Option<DateTime>)
    ensures r.Some? ==> ValidDateTime(r.value) && IsoShape(ts)
  {
    if !IsoShape(ts) then None
    else
      var d := DateTime(
        ParseNat(ts[0..4]), ParseNat(ts[5..7]), ParseNat(ts[8..10]),
        ParseNat(ts[11..13]), ParseNat(ts[14..16]), ParseNat(ts[17..19]),
        ParseNat(ts[20..23]));
      if ValidDateTime(d) then Some(d) else None
  }

  lemma ZeroPadWidth(n: nat, w: nat)
    requires w >= 1 && n < Pow10(w)
    ensures |ZeroPad(n, w)| == w
  {
    NatToStringLength(n, w);
  }

  /** Where the pieces of `a + [s1] + b + [s2] + c` sit. */
  lemma SegmentsOf3(a: string, s1: char, b: string, s2: char, c: string)
    ensures var t := a + [s1] + b + [s2] + c;
            && |t| == |a| + |b| + |c| + 2
            && t[0..|a|] == a && t[|a|] == s1
            && t[|a| + 1..|a| + 1 + |b|] == b && t[|a| + 1 + |b|] == s2
            && t[|a| + |b| + 2..] == c
  {
    var t := a + [s1] + b + [s2] + c;
    assert t == (a + [s1]) + (b + [s2] + c);
    assert t[|a| + 1..] == b + [s2] + c;
    assert t[|a| + |b| + 2..] == (b + [s2] + c)[|b| + 1..];
  }

  /** Where the pieces of `a + [s1] + b + [s2]` sit. */
  lemma SegmentsOf2(a: string, s1: char, b: string, s2: char)
    ensures var t := a + [s1] + b + [s2];
            && |t| == |a| + |b| + 2
            && t[0..|a|] == a && t[|a|] == s1
            && t[|a| + 1..|a| + 1 + |b|] == b && t[|a| + 1 + |b|] == s2
  {
    var t := a + [s1] + b + [s2];
    assert t == (a + [s1]) + (b + [s2]);
  }

  /** A slice of a slice is a slice. */
  lemma SubSlice(t: string, lo: nat, hi: nat, i: nat, j: nat)
    requires lo <= hi <= |t| && i <= j <= hi - lo
    ensures t[lo..hi][i..j] == t[lo + i..lo + j]
  {
    var u, v := t[lo..hi][i..j], t[lo + i..lo + j];
    forall k | 0 <= k < j - i
      ensures u[k] == v[k]
    {
      assert u[k] == t[lo..hi][i + k];
    }
  }

  lemma DateLayout(y: string, mo: string, da: string)
    requires |y| == 4 && |mo| == 2 && |da| == 2
    ensures var t := y + "-" + mo + "-" + da;
            |t| == 10 && t[0..4] == y && t[4] == '-' && t[5..7] == mo && t[7] == '-' && t[8..10] == da
  {
    SegmentsOf3(y, '-', mo, '-', da);
  }

  lemma TimeLayout(h: string, mi: string, se: string, ms: string)
    requires |h| == 2 && |mi| == 2 && |se| == 2 && |ms| == 3
    ensures var t := h + ":" + mi + ":" + se + "." + ms;
            && |t| == 12 && t[0..2] == h && t[2] == ':' && t[3..5] == mi && t[5] == ':'
            && t[6..8] == se && t[8] == '.' && t[9..12] == ms
  {
    var hms := h + ":" + mi + ":" + se;
    SegmentsOf3(h, ':', mi, ':', se);
    var t := hms + "." + ms;
    assert t[0..8] == hms && t[8] == '.' && t[9..12] == ms;
    SubSlice(t, 0, 8, 0, 2);
    SubSlice(t, 0, 8, 3, 5);
    SubSlice(t, 0, 8, 6, 8);
    assert t[2] == hms[2] && t[5] == hms[5];
  }

  /** Each field of the layout at its fixed place. */
  lemma IsoJoinLayout(y: string, mo: string, da: string, h: string, mi: string, se: string, ms: string)
    requires |y| == 4 && |mo| == 2 && |da| == 2 && |h| == 2 && |mi| == 2 && |se| == 2 && |ms| == 3
    ensures var ts := IsoJoin(y, mo, da, h, mi, se, ms);
            && |ts| == 24
            && ts[0..4] == y && ts[5..7] == mo && ts[8..10] == da
            && ts[11..13] == h && ts[14..16] == mi && ts[17..19] == se && ts[20..23] == ms
            && ts[4] == '-' && ts[7] == '-' && ts[10] == 'T' && ts[13] == ':'
            && ts[16] == ':' && ts[19] == '.' && ts[23] == 'Z'
  {
    var dt := y + "-" + mo + "-" + da;
    var tm := h + ":" + mi + ":" + se + "." + ms;
    var ts := dt + "T" + tm + "Z";
    assert IsoJoin(y, mo, da, h, mi, se, ms) == ts;
    DateLayout(y, mo, da);
    TimeLayout(h, mi, se, ms);
    SegmentsOf2(dt, 'T', tm, 'Z');
    SubSlice(ts, 0, 10, 0, 4);
    SubSlice(ts, 0, 10, 5, 7);
    SubSlice(ts, 0, 10, 8, 10);
    SubSlice(ts, 11, 23, 0, 2);
    SubSlice(ts, 11, 23, 3, 5);
    SubSlice(ts, 11, 23, 6, 8);
    SubSlice(ts, 11, 23, 9, 12);
    assert ts[4] == ts[0..10][4] && ts[7] == ts[0..10][7];
    assert ts[13] == ts[11..23][2] && ts[16] == ts[11..23][5] && ts[19] == ts[11..23][8];
  }

  /** Each field of a formatted instant, padded, at its fixed place. */
  lemma IsoSlices(d: DateTime)
    requires ValidDateTime(d)
    ensures var ts := ToIsoUtc(d);
            && |ts| == 24
            && ts[0..4] == ZeroPad(d.year, 4) && ts[5..7] == ZeroPad(d.month, 2) && ts[8..10] == ZeroPad(d.day, 2)
            && ts[11..13] == ZeroPad(d.hour, 2) && ts[14..16] == ZeroPad(d.minute, 2)
            && ts[17..19] == ZeroPad(d.second, 2) && ts[20..23] == ZeroPad(d.millisecond, 3)
            && ts[4] == '-' && ts[7] == '-' && ts[10] == 'T' && ts[13] == ':'
            && ts[16] == ':' && ts[19] == '.' && ts[23] == 'Z'
  {
    assert Pow10(2) == 100 && Pow10(3) == 1000 && Pow10(4) == 10000;
    ZeroPadWidth(d.year, 4);
    ZeroPadWidth(d.month, 2);
    ZeroPadWidth(d.day, 2);
    ZeroPadWidth(d.hour, 2);
    ZeroPadWidth(d.minute, 2);
    ZeroPadWidth(d.second, 2);
    ZeroPadWidth(d.millisecond, 3);
    IsoJoinLayout(ZeroPad(d.year, 4), ZeroPad(d.month, 2), ZeroPad(d.day, 2),
                  ZeroPad(d.hour, 2), ZeroPad(d.minute, 2), ZeroPad(d.second, 2), ZeroPad(d.millisecond, 3));
  }

  /** Every valid instant survives formatting and reading back. */
  lemma IsoRoundTrip(d: DateTime)
    requires ValidDateTime(d)
    ensures IsoShape(ToIsoUtc(d))
    ensures ParseIsoTimestamp(ToIsoUtc(d)) == Some(d)
  {
    IsoSlices(d);
  }

  // ---------------------------------------------------------------------------
  // Object keys

  /** `{year}/{MM}/{DD}`: the year unpadded, month and day zero-padded to two
      digits. */
  function DateFolders(year: nat, month: nat, day: nat): (r: string)
    ensures month < 100 && day < 100 ==>
              var n := |NatToString(year)|;
              && |r| == n + 6 && r[..n] == NatToString(year)
              && r[n] == '/' && r[n + 3] == '/'
              && AllDigits(r[n + 1..n + 3]) && AllDigits(r[n + 4..])
              && ParseNat(r[n + 1..n + 3]) == month && ParseNat(r[n + 4..]) == day
  {
    DateFoldersLayout(year, month, day);
    NatToString(year) + "/" + ZeroPad(month, 2) + "/" + ZeroPad(day, 2)
  }

  lemma DateFoldersLayout(year: nat, month: nat, day: nat)
    ensures month < 100 && day < 100 ==>
              var y, m, d := NatToString(year), ZeroPad(month, 2), ZeroPad(day, 2);
              var r := y + "/" + m + "/" + d;
              var n := |y|;
              && |r| == n + 6 && r[..n] == y
              && r[n] == '/' && r[n + 3] == '/'
              && AllDigits(r[n + 1..n + 3]) && AllDigits(r[n + 4..])
              && ParseNat(r[n + 1..n + 3]) == month && ParseNat(r[n + 4..]) == day
  {
    if month < 100 && day < 100 {
      assert Pow10(2) == 100;
      ZeroPadWidth(month, 2);
      ZeroPadWidth(day, 2);
      SegmentsOf3(NatToString(year), '/', ZeroPad(month, 2), '/', ZeroPad(day, 2));
    }
  }

  /** `contact-submissions/{folders}/{id}.json`. */
  function ObjectKey(folders: string, id: string): (r: string)
    ensures |r| == |KeyRoot| + |folders| + |id| + 6
    ensures r[..|KeyRoot|] == KeyRoot && r[|r| - 5..] == ".json"
    ensures r[|KeyRoot|..|KeyRoot| + |folders|] == folders
  {
    KeyRoot + folders + "/" + id + ".json"
  }

  /** The date folders are the timestamp's own date characters whenever the
      year has four digits. */
  lemma FoldersMatchTimestamp(d: DateTime)
    requires ValidDateTime(d) && d.year >= 1000
    ensures var ts := ToIsoUtc(d);
            DateFolders(d.year, d.month, d.day) == ts[0..4] + "/" + ts[5..7] + "/" + ts[8..10]
  {
    IsoDateSegments(d);
  }

  /** A year with four digits is written the same padded or not. */
  lemma FourDigitYearUnpadded(year: nat)
    requires 1000 <= year <= 9999
    ensures ZeroPad(year, 4) == NatToString(year)
  {
    assert Pow10(3) == 1000 && Pow10(4) == 10000;
    NatToStringLength(year, 4);
    ZeroPadExact(year, 4);
  }

  lemma IsoDateSegments(d: DateTime)
    requires ValidDateTime(d) && d.year >= 1000
    ensures var ts := ToIsoUtc(d);
            && ts[0..4] == NatToString(d.year)
            && ts[5..7] == ZeroPad(d.month, 2)
            && ts[8..10] == ZeroPad(d.day, 2)
  {
    FourDigitYearUnpadded(d.year);
    IsoSlices(d);
  }

  /** In one folder, different ids give different keys. */
  lemma ObjectKeyDeterminesId(folders: string, id1: string, id2: string)
    requires ObjectKey(folders, id1) == ObjectKey(folders, id2)
    ensures id1 == id2
  {
    var p := KeyRoot + folders + "/";
    assert ObjectKey(folders, id1) == p + id1 + ".json";
    assert ObjectKey(folders, id2) == p + id2 + ".json";
    assert id1 == (p + id1 + ".json")[|p|..|p| + |id1|];
  }

  // ---------------------------------------------------------------------------
  // Request bodies (the two Python handlers)

  /** Python `int(text)` on a str: surrounding whitespace, an optional sign, and
      ASCII digits with single underscores between them. */
  function PyInt(text: string): (r: Option<int>)
    ensures AllSpace(text) ==> r.None?
    ensures r.Some? && r.value < 0 ==> Trim(text)[0] == '-'
  {
    var t := Trim(text);
    if t == [] then None
    else
      var negative := t[0] == '-';
      var digits := if t[0] == '-' || t[0] == '+' then t[1..] else t;
      if IsUnderscoredNumber(digits) then
        var n: int := ParseNat(DropUnderscores(digits));
        Some(if negative then -n else n)
      else None
  }

  predicate IsUnderscoredNumber(s: string) {
    && |s| > 0 && IsDigit(s[0]) && DigitsOrUnderscores(s)
    && forall i :: 0 <= i < |s| && s[i] == '_' ==> i + 1 < |s| && IsDigit(s[i + 1])
  }

  predicate DigitsOrUnderscores(s: string) {
    forall i :: 0 <= i < |s| ==> IsDigit(s[i]) || s[i] == '_'
  }

  function DropUnderscores(s: string): (r: string)
    requires DigitsOrUnderscores(s)
    ensures AllDigits(r)
  {
    if s == [] then []
    else
      assert DigitsOrUnderscores(s[1..]) by {
        forall i | 0 <= i < |s[1..]| ensures IsDigit(s[1..][i]) || s[1..][i] == '_' {
          assert s[1..][i] == s[i + 1];
        }
      }
      (if s[0] == '_' then [] else [s[0]]) + DropUnderscores(s[1..])
  }

  lemma {:induction false} DropUnderscoresOfDigits(s: string)
    requires AllDigits(s)
    ensures DropUnderscores(s) == s
  {
    if s != [] {
      DropUnderscoresOfDigits(s[1..]);
    }
  }

  /** `int(str(n)) == n`. */
  lemma PyIntOfDecimal(n: nat)
    ensures PyInt(NatToString(n)) == Some(n)
  {
    var s := NatToString(n);
    TrimOfDigits(s);
    assert IsUnderscoredNumber(s);
    DropUnderscoresOfDigits(s);
    ParseNatToString(n);
  }

  lemma TrimOfDigits(s: string)
    requires |s| > 0 && AllDigits(s)
    ensures Trim(s) == s
  {
    assert !IsSpace(s[0]) && !IsSpace(s[|s| - 1]);
    assert TrimStart(s) == s;
  }

  /** The decoded body a handler reads its fields from: the top-level object
      when one was decoded, `{}` otherwise. `decoded` stands for what
      `json.loads` made of the bytes read (None when it raised). */
  function BodyObject(contentLength: int, decoded: Option<Json>): (r: map<string, Json>)
    ensures contentLength <= 0 || decoded.None? || !decoded.value.JObject? ==> r == map[]
    ensures contentLength > 0 && decoded.Some? && decoded.value.JObject? ==> r == decoded.value.fields
  {
    if contentLength <= 0 then map[]
    else match decoded
      case Some(JObject(m)) => m
      case _ => map[]
  }

  /** An empty body leaves every field empty, so the chain stops at the required
      fields. */
  lemma EmptyBodyIsRequiredError()
    ensures Rejection(ReadFields(map[])) == Some(RequiredMessage)
  {
  }
}
