/** The contact form of site.js (`initContactForm`, `setContactStatus`): the
    browser's own checks before it posts, the status line, the one-request-
    at-a-time guard, and how the reply of a handler is turned into a message.
    The request itself is an output and its reply an input. */
module ContactForm {
  import opened Wrappers
  import opened Text
  import opened Email
  import opened Json
  import opened Submission
  import opened Leads

  const SendingNotice := "Sending..."
  const ThanksNotice := "Thanks. Your message was received successfully."
  const SendFailedNotice := "Unable to send your message. Please try again."
  const UnexpectedResponseNotice := "Unexpected server response."

  // ---------------------------------------------------------------------------
  // The request

  /** The JSON object the form posts. */
  datatype FormPayload = FormPayload(
    firstName: string, lastName: string, email: string, phone: string,
    careerStage: string, sport: string, message: string, referral: string,
    website: string, turnstileToken: string)

  /** No whitespace at either end. */
  predicate Trimmed(s: string) {
    s == [] || (!IsSpace(s[0]) && !IsSpace(s[|s| - 1]))
  }

  /** The trimmed value of a form control; a missing one reads as "". */
  function FormValue(form: map<string, string>, name: string): string {
    Trim(Get(form, name))
  }

  /** Every value the form reads is trimmed. */
  lemma FormValueTrimmed(form: map<string, string>, name: string)
    ensures Trimmed(FormValue(form, name))
  {
  }

  /** The payload built from the form's controls: the Turnstile token is the
      hidden `turnstileToken` field, or the widget's own response when that
      is empty. */
  function PayloadOf(form: map<string, string>): (r: FormPayload)
    ensures r.firstName == FormValue(form, "first-name") && r.lastName == FormValue(form, "last-name")
    ensures r.email == FormValue(form, "email") && r.message == FormValue(form, "message")
    ensures r.phone == FormValue(form, "phone") && r.careerStage == FormValue(form, "career-stage")
    ensures r.sport == FormValue(form, "sport") && r.referral == FormValue(form, "referral")
    ensures r.website == FormValue(form, "website")
    ensures FormValue(form, "turnstileToken") != "" ==> r.turnstileToken == FormValue(form, "turnstileToken")
    ensures r.turnstileToken == "" <==> FormValue(form, "turnstileToken") == "" && FormValue(form, "cf-turnstile-response") == ""
  {
    FormPayload(
      FormValue(form, "first-name"), FormValue(form, "last-name"), FormValue(form, "email"),
      FormValue(form, "phone"), FormValue(form, "career-stage"), FormValue(form, "sport"),
      FormValue(form, "message"), FormValue(form, "referral"), FormValue(form, "website"),
      var token := FormValue(form, "turnstileToken");
      if token != "" then token else FormValue(form, "cf-turnstile-response"))
  }

  /** Why the browser refuses to post a form. */
  datatype ClientProblem = MissingRequired | MalformedEmail

  /** The prompt the status line shows for each problem. */
  function Prompt(problem: ClientProblem): string {
    match problem
    case MissingRequired => "Please complete first name, last name, and email."
    case MalformedEmail => "Please enter a valid email address."
  }

  /** Each problem has its own prompt. */
  lemma PromptInjective(a: ClientProblem, b: ClientProblem)
    ensures Prompt(a) == Prompt(b) ==> a == b
  {
    PromptLength(a);
    PromptLength(b);
  }

  lemma PromptLength(problem: ClientProblem)
    ensures |Prompt(problem)| == match problem case MissingRequired => 49 case MalformedEmail => 35
  {
  }

  /** The browser's checks, in order: the three required fields, then the
      address pattern. None means the form is posted. */
  function ClientRejection(p: FormPayload): (r: Option<ClientProblem>)
    ensures r == Some(MissingRequired) <==> p.firstName == "" || p.lastName == "" || p.email == ""
    ensures r == Some(MalformedEmail) <==> p.firstName != "" && p.lastName != "" && p.email != "" && !IsValidEmail(p.email)
    ensures r.None? <==> p.firstName != "" && p.lastName != "" && p.email != "" && IsValidEmail(p.email)
  {
    if p.firstName == "" || p.lastName == "" || p.email == "" then Some(MissingRequired)
    else if !IsValidEmail(p.email) then Some(MalformedEmail)
    else None
  }

  /** The form is posted exactly when the three required fields are filled
      and the address matches the pattern; the required prompt is shown
      exactly when a required field is empty. */
  lemma ClientRejectionIff(p: FormPayload)
    ensures ClientRejection(p).None? <==>
              p.firstName != "" && p.lastName != "" && p.email != "" && MatchesEmailPattern(p.email)
    ensures ClientRejection(p) == Some(MissingRequired) <==> p.firstName == "" || p.lastName == "" || p.email == ""
  {
    EmailCheckMatchesPattern(p.email);
  }

  /** `JSON.stringify(payload)` as a handler decodes it. */
  function PayloadJson(p: FormPayload): map<string, Json> {
    map[
      "firstName" := JString(p.firstName), "lastName" := JString(p.lastName),
      "email" := JString(p.email), "phone" := JString(p.phone),
      "careerStage" := JString(p.careerStage), "sport" := JString(p.sport),
      "message" := JString(p.message), "referral" := JString(p.referral),
      "website" := JString(p.website), "turnstileToken" := JString(p.turnstileToken)]
  }

  /** A handler finds each posted field under its own name. */
  lemma PostedLookups(p: FormPayload)
    ensures Lookup(PayloadJson(p), "firstName") == Some(JString(p.firstName))
    ensures Lookup(PayloadJson(p), "lastName") == Some(JString(p.lastName))
    ensures Lookup(PayloadJson(p), "email") == Some(JString(p.email))
    ensures Lookup(PayloadJson(p), "phone") == Some(JString(p.phone))
    ensures Lookup(PayloadJson(p), "careerStage") == Some(JString(p.careerStage))
    ensures Lookup(PayloadJson(p), "sport") == Some(JString(p.sport))
    ensures Lookup(PayloadJson(p), "message") == Some(JString(p.message))
    ensures Lookup(PayloadJson(p), "referral") == Some(JString(p.referral))
    ensures Lookup(PayloadJson(p), "website") == Some(JString(p.website))
  {
  }

  /** A trimmed value is empty after a handler's cleaning exactly when it is
      empty. */
  lemma CleanTrimmed(s: string)
    requires Trimmed(s)
    ensures (CleanText(s) == []) == (s == [])
  {
    if s != [] {
      assert !IsSpace(s[0]);
    }
  }

  /** A handler reads the posted fields it checks back as the cleaned text
      of what the browser sent. */
  lemma CheckedFieldsOf(p: FormPayload)
    ensures var f := ReadFields(PayloadJson(p));
            && f.firstName == CleanText(p.firstName) && f.lastName == CleanText(p.lastName)
            && f.email == CleanText(p.email) && f.website == CleanText(p.website)
  {
    var body := PayloadJson(p);
    PostedLookups(p);
    CleanString(Lookup(body, "firstName"), p.firstName);
    CleanString(Lookup(body, "lastName"), p.lastName);
    CleanString(Lookup(body, "email"), p.email);
    CleanString(Lookup(body, "website"), p.website);
  }

  /** A posted string is read back as its cleaned text. */
  lemma CleanString(v: Option<Json>, s: string)
    requires v == Some(JString(s))
    ensures CleanValue(v) == CleanText(s)
  {
  }

  /** The checks of a handler against the browser's, for fields that are
      empty exactly when the browser's are and that keep a valid address
      within the field limit. */
  lemma ChecksAgree(p: FormPayload, f: Fields)
    requires (f.firstName == "") == (p.firstName == "") && (f.lastName == "") == (p.lastName == "")
    requires (f.email == "") == (p.email == "") && (f.website == "") == (p.website == "")
    requires IsValidEmail(p.email) && |p.email| <= MaxFieldLength ==> f.email == p.email
    ensures p.website != "" ==> Rejection(f) == Some(HoneypotMessage)
    ensures ClientRejection(p) == Some(MissingRequired) ==> Rejection(f).Some?
    ensures ClientRejection(p).None? && p.website == "" && |p.email| <= MaxFieldLength ==> Rejection(f) == None
  {
  }

  /** Cleaning trimmed fields keeps them empty or non-empty, and keeps a
      valid address within the field limit. */
  lemma CleanedFields(p: FormPayload, f: Fields)
    requires Trimmed(p.firstName) && Trimmed(p.lastName) && Trimmed(p.email) && Trimmed(p.website)
    requires f.firstName == CleanText(p.firstName) && f.lastName == CleanText(p.lastName)
    requires f.email == CleanText(p.email) && f.website == CleanText(p.website)
    ensures (f.firstName == "") == (p.firstName == "") && (f.lastName == "") == (p.lastName == "")
    ensures (f.email == "") == (p.email == "") && (f.website == "") == (p.website == "")
    ensures IsValidEmail(p.email) && |p.email| <= MaxFieldLength ==> f.email == p.email
  {
    CleanTrimmed(p.firstName);
    CleanTrimmed(p.lastName);
    CleanTrimmed(p.website);
    CleanTrimmed(p.email);
    if IsValidEmail(p.email) && |p.email| <= MaxFieldLength {
      CleanTextKeepsValidEmail(p.email);
    }
  }

  /** What the handlers make of a posted payload whose fields are trimmed.
      The required fields are empty on the server exactly when they are
      empty in the browser, so the browser's required check never lets
      through what a handler would refuse for it; a filled honeypot passes
      the browser and is refused by the handler; and a payload the browser
      accepts, with the honeypot empty and an address within the field
      limit, is accepted by the handler. */
  lemma ServerAgreesWithPayload(p: FormPayload)
    requires Trimmed(p.firstName) && Trimmed(p.lastName) && Trimmed(p.email) && Trimmed(p.website)
    ensures var f := ReadFields(PayloadJson(p));
            && (f.firstName == "") == (p.firstName == "")
            && (f.lastName == "") == (p.lastName == "")
            && (f.email == "") == (p.email == "")
            && (f.website == "") == (p.website == "")
    ensures p.website != "" ==> Rejection(ReadFields(PayloadJson(p))) == Some(HoneypotMessage)
    ensures ClientRejection(p) == Some(MissingRequired) ==> Rejection(ReadFields(PayloadJson(p))).Some?
    ensures ClientRejection(p).None? && p.website == "" && |p.email| <= MaxFieldLength ==>
              Rejection(ReadFields(PayloadJson(p))) == None
  {
    var f := ReadFields(PayloadJson(p));
    CheckedFieldsOf(p);
    CleanedFields(p, f);
    ChecksAgree(p, f);
  }

  /** The payload the form builds always has trimmed fields, so the handlers
      agree with the browser on it as above. */
  lemma ServerAgreesWithForm(form: map<string, string>)
    ensures var p := PayloadOf(form);
            ClientRejection(p).None? && p.website == "" && |p.email| <= MaxFieldLength ==>
              Rejection(ReadFields(PayloadJson(p))) == None
    ensures var p := PayloadOf(form);
            ClientRejection(p) == Some(MissingRequired) ==> Rejection(ReadFields(PayloadJson(p))).Some?
  {
    FormValueTrimmed(form, "first-name");
    FormValueTrimmed(form, "last-name");
    FormValueTrimmed(form, "email");
    FormValueTrimmed(form, "website");
    ServerAgreesWithPayload(PayloadOf(form));
  }

  // ---------------------------------------------------------------------------
  // The reply

  /** How the request ended: `fetch` rejected with an error carrying
      `message`, or a response arrived with its `ok` flag and its body
      (None when the body is not JSON). */
  datatype Outcome = FetchRejected(message: string) | Answered(ok: bool, body: Option<Json>)

  /** JavaScript truthiness of a decoded value. */
  predicate Truthy(j: Json) {
    match j
    case JNull => false
    case JBool(b) => b
    case JNumber(n) => n != 0
    case JString(s) => s != ""
    case JArray(_) => true
    case JObject(_) => true
  }

  /** A property read on a non-null value: present only on an object that
      has it (None stands for `undefined`). */
  function Property(data: Json, name: string): Option<Json> {
    if data.JObject? && name in data.fields then Some(data.fields[name]) else None
  }

  /** `String(value)` of a decoded value. */
  function JsText(j: Json): (r: string)
    ensures j.JString? ==> r == j.s
    ensures j.JNumber? && j.n >= 0 ==> AllDigits(r) && ParseNat(r) == j.n
    ensures j.JNumber? && j.n < 0 ==> |r| > 1 && r[0] == '-' && AllDigits(r[1..]) && ParseNat(r[1..]) == -j.n
    ensures j.JBool? ==> r == if j.b then "true" else "false"
    ensures j.JArray? && j.items == [] ==> r == ""
    decreases j
  {
    if j.JNumber? then ParseNatToString(if j.n >= 0 then j.n else -j.n); JsTextOf(j) else JsTextOf(j)
  }

  /** `String(value)`, case by case. */
  function JsTextOf(j: Json): string
    decreases j, 1
  {
    match j
    case JNull => "null"
    case JBool(b) => if b then "true" else "false"
    case JNumber(n) => IntToString(n)
    case JString(s) => s
    case JArray(items) => JoinWithCommas(seq(|items|, i requires 0 <= i < |items| => ItemText(items, i)))
    case JObject(_) => "[object Object]"
  }

  /** An array item as `Array.prototype.join` writes it: null as "". */
  function ItemText(items: seq<Json>, i: nat): string
    requires i < |items|
    decreases JArray(items), 0
  {
    if items[i] == JNull then "" else JsText(items[i])
  }

  function JoinWithCommas(parts: seq<string>): string {
    if parts == [] then ""
    else if |parts| == 1 then parts[0]
    else parts[0] + "," + JoinWithCommas(parts[1..])
  }

  /** The message of a thrown error as the `catch` shows it: an empty one is
      replaced by the generic notice. */
  function ErrorText(message: string): (r: string)
    ensures r != ""
    ensures message != "" ==> r == message
  {
    if message == "" then SendFailedNotice else message
  }

  /** The end of the promise chain: either the form was received, or the
      status line shows an error message. */
  datatype Settled = Received | Failed(message: string)

  /** The promise chain after the request. A body that is not JSON reads as
      `{ok: false, error: "Unexpected server response."}`; a JSON null makes
      the property read throw a TypeError whose engine message is
      `typeErrorMessage`; otherwise a response that is not ok, or whose `ok`
      is falsy, throws an Error from its `error` property or the generic
      notice. */
  function Settle(outcome: Outcome, typeErrorMessage: string): (r: Settled)
    ensures r.Failed? ==> r.message != ""
    ensures r.Received? <==> outcome.Answered? && outcome.ok && outcome.body.Some?
                             && outcome.body.value != JNull
                             && Property(outcome.body.value, "ok").Some? && Truthy(Property(outcome.body.value, "ok").value)
  {
    match outcome
    case FetchRejected(m) => Failed(ErrorText(m))
    case Answered(ok, body) =>
      var data := if body.None? then JObject(map["ok" := JBool(false), "error" := JString(UnexpectedResponseNotice)]) else body.value;
      if data == JNull then Failed(ErrorText(typeErrorMessage))
      else
        var okFlag := Property(data, "ok");
        if !ok || okFlag.None? || !Truthy(okFlag.value) then
          var e := Property(data, "error");
          Failed(ErrorText(if e.Some? && Truthy(e.value) then JsText(e.value) else SendFailedNotice))
        else Received
  }

  /** A handler's JSON reply body. */
  function ResponseJson(p: Payload): Json {
    match p
    case Failure(error) => JObject(map["ok" := JBool(false), "error" := JString(error)])
    case Success(id) => JObject(map["ok" := JBool(true), "id" := JString(id)])
  }

  /** The properties the form reads from a reply: `ok` is true exactly on
      success, and the error text or the id is under its own name. */
  lemma ResponseJsonProperties(p: Payload)
    ensures Property(ResponseJson(p), "ok") == Some(JBool(p.Success?))
    ensures p.Failure? ==> Property(ResponseJson(p), "error") == Some(JString(p.error))
    ensures p.Success? ==> Property(ResponseJson(p), "id") == Some(JString(p.id))
    ensures p.Success? ==> Property(ResponseJson(p), "error").None?
  {
  }

  /** Whatever a handler answers, the form reports success exactly when the
      handler stored the message with a 2xx status, and otherwise shows the
      handler's own error text (the generic notice when that is empty). A
      body that is not JSON shows the unexpected-response notice. */
  lemma SettleOfHandlerReply(response: Response, typeErrorMessage: string)
    ensures var ok := 200 <= response.status < 300;
            Settle(Answered(ok, Some(ResponseJson(response.payload))), typeErrorMessage) ==
              if ok && response.payload.Success? then Received
              else if response.payload.Failure? then Failed(ErrorText(response.payload.error))
              else Failed(SendFailedNotice)
    ensures Settle(Answered(true, None), typeErrorMessage) == Failed(UnexpectedResponseNotice)
  {
    var j := ResponseJson(response.payload);
    if response.payload.Failure? {
      assert Property(j, "ok") == Some(JBool(false));
      assert Property(j, "error") == Some(JString(response.payload.error));
    } else {
      assert Property(j, "ok") == Some(JBool(true));
      assert Property(j, "error") == None;
    }
    var d := JObject(map["ok" := JBool(false), "error" := JString(UnexpectedResponseNotice)]);
    assert Property(d, "ok") == Some(JBool(false));
    assert Property(d, "error") == Some(JString(UnexpectedResponseNotice));
  }

  // ---------------------------------------------------------------------------
  // The form on the page

  /** The `type` argument of `setContactStatus`. */
  datatype StatusType = Neutral | SuccessType | ErrorType

  /** The status element's text and its two state classes. */
  datatype StatusLine = StatusLine(text: string, isSuccess: bool, isError: bool)

  /** The line `setContactStatus` writes. */
  function StatusFor(kind: StatusType, message: string): (r: StatusLine)
    ensures r.text == message && !(r.isSuccess && r.isError)
    ensures r.isSuccess <==> kind == SuccessType
    ensures r.isError <==> kind == ErrorType
  {
    StatusLine(message, kind == SuccessType, kind == ErrorType)
  }

  /** The closure state of `initContactForm` with the elements it touches:
      the controls' values, the submit button (if the form has one) and the
      status element (if the page has one). `defaults` are the values
      `form.reset()` restores. */
  class FormView {
    var busy: bool
    var buttonDisabled: bool
    var status: StatusLine
    var values: map<string, string>
    const defaults: map<string, string>
    const hasButton: bool
    const hasStatus: bool

    /** An idle form with an enabled button, whatever the page shows. */
    constructor (values: map<string, string>, hasButton: bool, hasStatus: bool, status: StatusLine)
      ensures !busy && !buttonDisabled && this.status == status
      ensures this.values == values && defaults == values
      ensures this.hasButton == hasButton && this.hasStatus == hasStatus
    {
      busy := false;
      buttonDisabled := false;
      this.status := status;
      this.values := values;
      defaults := values;
      this.hasButton := hasButton;
      this.hasStatus := hasStatus;
    }

    /** While a request is pending the form is busy and its button, if any,
        disabled; the status never has both classes. */
    predicate Valid()
      reads this
    {
      (hasButton ==> buttonDisabled == busy) && !(status.isSuccess && status.isError)
    }

    /** `setContactStatus`: a page without the status element shows nothing. */
    method SetStatus(kind: StatusType, message: string)
      modifies this
      ensures status == if hasStatus then StatusFor(kind, message) else old(status)
      ensures busy == old(busy) && buttonDisabled == old(buttonDisabled) && unchanged(this`values)
    {
      if !hasStatus {
        return;
      }
      status := StatusFor(kind, message);
    }

    /** The submit listener. While busy it does nothing. Otherwise the
        payload is built and checked; a failed check shows its prompt, and a
        passed one makes the form busy, shows the sending notice and returns
        the request to post. */
    method Submit() returns (request: Option<FormPayload>)
      modifies this
      ensures unchanged(this`values)
      ensures old(busy) ==> request.None? && busy && buttonDisabled == old(buttonDisabled) && status == old(status)
      ensures !old(busy) ==>
                var p := PayloadOf(old(values));
                match ClientRejection(p)
                case Some(problem) =>
                  && request.None? && !busy && buttonDisabled == old(buttonDisabled)
                  && status == (if hasStatus then StatusFor(ErrorType, Prompt(problem)) else old(status))
                case None =>
                  && request == Some(p) && busy
                  && buttonDisabled == (hasButton || old(buttonDisabled))
                  && status == (if hasStatus then StatusFor(Neutral, SendingNotice) else old(status))
      ensures old(Valid()) ==> Valid()
    {
      if busy {
        return None;
      }
      var payload := PayloadOf(values);
      var rejected := ClientRejection(payload);
      if rejected.Some? {
        SetStatus(ErrorType, Prompt(rejected.value));
        return None;
      }
      BeginSending();
      request := Some(payload);
    }

    /** The form goes busy: the button, if any, is disabled and the sending
        notice shown. */
    method BeginSending()
      modifies this
      ensures busy && buttonDisabled == (hasButton || old(buttonDisabled)) && unchanged(this`values)
      ensures status == if hasStatus then StatusFor(Neutral, SendingNotice) else old(status)
    {
      busy := true;
      if hasButton {
        buttonDisabled := true;
      }
      SetStatus(Neutral, SendingNotice);
    }

    /** The rest of the promise chain once the request has ended: the status
        line, the reset on success, and the `finally` that clears the busy
        flag and re-enables the button. */
    method Complete(outcome: Outcome, typeErrorMessage: string)
      modifies this
      ensures !busy && (hasButton ==> !buttonDisabled) && (!hasButton ==> buttonDisabled == old(buttonDisabled))
      ensures match Settle(outcome, typeErrorMessage)
              case Received =>
                && values == defaults
                && status == (if hasStatus then StatusFor(SuccessType, ThanksNotice) else old(status))
              case Failed(message) =>
                && values == old(values)
                && status == (if hasStatus then StatusFor(ErrorType, message) else old(status))
      ensures old(Valid()) ==> Valid()
    {
      var settled := Settle(outcome, typeErrorMessage);
      match settled {
        case Received =>
          SetStatus(SuccessType, ThanksNotice);
          values := defaults;
        case Failed(message) =>
          SetStatus(ErrorType, message);
      }
      busy := false;
      if hasButton {
        buttonDisabled := false;
      }
    }
  }
}
