# Exceptional Website: contact pipeline and page controllers in Dafny

This project models the contact-form pipeline of the Exceptional Website repository and proves properties of the model. It also models the small browser controllers that drive the site's pages.

**Server side.** There are three near-identical submission handlers.
- `api/contact.py` and `api/contact_handler.py` are Python.
- `api/contact.js` is JavaScript.

Each one:
- resolves its storage configuration from the environment;
- reads a JSON body;
- normalises the nine form fields;
- runs the honeypot, required-field and address checks in a fixed order;
- builds a submission id and a date-partitioned object key;
- writes one record;
- answers with a status and a JSON payload.

The steps they share are modelled once, in module `Submission` with its helpers `Text`, `Email` and `Environment`. Each handler has its own module (`ContactPy`, `ContactHandler`, `ContactJs`), which keeps its own configuration names, body reading, key derivation and decision order. Lemmas relate the three handlers to each other.

**Lead exporter.** `api/aws_bucket_reader.py` is modelled in modules `Leads`, `LeadSort` and `BucketReader`. It:
- lists one month's keys;
- reads and projects each stored record onto the lead columns;
- sorts the rows by submission time;
- lays the rows out as one worksheet;
- validates its arguments.

**Browser side.** `site.js` becomes one module per controller:
- `SiteHeader`: the sticky header's auto-hide and the mobile menu.
- `Tabs`: the tab widget and its keyboard handling.
- `Faq`: the FAQ accordion.
- `ActiveNav`: the current-page marker.
- `CountUp`: the statistics count-up text split.
- `ContactForm`: the contact-form submit controller and its status line.

Where the source changes state, the model is a class. Where `forEach` loops mutate elements, the model is an array with loop invariants.

**How the outside world enters the model.** It comes in as parameters:
- the environment is a map;
- the clock reading is a `DateTime` value;
- the random id suffix is a string;
- `json.loads` / `req.body` is an `Option<Json>`;
- the storage listing is a sequence of pages;
- the stored objects are a map from key to decoded record;
- the fetch outcome is an `Outcome` value.

A handler's write is a `Write` step. `Submission.Complete` turns it, with the write's success or failure, into the final response.

**Two behaviours of the code worth knowing.**
- *Normalisation is idempotent except after truncation.* Cutting at 2000 characters can leave a trailing space, which a second pass strips.
  - `Text.CleanTextNotIdempotent` exhibits such an input.
  - Everywhere else idempotence is proved: `Text.CleanTextFixesNormalized`, `Text.CleanTextIdempotentWhenShort` and `Text.CleanTextIdempotentUnlessTrailingSpace`.
- *Malformed `Content-Length` in `api/contact_handler.py`.* The handler does not treat it as 0. `int()` raises, and the exception escapes the handler (modelled as `Unhandled`).

## Model

| member | source | states |
|---|---|---|
| Text.Trim | api/contact.py:19 | the result has no whitespace at either end, and is empty exactly when the input is all whitespace |
| Text.TrimIsSlice | api/contact.py:19 | the stripped text is the slice of the input between a whitespace-only head and a whitespace-only tail; with Trim's own ends this fixes it uniquely |
| Text.Collapse | api/contact.js:10 | the result has no two consecutive whitespace characters, is no longer than the input, is empty iff the input is, and starts and ends with whitespace iff the input does |
| Text.CollapseAppend | api/contact.js:10 | collapsing is done piecewise across a cut after a visible character |
| Text.CollapseJoin | api/contact.js:10 | a whitespace run between two visible characters becomes exactly one space: `Collapse(a + w + b) == Collapse(a) + " " + Collapse(b)` |
| Text.Take | api/contact.py:19 | `[:n]` is the prefix of min(len, n) characters |
| Text.CleanText | api/contact.py:16-19 | the normalised field is at most 2000 characters long, never starts with whitespace, has no two consecutive whitespace characters, and is empty iff the input is all whitespace |
| Text.CleanTextJoinsWords | api/contact.py:16-19 | two words separated by any whitespace run normalise to the two words joined by one space, when that fits in 2000 characters |
| Text.CleanTextKeepsVisibleText | api/contact.py:19 | normalising keeps a prefix of the visible characters in order, and all of them when truncation does not cut |
| Text.NonSpaceCollapse | api/contact.js:10 | collapsing whitespace runs neither adds, drops nor reorders a visible character |
| Text.CollapseFixesCollapsed | api/contact.js:10 | collapsing an already collapsed string changes nothing |
| Text.CleanTextFixesNormalized | api/contact.py:19 | an already normalised string (short, collapsed, no whitespace at either end) is returned unchanged |
| Text.CleanTextIdempotentWhenShort | api/contact.py:19 | normalising twice equals normalising once when the first result is shorter than 2000 |
| Text.CleanTextIdempotentUnlessTrailingSpace | api/contact_handler.py:19 | normalising twice equals normalising once whenever the first result does not end in whitespace |
| Text.CleanTextNotIdempotent | api/contact.js:10 | counterexample: 1999 visible characters, then " b", normalise to a string ending in a space, which a second pass removes |
| Text.NatToString | api/contact.py:59 | `str(n)` is a non-empty digit string without a leading zero unless n is 0 |
| Text.ParseNatToString | api/contact.py:56-59 | reading back `str(n)` gives n (so year folders are injective) |
| Text.NatToStringInjective | api/contact.py:59 | different numbers are written differently |
| Text.IntToString | api/aws_bucket_reader.py:166 | `str(i)` is `str(n)` for i >= 0 and a minus sign before `str(-i)` otherwise |
| Text.ZeroPad | api/contact.py:57-58 | zero padding to a width gives max(width, digits) characters, reads back as n, and ends with `str(n)` |
| Text.Format02 | api/aws_bucket_reader.py:65 | for i >= 0, `f"{i:02d}"` is exactly two digits below 10 and `str(i)` otherwise, ends with `str(i)` and reads back as i; for i < 0 it is a minus sign before the digits |
| Text.IndexOf | site.js:177 | the first index of the character, or the length when it is absent; nothing before it is that character |
| Text.LastIndexOf | site.js:171 | the last index of the character, or -1; nothing after it is that character |
| Text.LastIndexOfAfter | site.js:171 | when a ends in c and b has no c, the last c of a + b is the end of a |
| Email.EmailCheckMatchesPattern | api/contact.py:12 | the executable address check accepts exactly the strings `^[^\s@]+@[^\s@]+\.[^\s@]+$` matches |
| Email.IsValidEmail | api/contact.py:126 | the check `EMAIL_REGEX.match` / `emailPattern.test` performs, as the handlers and the form evaluate it; its contract is Email.EmailCheckMatchesPattern: it accepts exactly the strings the pattern matches |
| Email.ValidEmailMatches | api/contact.py:126-128 | a string the check accepts splits into local part, '@', domain label, '.', and rest, each non-empty, without whitespace or '@' |
| Email.MatchIsValid | api/contact.py:126-128 | any such split is accepted by the check |
| Email.CleanTextKeepsValidEmail | api/contact.js:88 | a valid address of at most 2000 characters is unchanged by normalisation |
| Environment.GetEnv | api/contact.py:22-23 | the value is the stripped text of a set variable and "" for an unset one; it is empty exactly when the variable is unset or blank |
| Environment.FirstSet | api/aws_bucket_reader.py:35-40 | an empty name list gives ""; a non-empty result has no whitespace at either end |
| Environment.OrElse | api/contact.py:28 | `a or b` is empty iff both are, and is a when a is non-empty |
| Environment.FirstSetEmpty | api/aws_bucket_reader.py:35-40 | the first-set lookup is empty exactly when every listed name is unset or blank |
| Environment.FirstSetOfOne | api/contact.py:34 | over one name the lookup is that name's `get_env` |
| Environment.FirstSetPicksFirst | api/aws_bucket_reader.py:35-40 | the lookup returns the value of the first name in argument order that is set, whatever follows it |
| Environment.FirstSetCons | api/contact.py:29-33 | the lookup tries its first name before the rest |
| Environment.FirstSetOfTwo | api/contact.py:28 | over two names the lookup is `get_env(a) or get_env(b)` |
| Environment.FirstSetOfThree | api/contact.py:29-33 | over three names the lookup is the three-way `or` chain |
| Submission.CleanValue | api/contact.py:16-18 | any value other than a string cleans to "", and every cleaned value is normalised |
| Submission.ReadFields | api/contact.py:107-116 | each of the nine fields is empty exactly when the body lacks it, holds a non-string, or holds blank text |
| Submission.Rejection | api/contact.py:118-128 | no rejection exactly for an empty honeypot, filled required fields and a matching address; a rejection is one of the three messages |
| Submission.RejectionOrder | api/contact.py:118-128 | a non-empty honeypot is refused whatever else is sent; then an empty required field; then a bad address; the chain passes exactly the acceptable fields |
| Submission.EmptyBodyIsRequiredError | api/contact_handler.py:96-119 | an empty body object ends in the required-fields error |
| Submission.BodyObject | api/contact_handler.py:94-103 | the body object is `{}` for a length of at most 0, an undecodable body or a non-object value, and the decoded object otherwise |
| Submission.Complete | api/contact.py:150-168 | the 200 `{ok, id}` reply comes only after a successful write, a failed write answers 500 with the save error, an immediate answer is passed through |
| Submission.Decide | api/contact.py:101-164 | an immediate answer is 500 or 400; 500 exactly when storage is missing; 400 only after configuration and body; an exception only with storage and no body or no folders; a write only for an unrejected body, with the configured client and bucket, the timestamp, and the key from the folders and the id |
| Submission.DecideOrder | api/contact.py:101-128 | configuration is checked first (500), then the body is read, then the rejection chain (400 with its message); a write happens exactly for an acceptable body under a complete configuration, with the configured client and bucket, the id and key built from the timestamp, and a well-formed record |
| Submission.BuildRecord | api/contact.py:135-148 | the record carries the id, the timestamp, the fields as read, the request source and the user agent |
| Submission.RequestSource | api/contact.py:146 | the record's source is the origin header, or the referer when origin is empty |
| Submission.AcceptedRecordWellFormed | api/contact_handler.py:124-143 | an accepted record has the required fields and a matching address; every form field is cleaned (at most 2000 characters, single-space runs, no leading whitespace); each optional field is "" exactly when the body lacks it, holds a non-string or holds only whitespace; and the id and timestamp are the ones the key was built from |
| Submission.ReplaceChar | api/contact.py:50 | one-character replace changes exactly the occurrences of that character |
| Submission.BuildSubmissionId | api/contact.py:49-52 | the id is the timestamp with ':' and '.' turned into '-', then '-', then the suffix |
| Submission.SubmissionIdIsPathSafe | api/contact.py:49-52 | with an 8-character `[a-z0-9]` suffix the id is 9 characters longer than the timestamp and has no ':' or '.' |
| Submission.SubmissionIdDeterminesSuffix | api/contact_handler.py:43-46 | for one timestamp, different suffixes give different ids |
| Submission.ParseIsoTimestamp | api/contact_handler.py:50 | reading a timestamp back succeeds only on the `YYYY-MM-DDThh:mm:ss.mmmZ` shape with a valid date and time |
| Submission.ToIsoUtc | api/contact.py:62-63 | the formatted instant has at least 24 characters and ends in 'Z' |
| Submission.IsoSlices | api/contact.py:62-63 | the formatted instant is 24 characters with each padded field and separator at its fixed place |
| Submission.IsoRoundTrip | api/contact_handler.py:124-128 | every valid clock reading survives formatting and reading back |
| Submission.FoldersMatchTimestamp | api/contact_handler.py:49-51 | the key's year/month/day folders equal the timestamp's own date characters |
| Submission.IsoDateSegments | api/contact_handler.py:124-128 | the timestamp's date characters are the unpadded four-digit year and the two-digit month and day |
| Submission.FourDigitYearUnpadded | api/contact.py:56-59 | a four-digit year is written the same padded or not |
| Submission.DateFolders | api/contact.py:55-59 | for a month and day below 100, the folders are `str(year)`, '/', two digits reading as the month, '/', two digits reading as the day |
| Submission.ObjectKey | api/contact.py:59 | the key is `contact-submissions/`, the folders, '/', the id and ".json" |
| Submission.ObjectKeyDeterminesId | api/contact.py:55-59 | in one folder, different ids give different keys |
| Submission.PyInt | api/contact.py:81 | `int()` refuses blank text, and a negative result comes from a leading '-' |
| Submission.PyIntOfDecimal | api/contact.py:81 | `int(str(n))` is n |
| Submission.DropUnderscoresOfDigits | api/contact.py:81 | a digit string has no underscores to drop before `int()` reads it |
| ContactPy.GetStorageConfig | api/contact.py:26-46 | None exactly when region, access key id, secret or bucket resolves to empty; the session token takes no part in that; each value is the first set name of its list |
| ContactPy.WriterCredentialsTakePrecedence | api/contact.py:28-33 | writer-specific credentials win, and the misspelled secret name is used only when both correct names are unset |
| ContactPy.ClientArgsOf | api/contact.py:151-157 | the client gets the configured region and keys, and a session token only when it is non-empty (`or None`) |
| ContactPy.ContentLength | api/contact.py:80-83 | a missing header, or one `int()` refuses, reads as 0; otherwise the parsed integer |
| ContactPy.ParseJsonBody | api/contact.py:79-94 | `{}` when the length is at most 0, the body does not decode or is not an object; the decoded object itself when the length is positive and it is one |
| ContactPy.StorageOf | api/contact.py:102-105 | storage is available exactly when the configuration is complete, with its client settings and bucket |
| ContactPy.DoPost | api/contact.py:101-168 | the handler always answers itself; 500 before anything else exactly when unconfigured; a write uses the configured client and bucket, the clock's ISO timestamp, and the key under the clock's date folders with the id built from that timestamp |
| ContactPy.DecisionOrder | api/contact.py:101-128 | the handler always answers itself; missing configuration gives 500 before the body is read; a rejected body gives 400 with its message; a write happens exactly for an acceptable body under a complete configuration |
| ContactPy.StoredSubmission | api/contact.py:130-164 | a written submission has the clock's ISO timestamp, a well-formed record, an id without ':' or '.', a key whose folders repeat the timestamp's date, and the configured client and bucket |
| ContactPy.Handle | api/contact.py:97-175 | POST runs `do_POST`; the other listed methods get 405; only POST can write |
| ContactHandler.GetStorageConfig | api/contact_handler.py:26-40 | None exactly when region, `AWS_ACCESS_KEY_ID`, the secret (with the misspelled fallback) or bucket is empty; no writer-specific names are read |
| ContactHandler.StorageOf | api/contact_handler.py:145-151 | storage is available exactly when configured; the client gets `AWS_REGION`, `AWS_ACCESS_KEY_ID` and the secret (with its misspelled fallback) and no session token, and the bucket is `AWS_S3_BUCKET` |
| ContactHandler.ConfigAgreesWithContactPy | api/contact_handler.py:26-40 | without writer-specific variables or a session token, both Python handlers configure storage alike |
| ContactHandler.ContentLength | api/contact_handler.py:93 | a missing or empty header reads as 0; otherwise the length is what `int()` accepts, and None (an exception) when it refuses |
| ContactHandler.BodyOf | api/contact_handler.py:93-103 | reading the body raises exactly when the length does; otherwise the body object as above |
| ContactHandler.ContentLengthAgreesWithContactPy | api/contact_handler.py:93 | where `int()` accepts the header, both Python handlers read the same length |
| ContactHandler.BodyAgreesWithContactPy | api/contact_handler.py:93-103 | and then the same body |
| ContactHandler.FoldersOf | api/contact_handler.py:49-51 | the folders come from reading the timestamp back, and are missing exactly when it does not parse |
| ContactHandler.FoldersAgreeWithContactPy | api/contact_handler.py:124-128 | for a clock reading, the folders are the reading's date, as in `api/contact.py` |
| ContactHandler.DoPost | api/contact_handler.py:88-159 | 500 exactly when unconfigured; an escaping exception only when configured and the length or the timestamp does not parse; a write uses the configured storage, the formatted timestamp, and the key under the folders read back from it |
| ContactHandler.DecisionOrder | api/contact_handler.py:88-122 | configuration 500, then the body, then honeypot, required and address 400s, each before any later check |
| ContactHandler.WritesExactlyAcceptable | api/contact_handler.py:88-159 | a write happens exactly for an acceptable body under a complete configuration |
| ContactHandler.NeverUnhandledOnWellFormedLength | api/contact_handler.py:93-128 | for a valid clock reading the handler raises only when configured and the Content-Length header is malformed |
| ContactHandler.AgreesWithContactPy | api/contact_handler.py:88-164 | where both can answer and the environment has only the shared names, both Python handlers take the same step |
| Submission.Dispatch | api/contact_handler.py:67-86 | both Python handlers' method dispatch: POST takes the `do_POST` step; GET, HEAD, PUT, PATCH, DELETE and OPTIONS get the 405 "Method not allowed."; any other method is left to the server framework; only POST can write |
| ContactHandler.DispatchAgreesWithContactPy | api/contact_handler.py:67-88 | the dispatch over this handler's `do_POST` gives, under the shared-environment conditions, the same step for every method as `api/contact.py`'s handler |
| ContactJs.GetStorageConfig | api/contact.js:25-45 | null exactly when region, access key id, secret (with the misspelled fallback) or bucket is empty; otherwise the client config and bucket |
| ContactJs.StorageOf | api/contact.js:25-45 | storage is available exactly when configured, with region, access key id, secret (with the misspelled fallback), no session token, and `AWS_S3_BUCKET` |
| ContactJs.RequestBody | api/contact.js:69 | a parsed object is the body itself, anything else `{}`: the same object Python reads for a positive length |
| ContactJs.ReplaceSeparators | api/contact.js:18 | the replacement keeps the length and leaves no ':' or '.' |
| ContactJs.JsSubmissionId | api/contact.js:17-19 | the id is a part as long as the timestamp with no ':' or '.', then '-', then the suffix |
| ContactJs.JsFolders | api/contact.js:51-56 | NaN folders exactly when the timestamp does not read back; otherwise the year, the two-digit month and the two-digit day it reads as |
| ContactJs.Handle | api/contact.js:59-127 | the handler always answers itself; 405 exactly for a method other than POST; 500 exactly for an unconfigured POST; a write uses the configured storage, the clock's timestamp and the key under its folders |
| ContactJs.ConfigAgreesWithContactHandler | api/contact.js:25-45 | the JavaScript handler reads the same variables as `api/contact_handler.py` and configures the same storage |
| ContactJs.ReplaceSeparatorsAt | api/contact.js:18 | the global replace turns every ':' and '.' into '-' and keeps every other character |
| ContactJs.JsSubmissionIdAgrees | api/contact.js:17-19 | the one-pass replacement builds the same id as the Python handlers' two passes |
| ContactJs.JsSubmissionIdIsPathSafe | api/contact.js:17-19 | with a base-36 suffix of at most 8 characters the id has no ':' or '.' and is at most 9 characters longer than the timestamp |
| ContactJs.PadDatePart | api/contact.js:47-49 | one-digit values get a single leading '0'; others are unchanged; the result reads back as the value |
| ContactJs.JsFoldersOfClock | api/contact.js:51-57 | for the handler's own clock reading, the UTC folders are the reading's year, month (`getUTCMonth()+1`) and day |
| ContactJs.JsFoldersOfGarbage | api/contact.js:51-56 | a text outside the `toISOString` shape that the model's `new Date` reads is filed under NaN folders |
| ContactJs.MethodCheckedFirst | api/contact.js:60-62 | any method but POST gets 405 before the configuration is read, and only POST writes |
| ContactJs.DecisionOrder | api/contact.js:64-90 | configuration 500 first, then a non-object body as `{}`, then honeypot, required, address, in that order |
| ContactJs.WritesExactlyAcceptable | api/contact.js:64-127 | a POST writes exactly for an acceptable body under a complete configuration, and the handler always answers |
| ContactJs.StoredSubmission | api/contact.js:92-121 | a written submission's id is the JavaScript id of its timestamp, its key's folders are the clock's date, and its record is well formed |
| ContactJs.AgreesWithContactPy | api/contact.js:59-127 | given the same body object, whose strings lie in the Basic Multilingual Plane, and only shared names, a POST takes the same step as `api/contact.py` |
| Leads.NormalizeLead | api/aws_bucket_reader.py:81-94 | the lead has exactly the eleven column keys, each the record's value or "" |
| Leads.NormalizeLeadDropsUserAgent | api/aws_bucket_reader.py:18-30 | the stored user agent is not a lead column |
| Leads.NormalizeLeadIdempotent | api/aws_bucket_reader.py:81-94 | normalising a lead twice is normalising it once |
| Leads.Project | api/aws_bucket_reader.py:121 | a sheet row has one cell per column, in column order, with "" for a missing field |
| Leads.ProjectNormalized | api/aws_bucket_reader.py:104-121 | normalising a record does not change its sheet row |
| Leads.StoredSubmissionRow | api/contact.py:135-148 | a record a handler stores exports as its own fields in column order, without the user agent |
| LeadSort.Less | api/aws_bucket_reader.py:106 | the string order never relates a string to itself, and puts every proper prefix first |
| LeadSort.InsertRow | api/aws_bucket_reader.py:106 | inserting adds exactly one row |
| LeadSort.SortBySubmittedAt | api/aws_bucket_reader.py:106 | sorting keeps the number of rows |
| LeadSort.LessIrreflexive | api/aws_bucket_reader.py:106 | the string order of the sort key is irreflexive |
| LeadSort.LessTransitive | api/aws_bucket_reader.py:106 | and transitive |
| LeadSort.LessTotal | api/aws_bucket_reader.py:106 | and total on distinct strings |
| LeadSort.SortIsSorted | api/aws_bucket_reader.py:106 | the sorted rows are non-decreasing by `submittedAt` |
| LeadSort.SortIsPermutation | api/aws_bucket_reader.py:106 | the sorted rows are a permutation of the input |
| LeadSort.SortIsStable | api/aws_bucket_reader.py:106 | rows with equal `submittedAt` keep their input order |
| LeadSort.InsertRowSorted | api/aws_bucket_reader.py:106 | inserting a row into sorted rows keeps them sorted |
| LeadSort.InsertAt | api/aws_bucket_reader.py:106 | the in-place step inserts the next row into the sorted prefix and leaves the rest of the array alone |
| LeadSort.SortRows | api/aws_bucket_reader.py:106 | the in-place sort leaves the array equal to the stable sort of its old contents |
| BucketReader.GetEnvFirst | api/aws_bucket_reader.py:35-40 | the loop returns the first-set lookup of its names |
| BucketReader.ClientKwargsOf | api/aws_bucket_reader.py:43-54 | the region is the argument or `AWS_REGION`; explicit keys only when both key halves resolve non-empty; the session token only when non-empty |
| BucketReader.GetS3Client | api/aws_bucket_reader.py:43-56 | the client is built with exactly those keyword arguments |
| BucketReader.ReaderKeysPreferred | api/aws_bucket_reader.py:45-52 | the reader's own key pair wins when both halves are set |
| BucketReader.KeysNeedBothHalves | api/aws_bucket_reader.py:49-52 | explicit keys are left out exactly when no access key or no secret is set |
| BucketReader.MonthPrefix | api/aws_bucket_reader.py:65 | the prefix is `contact-submissions/`, the year, '/', the padded month and a closing '/' |
| BucketReader.MonthPrefixCoversKey | api/aws_bucket_reader.py:65 | the month prefix is a prefix of every key a handler writes for that year and month |
| BucketReader.MonthPrefixSelectsMonth | api/aws_bucket_reader.py:65 | conversely, a handler key under a month's prefix was written for that year and month |
| BucketReader.FlattenContains | api/aws_bucket_reader.py:69-71 | a key is listed exactly when some page holds it |
| BucketReader.Flatten | api/aws_bucket_reader.py:69-71 | the paginator loop's appends: a key is listed exactly when some page holds it (FlattenContains), the keys keep page order (FlattenAppend) and one page gives its own keys (FlattenOfPage) |
| BucketReader.FlattenAppend | api/aws_bucket_reader.py:69-71 | the keys of later pages follow those of earlier pages: flattening pages a then b is a's keys then b's |
| BucketReader.FlattenOfPage | api/aws_bucket_reader.py:70-71 | a single page lists its own keys in its own order |
| BucketReader.ListKeysForMonth | api/aws_bucket_reader.py:64-73 | one listing request for the month's prefix, then every page's keys in page order |
| BucketReader.NormalizeAll | api/aws_bucket_reader.py:101-104 | a successful run has one row per key; a failed one names a listed key that cannot be read |
| BucketReader.NormalizeAllOk | api/aws_bucket_reader.py:101-104 | the read loop succeeds exactly when every listed key can be read |
| BucketReader.NormalizeAllRows | api/aws_bucket_reader.py:101-104 | and then yields one normalised row per key, in key order |
| BucketReader.NormalizeAllStops | api/aws_bucket_reader.py:101-104 | the first unreadable key stops the run with its error |
| BucketReader.ReadLeads | api/aws_bucket_reader.py:101-104 | the loop computes exactly that result |
| BucketReader.MonthlyLeads | api/aws_bucket_reader.py:97-107 | succeeds exactly when the read loop does, with one row per key; otherwise the loop's error |
| BucketReader.MonthlyLeadsOrdered | api/aws_bucket_reader.py:97-107 | the fetched rows are sorted by `submittedAt` and are a permutation of the normalised records |
| BucketReader.MonthlyLeadsAreNormalized | api/aws_bucket_reader.py:101-106 | every fetched row is the normalised record of a listed key and has exactly the column keys |
| BucketReader.FetchMonthlyLeads | api/aws_bucket_reader.py:97-107 | the client arguments, the listing request and the sorted rows are as above |
| BucketReader.SortInPlace | api/aws_bucket_reader.py:106 | the read rows, sorted where they stand, come out as the stable sort by `submittedAt` of the rows the loop built |
| BucketReader.StripTrailingSlashes | api/aws_bucket_reader.py:111 | drops exactly the trailing slashes |
| BucketReader.PathName | api/aws_bucket_reader.py:111 | a path's name has no slash |
| BucketReader.Lower | api/aws_bucket_reader.py:112 | lower-cases each character in place |
| BucketReader.PathSuffix | api/aws_bucket_reader.py:112 | the suffix is "" exactly when the name's last dot is missing, is its first character or is its last; otherwise it is the tail from the last dot, has no other dot and is shorter than the name |
| BucketReader.NameSuffixIff | api/aws_bucket_reader.py:111-113 | a name's lower-cased suffix is ".xlsx" exactly when the name has at least six characters and ends in ".xlsx" in any case |
| BucketReader.HasXlsxSuffix | api/aws_bucket_reader.py:111-113 | the suffix check passes exactly for paths whose name has at least six characters and ends in ".xlsx" in any case |
| BucketReader.SheetRows | api/aws_bucket_reader.py:120-121 | one sheet row per lead, in order, each the lead's projection |
| BucketReader.WriteLeadsToXlsx | api/aws_bucket_reader.py:110-127 | refuses a non-".xlsx" path with its ValueError, and otherwise saves the "Leads" sheet: the header row, then the projected rows |
| BucketReader.SheetShape | api/aws_bucket_reader.py:119-121 | every sheet row, the header row included, has one cell per column |
| BucketReader.ResolveExport | api/aws_bucket_reader.py:149-167 | a resolved export has the given or configured bucket (never empty), the given or current year and month, a month in 1..12 and a non-empty path; every failure is an argument error |
| BucketReader.ResolveExportErrors | api/aws_bucket_reader.py:149-163 | each of the three argument errors happens exactly when its check fails after the earlier ones pass: the bucket is empty; exactly one of year and month is given; the given (or current) month is outside 1..12 |
| BucketReader.Message | api/aws_bucket_reader.py:110-163 | the four `ValueError` texts; no two errors share a text (MessageInjective) |
| BucketReader.MessageInjective | api/aws_bucket_reader.py:110-163 | distinct errors carry distinct messages |
| BucketReader.ResolveExplicitMonth | api/aws_bucket_reader.py:149-167 | with a bucket, an explicit year and a month in 1..12 resolve to that year and month, the given path or the default one |
| BucketReader.ResolveExportPlan | api/aws_bucket_reader.py:149-167 | a resolved export has a non-empty bucket, a month in 1..12 (the current one when none is given), the given path when there is one and the default path of its year and month otherwise, which passes the suffix check |
| BucketReader.CurrentMonthInRange | api/aws_bucket_reader.py:159-163 | with no year and month given, the current month always passes the range check |
| BucketReader.DefaultOutput | api/aws_bucket_reader.py:165-167 | the default path starts with the script directory and ends with `contact_leads/` and the month's file name |
| BucketReader.DefaultOutputName | api/aws_bucket_reader.py:165-167 | the default path is the script directory, then `contact_leads/leads-{year}-{MM}.xlsx`, and its name is `leads-{year}-{MM}.xlsx` |
| BucketReader.DefaultOutputIsXlsx | api/aws_bucket_reader.py:165-167 | the default `contact_leads/leads-{year}-{MM}.xlsx` path passes the suffix check |
| BucketReader.JoinPath | api/aws_bucket_reader.py:166 | `dir / part`: the directory stays in front and a one-component part becomes the path's name (JoinPathName) |
| BucketReader.JoinPathName | api/aws_bucket_reader.py:166 | joining a non-empty part with no slash onto any directory keeps the directory as a prefix and makes the part the name |
| BucketReader.LeadsFileName | api/aws_bucket_reader.py:166 | `f"leads-{year}-{month:02d}.xlsx"`: one path component (no slash) ending in `.xlsx` (LeadsFileNameShape), and the default path's name (DefaultOutputName) |
| BucketReader.LeadsFileNameShape | api/aws_bucket_reader.py:166 | the default file name has no slash, at least six characters and the `.xlsx` ending |
| BucketReader.ResolveArgs | api/aws_bucket_reader.py:149-167 | the argument checks compute the resolved export |
| BucketReader.ExportOf | api/aws_bucket_reader.py:130-139 | a fetch error is passed on; after a fetch the export fails exactly on a non-".xlsx" path; a finished export's summary counts the rows and names the file, bucket and month, and its sheet is the header then one projected row per lead |
| BucketReader.ExportMonthToXlsx | api/aws_bucket_reader.py:130-139 | the rows are fetched first, then written; the summary is returned |
| BucketReader.FetchLeadsForMonthToXlsx | api/aws_bucket_reader.py:142-170 | argument errors come first, then the export |
| BucketReader.ExportCountsRecords | api/aws_bucket_reader.py:130-139 | the summary counts exactly the listed records, names the file saved, and the sheet has one row more than that count |
| SiteHeader.NextHidden | site.js:140-148 | a hidden header has the menu closed and is below 24; a shown header starts hiding only scrolling down more than 8 below 220; a hidden one reappears only for an open menu, the top band, or scrolling up more than 8 |
| SiteHeader.NextHiddenIff | site.js:140-148 | hidden exactly when the menu is closed, the page is below 24, and either it just scrolled down more than 8 below 220, or it was hidden and has not scrolled up more than 8 |
| SiteHeader.ScrollWatcher.constructor | site.js:121-155 | set-up records the header and the current Y with no frame pending, and applies the first update, so the header is scrolled iff Y > 12 and hidden as the step from a shown header says |
| SiteHeader.MobileNav.constructor | site.js:189-206 | the menu toggle starts collapsed |
| SiteHeader.ShownWhenMenuOpenOrNearTop | site.js:140-143 | an open menu, or a position of at most 24, always shows the header |
| SiteHeader.HidesOnlyScrollingDownDeep | site.js:144-145 | a shown header starts hiding only when it scrolls down more than 8 below 220 |
| SiteHeader.SmallMovesKeepState | site.js:135-148 | moves of at most 8 never change the hidden state away from the top band (hysteresis) |
| SiteHeader.ScrollingUpShows | site.js:146-147 | scrolling up more than 8 shows the header |
| SiteHeader.ScrollWatcher.Update | site.js:133-153 | `is-scrolled` iff Y > 12; the hidden flag steps as above and is copied to the header; `lastScrollY` becomes Y; the tick is cleared |
| SiteHeader.ScrollWatcher.OnScroll | site.js:159-165 | at most one frame is asked for at a time |
| SiteHeader.MobileNav.SetMenuState | site.js:202-206 | the header class, the toggle's `aria-expanded` and the body class all take the new state |
| SiteHeader.MobileNav.ToggleClick | site.js:216-219 | a toggle click flips the menu |
| SiteHeader.MobileNav.CloseMenu | site.js:208-210 | closes the menu |
| SiteHeader.MobileNav.KeyDown | site.js:227-231 | Escape closes the menu; other keys change nothing |
| SiteHeader.MobileNav.DocumentClick | site.js:233-241 | at the breakpoint with the menu open, a click outside the navigation closes it; otherwise nothing changes |
| SiteHeader.MobileNav.BreakpointChange | site.js:243-247 | leaving the breakpoint closes the menu |
| Tabs.KeyDownAction | site.js:303-320 | the next index is always in range; Enter and Space activate the current tab; other keys are ignored |
| Tabs.ArrowsStepAndWrap | site.js:306-313 | ArrowRight steps right and wraps from the last tab to 0; ArrowLeft steps left and wraps from 0 to the last; Home gives 0 and End the last |
| Tabs.ArrowsInverse | site.js:306-309 | ArrowLeft undoes ArrowRight and vice versa |
| Tabs.LabelledBy | site.js:328 | a panel without an id gets no label |
| Tabs.LabelledByControllingButton | site.js:291-331 | a panel is labelled by the button that controls it |
| Tabs.PanelId | site.js:291 | `'tab-' + data-tab`; distinct tabs get distinct panel ids (IdsInjective), and a panel with this id is labelled by ButtonId of the same tab (LabelledByControllingButton) |
| Tabs.ButtonId | site.js:292 | `'tab-btn-' + data-tab`; distinct tabs get distinct button ids (IdsInjective) |
| Tabs.IdsInjective | site.js:291-292 | distinct tabs get distinct panel ids and distinct button ids |
| Tabs.FindPanel | site.js:263 | the first panel carrying the id, or none when none carries it |
| Tabs.TabSet.constructor | site.js:276-337 | with no buttons or no panels nothing changes; otherwise each button's selected state follows its `active` class and each panel without it is hidden |
| Tabs.TabSet.ActivateTab | site.js:250-274 | after activation the chosen button and its panel are selected iff the panel `tab-{data-tab}` exists; every other button and panel is deselected and hidden |
| Tabs.TabSet.Click | site.js:299-301 | a click activates that button's tab |
| Tabs.TabSet.KeyDown | site.js:303-324 | arrow, Home and End keys focus and activate the new tab and prevent the default; Enter and Space activate the current one; other keys change nothing |
| Tabs.ActivationSelectsOne | site.js:250-274 | at most one button and one panel are active; an active button's panel is the shown one; some button is active iff its panel exists |
| Faq.FaqCategory.Click | site.js:523-535 | the clicked item flips; opening it closes every other item; closing it changes nothing else; at most one item stays open |
| Faq.ClickLeavesClickedOrNone | site.js:523-532 | after a click, exactly the clicked item is open when it was opened, and none is open when it was closed |
| Faq.FaqCategory.constructor | site.js:505-535 | at start-up only the first item is open, and only when it has a toggle |
| ActiveNav.CurrentPage | site.js:171-174 | the current page is non-empty and has no '/' |
| ActiveNav.CurrentPageOfPath | site.js:171-174 | the page is the last path segment, or `index.html` when that segment is empty |
| ActiveNav.LinkTarget | site.js:177 | a link's target is the part of its href before the first '#' |
| ActiveNav.LinkTargetIgnoresFragment | site.js:177 | a fragment does not change the page a link names |
| ActiveNav.NeverCurrentWithoutPage | site.js:177-178 | a link with no page part, or with a directory in it, is never current |
| ActiveNav.MarkCurrent | site.js:176-186 | every link gets `is-current` and `aria-current` exactly when its target is the current page |
| CountUp.MatchStat | site.js:370 | a match is the text cut into a digit-free prefix, a number starting with a digit, and the rest, on a one-line text |
| CountUp.ParseStat | site.js:369-374 | a trimmed text has no match exactly when it has no digit or spans lines; a match splits it as the pattern requires |
| CountUp.MatchStatSplits | site.js:369-381 | a match splits the trimmed text into prefix + number + suffix, with a digit-free prefix, a numeral `\d+(\.\d+)?` as number, and no line break in the text |
| CountUp.MatchStatGreedy | site.js:370 | the number is greedy: the suffix starts with neither a digit nor, after an integer, a point and a digit |
| CountUp.MatchStatComplete | site.js:370 | whenever the pattern can split the text there is a match, and its prefix is the shortest |
| CountUp.MatchStatNone | site.js:370-374 | there is no match exactly when the text has no digit or spans lines |
| CountUp.MatchedEmpty | site.js:383 | filtering keeps nothing exactly when every parse failed |
| CountUp.ParseStats | site.js:383 | there are never more parsed statistics than texts |
| CountUp.ParseStatsEmpty | site.js:367-387 | no statistic is animated exactly when no text matches |
| CountUp.StartOf | site.js:362-405 | no animation with no statistics, reduced motion or no match; the items are the parsed stats; the run waits for the banner only with a banner and an observer |
| CountUp.BannerWatch.constructor | site.js:401 | the count-up starts out not yet started |
| CountUp.BannerWatch.OnEntry | site.js:408-416 | the animation runs on the first intersecting entry and never again |
| ContactForm.FormValueTrimmed | site.js:625-636 | every value the form reads is trimmed |
| ContactForm.PayloadOf | site.js:623-637 | every field is the trimmed control value; the token is the hidden field, or the widget's response when that is empty |
| ContactForm.ClientRejection | site.js:639-647 | the required prompt exactly when a required field is empty, the address prompt exactly when they are filled and the address fails the check, and no problem otherwise |
| ContactForm.ClientRejectionIff | site.js:639-647 | the form is posted exactly when the required fields are filled and the address matches; the required prompt appears exactly when a required field is empty |
| ContactForm.Prompt | site.js:640-645 | the two status prompts; each problem has its own (PromptInjective) |
| ContactForm.PromptInjective | site.js:640-645 | the required-fields prompt and the address prompt differ |
| ContactForm.PostedLookups | site.js:655-661 | a handler finds each posted field under its own name |
| ContactForm.PayloadJson | site.js:655-661 | `JSON.stringify(payload)` as a handler decodes it; its contract is PostedLookups: each field is found under its own name as the trimmed string |
| ContactForm.CheckedFieldsOf | site.js:660 | the handler reads the checked fields back as the cleaned text of what the browser sent |
| ContactForm.ServerAgreesWithPayload | site.js:639-661 | on trimmed fields the handler's required fields are empty exactly when the browser's are; a filled honeypot passes the browser and is refused by the handler; a payload the browser accepts, with an empty honeypot and an address of at most 2000 characters, the handler accepts |
| ContactForm.ServerAgreesWithForm | site.js:623-661 | every payload the form builds is in that case |
| ContactForm.JsText | site.js:674 | `String(value)`: a string is itself, a number's digits read back as it (after a '-' when negative), a boolean is "true" or "false", and an empty array "" |
| ContactForm.JsTextOf | site.js:674 | the case split of `String(value)` whose results JsText's ensures state |
| ContactForm.ErrorText | site.js:684 | the error shown is never empty: the message, or the generic notice |
| ContactForm.Settle | site.js:662-686 | an error message is never empty; the form reports success exactly when the response is ok, and its body is JSON whose `ok` is truthy |
| ContactForm.SettleOfHandlerReply | site.js:662-686 | for any handler reply: success exactly on a 2xx success payload; otherwise the handler's own error text (or the fallback); a non-JSON body shows the unexpected-response notice |
| ContactForm.Truthy | site.js:673 | JavaScript truthiness of `data.ok` and `data.error`: the form reports success exactly when `ok` is truthy (Settle's iff) |
| ContactForm.ResponseJson | api/contact.py:64-76 | the `{"ok": ..., "error"/"id": ...}` body a handler sends; its `ok` property is true exactly on success and the error text or id sits under its own name (ResponseJsonProperties) |
| ContactForm.ResponseJsonProperties | api/contact.py:64-76 | `ok` is true exactly on success; a failure carries its error text and a success its id and no error |
| ContactForm.StatusFor | site.js:588-600 | the status line shows the message with at most one of `is-success`/`is-error`, as the type says |
| ContactForm.FormView.constructor | site.js:602-621 | the form starts idle with its button enabled, and the values it starts with are the ones a reset restores |
| ContactForm.FormView.SetStatus | site.js:588-600 | without a status element nothing changes; otherwise the line is set as above |
| ContactForm.FormView.Submit | site.js:617-653 | a submit while busy is a no-op; the required check comes before the address check, and either failure shows its prompt with no request; otherwise busy is set, the button disabled and "Sending..." shown before the request is returned |
| ContactForm.FormView.BeginSending | site.js:649-653 | marks the form busy, disables the button and shows the sending notice |
| ContactForm.FormView.Complete | site.js:672-692 | success resets the values and thanks; failure shows the error; in every case busy is cleared and the button re-enabled |

## Left out

- Whitespace: `Text.IsSpace` is one ASCII whitespace class. It stands for Python's `\s` and `str.strip()` and for JavaScript's `\s` and `trim()`. These differ from each other and from the ASCII class on Unicode spaces, which the model does not distinguish.
- Calls into code the model cannot see are parameters:
  - AWS SDK calls (`boto3.client`, `put_object`, `S3Client.send`, the paginator, `get_object`);
  - HTTP plumbing (`send_json`, `json_response`, `res.status().json`);
  - JSON encoding and decoding;
  - the clock;
  - `random.choices` and `Math.random`.
- These parameters are shaped as follows:
  - a write is a `Write` step whose outcome is a boolean;
  - decoded JSON is an `Option<Json>`;
  - the listing is a sequence of pages;
  - the stored objects are a map;
  - the clock is a `DateTime`;
  - the id suffix is a string.
  - A `get_object` or decode failure counts as a listed key that is missing from that map.
- JSON numbers are integers. Floats, `parseFloat` of the count-up number, and the count-up animation (easing, rounding, `requestAnimationFrame`) are not modelled.
- The logging `print` and `console.error` calls are not modelled.
- Serialisation details are not modelled: `json.dumps` indent, `ensure_ascii`, `ContentType` and `ServerSideEncryption`.
- `datetime.fromisoformat` is modelled only on the shape `to_iso_utc` writes. Other ISO forms it also accepts are read as failures. Years outside 1..9999 are out of range.
- `Path` handling: `.` components and normalisation, `SCRIPT_DIR` resolution, `mkdir`, the openpyxl workbook save, and dotenv loading are file-system work. The saved sheet is returned as a value.
- The exporter's `int(year)` / `int(month)` on string arguments: year and month are taken as integers.
- Non-string JSON values inside stored records: lead records are `map<string, string>`.
- site.js parts not modelled:
  - `initBaseReveal` and `isNearViewport` (layout geometry);
  - the FAQ height and opacity transition and its `transitionend` handler;
  - `scrollToFaqTopic` and `syncTopicSelection` (bounding rectangles and scrolling);
  - the `role` and `aria-*` attributes set once at start-up, beyond the labelling lemma;
  - `IntersectionObserver` and `matchMedia` themselves, whose results are arguments.
- `Tabs.FindPanel`: `document.getElementById` is searched among the tab panels only. An element with that id elsewhere on the page is not modelled.
- Text.Take: Python's `[:2000]` counts code points, and so does the model; JavaScript's `slice(0, 2000)` at api/contact.js:10 counts UTF-16 code units. Outside the Basic Multilingual Plane the JavaScript handler can keep fewer characters, or half of a surrogate pair, which a Dafny `char` cannot hold.
- ContactJs.AgreesWithContactPy: because of that, the agreement with `api/contact.py` is stated only for bodies whose strings lie in the Basic Multilingual Plane (`BmpBody`). The JavaScript handler's truncation of other text is not modelled.
- ContactJs.JsFolders: `new Date(timestamp)` is read only on the `toISOString` shape its own clock reading has. Other strings `Date` accepts, such as "2024-05-01", give NaN folders in the model. The handler only ever passes its own clock reading.
- SiteHeader.ScrollWatcher.Update: `window.scrollY` is taken as an integer. Browsers can report fractional offsets; the thresholds compare the same way on them, but the model does not carry the fraction. The same holds for SiteHeader.NextHidden.
- Trim: its own contract states the ends and the blank case. That the result is the input without its outer whitespace is `Text.TrimIsSlice`, kept a separate lemma so the many uses of `Trim` stay cheap to verify.
- `ContactForm.PayloadOf`: `FormData.get` returns one value per name. Multiple controls with the same name (only the first is read) are not modelled.
- `ContactForm.Settle`: the engine's TypeError text, for a JSON `null` body, is a parameter.
- `ContactForm.FormView.Complete`: `form.reset()` restores the values the form had when it was set up. Per-control default values are not modelled separately.
- `ContactForm.ServerAgreesWithPayload`: the agreement on acceptance is stated only for addresses of at most 2000 characters. A longer address is truncated by the handler before its check.
- `ContactJs.JsSubmissionIdIsPathSafe`: the base-36 suffix is taken as at most eight characters. `IsJsSuffix` fixes its alphabet (lowercase letters and digits), not the distribution of `Math.random`.
- `CountUp.ParseStats`: its own contract states only that there are no more matches than texts. The emptiness property is `CountUp.ParseStatsEmpty`, and the order of the matches is that of the definition.
