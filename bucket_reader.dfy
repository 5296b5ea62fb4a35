/** api/aws_bucket_reader.py: the monthly lead export. It reads every stored
    submission under one month's key prefix, keeps the lead columns, sorts the
    rows by submission time and lays them out as one worksheet. */
module BucketReader {
  import opened Wrappers
  import opened Text
  import opened Environment
  import opened Submission
  import opened Leads
  import opened LeadSort

  const ReaderAccessKeyNames := ["AWS_READER_ACCESS_KEY", "AWS_ACCESS_KEY_ID"]
  const ReaderSecretKeyNames := ["AWS_READER_SECRET_ACCESS_KEY", "AWS_SECRET_ACCESS_KEY"]
  const ReaderSessionTokenNames := ["AWS_READER_SESSION_TOKEN", "AWS_SESSION_TOKEN"]

  /** The `ValueError`s the exporter raises itself. */
  datatype Invalidity = BucketRequired | BothOrNeither | MonthRange | XlsxSuffix

  /** The message each of them carries. */
  function Message(e: Invalidity): string {
    match e
    case BucketRequired => "Bucket name is required. Set AWS_S3_BUCKET or pass bucket explicitly."
    case BothOrNeither => "Provide both year and month, or neither."
    case MonthRange => "Month must be between 1 and 12."
    case XlsxSuffix => "Output file must use the .xlsx extension."
  }

  /** Each error carries its own message. */
  lemma MessageInjective(e: Invalidity, e': Invalidity)
    ensures Message(e) == Message(e') ==> e == e'
  {
    MessageLength(e);
    MessageLength(e');
  }

  lemma MessageLength(e: Invalidity)
    ensures |Message(e)| == match e case BucketRequired => 69 case BothOrNeither => 40 case MonthRange => 31 case XlsxSuffix => 41
  {
  }

  // ---------------------------------------------------------------------------
  // Environment

  lemma FirstSetFrom(env: Env, names: seq<string>, i: nat)
    requires i < |names|
    ensures FirstSet(env, names[i..]) == OrElse(GetEnv(env, names[i]), FirstSet(env, names[i + 1..]))
  {
    assert names[i..] == [names[i]] + names[i + 1..];
    FirstSetCons(env, names[i], names[i + 1..]);
  }

  /** `get_env_first(*names)`: the loop over the names. */
  method GetEnvFirst(env: Env, names: seq<string>) returns (value: string)
    ensures value == FirstSet(env, names)
  {
    var i := 0;
    while i < |names|
      invariant 0 <= i <= |names|
      invariant FirstSet(env, names) == FirstSet(env, names[i..])
    {
      value := GetEnv(env, names[i]);
      FirstSetFrom(env, names, i);
      if value != "" {
        return;
      }
      i := i + 1;
    }
    assert names[i..] == [];
    value := "";
  }

  // ---------------------------------------------------------------------------
  // The storage client

  datatype KeyPair = KeyPair(accessKeyId: string, secretAccessKey: string)

  /** The keyword arguments `get_s3_client` passes to the client constructor;
      `None` leaves the argument out, so the SDK's default chain applies. */
  datatype ClientKwargs = ClientKwargs(regionName: string, keys: Option<KeyPair>, sessionToken: Option<string>)

  /** The arguments `get_s3_client(region_name)` builds from the environment. */
  function ClientKwargsOf(env: Env, regionName: string): (r: ClientKwargs)
    ensures r.regionName == if regionName != "" then regionName else GetEnv(env, "AWS_REGION")
    ensures r.keys.Some? <==> FirstSet(env, ReaderAccessKeyNames) != "" && FirstSet(env, ReaderSecretKeyNames) != ""
    ensures r.keys.Some? ==> r.keys.value == KeyPair(FirstSet(env, ReaderAccessKeyNames), FirstSet(env, ReaderSecretKeyNames))
    ensures r.sessionToken.Some? <==> FirstSet(env, ReaderSessionTokenNames) != ""
    ensures r.sessionToken.Some? ==> r.sessionToken.value == FirstSet(env, ReaderSessionTokenNames)
  {
    FirstSetOfOne(env, "AWS_REGION");
    var access := FirstSet(env, ReaderAccessKeyNames);
    var secret := FirstSet(env, ReaderSecretKeyNames);
    var token := FirstSet(env, ReaderSessionTokenNames);
    ClientKwargs(
      OrElse(regionName, FirstSet(env, ["AWS_REGION"])),
      if access != "" && secret != "" then Some(KeyPair(access, secret)) else None,
      if token != "" then Some(token) else None)
  }

  /** `get_s3_client(region_name)`. */
  method GetS3Client(env: Env, regionName: string) returns (kwargs: ClientKwargs)
    ensures kwargs == ClientKwargsOf(env, regionName)
  {
    var region := regionName;
    if region == "" {
      region := GetEnvFirst(env, ["AWS_REGION"]);
    }
    var access := GetEnvFirst(env, ReaderAccessKeyNames);
    var secret := GetEnvFirst(env, ReaderSecretKeyNames);
    var token := GetEnvFirst(env, ReaderSessionTokenNames);
    kwargs := ClientKwargs(region, None, None);
    if access != "" && secret != "" {
      kwargs := kwargs.(keys := Some(KeyPair(access, secret)));
    }
    if token != "" {
      kwargs := kwargs.(sessionToken := Some(token));
    }
  }

  /** The reader's own key pair wins over the default one when both of its
      halves are set. */
  lemma ReaderKeysPreferred(env: Env, regionName: string)
    requires GetEnv(env, "AWS_READER_ACCESS_KEY") != "" && GetEnv(env, "AWS_READER_SECRET_ACCESS_KEY") != ""
    ensures ClientKwargsOf(env, regionName).keys
            == Some(KeyPair(GetEnv(env, "AWS_READER_ACCESS_KEY"), GetEnv(env, "AWS_READER_SECRET_ACCESS_KEY")))
  {
    FirstSetOfTwo(env, "AWS_READER_ACCESS_KEY", "AWS_ACCESS_KEY_ID");
    FirstSetOfTwo(env, "AWS_READER_SECRET_ACCESS_KEY", "AWS_SECRET_ACCESS_KEY");
  }

  /** Explicit keys are passed only when some access key and some secret are
      set; with either missing the client falls back to the default chain. */
  lemma KeysNeedBothHalves(env: Env, regionName: string)
    ensures ClientKwargsOf(env, regionName).keys.None?
            <==> (GetEnv(env, "AWS_READER_ACCESS_KEY") == "" && GetEnv(env, "AWS_ACCESS_KEY_ID") == "")
                 || (GetEnv(env, "AWS_READER_SECRET_ACCESS_KEY") == "" && GetEnv(env, "AWS_SECRET_ACCESS_KEY") == "")
  {
    FirstSetOfTwo(env, "AWS_READER_ACCESS_KEY", "AWS_ACCESS_KEY_ID");
    FirstSetOfTwo(env, "AWS_READER_SECRET_ACCESS_KEY", "AWS_SECRET_ACCESS_KEY");
  }

  // ---------------------------------------------------------------------------
  // One month's keys

  /** `contact-submissions/{year}/{month:02d}/` */
  function MonthPrefix(year: int, month: int): (r: string)
    ensures IsPrefixLayout(r, KeyRoot, IntToString(year), Format02(month))
  {
    PrefixLayout(KeyRoot, IntToString(year), Format02(month));
    KeyRoot + IntToString(year) + "/" + Format02(month) + "/"
  }

  /** `r` is `root`, then `y` and `mm`, each followed by a slash. */
  predicate IsPrefixLayout(r: string, root: string, y: string, mm: string) {
    && |r| == |root| + |y| + |mm| + 2 && r[..|root|] == root && r[|root|..|root| + |y|] == y
    && r[|root| + |y|] == '/' && r[|root| + |y| + 1..|r| - 1] == mm && r[|r| - 1] == '/'
  }

  lemma PrefixLayout(root: string, y: string, mm: string)
    ensures IsPrefixLayout(root + y + "/" + mm + "/", root, y, mm)
  {
    var r := root + y + "/" + mm + "/";
    assert r[|root|..|root| + |y|] == y;
    assert r[|root| + |y| + 1..|r| - 1] == mm;
  }

  /** Every key a handler writes for a submission lies under the prefix of its
      own year and month. */
  lemma MonthPrefixCoversKey(year: nat, month: nat, day: nat, id: string)
    ensures MonthPrefix(year, month) <= ObjectKey(DateFolders(year, month, day), id)
  {
    KeySplit(KeyRoot, NatToString(year), ZeroPad(month, 2), ZeroPad(day, 2), id);
    PrefixOfConcat(KeyRoot + NatToString(year) + "/" + ZeroPad(month, 2) + "/", ZeroPad(day, 2) + "/" + id + ".json");
  }

  /** The layout of an object key around its month prefix. */
  lemma KeySplit(root: string, y: string, mm: string, dd: string, id: string)
    ensures root + (y + "/" + mm + "/" + dd) + "/" + id + ".json"
            == (root + y + "/" + mm + "/") + (dd + "/" + id + ".json")
    ensures root + (y + "/" + mm + "/" + dd) + "/" + id + ".json"
            == root + (y + "/" + (mm + "/" + (dd + "/" + id + ".json")))
    ensures root + y + "/" + mm + "/" == root + (y + "/" + (mm + "/"))
  {
  }

  /** Two digit runs each followed by a slash, one a prefix of the other, are
      the same run. */
  lemma DigitSegment(a: string, x: string, b: string, y: string)
    requires AllDigits(a) && AllDigits(b)
    requires a + "/" + x <= b + "/" + y
    ensures a == b && x <= y
  {
    var u, v := a + "/" + x, b + "/" + y;
    var k := if |a| <= |b| then |a| else |b|;
    assert forall i :: 0 <= i < |a| ==> u[i] == a[i];
    assert forall i :: 0 <= i < |b| ==> v[i] == b[i];
    assert u[|a|] == '/' && v[|b|] == '/' && !IsDigit('/');
    assert u[k] == v[k];
    assert |a| == |b|;
    assert a == u[..|a|] && b == v[..|b|];
    assert x == u[|a| + 1..] && y[..|x|] == v[|a| + 1..|u|];
  }

  /** A common head can be dropped from both sides of a prefix. */
  lemma PrefixAfterHead(h: string, a: string, b: string)
    requires h + a <= h + b
    ensures a <= b
  {
    assert a == (h + a)[|h|..] && b[..|a|] == (h + b)[|h|..|h| + |a|];
  }

  lemma AppendEmpty(a: string)
    ensures a + "/" == a + "/" + ""
  {
  }

  /** Conversely, a key that a handler wrote under some year and month lies
      under a month's prefix only for that year and month: the trailing slash
      and the zero padding keep month 1 from matching month 12. */
  lemma MonthPrefixSelectsMonth(year: int, month: int, y: nat, m: nat, day: nat, id: string)
    requires 1 <= month <= 12
    requires MonthPrefix(year, month) <= ObjectKey(DateFolders(y, m, day), id)
    ensures year == y && month == m
  {
    var rest := ZeroPad(day, 2) + "/" + id + ".json";
    var pa := IntToString(year) + "/" + (Format02(month) + "/");
    var kb := NatToString(y) + "/" + (ZeroPad(m, 2) + "/" + rest);
    KeySplit(KeyRoot, NatToString(y), ZeroPad(m, 2), ZeroPad(day, 2), id);
    KeySplit(KeyRoot, IntToString(year), Format02(month), ZeroPad(day, 2), id);
    PrefixAfterHead(KeyRoot, pa, kb);
    assert pa[0] == kb[0] && pa[0] == IntToString(year)[0] && kb[0] == NatToString(y)[0];
    assert IsDigit(kb[0]);
    assert year >= 0;
    DigitSegment(IntToString(year), Format02(month) + "/", NatToString(y), ZeroPad(m, 2) + "/" + rest);
    NatToStringInjective(year, y);
    AppendEmpty(Format02(month));
    DigitSegment(Format02(month), "", ZeroPad(m, 2), rest);
  }

  /** A listing request: the bucket and the key prefix. */
  datatype ListRequest = ListRequest(bucket: string, prefix: string)

  /** The keys of the listing's pages, in page order. */
  function Flatten(pages: seq<seq<string>>): seq<string>
    decreases |pages|
  {
    if pages == [] then [] else Flatten(pages[..|pages| - 1]) + pages[|pages| - 1]
  }

  /** Flattening keeps the pages' order: the keys of later pages follow
      those of earlier ones. */
  lemma {:induction false} FlattenAppend(a: seq<seq<string>>, b: seq<seq<string>>)
    ensures Flatten(a + b) == Flatten(a) + Flatten(b)
    decreases |b|
  {
    if b == [] {
      assert a + b == a;
    } else {
      var b' := b[..|b| - 1];
      assert (a + b)[..|a + b| - 1] == a + b';
      assert (a + b)[|a + b| - 1] == b[|b| - 1];
      FlattenAppend(a, b');
    }
  }

  /** One page flattens to its own keys. */
  lemma FlattenOfPage(page: seq<string>)
    ensures Flatten([page]) == page
  {
    assert [page][..0] == [];
  }

  lemma {:induction false} FlattenContains(pages: seq<seq<string>>, key: string)
    ensures key in Flatten(pages) <==> exists i :: 0 <= i < |pages| && key in pages[i]
    decreases |pages|
  {
    if pages != [] {
      var front := pages[..|pages| - 1];
      FlattenContains(front, key);
      if key in Flatten(pages) && key !in pages[|pages| - 1] {
        var i :| 0 <= i < |front| && key in front[i];
        assert pages[i] == front[i];
      }
      if exists i :: 0 <= i < |pages| && key in pages[i] {
        var i :| 0 <= i < |pages| && key in pages[i];
        if i < |front| {
          assert front[i] == pages[i];
        }
      }
    }
  }

  lemma FlattenStep(pages: seq<seq<string>>, i: nat)
    requires i < |pages|
    ensures Flatten(pages[..i + 1]) == Flatten(pages[..i]) + pages[i]
  {
    assert pages[..i + 1][..i] == pages[..i];
  }

  lemma AppendOne(keys: seq<string>, page: seq<string>, j: nat)
    requires j < |page|
    ensures keys + page[..j] + [page[j]] == keys + page[..j + 1]
  {
    assert page[..j + 1] == page[..j] + [page[j]];
  }

  /** `list_keys_for_month`: one request for the month's prefix, then every
      key of every page of the answer, `pages`, in order. */
  method ListKeysForMonth(bucket: string, year: int, month: int, pages: seq<seq<string>>)
    returns (request: ListRequest, keys: seq<string>)
    ensures request == ListRequest(bucket, MonthPrefix(year, month))
    ensures keys == Flatten(pages)
  {
    request := ListRequest(bucket, KeyRoot + IntToString(year) + "/" + Format02(month) + "/");
    keys := [];
    var i := 0;
    while i < |pages|
      invariant 0 <= i <= |pages|
      invariant keys == Flatten(pages[..i])
    {
      var page := pages[i];
      var j := 0;
      while j < |page|
        invariant 0 <= j <= |page|
        invariant keys == Flatten(pages[..i]) + page[..j]
      {
        AppendOne(Flatten(pages[..i]), page, j);
        keys := keys + [page[j]];
        j := j + 1;
      }
      assert page[..j] == page;
      FlattenStep(pages, i);
      i := i + 1;
    }
    assert pages[..i] == pages;
  }

  // ---------------------------------------------------------------------------
  // Fetching the month's leads

  /** Why an export stops: a `ValueError` of the exporter's own, or an object
      that could not be read or decoded. */
  datatype Failure = Invalid(reason: Invalidity) | ReadFailed(key: string)

  /** Reads the keys in order and normalises each record; the first key whose
      object is not in `objects` stops the run. */
  function NormalizeAll(keys: seq<string>, objects: map<string, Row>): (r: Result<seq<Row>, Failure>)
    ensures r.Ok? ==> |r.value| == |keys|
    ensures r.Err? ==> r.error.ReadFailed? && r.error.key in keys && r.error.key !in objects
    decreases |keys|
  {
    if keys == [] then Ok([])
    else
      var last := keys[|keys| - 1];
      match NormalizeAll(keys[..|keys| - 1], objects)
      case Err(e) => Err(e)
      case Ok(rows) => if last in objects then Ok(rows + [NormalizeLead(objects[last])]) else Err(ReadFailed(last))
  }

  /** The run succeeds exactly when every key can be read ... */
  lemma {:induction false} NormalizeAllOk(keys: seq<string>, objects: map<string, Row>)
    ensures NormalizeAll(keys, objects).Ok? <==> forall k :: 0 <= k < |keys| ==> keys[k] in objects
    decreases |keys|
  {
    if keys != [] {
      var front := keys[..|keys| - 1];
      NormalizeAllOk(front, objects);
      assert forall k :: 0 <= k < |front| ==> front[k] == keys[k];
    }
  }

  /** ... and then gives one normalised row per key, in key order. */
  lemma {:induction false} NormalizeAllRows(keys: seq<string>, objects: map<string, Row>)
    requires NormalizeAll(keys, objects).Ok?
    ensures |NormalizeAll(keys, objects).value| == |keys|
    ensures forall k :: 0 <= k < |keys| ==> keys[k] in objects && NormalizeAll(keys, objects).value[k] == NormalizeLead(objects[keys[k]])
    decreases |keys|
  {
    if keys != [] {
      var front, last := keys[..|keys| - 1], keys[|keys| - 1];
      var rows := NormalizeAll(front, objects).value;
      NormalizeAllRows(front, objects);
      assert NormalizeAll(keys, objects).value == rows + [NormalizeLead(objects[last])];
      forall k | 0 <= k < |front|
        ensures front[k] == keys[k]
      {
      }
    }
  }

  /** A run that fails on a prefix of the keys fails the same way on all of
      them: the later keys are never read. */
  lemma {:induction false} NormalizeAllStops(keys: seq<string>, objects: map<string, Row>, i: nat)
    requires i <= |keys| && NormalizeAll(keys[..i], objects).Err?
    ensures NormalizeAll(keys, objects) == NormalizeAll(keys[..i], objects)
    decreases |keys| - i
  {
    if i < |keys| {
      NormalizeAllStep(keys, objects, i);
      NormalizeAllStops(keys, objects, i + 1);
    } else {
      assert keys[..i] == keys;
    }
  }

  lemma NormalizeAllStep(keys: seq<string>, objects: map<string, Row>, i: nat)
    requires i < |keys|
    ensures NormalizeAll(keys[..i + 1], objects) == match NormalizeAll(keys[..i], objects)
              case Err(e) => Err(e)
              case Ok(rows) => if keys[i] in objects then Ok(rows + [NormalizeLead(objects[keys[i]])]) else Err(ReadFailed(keys[i]))
  {
    assert keys[..i + 1][..i] == keys[..i];
  }

  /** `fetch_monthly_leads`: the rows of every readable record, sorted. */
  function MonthlyLeads(keys: seq<string>, objects: map<string, Row>): (r: Result<seq<Row>, Failure>)
    ensures r.Ok? <==> NormalizeAll(keys, objects).Ok?
    ensures r.Ok? ==> |r.value| == |keys|
    ensures r.Err? ==> r == NormalizeAll(keys, objects)
  {
    match NormalizeAll(keys, objects)
    case Err(e) => Err(e)
    case Ok(rows) => Ok(SortBySubmittedAt(rows))
  }

  /** The fetched rows are in submission-time order, are the normalised
      records themselves, and carry exactly the lead columns. */
  lemma MonthlyLeadsOrdered(keys: seq<string>, objects: map<string, Row>)
    requires MonthlyLeads(keys, objects).Ok?
    ensures Sorted(MonthlyLeads(keys, objects).value)
    ensures multiset(MonthlyLeads(keys, objects).value) == multiset(NormalizeAll(keys, objects).value)
  {
    SortIsSorted(NormalizeAll(keys, objects).value);
    SortIsPermutation(NormalizeAll(keys, objects).value);
  }

  lemma MonthlyLeadsAreNormalized(keys: seq<string>, objects: map<string, Row>, row: Row)
    requires MonthlyLeads(keys, objects).Ok? && row in MonthlyLeads(keys, objects).value
    ensures exists k :: 0 <= k < |keys| && keys[k] in objects && row == NormalizeLead(objects[keys[k]])
    ensures row.Keys == set name | name in FieldNames
  {
    var rows := NormalizeAll(keys, objects).value;
    SortIsPermutation(rows);
    NormalizeAllRows(keys, objects);
    assert row in multiset(SortBySubmittedAt(rows));
    assert row in rows;
    var k :| 0 <= k < |rows| && rows[k] == row;
    assert keys[k] in objects;
  }

  /** `fetch_monthly_leads(bucket, year, month, region_name)`: the client,
      the listing of the month's prefix, one read per listed key, then the
      in-place sort. `pages` is the listing's answer and `objects` the
      decoded records the bucket holds. */
  method FetchMonthlyLeads(env: Env, bucket: string, year: int, month: int, regionName: string,
                           pages: seq<seq<string>>, objects: map<string, Row>)
    returns (client: ClientKwargs, request: ListRequest, rows: Result<seq<Row>, Failure>)
    ensures client == ClientKwargsOf(env, regionName)
    ensures request == ListRequest(bucket, MonthPrefix(year, month))
    ensures rows == MonthlyLeads(Flatten(pages), objects)
  {
    client := GetS3Client(env, regionName);
    var keys;
    request, keys := ListKeysForMonth(bucket, year, month, pages);
    var fetched := ReadLeads(keys, objects);
    if fetched.Err? {
      rows := Err(fetched.error);
      return;
    }
    var sorted := SortInPlace(fetched.value);
    rows := Ok(sorted);
  }

  /** `leads.sort(...)` on the list the loop built: the rows go into an array
      that SortRows sorts where it stands. */
  method SortInPlace(read: seq<Row>) returns (sorted: seq<Row>)
    ensures sorted == SortBySubmittedAt(read)
  {
    var a := new Row[|read|](k requires 0 <= k < |read| => read[k]);
    assert a[..] == read;
    SortRows(a);
    sorted := a[..];
  }

  /** The loop of `fetch_monthly_leads` that reads and normalises each
      listed record. */
  method ReadLeads(keys: seq<string>, objects: map<string, Row>) returns (r: Result<seq<Row>, Failure>)
    ensures r == NormalizeAll(keys, objects)
  {
    var fetched: seq<Row> := [];
    var i := 0;
    while i < |keys|
      invariant 0 <= i <= |keys|
      invariant NormalizeAll(keys[..i], objects) == Ok(fetched)
    {
      NormalizeAllStep(keys, objects, i);
      if keys[i] !in objects {
        NormalizeAllStops(keys, objects, i + 1);
        return Err(ReadFailed(keys[i]));
      }
      fetched := fetched + [NormalizeLead(objects[keys[i]])];
      i := i + 1;
    }
    assert keys[..i] == keys;
    r := Ok(fetched);
  }

  // ---------------------------------------------------------------------------
  // The workbook

  /** The path without its trailing slashes. */
  function StripTrailingSlashes(p: string): (r: string)
    ensures r <= p && (r == [] || r[|r| - 1] != '/')
    ensures forall k :: |r| <= k < |p| ==> p[k] == '/'
    decreases |p|
  {
    if p != [] && p[|p| - 1] == '/' then StripTrailingSlashes(p[..|p| - 1]) else p
  }

  /** `Path(p).name`: the last component. */
  function PathName(p: string): (r: string)
    ensures forall k :: 0 <= k < |r| ==> r[k] != '/'
  {
    var q := StripTrailingSlashes(p);
    q[LastIndexOf(q, '/') + 1..]
  }

  /** `Path(p).suffix`: from the last dot of the name, when that dot is
      neither its first nor its last character. */
  function PathSuffix(name: string): (r: string)
    ensures r != "" ==> && 2 <= |r| < |name| && r == name[|name| - |r|..] && r[0] == '.'
                        && forall k :: 1 <= k < |r| ==> r[k] != '.'
    ensures r == "" <==> var i := LastIndexOf(name, '.'); !(0 < i < |name| - 1)
  {
    var i := LastIndexOf(name, '.');
    if 0 < i < |name| - 1 then name[i..] else ""
  }

  function LowerChar(c: char): char {
    if 'A' <= c <= 'Z' then (c as int + 32) as char else c
  }

  function Lower(s: string): (r: string)
    ensures |r| == |s| && forall k :: 0 <= k < |s| ==> r[k] == LowerChar(s[k])
  {
    seq(|s|, k requires 0 <= k < |s| => LowerChar(s[k]))
  }

  /** `Path(p).suffix.lower() == ".xlsx"`: exactly the names of at least six
      characters that end in `.xlsx` in any letter case; a name that is only
      `.xlsx` is a hidden file without a suffix. */
  predicate HasXlsxSuffix(p: string): (b: bool)
    ensures b <==> var n := PathName(p); |n| >= 6 && Lower(n[|n| - 5..]) == ".xlsx"
  {
    NameSuffixIff(PathName(p));
    Lower(PathSuffix(PathName(p))) == ".xlsx"
  }

  lemma NameSuffixIff(n: string)
    ensures Lower(PathSuffix(n)) == ".xlsx" <==> |n| >= 6 && Lower(n[|n| - 5..]) == ".xlsx"
  {
    var i := LastIndexOf(n, '.');
    if Lower(PathSuffix(n)) == ".xlsx" {
      assert 0 < i < |n| - 1 && |n[i..]| == 5;
      assert n[i..] == n[|n| - 5..];
    }
    if |n| >= 6 && Lower(n[|n| - 5..]) == ".xlsx" {
      var t := n[|n| - 5..];
      assert LowerChar(t[0]) == '.' && t[0] == n[|n| - 5];
      forall k | |n| - 5 < k < |n|
        ensures n[k] != '.'
      {
        assert t[k - (|n| - 5)] == n[k];
        assert LowerChar(t[k - (|n| - 5)]) in "xlsx";
      }
      assert i == |n| - 5;
    }
  }

  /** The worksheet `write_leads_to_xlsx` saves: its title, its rows (the
      header first) and the path it is saved to. */
  datatype Workbook = Workbook(title: string, sheet: seq<seq<string>>, path: string)

  /** One sheet row per lead. */
  function SheetRows(rows: seq<Row>): (r: seq<seq<string>>)
    ensures |r| == |rows| && forall k :: 0 <= k < |rows| ==> r[k] == Project(rows[k])
  {
    seq(|rows|, k requires 0 <= k < |rows| => Project(rows[k]))
  }

  /** `write_leads_to_xlsx(rows, out_xlsx)`: the suffix check, then the header
      and one appended row per lead. */
  method WriteLeadsToXlsx(rows: seq<Row>, outXlsx: string) returns (r: Result<Workbook, Failure>)
    ensures r.Ok? <==> HasXlsxSuffix(outXlsx)
    ensures r.Err? ==> r.error == Invalid(XlsxSuffix)
    ensures r.Ok? ==> r.value == Workbook("Leads", [FieldNames] + SheetRows(rows), outXlsx)
  {
    if Lower(PathSuffix(PathName(outXlsx))) != ".xlsx" {
      return Err(Invalid(XlsxSuffix));
    }
    var sheet := [FieldNames];
    var i := 0;
    while i < |rows|
      invariant 0 <= i <= |rows|
      invariant sheet == [FieldNames] + SheetRows(rows[..i])
    {
      SheetRowsStep(rows, i);
      sheet := sheet + [Project(rows[i])];
      i := i + 1;
    }
    assert rows[..i] == rows;
    r := Ok(Workbook("Leads", sheet, outXlsx));
  }

  lemma SheetRowsStep(rows: seq<Row>, i: nat)
    requires i < |rows|
    ensures SheetRows(rows[..i + 1]) == SheetRows(rows[..i]) + [Project(rows[i])]
  {
  }

  /** Every sheet row, the header included, has one cell per lead column. */
  lemma SheetShape(rows: seq<Row>)
    ensures forall k :: 0 <= k < |rows| + 1 ==> |([FieldNames] + SheetRows(rows))[k]| == |FieldNames|
  {
  }

  // ---------------------------------------------------------------------------
  // The export

  /** What `export_month_to_xlsx` reports. */
  datatype Summary = Summary(count: nat, file: string, bucket: string, year: int, month: int)

  /** A resolved export: the bucket, the month and the output path. */
  datatype Plan = Plan(bucket: string, year: int, month: int, outXlsx: string)

  /** `str(dir / part)` for a directory without a trailing slash, or the root. */
  function JoinPath(dir: string, part: string): string {
    if dir != [] && dir[|dir| - 1] == '/' then dir + part else dir + "/" + part
  }

  /** `f"leads-{year}-{month:02d}.xlsx"` */
  function LeadsFileName(year: int, month: int): string {
    "leads-" + IntToString(year) + "-" + Format02(month) + ".xlsx"
  }

  /** `SCRIPT_DIR / "contact_leads" / LeadsFileName(year, month)` */
  function DefaultOutput(scriptDir: string, year: int, month: int): (r: string)
    ensures scriptDir <= r
    ensures var tail := "contact_leads/" + LeadsFileName(year, month);
            |r| >= |scriptDir| + |tail| && r[|r| - |tail|..] == tail
  {
    JoinPath(scriptDir, "contact_leads/" + LeadsFileName(year, month))
  }

  /** The argument handling of `fetch_leads_for_month_to_xlsx`: an empty
      `bucket` or `outXlsx` is Python's falsy argument, and `now` is the
      current UTC time. */
  function ResolveExport(env: Env, bucket: string, year: Option<int>, month: Option<int>, outXlsx: string,
                         scriptDir: string, now: DateTime): (r: Result<Plan, Failure>)
    ensures r.Ok? ==> && r.value.bucket == (if bucket != "" then bucket else GetEnv(env, "AWS_S3_BUCKET"))
                      && r.value.bucket != "" && 1 <= r.value.month <= 12
                      && r.value.year == (if year.Some? then year.value else now.year as int)
                      && r.value.month == (if month.Some? then month.value else now.month as int)
                      && r.value.outXlsx != ""
    ensures r.Err? ==> r.error.Invalid?
  {
    FirstSetOfOne(env, "AWS_S3_BUCKET");
    var bucketName := OrElse(bucket, FirstSet(env, ["AWS_S3_BUCKET"]));
    if bucketName == "" then Err(Invalid(BucketRequired))
    else if year.None? != month.None? then Err(Invalid(BothOrNeither))
    else
      var y := if year.Some? then year.value else now.year as int;
      var m := if month.Some? then month.value else now.month as int;
      if m < 1 || m > 12 then Err(Invalid(MonthRange))
      else Ok(Plan(bucketName, y, m, OrElse(outXlsx, DefaultOutput(scriptDir, y, m))))
  }

  /** The three argument errors, in the order they are checked. */
  lemma ResolveExportErrors(env: Env, bucket: string, year: Option<int>, month: Option<int>, outXlsx: string,
                            scriptDir: string, now: DateTime)
    ensures var r := ResolveExport(env, bucket, year, month, outXlsx, scriptDir, now);
            && (r == Err(Invalid(BucketRequired)) <==> bucket == "" && GetEnv(env, "AWS_S3_BUCKET") == "")
            && (r == Err(Invalid(BothOrNeither))
                <==> (bucket != "" || GetEnv(env, "AWS_S3_BUCKET") != "") && year.Some? != month.Some?)
            && (r == Err(Invalid(MonthRange))
                <==> && (bucket != "" || GetEnv(env, "AWS_S3_BUCKET") != "") && year.Some? == month.Some?
                     && var m := if month.Some? then month.value else now.month as int; !(1 <= m <= 12))
            && (r.Ok? || r == Err(Invalid(BucketRequired)) || r == Err(Invalid(BothOrNeither))
                || r == Err(Invalid(MonthRange)))
  {
    FirstSetOfOne(env, "AWS_S3_BUCKET");
  }

  /** An explicit year and a month in 1..12 resolve to that month. */
  lemma ResolveExplicitMonth(env: Env, bucket: string, year: int, month: int, outXlsx: string,
                             scriptDir: string, now: DateTime)
    requires bucket != "" || GetEnv(env, "AWS_S3_BUCKET") != ""
    requires 1 <= month <= 12
    ensures ResolveExport(env, bucket, Some(year), Some(month), outXlsx, scriptDir, now)
            == Ok(Plan(if bucket != "" then bucket else GetEnv(env, "AWS_S3_BUCKET"), year, month,
                       if outXlsx != "" then outXlsx else DefaultOutput(scriptDir, year, month)))
  {
    FirstSetOfOne(env, "AWS_S3_BUCKET");
    var name := OrElse(bucket, FirstSet(env, ["AWS_S3_BUCKET"]));
    var out := DefaultOutput(scriptDir, year, month);
    var chosen := OrElse(outXlsx, out);
    assert ResolveExport(env, bucket, Some(year), Some(month), outXlsx, scriptDir, now)
           == Ok(Plan(name, year, month, chosen));
    assert name == if bucket != "" then bucket else GetEnv(env, "AWS_S3_BUCKET");
    assert chosen == if outXlsx != "" then outXlsx else out;
  }

  /** A resolved export names a bucket, a valid month (the current one when
      none is given), and an output path; the default path always passes the
      suffix check. */
  lemma ResolveExportPlan(env: Env, bucket: string, year: Option<int>, month: Option<int>, outXlsx: string,
                          scriptDir: string, now: DateTime)
    requires ResolveExport(env, bucket, year, month, outXlsx, scriptDir, now).Ok?
    ensures var p := ResolveExport(env, bucket, year, month, outXlsx, scriptDir, now).value;
            && p.bucket == (if bucket != "" then bucket else GetEnv(env, "AWS_S3_BUCKET")) && p.bucket != ""
            && 1 <= p.month <= 12
            && (year.None? ==> p.year == now.year && p.month == now.month)
            && (year.Some? ==> p.year == year.value && p.month == month.value)
            && p.outXlsx == (if outXlsx != "" then outXlsx else DefaultOutput(scriptDir, p.year, p.month))
            && (outXlsx == "" ==> HasXlsxSuffix(p.outXlsx))
  {
    FirstSetOfOne(env, "AWS_S3_BUCKET");
    var p := ResolveExport(env, bucket, year, month, outXlsx, scriptDir, now).value;
    DefaultOutputIsXlsx(scriptDir, p.year, p.month);
  }

  /** A month inside a valid clock reading always passes the range check. */
  lemma CurrentMonthInRange(env: Env, bucket: string, outXlsx: string, scriptDir: string, now: DateTime)
    requires ValidDateTime(now)
    requires bucket != "" || GetEnv(env, "AWS_S3_BUCKET") != ""
    ensures ResolveExport(env, bucket, None, None, outXlsx, scriptDir, now).Ok?
  {
    FirstSetOfOne(env, "AWS_S3_BUCKET");
  }

  lemma NoSlashInNumbers(year: int, month: int)
    ensures '/' !in IntToString(year) && '/' !in Format02(month)
  {
    forall k | 0 <= k < |IntToString(year)|
      ensures IntToString(year)[k] != '/'
    {
      if year < 0 && k > 0 {
        assert IntToString(year)[k] == IntToString(year)[1..][k - 1];
      }
    }
    forall k | 0 <= k < |Format02(month)|
      ensures Format02(month)[k] != '/'
    {
      if month < 0 && k > 0 {
        assert Format02(month)[k] == Format02(month)[1..][k - 1];
      }
    }
  }

  lemma DefaultOutputIsXlsx(scriptDir: string, year: int, month: int)
    ensures HasXlsxSuffix(DefaultOutput(scriptDir, year, month))
  {
    var file := LeadsFileName(year, month);
    var dir := if scriptDir != [] && scriptDir[|scriptDir| - 1] == '/' then scriptDir else scriptDir + "/";
    var head := dir + "contact_leads/";
    DefaultOutputShape(scriptDir, file);
    NoSlashInNumbers(year, month);
    FileNameShape(IntToString(year), Format02(month));
    NameAfterDirectory(head, file);
  }

  /** The default output is `leads-{year}-{MM}.xlsx` inside `contact_leads`
      under the script's directory. */
  lemma DefaultOutputName(scriptDir: string, year: int, month: int)
    ensures var dir := if scriptDir != [] && scriptDir[|scriptDir| - 1] == '/' then scriptDir else scriptDir + "/";
            DefaultOutput(scriptDir, year, month)
            == dir + "contact_leads/" + ("leads-" + IntToString(year) + "-" + Format02(month) + ".xlsx")
    ensures PathName(DefaultOutput(scriptDir, year, month))
            == "leads-" + IntToString(year) + "-" + Format02(month) + ".xlsx"
  {
    var file := LeadsFileName(year, month);
    var dir := if scriptDir != [] && scriptDir[|scriptDir| - 1] == '/' then scriptDir else scriptDir + "/";
    var head := dir + "contact_leads/";
    DefaultOutputShape(scriptDir, file);
    assert DefaultOutput(scriptDir, year, month) == head + file;
    NoSlashInNumbers(year, month);
    FileNameShape(IntToString(year), Format02(month));
    NameAfterDirectory(head, file);
  }

  lemma DefaultOutputShape(scriptDir: string, file: string)
    ensures JoinPath(scriptDir, "contact_leads/" + file)
            == (if scriptDir != [] && scriptDir[|scriptDir| - 1] == '/' then scriptDir else scriptDir + "/")
               + "contact_leads/" + file
  {
  }

  /** The default file name: no slash, and the `.xlsx` ending. */
  lemma FileNameShape(y: string, mm: string)
    requires '/' !in y && '/' !in mm
    ensures var file := "leads-" + y + "-" + mm + ".xlsx";
            && '/' !in file && |file| >= 6 && file[|file| - 5..] == ".xlsx" && Lower(".xlsx") == ".xlsx"
  {
    var file := "leads-" + y + "-" + mm + ".xlsx";
    forall k | 0 <= k < |file|
      ensures file[k] != '/'
    {
      if 6 <= k < 6 + |y| {
        assert file[k] == y[k - 6];
      } else if 7 + |y| <= k < 7 + |y| + |mm| {
        assert file[k] == mm[k - 7 - |y|];
      }
    }
  }

  /** The name of a path whose directory part ends in a slash is the rest. */
  lemma NameAfterDirectory(head: string, file: string)
    requires head != [] && head[|head| - 1] == '/'
    requires '/' !in file && file != []
    ensures PathName(head + file) == file
  {
    var p := head + file;
    assert p[|p| - 1] == file[|file| - 1];
    assert StripTrailingSlashes(p) == p;
    LastIndexOfAfter(head, file, '/');
    assert p[|head|..] == file;
  }

  /** Joining a one-component part onto a directory keeps the directory in
      front and makes the part the path's name. */
  lemma JoinPathName(dir: string, part: string)
    requires '/' !in part && part != []
    ensures dir <= JoinPath(dir, part)
    ensures PathName(JoinPath(dir, part)) == part
  {
    var head := if dir != [] && dir[|dir| - 1] == '/' then dir else dir + "/";
    assert JoinPath(dir, part) == head + part;
    NameAfterDirectory(head, part);
  }

  /** The default file name is one path component with the `.xlsx` ending. */
  lemma LeadsFileNameShape(year: int, month: int)
    ensures '/' !in LeadsFileName(year, month)
    ensures |LeadsFileName(year, month)| >= 6
    ensures LeadsFileName(year, month)[|LeadsFileName(year, month)| - 5..] == ".xlsx"
  {
    NoSlashInNumbers(year, month);
    FileNameShape(IntToString(year), Format02(month));
  }

  /** A finished export: the summary and the workbook written. */
  datatype Export = Export(summary: Summary, workbook: Workbook)

  /** `export_month_to_xlsx` after `fetch_monthly_leads`: the rows are fetched
      first, so a bad output name is reported only after every read. */
  function ExportOf(plan: Plan, fetched: Result<seq<Row>, Failure>): (r: Result<Export, Failure>)
    ensures fetched.Err? ==> r == Err(fetched.error)
    ensures fetched.Ok? ==> (r.Ok? <==> HasXlsxSuffix(plan.outXlsx))
    ensures fetched.Ok? && !HasXlsxSuffix(plan.outXlsx) ==> r == Err(Invalid(XlsxSuffix))
    ensures r.Ok? ==> && r.value.summary == Summary(|fetched.value|, plan.outXlsx, plan.bucket, plan.year, plan.month)
                      && r.value.workbook.path == plan.outXlsx && r.value.workbook.title == "Leads"
                      && |r.value.workbook.sheet| == |fetched.value| + 1 && r.value.workbook.sheet[0] == FieldNames
                      && r.value.workbook.sheet[1..] == SheetRows(fetched.value)
  {
    match fetched
    case Err(e) => Err(e)
    case Ok(rows) =>
      if !HasXlsxSuffix(plan.outXlsx) then Err(Invalid(XlsxSuffix))
      else Ok(Export(Summary(|rows|, plan.outXlsx, plan.bucket, plan.year, plan.month),
                     Workbook("Leads", [FieldNames] + SheetRows(rows), plan.outXlsx)))
  }

  /** `export_month_to_xlsx(bucket, year, month, out_xlsx, region_name)`. */
  method ExportMonthToXlsx(env: Env, plan: Plan, regionName: string, pages: seq<seq<string>>, objects: map<string, Row>)
    returns (r: Result<Export, Failure>)
    ensures r == ExportOf(plan, MonthlyLeads(Flatten(pages), objects))
  {
    var client, request, fetched := FetchMonthlyLeads(env, plan.bucket, plan.year, plan.month, regionName, pages, objects);
    if fetched.Err? {
      return Err(fetched.error);
    }
    var written := WriteLeadsToXlsx(fetched.value, plan.outXlsx);
    if written.Err? {
      return Err(written.error);
    }
    r := Ok(Export(Summary(|fetched.value|, plan.outXlsx, plan.bucket, plan.year, plan.month), written.value));
  }

  /** `fetch_leads_for_month_to_xlsx(...)`: resolve the arguments, then export;
      the listing's answer is `pages` and the bucket's decoded objects are
      `objects`. */
  method FetchLeadsForMonthToXlsx(env: Env, bucket: string, year: Option<int>, month: Option<int>, outXlsx: string,
                                  regionName: string, scriptDir: string, now: DateTime,
                                  pages: seq<seq<string>>, objects: map<string, Row>)
    returns (r: Result<Export, Failure>)
    ensures r == match ResolveExport(env, bucket, year, month, outXlsx, scriptDir, now)
                 case Err(e) => Err(e)
                 case Ok(plan) => ExportOf(plan, MonthlyLeads(Flatten(pages), objects))
  {
    var plan := ResolveArgs(env, bucket, year, month, outXlsx, scriptDir, now);
    if plan.Err? {
      return Err(plan.error);
    }
    r := ExportMonthToXlsx(env, plan.value, regionName, pages, objects);
  }

  /** The argument checks at the head of `fetch_leads_for_month_to_xlsx`. */
  method ResolveArgs(env: Env, bucket: string, year: Option<int>, month: Option<int>, outXlsx: string,
                     scriptDir: string, now: DateTime)
    returns (r: Result<Plan, Failure>)
    ensures r == ResolveExport(env, bucket, year, month, outXlsx, scriptDir, now)
  {
    var bucketName := bucket;
    if bucketName == "" {
      bucketName := GetEnvFirst(env, ["AWS_S3_BUCKET"]);
    }
    ghost var resolved := ResolveExport(env, bucket, year, month, outXlsx, scriptDir, now);
    assert bucketName == OrElse(bucket, FirstSet(env, ["AWS_S3_BUCKET"]));
    if bucketName == "" {
      assert resolved == Err(Invalid(BucketRequired));
      return Err(Invalid(BucketRequired));
    }
    if year.None? != month.None? {
      return Err(Invalid(BothOrNeither));
    }
    var y, m;
    if year.None? {
      y, m := now.year as int, now.month as int;
    } else {
      y, m := year.value, month.value;
    }
    if m < 1 || m > 12 {
      return Err(Invalid(MonthRange));
    }
    var path := if outXlsx != "" then outXlsx else DefaultOutput(scriptDir, y, m);
    r := Ok(Plan(bucketName, y, m, path));
  }

  /** The summary counts exactly the readable records under the month's
      prefix and names the file the workbook is saved to. */
  lemma ExportCountsRecords(plan: Plan, keys: seq<string>, objects: map<string, Row>)
    requires ExportOf(plan, MonthlyLeads(keys, objects)).Ok?
    ensures var e := ExportOf(plan, MonthlyLeads(keys, objects)).value;
            && e.summary.count == |keys| && e.summary.file == e.workbook.path
            && |e.workbook.sheet| == |keys| + 1
  {
    NormalizeAllRows(keys, objects);
    SortIsPermutation(NormalizeAll(keys, objects).value);
    var rows := NormalizeAll(keys, objects).value;
    assert |SortBySubmittedAt(rows)| == |multiset(SortBySubmittedAt(rows))| == |multiset(rows)| == |rows|;
  }
}
