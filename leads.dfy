/** Lead rows of api/aws_bucket_reader.py: the fixed column list, the
    projection of a stored record onto it, and the spreadsheet row of a lead. */
module Leads {
  import opened Submission

  /** A decoded record or a lead row: field name to text. */
  type Row = map<string, string>

  /** The exported columns, in sheet order. */
  const FieldNames: seq<string> := [
    "submissionId", "submittedAt", "firstName", "lastName", "email", "phone",
    "careerStage", "sport", "referral", "message", "source"]

  /** `row.get(name, "")` */
  function Get(row: Row, name: string): string {
    if name in row then row[name] else ""
  }

  /** `normalize_lead`: exactly the listed fields, each the record's value or "". */
  function NormalizeLead(record: Row): (r: Row)
    ensures forall name :: name in r <==> name in FieldNames
    ensures forall name :: name in FieldNames ==> r[name] == Get(record, name)
  {
    map name | name in FieldNames :: Get(record, name)
  }

  /** The user agent a handler stores is not a lead column, so it is dropped. */
  lemma NormalizeLeadDropsUserAgent(record: Row)
    ensures "userAgent" !in NormalizeLead(record)
  {
    assert "userAgent" !in FieldNames;
  }

  /** Normalising twice is normalising once. */
  lemma NormalizeLeadIdempotent(record: Row)
    ensures NormalizeLead(NormalizeLead(record)) == NormalizeLead(record)
  {
    var once := NormalizeLead(record);
    var twice := NormalizeLead(once);
    assert twice.Keys == once.Keys;
    forall name | name in twice
      ensures twice[name] == once[name]
    {
    }
  }

  /** `[row.get(field, "") for field in FIELDNAMES]`: one spreadsheet row. */
  function Project(row: Row): (r: seq<string>)
    ensures |r| == |FieldNames|
    ensures forall i :: 0 <= i < |FieldNames| ==> r[i] == Get(row, FieldNames[i])
  {
    seq(|FieldNames|, i requires 0 <= i < |FieldNames| => Get(row, FieldNames[i]))
  }

  /** Normalising a record does not change its spreadsheet row. */
  lemma ProjectNormalized(record: Row)
    ensures Project(NormalizeLead(record)) == Project(record)
  {
    var a, b := Project(NormalizeLead(record)), Project(record);
    forall i | 0 <= i < |FieldNames|
      ensures a[i] == b[i]
    {
      assert FieldNames[i] in FieldNames;
    }
  }

  /** The object a handler writes, as the exporter decodes it. */
  function Stored(r: SubmissionRecord): Row {
    map[
      "submissionId" := r.submissionId, "firstName" := r.firstName, "lastName" := r.lastName,
      "email" := r.email, "phone" := r.phone, "careerStage" := r.careerStage, "sport" := r.sport,
      "message" := r.message, "referral" := r.referral, "submittedAt" := r.submittedAt,
      "source" := r.source, "userAgent" := r.userAgent]
  }

  /** A stored submission exports as its own fields in column order, without
      the user agent. */
  lemma StoredSubmissionRow(r: SubmissionRecord)
    ensures Project(Stored(r)) == [
              r.submissionId, r.submittedAt, r.firstName, r.lastName, r.email, r.phone,
              r.careerStage, r.sport, r.referral, r.message, r.source]
  {
  }
}
