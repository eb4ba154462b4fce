// The report database: records keyed by rules, rule name, asset path, ping
// object and log, holding the status, priority and note a user gave a report
// (AssetClearance/Editor/AssetClearanceDatabase.cs).
module AssetClearanceDatabase {
  import opened Wrappers
  import opened AssetClearanceReports
  import AssetClearanceRules

  datatype Record = Record(
    rules: nat,
    ruleName: string,
    assetPath: string,
    pingObject: Option<PingObject>,
    log: Option<string>,
    logType: AssetClearanceRules.LogType,
    status: Status,
    priority: Priority,
    note: string,
    group: int)

  /**
   * Two nullable ping objects match when they are equal, or one is null and
   * the other has only empty key fields.
   */
  predicate PingMatch(a: Option<PingObject>, b: Option<PingObject>)
  {
    a == b || (a.Some? && b.None? && IsBlank(a.value)) || (a.None? && b.Some? && IsBlank(b.value))
  }

  /** Record.KeyEquals: the record stores the same key as the report. */
  function KeyEquals(rec: Record, report: Report?): (r: bool)
    ensures r <==> report != null && report.rules == rec.rules && report.ruleName == rec.ruleName &&
                   report.assetPath == rec.assetPath && report.log == rec.log &&
                   PingMatch(report.pingObject, rec.pingObject)
  {
    if report == null then false
    else
      report.rules == rec.rules &&
      report.ruleName == rec.ruleName &&
      report.assetPath == rec.assetPath &&
      (report.pingObject == rec.pingObject ||
       (report.pingObject.Some? && ContentEquals(report.pingObject.value, rec.pingObject)) ||
       (rec.pingObject.Some? && ContentEquals(rec.pingObject.value, report.pingObject))) &&
      report.log == rec.log
  }

  /** Index of the first record matching the report, or |records| when none does. */
  function FirstMatch(records: seq<Record>, report: Report?): (k: nat)
    ensures k <= |records|
    ensures forall j :: 0 <= j < k ==> !KeyEquals(records[j], report)
    ensures k < |records| ==> KeyEquals(records[k], report)
  {
    if records == [] then 0
    else if KeyEquals(records[0], report) then 0
    else 1 + FirstMatch(records[1..], report)
  }

  /** The records that do not match the report, in their original order. */
  function Unmatched(records: seq<Record>, report: Report?): (r: seq<Record>)
    ensures |r| <= |records|
    ensures forall j :: 0 <= j < |r| ==> !KeyEquals(r[j], report)
  {
    if records == [] then []
    else
      var init := Unmatched(records[..|records| - 1], report);
      var last := records[|records| - 1];
      if KeyEquals(last, report) then init else init + [last]
  }

  /** The record Insert appends for a report with no matching record. */
  function NewRecord(report: Report): (rec: Record)
    reads report
    ensures KeyEquals(rec, report)
    ensures rec.status == report.status && rec.priority == report.priority && rec.note == report.note
  {
    Record(report.rules, report.ruleName, report.assetPath,
           if report.pingObject.Some? then Some(Clone(report.pingObject.value)) else Option.None,
           report.log, report.logType, report.status, report.priority, report.note, report.group)
  }

  function WithUserFields(rec: Record, status: Status, priority: Priority, note: string): Record
  {
    rec.(status := status, priority := priority, note := note)
  }

  /** The records after Insert(report), given the report's status, priority and note. */
  function Inserted(records: seq<Record>, report: Report, status: Status, priority: Priority, note: string): seq<Record>
    requires status == report.status && priority == report.priority && note == report.note
    reads report
  {
    var k := FirstMatch(records, report);
    if k < |records| then records[k := WithUserFields(records[k], status, priority, note)]
    else records + [NewRecord(report)]
  }

  /**
   * Round trip: after Insert(report), the first match is a record holding
   * the report's status, priority and note, so Sync(report) finds it and
   * leaves those fields unchanged.
   */
  lemma {:induction false} InsertThenSync(records: seq<Record>, report: Report, status: Status, priority: Priority, note: string)
    requires status == report.status && priority == report.priority && note == report.note
    ensures var after := Inserted(records, report, status, priority, note);
            var k := FirstMatch(after, report);
            k < |after| && after[k].status == status && after[k].priority == priority && after[k].note == note
  {
    var after := Inserted(records, report, status, priority, note);
    var k := FirstMatch(records, report);
    if k < |records| {
      FirstMatchAgrees(records, after, report, k);
    } else {
      FirstMatchAgrees(records + [NewRecord(report)], after, report, |records|);
    }
  }

  /** Two lists with the same non-matching prefix and a match at k have their first match at k. */
  lemma {:induction false} FirstMatchAgrees(a: seq<Record>, b: seq<Record>, report: Report?, k: nat)
    requires k < |b| && k <= |a| && a[..k] == b[..k] && KeyEquals(b[k], report)
    requires forall j :: 0 <= j < k ==> !KeyEquals(a[j], report)
    ensures FirstMatch(b, report) == k
  {
    if k > 0 {
      assert b[0] == a[0];
      assert a[1..][..k - 1] == a[..k][1..] && b[1..][..k - 1] == b[..k][1..];
      FirstMatchAgrees(a[1..], b[1..], report, k - 1);
    }
  }

  lemma UnmatchedSnoc(s: seq<Record>, x: Record, report: Report?)
    ensures Unmatched(s + [x], report) ==
            if KeyEquals(x, report) then Unmatched(s, report) else Unmatched(s, report) + [x]
  {
    assert (s + [x])[..|s|] == s;
  }

  /**
   * One step of Remove's scan over `original`: `rs` holds the kept prefix
   * followed by the unscanned rest, and `i` indexes original[j] in it.
   */
  lemma RemoveStep(original: seq<Record>, j: nat, report: Report?, rs: seq<Record>, i: nat)
    requires j < |original|
    requires rs == Unmatched(original[..j], report) + original[j..]
    requires i == |Unmatched(original[..j], report)|
    ensures i < |rs| && rs[i] == original[j]
    ensures KeyEquals(rs[i], report) ==>
              rs[..i] + rs[i + 1..] == Unmatched(original[..j + 1], report) + original[j + 1..] &&
              i == |Unmatched(original[..j + 1], report)|
    ensures !KeyEquals(rs[i], report) ==>
              rs == Unmatched(original[..j + 1], report) + original[j + 1..] &&
              i + 1 == |Unmatched(original[..j + 1], report)|
  {
    assert original[..j + 1] == original[..j] + [original[j]];
    UnmatchedSnoc(original[..j], original[j], report);
    var kept := Unmatched(original[..j], report);
    assert original[j..] == [original[j]] + original[j + 1..];
    assert rs == kept + [original[j]] + original[j + 1..];
    assert rs[..i] == kept && rs[i + 1..] == original[j + 1..];
  }

  /** After Remove(report) no record matches, so Sync(report) finds nothing. */
  lemma RemoveThenSyncFails(records: seq<Record>, report: Report?)
    ensures FirstMatch(Unmatched(records, report), report) == |Unmatched(records, report)|
  {
  }

  /** The report's first matching record exists and holds the given status. */
  predicate Recorded(records: seq<Record>, report: Report?, status: Status)
  {
    var k := FirstMatch(records, report);
    k < |records| && records[k].status == status
  }

  /** Lists that agree on which records match a report have the same first match. */
  lemma {:induction false} FirstMatchSameKeys(a: seq<Record>, b: seq<Record>, report: Report?)
    requires |a| == |b| && forall j :: 0 <= j < |a| ==> KeyEquals(a[j], report) == KeyEquals(b[j], report)
    ensures FirstMatch(a, report) == FirstMatch(b, report)
  {
    if a != [] && !KeyEquals(a[0], report) {
      FirstMatchSameKeys(a[1..], b[1..], report);
    }
  }

  /**
   * Inserting any report with status `status` keeps every other report's
   * first matching record at the same place, holding `status` still.
   */
  lemma InsertKeepsRecorded(records: seq<Record>, report: Report, status: Status, priority: Priority, note: string, other: Report?)
    requires status == report.status && priority == report.priority && note == report.note
    requires Recorded(records, other, status)
    ensures Recorded(Inserted(records, report, status, priority, note), other, status)
  {
    var after := Inserted(records, report, status, priority, note);
    var k := FirstMatch(records, other);
    var q := FirstMatch(records, report);
    if q < |records| {
      FirstMatchSameKeys(records, after, other);
    } else {
      FirstMatchAgrees(records, after, other, k);
    }
  }

  /** Insert records the report's own status under its first match. */
  lemma InsertRecords(records: seq<Record>, report: Report, status: Status, priority: Priority, note: string)
    requires status == report.status && priority == report.priority && note == report.note
    ensures Recorded(Inserted(records, report, status, priority, note), report, status)
  {
    InsertThenSync(records, report, status, priority, note);
  }

  lemma {:induction false} UnmatchedIsSublist(records: seq<Record>, report: Report?)
    ensures forall r :: r in Unmatched(records, report) ==> r in records
  {
    if records != [] {
      var init := records[..|records| - 1];
      UnmatchedIsSublist(init, report);
      assert forall r :: r in init ==> r in records;
    }
  }

  /** A report with no matching record still has none once records are only removed. */
  lemma {:induction false} NoMatchInSublist(records: seq<Record>, sub: seq<Record>, report: Report?)
    requires forall r :: r in sub ==> r in records
    requires FirstMatch(records, report) == |records|
    ensures FirstMatch(sub, report) == |sub|
  {
    forall j | 0 <= j < |sub|
      ensures !KeyEquals(sub[j], report)
    {
      assert sub[j] in records;
    }
  }

  class Database {
    var records: seq<Record>

    constructor ()
      ensures records == []
    {
      records := [];
    }

    /**
     * Sync: copies status, priority and note of the first matching record
     * into the report and returns true; otherwise resets the report to
     * Confirm, High and an empty note and returns false.
     */
    method Sync(report: Report) returns (found: bool)
      modifies report`status, report`priority, report`note
      ensures found <==> FirstMatch(records, report) < |records|
      ensures found ==> var rec := records[FirstMatch(records, report)];
                        report.status == rec.status && report.priority == rec.priority && report.note == rec.note
      ensures !found ==> report.status == Confirm && report.priority == High && report.note == ""
    {
      var i := 0;
      while i < |records|
        invariant 0 <= i <= |records|
        invariant forall j :: 0 <= j < i ==> !KeyEquals(records[j], report)
      {
        if KeyEquals(records[i], report) {
          FirstMatchAgrees(records, records, report, i);
          report.status := records[i].status;
          report.priority := records[i].priority;
          report.note := records[i].note;
          return true;
        }
        i := i + 1;
      }
      report.status := Confirm;
      report.priority := High;
      report.note := "";
      return false;
    }

    /**
     * Insert: updates status, priority and note of the first matching
     * record; otherwise appends one new record with a cloned ping object.
     */
    method Insert(report: Report)
      modifies this`records
      ensures records == Inserted(old(records), report, report.status, report.priority, report.note)
      ensures |records| == if FirstMatch(old(records), report) < |old(records)| then |old(records)| else |old(records)| + 1
    {
      var i := 0;
      while i < |records|
        invariant 0 <= i <= |records|
        invariant forall j :: 0 <= j < i ==> !KeyEquals(records[j], report)
      {
        if KeyEquals(records[i], report) {
          FirstMatchAgrees(records, records, report, i);
          records := records[i := WithUserFields(records[i], report.status, report.priority, report.note)];
          return;
        }
        i := i + 1;
      }
      records := records + [NewRecord(report)];
    }

    /** Remove: deletes every matching record, keeping the others in order. */
    method Remove(report: Report?)
      modifies this`records
      ensures records == Unmatched(old(records), report)
    {
      ghost var original := records;
      ghost var j := 0;
      var i := 0;
      while i < |records|
        invariant 0 <= j <= |original|
        invariant records == Unmatched(original[..j], report) + original[j..]
        invariant i == |Unmatched(original[..j], report)|
        decreases |original| - j
      {
        RemoveStep(original, j, report, records, i);
        if KeyEquals(records[i], report) {
          records := records[..i] + records[i + 1..];
          i := i - 1;
        }
        i := i + 1;
        j := j + 1;
      }
      assert original[..j] == original;
    }
  }
}
