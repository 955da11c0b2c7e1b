/** Saved drawer records and their deletion by id. Only the filtering is
    modelled; reading and writing the stored list is not. */
module Records {

  /** A saved drawer: its id is the creation timestamp in milliseconds. */
  datatype DrawerRecord = DrawerRecord(
    id: int,
    drawerNumber: string,
    totalCents: int,
    salesCents: int,
    breakdown: seq<nat>)

  /** The stored list after deleting by id: every record whose id differs
      from `recordId` is kept, in its original order. */
  function DeleteRecord(records: seq<DrawerRecord>, recordId: int): (kept: seq<DrawerRecord>)
    ensures |kept| <= |records|
    ensures forall i :: 0 <= i < |kept| ==> kept[i].id != recordId
    ensures forall r :: r in kept ==> r in records
    ensures forall r :: r in records && r.id != recordId ==> r in kept
  {
    if records == [] then []
    else
      var head := if records[0].id != recordId then [records[0]] else [];
      head + DeleteRecord(records[1..], recordId)
  }

  /** Number of records carrying the id `recordId`. */
  function CountWithId(records: seq<DrawerRecord>, recordId: int): nat
  {
    if records == [] then 0
    else (if records[0].id == recordId then 1 else 0) + CountWithId(records[1..], recordId)
  }

  /** Deleting distributes over concatenation, so the kept records stay in
      their original relative order. */
  lemma {:induction false} DeleteDistributes(a: seq<DrawerRecord>, b: seq<DrawerRecord>, recordId: int)
    ensures DeleteRecord(a + b, recordId) == DeleteRecord(a, recordId) + DeleteRecord(b, recordId)
  {
    if a == [] {
      assert a + b == b;
    } else {
      var head := if a[0].id != recordId then [a[0]] else [];
      assert (a + b)[0] == a[0] && (a + b)[1..] == a[1..] + b;
      DeleteDistributes(a[1..], b, recordId);
      calc {
        DeleteRecord(a + b, recordId);
        head + DeleteRecord(a[1..] + b, recordId);
        head + (DeleteRecord(a[1..], recordId) + DeleteRecord(b, recordId));
        (head + DeleteRecord(a[1..], recordId)) + DeleteRecord(b, recordId);
        DeleteRecord(a, recordId) + DeleteRecord(b, recordId);
      }
    }
  }

  /** Exactly the matching records disappear. */
  lemma {:induction false} DeleteRemovesMatches(records: seq<DrawerRecord>, recordId: int)
    ensures |DeleteRecord(records, recordId)| + CountWithId(records, recordId) == |records|
  {
    if records != [] {
      DeleteRemovesMatches(records[1..], recordId);
    }
  }

  /** No record of the list carries the id `recordId`. */
  predicate IdAbsent(records: seq<DrawerRecord>, recordId: int)
  {
    forall i :: 0 <= i < |records| ==> records[i].id != recordId
  }

  /** A list with no record carrying the id is left as it is. */
  lemma {:induction false} DeleteAbsentKeepsAll(records: seq<DrawerRecord>, recordId: int)
    requires IdAbsent(records, recordId)
    ensures DeleteRecord(records, recordId) == records
  {
    if records != [] {
      DeleteAbsentKeepsAll(records[1..], recordId);
    }
  }

  /** Deleting twice by the same id changes nothing more. */
  lemma DeleteIdempotent(records: seq<DrawerRecord>, recordId: int)
    ensures DeleteRecord(DeleteRecord(records, recordId), recordId) == DeleteRecord(records, recordId)
  {
    var kept := DeleteRecord(records, recordId);
    DeleteAbsentKeepsAll(kept, recordId);
  }

  /** Assumption for the lemmas below: no two records share an id. Ids are
      creation timestamps in milliseconds, which can repeat, and saving never
      checks for a duplicate, so this is a hypothesis, not a guarantee. */
  predicate UniqueIds(records: seq<DrawerRecord>)
  {
    forall i, j :: 0 <= i < j < |records| ==> records[i].id != records[j].id
  }

  /** Deleting the id of the one record that carries it removes that record
      and nothing else. */
  lemma DeleteSoleMatch(before: seq<DrawerRecord>, r: DrawerRecord, after: seq<DrawerRecord>)
    requires IdAbsent(before, r.id) && IdAbsent(after, r.id)
    ensures DeleteRecord(before + [r] + after, r.id) == before + after
  {
    var id := r.id;
    calc {
      DeleteRecord(before + [r] + after, id);
      { DeleteDistributes(before + [r], after, id); }
      DeleteRecord(before + [r], id) + DeleteRecord(after, id);
      { DeleteDistributes(before, [r], id); }
      DeleteRecord(before, id) + DeleteRecord([r], id) + DeleteRecord(after, id);
      { assert [r][1..] == []; }
      DeleteRecord(before, id) + [] + DeleteRecord(after, id);
      { DeleteAbsentKeepsAll(before, id); DeleteAbsentKeepsAll(after, id); }
      before + [] + after;
    }
    assert before + [] + after == before + after;
  }

  /** With unique ids, no record before or after position i shares its id. */
  lemma UniqueIdsAround(records: seq<DrawerRecord>, i: nat)
    requires UniqueIds(records) && i < |records|
    ensures IdAbsent(records[..i], records[i].id) && IdAbsent(records[i + 1..], records[i].id)
  {
    var before, after := records[..i], records[i + 1..];
    forall j | 0 <= j < |before| ensures before[j].id != records[i].id {
      assert before[j] == records[j];
    }
    forall j | 0 <= j < |after| ensures after[j].id != records[i].id {
      assert after[j] == records[i + 1 + j];
    }
  }

  /** With unique ids, deleting the id of the record at position i removes
      exactly that record. */
  lemma DeleteUniqueRemovesOne(records: seq<DrawerRecord>, i: nat)
    requires UniqueIds(records) && i < |records|
    ensures DeleteRecord(records, records[i].id) == records[..i] + records[i + 1..]
  {
    UniqueIdsAround(records, i);
    assert records == records[..i] + [records[i]] + records[i + 1..];
    DeleteSoleMatch(records[..i], records[i], records[i + 1..]);
  }
}
