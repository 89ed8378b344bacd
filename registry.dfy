/** The identity registry: an insertion-ordered list of records, one per
    runner-supplied `id`, into which successive partial snapshots of the same
    suite or spec are merged. Suites and specs use the same operation on two
    separate lists. */
module Registry {
  import opened Values

  /** `record.id`; a record without one has the id `undefined`. */
  function IdOf(r: Record): Value {
    Get(r, "id")
  }

  /** `a.id === b.id`. */
  predicate SameId(a: Record, b: Record) {
    IdOf(a) == IdOf(b)
  }

  /** No two records of the list share an id. */
  predicate DistinctIds(records: seq<Record>) {
    forall i, j :: 0 <= i < j < |records| ==> !SameId(records[i], records[j])
  }

  /** The position of the first record with the candidate's id, or the
      length of the list when there is none. */
  function FirstMatch(records: seq<Record>, candidate: Record): (k: nat)
    ensures k <= |records|
    ensures k < |records| ==> SameId(records[k], candidate)
    ensures forall j :: 0 <= j < k ==> !SameId(records[j], candidate)
  {
    if records == [] then 0
    else if SameId(records[0], candidate) then 0
    else 1 + FirstMatch(records[1..], candidate)
  }

  /** The list after an upsert: the first record with the candidate's id
      takes on the candidate's fields, or a copy of the candidate is
      appended. The list grows by at most one record, and the position
      `FirstMatch` gives holds a record with the candidate's id. */
  function Upserted(records: seq<Record>, candidate: Record): (u: seq<Record>)
    ensures |records| <= |u| <= |records| + 1
    ensures FirstMatch(records, candidate) < |u| && SameId(u[FirstMatch(records, candidate)], candidate)
  {
    var k := FirstMatch(records, candidate);
    if k < |records| then records[k := Assign(records[k], candidate)]
    else records + [candidate]
  }

  /** `getSuiteClone` / `getSpecClone`: scan the list for the candidate's id;
      merge the candidate into the record found there, or append a copy.
      Returns the new list and the position of the record that now stands
      for the candidate. */
  method Upsert(records: seq<Record>, candidate: Record) returns (updated: seq<Record>, at: nat)
    ensures at == FirstMatch(records, candidate)
    ensures updated == Upserted(records, candidate)
    ensures at < |updated| && SameId(updated[at], candidate)
  {
    var i := 0;
    while i < |records|
      invariant 0 <= i <= |records|
      invariant forall j :: 0 <= j < i ==> !SameId(records[j], candidate)
    {
      if SameId(records[i], candidate) {
        updated, at := records[i := Assign(records[i], candidate)], i;
        return;
      }
      i := i + 1;
    }
    updated, at := records + [candidate], |records|;
  }

  /** The registry never holds two records with the same id: an upsert keeps
      the ids distinct, and afterwards exactly one record carries the
      candidate's id, the one at the returned position. */
  lemma UpsertKeepsIdsDistinct(records: seq<Record>, candidate: Record)
    requires DistinctIds(records)
    ensures var updated := Upserted(records, candidate);
      DistinctIds(updated) &&
      forall i :: 0 <= i < |updated| ==>
        (SameId(updated[i], candidate) <==> i == FirstMatch(records, candidate))
  {
    var k := FirstMatch(records, candidate);
    var updated := Upserted(records, candidate);
    if k < |records| {
      assert IdOf(updated[k]) == IdOf(records[k]);
      forall i | 0 <= i < |updated|
        ensures IdOf(updated[i]) == IdOf(records[i])
      {
      }
    } else {
      forall i | 0 <= i < |records|
        ensures updated[i] == records[i] && !SameId(records[i], candidate)
      {
      }
    }
  }

  /** An upsert on an id already present keeps the length and the order of
      the list; the matched record takes every field of the candidate and
      keeps every field the candidate lacks; every other record is
      unchanged. */
  lemma UpsertExisting(records: seq<Record>, candidate: Record, k: nat)
    requires k < |records| && SameId(records[k], candidate)
    requires DistinctIds(records)
    ensures var updated := Upserted(records, candidate);
      |updated| == |records| &&
      (forall f :: f in candidate ==> f in updated[k] && updated[k][f] == candidate[f]) &&
      (forall f :: f in records[k] && f !in candidate ==> f in updated[k] && updated[k][f] == records[k][f]) &&
      updated[k].Keys == records[k].Keys + candidate.Keys &&
      (forall i :: 0 <= i < |records| && i != k ==> updated[i] == records[i])
  {
  }

  /** An upsert on a new id appends a copy of the candidate at the end and
      leaves every earlier record in its place. */
  lemma UpsertNew(records: seq<Record>, candidate: Record)
    requires forall i :: 0 <= i < |records| ==> !SameId(records[i], candidate)
    ensures var updated := Upserted(records, candidate);
      |updated| == |records| + 1 &&
      updated[|records|] == candidate &&
      updated[..|records|] == records &&
      FirstMatch(records, candidate) == |records|
  {
  }

  /** Two upserts with the same id, as two "started" events for one suite:
      the list holds one record for that id, in the place the first upsert
      gave it, carrying the second candidate's fields over the first's. */
  lemma {:induction false} UpsertTwice(records: seq<Record>, first: Record, second: Record)
    requires DistinctIds(records) && SameId(first, second)
    ensures var once := Upserted(records, first);
      var twice := Upserted(once, second);
      var k := FirstMatch(records, first);
      |twice| == |once| && FirstMatch(once, second) == k &&
      (forall i :: 0 <= i < |twice| ==> (SameId(twice[i], second) <==> i == k)) &&
      (forall f :: f in second ==> f in twice[k] && twice[k][f] == second[f]) &&
      (forall f :: f in first && f !in second ==> f in twice[k] && twice[k][f] == first[f])
  {
    var once := Upserted(records, first);
    var k := FirstMatch(records, first);
    UpsertKeepsIdsDistinct(records, first);
    assert SameId(once[k], second);
    UpsertKeepsIdsDistinct(once, second);
    UpsertExisting(once, second, k);
  }

  /** Replacing a record by one with the same id keeps the ids of the list
      distinct. */
  lemma ReplaceKeepsIdsDistinct(records: seq<Record>, k: nat, r: Record)
    requires DistinctIds(records) && k < |records| && SameId(r, records[k])
    ensures DistinctIds(records[k := r])
  {
    var updated := records[k := r];
    assert forall i :: 0 <= i < |records| ==> IdOf(updated[i]) == IdOf(records[i]);
  }
}
