/**
 The interview store: one JSON document mapping interview ids to interview
 records. A Python dict keeps its keys in insertion order, and that order is
 what listing the interviews returns, so the store keeps the map together with
 its key order.
 */
module Storage {
  import opened Wrappers
  import opened Interview

  datatype Store = Store(entries: map<string, InterviewRecord>, order: seq<string>)

  /** The key order lists every key of the map exactly once. */
  predicate Valid(s: Store) {
    && (forall i, j :: 0 <= i < j < |s.order| ==> s.order[i] != s.order[j])
    && (forall i :: 0 <= i < |s.order| ==> s.order[i] in s.entries)
    && (forall k :: k in s.entries ==> k in s.order)
  }

  /** Every record is filed under its own id, as saving always does. */
  predicate WellKeyed(s: Store) {
    forall k :: k in s.entries ==> s.entries[k].id == k
  }

  /** The store that a missing or unreadable document reads as. */
  const EmptyStore := Store(map[], [])

  /** A fresh store satisfies both invariants every operation assumes. */
  lemma EmptyStoreValid()
    ensures Valid(EmptyStore) && WellKeyed(EmptyStore)
  {
  }

  /** Reading one interview: absent ids read as None. */
  function Get(s: Store, id: string): (r: Option<InterviewRecord>)
    ensures r.Some? <==> id in s.entries
    ensures r.Some? ==> r.value == s.entries[id]
  {
    if id in s.entries then Some(s.entries[id]) else None
  }

  /** Saving one interview under its id: a new id goes last, an existing one keeps its place. */
  function Put(s: Store, interview: InterviewRecord): (r: Store)
    ensures Valid(s) ==> Valid(r)
    ensures WellKeyed(s) ==> WellKeyed(r)
    ensures r.entries.Keys == s.entries.Keys + {interview.id}
    ensures Get(r, interview.id) == Some(interview)
    ensures forall id :: id != interview.id ==> Get(r, id) == Get(s, id)
  {
    Store(s.entries[interview.id := interview],
          if interview.id in s.entries then s.order else s.order + [interview.id])
  }

  /** All stored interviews in the order their ids were first saved. */
  function ListInterviews(s: Store): (r: seq<InterviewRecord>)
    requires Valid(s)
    ensures |r| == |s.order|
    ensures forall i :: 0 <= i < |r| ==> r[i] == s.entries[s.order[i]]
  {
    seq(|s.order|, i requires 0 <= i < |s.order| => s.entries[s.order[i]])
  }

  /** Saving the same document twice is the same as saving it once. */
  lemma PutIdempotent(s: Store, interview: InterviewRecord)
    ensures Put(Put(s, interview), interview) == Put(s, interview)
  {
  }

  /**
   Listing after a save: an existing id is replaced in place, a new id is
   appended; every other interview keeps its position.
   */
  lemma ListAfterPut(s: Store, interview: InterviewRecord)
    requires Valid(s)
    ensures interview.id in s.entries ==>
      exists p :: 0 <= p < |s.order| && s.order[p] == interview.id
                  && ListInterviews(Put(s, interview)) == ListInterviews(s)[p := interview]
    ensures interview.id !in s.entries ==>
      ListInterviews(Put(s, interview)) == ListInterviews(s) + [interview]
  {
    var before := ListInterviews(s);
    var after := ListInterviews(Put(s, interview));
    if interview.id in s.entries {
      var p :| 0 <= p < |s.order| && s.order[p] == interview.id;
      assert after == before[p := interview];
    } else {
      assert after == before + [interview];
    }
  }
}
