/**
 * The activity plan: the done/pending toggle, the create-or-edit form
 * submission, the grouping of the shown activities into per-date buckets,
 * and the participant picker.
 */
module Activities {
  import opened Collections
  import opened Types
  import Database

  /** The status the check button switches to: done becomes pending, anything else becomes done. */
  function ToggledStatus(st: ActivityStatus): (r: ActivityStatus)
    ensures r != st
    ensures r == Done <==> st != Done
    ensures r != Rescheduled
  {
    if st == Done then Pending else Done
  }

  /** Two clicks give back a done or pending status, but a rescheduled one ends up pending. */
  lemma ToggledTwice(st: ActivityStatus)
    ensures ToggledStatus(ToggledStatus(st)) == if st == Rescheduled then Pending else st
  {
  }

  /** The update `toggleStatus` sends: only the status. */
  function StatusPatch(st: ActivityStatus): Database.ActivityPatch {
    Database.ActivityPatch(None, None, None, None, None, None, Some(st), None)
  }

  /**
   * `toggleStatus`: looks the id up in the shown list; when it is not there
   * nothing is written, otherwise every stored activity with that id gets the
   * status toggled from the shown record's status.
   */
  function ToggleStatus(s: Database.Store, shown: seq<Activity>, id: Id): (r: Database.Store)
    ensures (forall a :: a in shown ==> a.id != id) ==> r == s
    ensures Find(shown, (a: Activity) => a.id == id).Some? ==>
              var st := ToggledStatus(Find(shown, (a: Activity) => a.id == id).value.status);
              && |Database.AllActivities(r)| == |Database.AllActivities(s)|
              && forall i :: 0 <= i < |Database.AllActivities(s)| ==>
                   Database.AllActivities(r)[i] ==
                     if Database.AllActivities(s)[i].id == id then Database.AllActivities(s)[i].(status := st)
                     else Database.AllActivities(s)[i]
    ensures r.(activities := s.activities) == s
  {
    match Find(shown, (a: Activity) => a.id == id)
    case None =>
      assert forall a :: a in shown ==> a.id != id;
      s
    case Some(act) => Database.UpdateActivity(s, id, StatusPatch(ToggledStatus(act.status)))
  }

  /** The activity form's fields. */
  datatype ActivityForm = ActivityForm(title: string, date: string, time: string, description: string, participants: seq<Id>)

  /** The update an edit sends: every form field, as entered. */
  function FormPatch(f: ActivityForm): Database.ActivityPatch {
    Database.ActivityPatch(None, None, Some(f.title), Some(f.description), Some(f.date), Some(f.time), None,
                           Some(f.participants))
  }

  /**
   * `handleSubmit`: ignored unless title and date are non-empty; an edit
   * merges the form into the edited activity, otherwise a pending activity is
   * appended with the new id.
   */
  function HandleSubmit(s: Database.Store, tripId: Id, f: ActivityForm, editing: Option<Activity>, newId: Id)
    : (r: Database.Store)
    ensures f.title == "" || f.date == "" ==> r == s
    ensures f.title != "" && f.date != "" && editing.Some? ==> r == Database.UpdateActivity(s, editing.value.id, FormPatch(f))
    ensures f.title != "" && f.date != "" && editing.None? ==>
              Database.AllActivities(r) ==
                Database.AllActivities(s) +
                [Activity(newId, tripId, f.title, Some(f.description), f.date, Some(f.time), Pending, Some(f.participants))]
    ensures r.(activities := s.activities) == s
  {
    if f.title == "" || f.date == "" then s
    else
      match editing
      case Some(act) => Database.UpdateActivity(s, act.id, FormPatch(f))
      case None =>
        Database.AddActivity(s, Database.ActivityDraft(tripId, f.title, Some(f.description), f.date, Some(f.time),
                                                       Pending, Some(f.participants)), newId).store
  }

  /** A submitted new activity shows up, pending, at the end of its trip's activity list. */
  lemma SubmittedActivityIsShown(s: Database.Store, tripId: Id, f: ActivityForm, newId: Id)
    requires f.title != "" && f.date != ""
    ensures Database.GetActivities(HandleSubmit(s, tripId, f, None, newId), tripId) ==
              Database.GetActivities(s, tripId) +
              [Activity(newId, tripId, f.title, Some(f.description), f.date, Some(f.time), Pending, Some(f.participants))]
  {
    Database.GetActivitiesAfterAdd(s, Database.ActivityDraft(tripId, f.title, Some(f.description), f.date, Some(f.time),
                                                              Pending, Some(f.participants)), newId, tripId);
  }

  /** The participant picker: the clicked member is removed when listed, else appended. */
  function ToggleParticipant(f: ActivityForm, id: Id): (r: ActivityForm)
    ensures id in r.participants <==> id !in f.participants
    ensures forall x :: x != id ==> (x in r.participants <==> x in f.participants)
    ensures NoDuplicates(f.participants) ==> NoDuplicates(r.participants)
    ensures r.(participants := f.participants) == f
  {
    f.(participants := Toggle(f.participants, id))
  }

  /** The activities of one date, in the order they were shown. */
  datatype Bucket = Bucket(date: string, items: seq<Activity>)

  predicate DistinctDates(bs: seq<Bucket>) {
    forall i, j :: 0 <= i < j < |bs| ==> bs[i].date != bs[j].date
  }

  predicate HasBucket(bs: seq<Bucket>, date: string) {
    exists i :: 0 <= i < |bs| && bs[i].date == date
  }

  /** The shown activities of one date, in their order. */
  function OfDate(acts: seq<Activity>, date: string): (r: seq<Activity>)
    ensures forall x :: x in r <==> x in acts && x.date == date
    ensures forall x :: multiset(r)[x] == if x.date == date then multiset(acts)[x] else 0
    ensures IsSubsequence(r, acts)
  {
    Filter(acts, (a: Activity) => a.date == date)
  }

  /** `bs` is a grouping of `acts`: distinct dates, each bucket exactly its date's activities, every date present. */
  predicate GroupsOf(acts: seq<Activity>, bs: seq<Bucket>) {
    && DistinctDates(bs)
    && (forall i :: 0 <= i < |bs| ==> bs[i].items == OfDate(acts, bs[i].date) && bs[i].items != [])
    && (forall a :: a in acts ==> HasBucket(bs, a.date))
  }

  lemma DistinctDatesTail(bs: seq<Bucket>)
    requires DistinctDates(bs) && bs != []
    ensures DistinctDates(bs[1..])
    ensures forall i :: 1 <= i < |bs| ==> bs[i].date != bs[0].date
  {
    forall i, j | 0 <= i < j < |bs[1..]| ensures bs[1..][i].date != bs[1..][j].date {
      assert bs[1..][i] == bs[i + 1] && bs[1..][j] == bs[j + 1];
    }
  }

  lemma HasBucketCons(bs: seq<Bucket>, date: string)
    requires bs != []
    ensures HasBucket(bs, date) <==> bs[0].date == date || HasBucket(bs[1..], date)
  {
    if HasBucket(bs, date) && bs[0].date != date {
      var i :| 0 <= i < |bs| && bs[i].date == date;
      assert bs[1..][i - 1] == bs[i];
    }
    if HasBucket(bs[1..], date) {
      var i :| 0 <= i < |bs[1..]| && bs[1..][i].date == date;
      assert bs[i + 1] == bs[1..][i];
    }
  }

  /** One step of the `grouped` reduction: push onto the date's bucket, creating it at the end when new. */
  function Place(bs: seq<Bucket>, a: Activity): (r: seq<Bucket>)
    requires DistinctDates(bs)
    ensures |r| == if HasBucket(bs, a.date) then |bs| else |bs| + 1
    ensures forall i :: 0 <= i < |bs| ==>
              r[i].date == bs[i].date && r[i].items == bs[i].items + (if bs[i].date == a.date then [a] else [])
    ensures !HasBucket(bs, a.date) ==> r[|bs|] == Bucket(a.date, [a])
  {
    if bs == [] then [Bucket(a.date, [a])]
    else
      DistinctDatesTail(bs);
      HasBucketCons(bs, a.date);
      if bs[0].date == a.date then
        [Bucket(bs[0].date, bs[0].items + [a])] + bs[1..]
      else
        var rest := Place(bs[1..], a);
        assert forall i :: 1 <= i < |rest| + 1 ==> ([bs[0]] + rest)[i] == rest[i - 1];
        [bs[0]] + rest
  }

  /** Appending an activity extends exactly its own date's list. */
  lemma OfDateSnoc(init: seq<Activity>, a: Activity, date: string)
    ensures OfDate(init + [a], date) == OfDate(init, date) + (if a.date == date then [a] else [])
  {
    FilterAppend(init, [a], (x: Activity) => x.date == date);
  }

  /** A date without a bucket has no activities yet. */
  lemma NoBucketNoActivities(init: seq<Activity>, bs: seq<Bucket>, date: string)
    requires forall x :: x in init ==> HasBucket(bs, x.date)
    requires !HasBucket(bs, date)
    ensures OfDate(init, date) == []
  {
    forall x | x in init ensures x.date != date {
      assert HasBucket(bs, x.date);
    }
  }

  lemma PlaceItems(init: seq<Activity>, bs: seq<Bucket>, a: Activity)
    requires GroupsOf(init, bs)
    ensures var r := Place(bs, a);
            forall i :: 0 <= i < |r| ==> r[i].items == OfDate(init + [a], r[i].date) && r[i].items != []
  {
    var r := Place(bs, a);
    forall i | 0 <= i < |r| ensures r[i].items == OfDate(init + [a], r[i].date) && r[i].items != [] {
      OfDateSnoc(init, a, r[i].date);
      if i == |bs| {
        NoBucketNoActivities(init, bs, a.date);
      }
    }
  }

  lemma PlaceDistinct(bs: seq<Bucket>, a: Activity)
    requires DistinctDates(bs)
    ensures DistinctDates(Place(bs, a))
  {
    var r := Place(bs, a);
    forall i, j | 0 <= i < j < |r| ensures r[i].date != r[j].date {
      if j == |bs| {
        assert r[i].date == bs[i].date;
      }
    }
  }

  lemma PlaceCovers(init: seq<Activity>, bs: seq<Bucket>, a: Activity)
    requires DistinctDates(bs)
    requires forall x :: x in init ==> HasBucket(bs, x.date)
    ensures forall x :: x in init + [a] ==> HasBucket(Place(bs, a), x.date)
  {
    var r := Place(bs, a);
    forall x | x in init + [a] ensures HasBucket(r, x.date) {
      if x in init {
        var i :| 0 <= i < |bs| && bs[i].date == x.date;
        assert r[i].date == x.date;
      } else if HasBucket(bs, a.date) {
        var i :| 0 <= i < |bs| && bs[i].date == a.date;
        assert r[i].date == a.date;
      } else {
        assert r[|bs|].date == a.date;
      }
    }
  }

  /** Placing the next activity turns a grouping of the earlier ones into a grouping of all. */
  lemma PlaceStep(init: seq<Activity>, bs: seq<Bucket>, a: Activity)
    requires GroupsOf(init, bs)
    ensures GroupsOf(init + [a], Place(bs, a))
  {
    PlaceItems(init, bs, a);
    PlaceDistinct(bs, a);
    PlaceCovers(init, bs, a);
  }

  /**
   * `grouped`: one bucket per distinct date in order of first appearance;
   * each bucket holds exactly the activities of its date, in their order.
   */
  function Grouped(acts: seq<Activity>): (r: seq<Bucket>)
    ensures GroupsOf(acts, r)
  {
    if acts == [] then []
    else
      var init, a := acts[..|acts| - 1], acts[|acts| - 1];
      assert acts == init + [a];
      PlaceStep(init, Grouped(init), a);
      Place(Grouped(init), a)
  }

  /** In any grouping, an activity lies in exactly one bucket: the one of its date. */
  lemma OneBucket(acts: seq<Activity>, bs: seq<Bucket>, a: Activity)
    requires GroupsOf(acts, bs) && a in acts
    ensures exists i :: 0 <= i < |bs| && a in bs[i].items
    ensures forall i, j :: (0 <= i < |bs| && 0 <= j < |bs| && a in bs[i].items && a in bs[j].items) ==> i == j
  {
    var k :| 0 <= k < |bs| && bs[k].date == a.date;
    assert a in OfDate(acts, bs[k].date);
    forall i, j | 0 <= i < |bs| && 0 <= j < |bs| && a in bs[i].items && a in bs[j].items
      ensures i == j
    {
      assert a in OfDate(acts, bs[i].date) && a in OfDate(acts, bs[j].date);
    }
  }

  /** Total number of activities held by the buckets. */
  function Held(bs: seq<Bucket>): nat {
    if bs == [] then 0 else |bs[0].items| + Held(bs[1..])
  }

  lemma {:induction false} PlaceHeld(bs: seq<Bucket>, a: Activity)
    requires DistinctDates(bs)
    ensures Held(Place(bs, a)) == Held(bs) + 1
  {
    if bs != [] && bs[0].date != a.date {
      assert DistinctDates(bs[1..]) by {
        forall i, j | 0 <= i < j < |bs[1..]| ensures bs[1..][i].date != bs[1..][j].date {
          assert bs[1..][i] == bs[i + 1] && bs[1..][j] == bs[j + 1];
        }
      }
      PlaceHeld(bs[1..], a);
    }
  }

  /** The buckets together hold as many activities as were shown: none is lost or copied. */
  lemma {:induction false} GroupedHoldsAll(acts: seq<Activity>)
    ensures Held(Grouped(acts)) == |acts|
  {
    if acts != [] {
      GroupedHoldsAll(acts[..|acts| - 1]);
      PlaceHeld(Grouped(acts[..|acts| - 1]), acts[|acts| - 1]);
    }
  }
}
