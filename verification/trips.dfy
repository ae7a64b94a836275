/**
 * The home screen: the split of the trip list into active and archived
 * trips, the edit form's initial values, and the create-or-edit submission.
 */
module Trips {
  import opened Collections
  import opened Types
  import Database
  import Navigation

  /** `activeTrips`: the trips with status active, in list order. */
  function ActiveTrips(ts: seq<Trip>): (r: seq<Trip>)
    ensures forall t :: t in r <==> t in ts && t.status == Active
    ensures forall t :: multiset(r)[t] == if t.status == Active then multiset(ts)[t] else 0
    ensures IsSubsequence(r, ts)
  {
    Filter(ts, (t: Trip) => t.status == Active)
  }

  /** `archivedTrips`: every other trip, in list order. */
  function ArchivedTrips(ts: seq<Trip>): (r: seq<Trip>)
    ensures forall t :: t in r <==> t in ts && t.status != Active
    ensures forall t :: multiset(r)[t] == if t.status != Active then multiset(ts)[t] else 0
    ensures IsSubsequence(r, ts)
  {
    Filter(ts, (t: Trip) => t.status != Active)
  }

  /**
   * The two lists partition the trips: together they hold every trip exactly
   * as often as the full list does, no trip is in both, and the archived
   * ones are exactly the finished and archived trips.
   */
  lemma Partition(ts: seq<Trip>)
    ensures multiset(ActiveTrips(ts)) + multiset(ArchivedTrips(ts)) == multiset(ts)
    ensures |ActiveTrips(ts)| + |ArchivedTrips(ts)| == |ts|
    ensures forall t :: t in ts ==> (t in ActiveTrips(ts) <==> t !in ArchivedTrips(ts))
    ensures forall t :: t in ArchivedTrips(ts) <==> t in ts && (t.status == Finished || t.status == Archived)
  {
    var a, b := ActiveTrips(ts), ArchivedTrips(ts);
    assert multiset(a) + multiset(b) == multiset(ts) by {
      forall t ensures (multiset(a) + multiset(b))[t] == multiset(ts)[t] {
        assert multiset(Filter(ts, (x: Trip) => x.status == Active))[t] ==
               if t.status == Active then multiset(ts)[t] else 0;
        assert multiset(Filter(ts, (x: Trip) => x.status != Active))[t] ==
               if t.status != Active then multiset(ts)[t] else 0;
      }
    }
    assert |multiset(a) + multiset(b)| == |multiset(ts)|;
  }

  /** The trip form's fields, all plain strings. */
  datatype TripForm = TripForm(name: string, destination: string, startDate: string, endDate: string, imageUrl: string)

  /** `openEdit`: the form starts from the trip's fields, with an empty image address when it has none. */
  function OpenEdit(t: Trip): (f: TripForm)
    ensures f.name == t.name && f.destination == t.destination
    ensures f.startDate == t.startDate && f.endDate == t.endDate
    ensures t.imageUrl.Some? ==> f.imageUrl == t.imageUrl.value
    ensures t.imageUrl.None? ==> f.imageUrl == ""
  {
    TripForm(t.name, t.destination, t.startDate, t.endDate, Database.Get(t.imageUrl, ""))
  }

  /** The update an edit sends: every form field. */
  function FormPatch(f: TripForm): Database.TripPatch {
    Database.TripPatch(None, Some(f.name), Some(f.destination), Some(f.startDate), Some(f.endDate), None, None,
                       Some(f.imageUrl))
  }

  /** The partial trip a creation sends: every form field. */
  function FormDraft(f: TripForm): Database.TripDraft {
    Database.TripDraft(Some(f.name), Some(f.destination), Some(f.startDate), Some(f.endDate), Some(f.imageUrl))
  }

  /**
   * Saving the edit form unchanged keeps the trip, except that a missing image
   * address is now stored as the empty string.
   */
  lemma SaveUnchangedEdit(t: Trip)
    ensures Database.MergeTrip(t, FormPatch(OpenEdit(t))) == t.(imageUrl := Some(Database.Get(t.imageUrl, "")))
  {
  }

  /**
   * `handleSubmit`: ignored unless name and destination are non-empty. With a
   * (non-empty) trip id being edited the form is merged into that trip;
   * otherwise a trip is created from the form and selected, which shows its
   * dashboard.
   */
  function HandleSubmit(s: Database.Store, n: Navigation.Nav, f: TripForm, editingId: Option<Id>,
                        newId: Id, memberSuffix: string, createdAt: string)
    : (r: (Database.Store, Navigation.Nav))
    ensures f.name == "" || f.destination == "" ==> r == (s, n)
    ensures f.name != "" && f.destination != "" && editingId.Some? && editingId.value != "" ==>
              r == (Database.UpdateTrip(s, editingId.value, FormPatch(f)), n)
    ensures f.name != "" && f.destination != "" && (editingId.None? || editingId.value == "") ==>
              && Database.GetTrips(r.0) == Database.GetTrips(s) + [Database.NewTrip(FormDraft(f), newId, createdAt)]
              && Database.NewTrip(FormDraft(f), newId, createdAt).name == f.name
              && Database.NewTrip(FormDraft(f), newId, createdAt).status == Active
              && r.1 == Navigation.NavigateToTrip(n, newId)
  {
    if f.name == "" || f.destination == "" then (s, n)
    else if editingId.Some? && editingId.value != "" then (Database.UpdateTrip(s, editingId.value, FormPatch(f)), n)
    else
      var created := Database.CreateTrip(s, FormDraft(f), newId, memberSuffix, createdAt);
      (created.store, Navigation.NavigateToTrip(n, created.value.id))
  }
}
