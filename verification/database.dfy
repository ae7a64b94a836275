/**
 * The browser-storage database: eight storage keys, each holding one JSON
 * list (or the current user). A `Store` has one optional slot per key, where
 * `None` is a key that was never written. Every operation reads its slots
 * with a default, transforms the lists and writes them back whole.
 *
 * Random identifiers and timestamps are parameters. A `Partial<T>` update
 * is a patch with an `Option` per field: `Some` overrides the field and
 * `None` leaves it as it was.
 */
module Database {
  import opened Collections
  import opened Text
  import opened Types

  datatype Store = Store(
    users: Option<seq<User>>,
    trips: Option<seq<Trip>>,
    members: Option<seq<TripMember>>,
    expenses: Option<seq<Expense>>,
    activities: Option<seq<Activity>>,
    documents: Option<seq<Document>>,
    payments: Option<seq<Payment>>,
    currentUser: Option<User>)

  /** A new store with a value and the operation's return value. */
  datatype Outcome<T> = Outcome(store: Store, value: T)

  /** The empty storage: no key has been written. */
  const Empty := Store(None, None, None, None, None, None, None, None)

  /** Reading a storage key: the stored value, or `defaultValue` when the key is absent. */
  function Get<T>(slot: Option<T>, defaultValue: T): (r: T)
    ensures slot.None? ==> r == defaultValue
    ensures slot.Some? ==> r == slot.value
  {
    match slot
    case None => defaultValue
    case Some(v) => v
  }

  /** `Some` in a patch replaces the field; `None` keeps it. */
  function Override<T>(patch: Option<T>, current: T): T {
    Get(patch, current)
  }

  /** A patch for an optional field: `Some` sets it, `None` keeps whatever was there. */
  function OverrideOptional<T>(patch: Option<T>, current: Option<T>): Option<T> {
    if patch.Some? then patch else current
  }

  /** `a || b` for an optional string: a missing or empty string falls back to `b`. */
  function OrElse(a: Option<string>, b: string): (r: string)
    ensures r == b || (a.Some? && r == a.value && a.value != "")
    ensures a.Some? && a.value != "" ==> r == a.value
  {
    if a.Some? && a.value != "" then a.value else b
  }

  // ----- users ---------------------------------------------------------------

  datatype UserPatch = UserPatch(id: Option<Id>, email: Option<string>, name: Option<string>, avatarUrl: Option<string>)

  /** `{ ...user, ...updates }`. */
  function MergeUser(u: User, p: UserPatch): User {
    User(Override(p.id, u.id), Override(p.email, u.email), Override(p.name, u.name),
         OverrideOptional(p.avatarUrl, u.avatarUrl))
  }

  /** `getCurrentUser`: the stored user, or none. */
  function GetCurrentUser(s: Store): Option<User> {
    s.currentUser
  }

  /**
   * `updateCurrentUser`: with no current user nothing is written and the
   * result is none; otherwise the merged user is stored as current user and
   * replaces every listed user with the old id.
   */
  function UpdateCurrentUser(s: Store, p: UserPatch): (r: Outcome<Option<User>>)
    ensures s.currentUser.None? ==> r.store == s && r.value.None?
    ensures s.currentUser.Some? ==>
              && r.value == Some(MergeUser(s.currentUser.value, p))
              && r.store.currentUser == r.value
              && r.store.users.Some?
              && |r.store.users.value| == |Get(s.users, [])|
              && (forall i :: 0 <= i < |Get(s.users, [])| ==>
                    r.store.users.value[i] ==
                      if Get(s.users, [])[i].id == s.currentUser.value.id then r.value.value else Get(s.users, [])[i])
              && r.store.(users := s.users, currentUser := s.currentUser) == s
  {
    match s.currentUser
    case None => Outcome(s, None)
    case Some(user) =>
      var updated := MergeUser(user, p);
      var users := MapWhere(Get(s.users, []), (u: User) => u.id == user.id, _ => updated);
      Outcome(s.(currentUser := Some(updated), users := Some(users)), Some(updated))
  }

  /** The patch that changes no field. */
  const NoUserChange := UserPatch(None, None, None, None)

  /**
   * Reading the current user back after an update gives the merged user; an
   * empty patch keeps the current user, and keeps the whole store when the
   * user list is stored and every listed user with that id is the current user.
   */
  lemma UpdateCurrentUserReadBack(s: Store, p: UserPatch)
    ensures GetCurrentUser(UpdateCurrentUser(s, p).store) == UpdateCurrentUser(s, p).value
    ensures s.currentUser.Some? ==> GetCurrentUser(UpdateCurrentUser(s, p).store) == Some(MergeUser(s.currentUser.value, p))
    ensures GetCurrentUser(UpdateCurrentUser(s, NoUserChange).store) == GetCurrentUser(s)
    ensures s.currentUser.Some? && s.users.Some? &&
            (forall v :: v in s.users.value && v.id == s.currentUser.value.id ==> v == s.currentUser.value) ==>
              UpdateCurrentUser(s, NoUserChange).store == s
  {
    if s.currentUser.Some? && s.users.Some? &&
       (forall v :: v in s.users.value && v.id == s.currentUser.value.id ==> v == s.currentUser.value) {
      var u := s.currentUser.value;
      var r := UpdateCurrentUser(s, NoUserChange);
      assert MergeUser(u, NoUserChange) == u;
      var us := s.users.value;
      assert r.store.users.value == us by {
        forall i | 0 <= i < |us| ensures r.store.users.value[i] == us[i] {
          assert us[i] in us;
        }
      }
    }
  }

  /** `updateTripMember`: merges the patch into every user with id `userId`. */
  function UpdateTripMember(s: Store, userId: Id, p: UserPatch): (r: Store)
    ensures r.users.Some? && |r.users.value| == |Get(s.users, [])|
    ensures forall i :: 0 <= i < |Get(s.users, [])| ==>
              r.users.value[i] == if Get(s.users, [])[i].id == userId then MergeUser(Get(s.users, [])[i], p) else Get(s.users, [])[i]
    ensures r.(users := s.users) == s
  {
    s.(users := Some(MapWhere(Get(s.users, []), (u: User) => u.id == userId, u => MergeUser(u, p))))
  }

  // ----- trips ---------------------------------------------------------------

  const DefaultTripName := "Nuevo Viaje"
  const DefaultTripImage := "https://images.unsplash.com/photo-1476514525535-07fb3b4ae5f1?q=80&w=800"

  datatype TripPatch = TripPatch(
    id: Option<Id>, name: Option<string>, destination: Option<string>,
    startDate: Option<string>, endDate: Option<string>, status: Option<TripStatus>,
    createdAt: Option<string>, imageUrl: Option<string>)

  /** `{ ...trip, ...updates }`. */
  function MergeTrip(t: Trip, p: TripPatch): Trip {
    Trip(Override(p.id, t.id), Override(p.name, t.name), Override(p.destination, t.destination),
         Override(p.startDate, t.startDate), Override(p.endDate, t.endDate), Override(p.status, t.status),
         Override(p.createdAt, t.createdAt), OverrideOptional(p.imageUrl, t.imageUrl))
  }

  /** The fields of `Partial<Trip>` that `createTrip` reads. */
  datatype TripDraft = TripDraft(
    name: Option<string>, destination: Option<string>, startDate: Option<string>,
    endDate: Option<string>, imageUrl: Option<string>)

  /** `getTrips`. */
  function GetTrips(s: Store): seq<Trip> {
    Get(s.trips, [])
  }

  /** `getTripById`: the first stored trip with that id. */
  function GetTripById(s: Store, id: Id): (r: Option<Trip>)
    ensures r.None? <==> forall t :: t in GetTrips(s) ==> t.id != id
    ensures r.Some? ==> r.value in GetTrips(s) && r.value.id == id
  {
    var r := Find(GetTrips(s), (t: Trip) => t.id == id);
    assert forall t :: t in GetTrips(s) ==> exists i :: 0 <= i < |GetTrips(s)| && GetTrips(s)[i] == t;
    r
  }

  /** `updateTrip`: merges the patch into every trip with that id. */
  function UpdateTrip(s: Store, id: Id, p: TripPatch): (r: Store)
    ensures r.trips.Some? && |r.trips.value| == |GetTrips(s)|
    ensures forall i :: 0 <= i < |GetTrips(s)| ==>
              r.trips.value[i] == if GetTrips(s)[i].id == id then MergeTrip(GetTrips(s)[i], p) else GetTrips(s)[i]
    ensures r.(trips := s.trips) == s
  {
    s.(trips := Some(MapWhere(GetTrips(s), (t: Trip) => t.id == id, t => MergeTrip(t, p))))
  }

  /** The trip `createTrip` builds: missing or empty texts fall back to their defaults. */
  function NewTrip(d: TripDraft, id: Id, createdAt: string): (t: Trip)
    ensures t.id == id && t.status == Active && t.createdAt == createdAt
    ensures t.name != "" && t.imageUrl.Some? && t.imageUrl.value != ""
    ensures d.name.None? || d.name == Some("") ==> t.name == DefaultTripName
    ensures d.name.Some? && d.name.value != "" ==> t.name == d.name.value
    ensures t.destination == OrElse(d.destination, "")
    ensures t.startDate == OrElse(d.startDate, "") && t.endDate == OrElse(d.endDate, "")
    ensures t.imageUrl == Some(OrElse(d.imageUrl, DefaultTripImage))
  {
    Trip(id, OrElse(d.name, DefaultTripName), OrElse(d.destination, ""),
         OrElse(d.startDate, ""), OrElse(d.endDate, ""), Active, createdAt,
         Some(OrElse(d.imageUrl, DefaultTripImage)))
  }

  /**
   * `createTrip`: appends an active trip; when a user is logged in, also
   * appends an admin membership (id `"m-" + memberSuffix`) for that user.
   */
  function CreateTrip(s: Store, d: TripDraft, id: Id, memberSuffix: string, createdAt: string): (r: Outcome<Trip>)
    ensures r.value == NewTrip(d, id, createdAt)
    ensures r.store.trips == Some(GetTrips(s) + [r.value])
    ensures s.currentUser.None? ==> r.store.members == s.members
    ensures s.currentUser.Some? ==>
              r.store.members == Some(Get(s.members, []) + [TripMember("m-" + memberSuffix, id, s.currentUser.value.id, Admin)])
    ensures r.store.(trips := s.trips, members := s.members) == s
  {
    var trip := NewTrip(d, id, createdAt);
    var s1 := s.(trips := Some(GetTrips(s) + [trip]));
    match s.currentUser
    case None => Outcome(s1, trip)
    case Some(user) =>
      Outcome(s1.(members := Some(Get(s.members, []) + [TripMember("m-" + memberSuffix, id, user.id, Admin)])), trip)
  }

  /**
   * A trip created with an id no stored trip has is found by that id, and the
   * logged-in user, when listed, is among its members.
   */
  lemma CreatedTripIsFound(s: Store, d: TripDraft, id: Id, memberSuffix: string, createdAt: string)
    requires forall t :: t in GetTrips(s) ==> t.id != id
    ensures var r := CreateTrip(s, d, id, memberSuffix, createdAt);
            && GetTripById(r.store, id) == Some(r.value)
            && (s.currentUser.Some? && s.currentUser.value in Get(s.users, []) ==>
                  s.currentUser.value in GetTripMembers(r.store, id))
  {
    var r := CreateTrip(s, d, id, memberSuffix, createdAt);
    assert r.value in GetTrips(r.store);
    var found := GetTripById(r.store, id);
    assert found.value in GetTrips(s) + [r.value];
    if s.currentUser.Some? && s.currentUser.value in Get(s.users, []) {
      var ms := Get(r.store.members, []);
      assert ms[|ms| - 1].tripId == id && ms[|ms| - 1].userId == s.currentUser.value.id;
      assert Get(r.store.users, []) == Get(s.users, []);
    }
  }

  /** Some membership links user `x` to trip `tripId`. */
  predicate IsMemberOf(ms: seq<TripMember>, tripId: Id, x: Id) {
    exists i :: 0 <= i < |ms| && ms[i].tripId == tripId && ms[i].userId == x
  }

  /** `members.filter(m => m.trip_id === tripId).map(m => m.user_id)`. */
  function MemberIds(ms: seq<TripMember>, tripId: Id): (r: seq<Id>)
    ensures forall x :: x in r <==> IsMemberOf(ms, tripId, x)
  {
    if ms == [] then []
    else
      var rest := MemberIds(ms[1..], tripId);
      assert forall x :: IsMemberOf(ms, tripId, x) <==>
                         (ms[0].tripId == tripId && ms[0].userId == x) || IsMemberOf(ms[1..], tripId, x) by {
        forall x ensures IsMemberOf(ms, tripId, x) ==>
                           (ms[0].tripId == tripId && ms[0].userId == x) || IsMemberOf(ms[1..], tripId, x) {
          if IsMemberOf(ms, tripId, x) {
            var i :| 0 <= i < |ms| && ms[i].tripId == tripId && ms[i].userId == x;
            if i > 0 { assert ms[1..][i - 1] == ms[i]; }
          }
        }
        forall x | IsMemberOf(ms[1..], tripId, x) ensures IsMemberOf(ms, tripId, x) {
          var i :| 0 <= i < |ms[1..]| && ms[1..][i].tripId == tripId && ms[1..][i].userId == x;
          assert ms[i + 1] == ms[1..][i];
        }
      }
      (if ms[0].tripId == tripId then [ms[0].userId] else []) + rest
  }

  /**
   * `getTripMembers`: the stored users linked to the trip by some membership,
   * in the order of the user list (not of the memberships).
   */
  function GetTripMembers(s: Store, tripId: Id): (r: seq<User>)
    ensures forall u :: u in r <==> u in Get(s.users, []) && IsMemberOf(Get(s.members, []), tripId, u.id)
    ensures forall u :: multiset(r)[u] ==
              if IsMemberOf(Get(s.members, []), tripId, u.id) then multiset(Get(s.users, []))[u] else 0
    ensures IsSubsequence(r, Get(s.users, []))
  {
    var ids := MemberIds(Get(s.members, []), tripId);
    Filter(Get(s.users, []), (u: User) => u.id in ids)
  }

  /** The address `addTripMember` derives from a name: lower-cased, first space turned into a dot. */
  function MemberEmail(name: string): (r: string)
    ensures |r| == |name| + 12
    ensures r[|name|..] == "@example.com"
    ensures forall i :: 0 <= i < |name| ==>
              r[i] == if name[i] == ' ' && ' ' !in name[..i] then '.' else LowerChar(name[i])
  {
    var lower := ToLower(name);
    ReplaceFirstAt(lower, ' ', '.');
    assert forall i :: 0 <= i <= |name| ==> (' ' in lower[..i] <==> ' ' in name[..i]) by {
      forall i | 0 <= i <= |name| ensures ' ' in lower[..i] <==> ' ' in name[..i] {
        if ' ' in lower[..i] {
          var k :| 0 <= k < i && lower[..i][k] == ' ';
          assert name[..i][k] == name[k];
        }
        if ' ' in name[..i] {
          var k :| 0 <= k < i && name[..i][k] == ' ';
          assert lower[..i][k] == lower[k];
        }
      }
    }
    ReplaceFirst(lower, ' ', '.') + "@example.com"
  }

  /**
   * `addTripMember`: appends a user (id `"user-" + userSuffix`, no avatar) and a
   * viewer membership (id `"m-" + memberSuffix`) linking it to the trip.
   */
  function AddTripMember(s: Store, tripId: Id, name: string, userSuffix: string, memberSuffix: string): (r: Outcome<User>)
    ensures r.value == User("user-" + userSuffix, MemberEmail(name), name, None)
    ensures r.store.users == Some(Get(s.users, []) + [r.value])
    ensures r.store.members == Some(Get(s.members, []) + [TripMember("m-" + memberSuffix, tripId, r.value.id, Viewer)])
    ensures r.store.(users := s.users, members := s.members) == s
  {
    var user := User("user-" + userSuffix, MemberEmail(name), name, None);
    var member := TripMember("m-" + memberSuffix, tripId, user.id, Viewer);
    Outcome(s.(users := Some(Get(s.users, []) + [user]), members := Some(Get(s.members, []) + [member])), user)
  }

  /** The user `addTripMember` creates is listed among the trip's members afterwards. */
  lemma AddedMemberIsListed(s: Store, tripId: Id, name: string, userSuffix: string, memberSuffix: string)
    ensures var r := AddTripMember(s, tripId, name, userSuffix, memberSuffix);
            r.value in GetTripMembers(r.store, tripId)
  {
    var r := AddTripMember(s, tripId, name, userSuffix, memberSuffix);
    var ms := Get(r.store.members, []);
    assert ms[|ms| - 1].tripId == tripId && ms[|ms| - 1].userId == r.value.id;
    assert r.value in Get(r.store.users, []);
  }

  // ----- expenses ------------------------------------------------------------

  /** `Omit<Expense, 'id'>`. */
  datatype ExpenseDraft = ExpenseDraft(
    tripId: Id, payerId: Id, amount: real, description: string, date: string, category: string,
    participants: seq<Id>)

  datatype ExpensePatch = ExpensePatch(
    id: Option<Id>, tripId: Option<Id>, payerId: Option<Id>, amount: Option<real>,
    description: Option<string>, date: Option<string>, category: Option<string>,
    participants: Option<seq<Id>>)

  /** `{ ...expense, id }`. */
  function WithExpenseId(d: ExpenseDraft, id: Id): Expense {
    Expense(id, d.tripId, d.payerId, d.amount, d.description, d.date, d.category, d.participants)
  }

  /** `{ ...e, ...updates }`. */
  function MergeExpense(e: Expense, p: ExpensePatch): Expense {
    Expense(Override(p.id, e.id), Override(p.tripId, e.tripId), Override(p.payerId, e.payerId),
            Override(p.amount, e.amount), Override(p.description, e.description), Override(p.date, e.date),
            Override(p.category, e.category), Override(p.participants, e.participants))
  }

  /** Applying the same update twice is applying it once; an empty update changes nothing. */
  lemma MergeExpenseIdempotent(e: Expense, p: ExpensePatch)
    ensures MergeExpense(MergeExpense(e, p), p) == MergeExpense(e, p)
    ensures MergeExpense(e, ExpensePatch(None, None, None, None, None, None, None, None)) == e
  {
  }

  function AllExpenses(s: Store): seq<Expense> {
    Get(s.expenses, [])
  }

  /** `getExpenses`: exactly the stored expenses of the trip, in stored order. */
  function GetExpenses(s: Store, tripId: Id): (r: seq<Expense>)
    ensures forall e :: e in r <==> e in AllExpenses(s) && e.tripId == tripId
    ensures forall e :: multiset(r)[e] == if e.tripId == tripId then multiset(AllExpenses(s))[e] else 0
    ensures IsSubsequence(r, AllExpenses(s))
  {
    Filter(AllExpenses(s), (e: Expense) => e.tripId == tripId)
  }

  /** `addExpense`: appends the draft with the new id and returns it. */
  function AddExpense(s: Store, d: ExpenseDraft, id: Id): (r: Outcome<Expense>)
    ensures r.value == Expense(id, d.tripId, d.payerId, d.amount, d.description, d.date, d.category, d.participants)
    ensures r.store.expenses == Some(AllExpenses(s) + [r.value])
    ensures r.store.(expenses := s.expenses) == s
  {
    var e := WithExpenseId(d, id);
    Outcome(s.(expenses := Some(AllExpenses(s) + [e])), e)
  }

  /** After `addExpense`, the trip's expense list gains exactly the new record at its end; other trips are unchanged. */
  lemma GetExpensesAfterAdd(s: Store, d: ExpenseDraft, id: Id, tripId: Id)
    ensures var r := AddExpense(s, d, id);
            GetExpenses(r.store, tripId) ==
              GetExpenses(s, tripId) + (if d.tripId == tripId then [r.value] else [])
  {
    var r := AddExpense(s, d, id);
    FilterAppend(AllExpenses(s), [r.value], (e: Expense) => e.tripId == tripId);
  }

  /** `updateExpense`: merges the patch into the records with that id, keeping order and every other record. */
  function UpdateExpense(s: Store, id: Id, p: ExpensePatch): (r: Store)
    ensures r.expenses.Some? && |r.expenses.value| == |AllExpenses(s)|
    ensures forall i :: 0 <= i < |AllExpenses(s)| ==>
              r.expenses.value[i] == if AllExpenses(s)[i].id == id then MergeExpense(AllExpenses(s)[i], p) else AllExpenses(s)[i]
    ensures r.(expenses := s.expenses) == s
  {
    s.(expenses := Some(MapWhere(AllExpenses(s), (e: Expense) => e.id == id, e => MergeExpense(e, p))))
  }

  /** Updating an id that no stored expense has leaves the list as it was. */
  lemma UpdateMissingExpense(s: Store, id: Id, p: ExpensePatch)
    requires forall e :: e in AllExpenses(s) ==> e.id != id
    ensures AllExpenses(UpdateExpense(s, id, p)) == AllExpenses(s)
  {
    var r := UpdateExpense(s, id, p);
    assert forall i :: 0 <= i < |AllExpenses(s)| ==> AllExpenses(s)[i] in AllExpenses(s);
  }

  /** `deleteExpense`: drops exactly the records with that id, keeping the others in order. */
  function DeleteExpense(s: Store, id: Id): (r: Store)
    ensures r.expenses.Some?
    ensures forall e :: e in r.expenses.value <==> e in AllExpenses(s) && e.id != id
    ensures forall e :: multiset(r.expenses.value)[e] == if e.id != id then multiset(AllExpenses(s))[e] else 0
    ensures IsSubsequence(r.expenses.value, AllExpenses(s))
    ensures r.(expenses := s.expenses) == s
  {
    s.(expenses := Some(Filter(AllExpenses(s), (e: Expense) => e.id != id)))
  }

  /** Deleting a freshly added expense (with an unused id) restores the stored list. */
  lemma DeleteUndoesAdd(s: Store, d: ExpenseDraft, id: Id)
    requires forall e :: e in AllExpenses(s) ==> e.id != id
    ensures AllExpenses(DeleteExpense(AddExpense(s, d, id).store, id)) == AllExpenses(s)
  {
    var keep := (e: Expense) => e.id != id;
    var e := WithExpenseId(d, id);
    FilterAppend(AllExpenses(s), [e], keep);
    FilterKeepsAll(AllExpenses(s), keep);
    assert Filter([e], keep) == [];
  }

  // ----- activities ----------------------------------------------------------

  /** `Omit<Activity, 'id'>`. */
  datatype ActivityDraft = ActivityDraft(
    tripId: Id, title: string, description: Option<string>, date: string, time: Option<string>,
    status: ActivityStatus, participants: Option<seq<Id>>)

  datatype ActivityPatch = ActivityPatch(
    id: Option<Id>, tripId: Option<Id>, title: Option<string>, description: Option<string>,
    date: Option<string>, time: Option<string>, status: Option<ActivityStatus>,
    participants: Option<seq<Id>>)

  function WithActivityId(d: ActivityDraft, id: Id): Activity {
    Activity(id, d.tripId, d.title, d.description, d.date, d.time, d.status, d.participants)
  }

  /** `{ ...a, ...updates }`. */
  function MergeActivity(a: Activity, p: ActivityPatch): Activity {
    Activity(Override(p.id, a.id), Override(p.tripId, a.tripId), Override(p.title, a.title),
             OverrideOptional(p.description, a.description), Override(p.date, a.date),
             OverrideOptional(p.time, a.time), Override(p.status, a.status),
             OverrideOptional(p.participants, a.participants))
  }

  function AllActivities(s: Store): seq<Activity> {
    Get(s.activities, [])
  }

  /** `getActivities`: the stored activities of the trip, in stored order. */
  function GetActivities(s: Store, tripId: Id): (r: seq<Activity>)
    ensures forall a :: a in r <==> a in AllActivities(s) && a.tripId == tripId
    ensures forall a :: multiset(r)[a] == if a.tripId == tripId then multiset(AllActivities(s))[a] else 0
    ensures IsSubsequence(r, AllActivities(s))
  {
    Filter(AllActivities(s), (a: Activity) => a.tripId == tripId)
  }

  /** `addActivity`: appends the draft with the new id. */
  function AddActivity(s: Store, d: ActivityDraft, id: Id): (r: Outcome<Activity>)
    ensures r.value == Activity(id, d.tripId, d.title, d.description, d.date, d.time, d.status, d.participants)
    ensures r.store.activities == Some(AllActivities(s) + [r.value])
    ensures r.store.(activities := s.activities) == s
  {
    var a := WithActivityId(d, id);
    Outcome(s.(activities := Some(AllActivities(s) + [a])), a)
  }

  /** After `addActivity`, the trip's activity list gains exactly the new record at its end; other trips are unchanged. */
  lemma GetActivitiesAfterAdd(s: Store, d: ActivityDraft, id: Id, tripId: Id)
    ensures var r := AddActivity(s, d, id);
            GetActivities(r.store, tripId) ==
              GetActivities(s, tripId) + (if d.tripId == tripId then [r.value] else [])
  {
    var r := AddActivity(s, d, id);
    FilterAppend(AllActivities(s), [r.value], (a: Activity) => a.tripId == tripId);
  }

  /** `updateActivity`: merges the patch into the records with that id. */
  function UpdateActivity(s: Store, id: Id, p: ActivityPatch): (r: Store)
    ensures r.activities.Some? && |r.activities.value| == |AllActivities(s)|
    ensures forall i :: 0 <= i < |AllActivities(s)| ==>
              r.activities.value[i] ==
                if AllActivities(s)[i].id == id then MergeActivity(AllActivities(s)[i], p) else AllActivities(s)[i]
    ensures r.(activities := s.activities) == s
  {
    s.(activities := Some(MapWhere(AllActivities(s), (a: Activity) => a.id == id, a => MergeActivity(a, p))))
  }

  // ----- documents -----------------------------------------------------------

  /** `Omit<Document, 'id'>`. */
  datatype DocumentDraft = DocumentDraft(tripId: Id, name: string, kind: string, url: string, date: string)

  function AllDocuments(s: Store): seq<Document> {
    Get(s.documents, [])
  }

  /** `getDocuments`: the stored documents of the trip, in stored order. */
  function GetDocuments(s: Store, tripId: Id): (r: seq<Document>)
    ensures forall d :: d in r <==> d in AllDocuments(s) && d.tripId == tripId
    ensures forall d :: multiset(r)[d] == if d.tripId == tripId then multiset(AllDocuments(s))[d] else 0
    ensures IsSubsequence(r, AllDocuments(s))
  {
    Filter(AllDocuments(s), (d: Document) => d.tripId == tripId)
  }

  /** `addDocument`: appends the draft with the new id. */
  function AddDocument(s: Store, d: DocumentDraft, id: Id): (r: Outcome<Document>)
    ensures r.value == Document(id, d.tripId, d.name, d.kind, d.url, d.date)
    ensures r.store.documents == Some(AllDocuments(s) + [r.value])
    ensures r.store.(documents := s.documents) == s
  {
    var doc := Document(id, d.tripId, d.name, d.kind, d.url, d.date);
    Outcome(s.(documents := Some(AllDocuments(s) + [doc])), doc)
  }

  // ----- payments ------------------------------------------------------------

  /** `Omit<Payment, 'id'>`. */
  datatype PaymentDraft = PaymentDraft(tripId: Id, fromId: Id, toId: Id, amount: real, date: string)

  function AllPayments(s: Store): seq<Payment> {
    Get(s.payments, [])
  }

  /** `getPayments`: the stored payments of the trip, in stored order. */
  function GetPayments(s: Store, tripId: Id): (r: seq<Payment>)
    ensures forall p :: p in r <==> p in AllPayments(s) && p.tripId == tripId
    ensures forall p :: multiset(r)[p] == if p.tripId == tripId then multiset(AllPayments(s))[p] else 0
    ensures IsSubsequence(r, AllPayments(s))
  {
    Filter(AllPayments(s), (p: Payment) => p.tripId == tripId)
  }

  /** `addPayment`: appends the draft with the new id. Nothing reads payments back into a balance. */
  function AddPayment(s: Store, d: PaymentDraft, id: Id): (r: Outcome<Payment>)
    ensures r.value == Payment(id, d.tripId, d.fromId, d.toId, d.amount, d.date)
    ensures r.store.payments == Some(AllPayments(s) + [r.value])
    ensures r.store.(payments := s.payments) == s
  {
    var p := Payment(id, d.tripId, d.fromId, d.toId, d.amount, d.date);
    Outcome(s.(payments := Some(AllPayments(s) + [p])), p)
  }
}
