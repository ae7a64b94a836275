/**
 * The trip dashboard's figures: the trip total, the current user's paid,
 * owed and net amounts, the per-category totals of the pie chart and the two
 * summary cards, plus the add-member and rename-member handlers.
 *
 * The user's figures are a second derivation of the settlement balance; they
 * agree with it whenever no expense lists the user twice.
 */
module Dashboard {
  import opened Collections
  import opened Text
  import opened Types
  import opened Balances
  import Database

  /** No expense has a negative amount (the form does not check this). */
  predicate NonNegativeAmounts(es: seq<Expense>) {
    forall i :: 0 <= i < |es| ==> es[i].amount >= 0.0
  }

  /** `totalSpent`: the sum of all expense amounts. */
  function TotalSpent(es: seq<Expense>): (r: real)
    ensures NonNegativeAmounts(es) ==> r >= 0.0
  {
    if es == [] then 0.0 else TotalSpent(es[..|es| - 1]) + es[|es| - 1].amount
  }

  /** `userPaid`: the amounts of the expenses the current user paid; nothing without a current user. */
  function UserPaid(es: seq<Expense>, user: Option<Id>): (r: real)
    ensures user.None? ==> r == 0.0
    ensures user.Some? ==> r == Paid(es, user.value)
    ensures NonNegativeAmounts(es) ==> 0.0 <= r <= TotalSpent(es)
  {
    if es == [] then 0.0
    else UserPaid(es[..|es| - 1], user) + (if user == Some(es[|es| - 1].payerId) then es[|es| - 1].amount else 0.0)
  }

  /** `user?.id || ''`: the id looked up among the participants. */
  function OwesKey(user: Option<Id>): Id {
    Database.Get(user, "")
  }

  /** One share of an expense when its participants include `key`, however often. */
  function ShareIfIncluded(e: Expense, key: Id): (r: real)
    ensures key !in e.participants ==> r == 0.0
    ensures e.amount >= 0.0 ==> 0.0 <= r <= e.amount
  {
    if key in e.participants then
      var n := |e.participants| as real;
      assert e.amount >= 0.0 ==> e.amount / n <= e.amount by {
        if e.amount >= 0.0 { assert e.amount / n * n == e.amount; }
      }
      e.amount / n
    else 0.0
  }

  /** `userOwes`: one share of every expense whose participants include `key`. */
  function UserOwes(es: seq<Expense>, key: Id): (r: real)
    ensures (forall i :: 0 <= i < |es| ==> key !in es[i].participants) ==> r == 0.0
    ensures NonNegativeAmounts(es) ==> 0.0 <= r <= TotalSpent(es)
  {
    if es == [] then 0.0 else UserOwes(es[..|es| - 1], key) + ShareIfIncluded(es[|es| - 1], key)
  }

  /** `netBalance`: never beyond the trip total either way. */
  function NetBalance(es: seq<Expense>, user: Option<Id>): (r: real)
    ensures NonNegativeAmounts(es) ==> -TotalSpent(es) <= r <= TotalSpent(es)
    ensures user.None? ==> r == -UserOwes(es, "")
  {
    UserPaid(es, user) - UserOwes(es, OwesKey(user))
  }

  /** Listing a participant at most once makes "included" and "one share per listing" coincide. */
  lemma {:induction false} OwesAgrees(es: seq<Expense>, m: Id)
    requires forall e :: e in es ==> Count(e.participants, m) <= 1
    ensures UserOwes(es, m) == Owed(es, m)
  {
    if es != [] {
      var init, e := es[..|es| - 1], es[|es| - 1];
      assert forall x :: x in init ==> x in es;
      assert e in es;
      OwesAgrees(init, m);
      if m in e.participants {
        assert Count(e.participants, m) == 1;
        assert Times(1, Share(e)) == Share(e);
      }
    }
  }

  /**
   * The dashboard's net figure for a member equals that member's settlement
   * balance, provided no expense lists the member twice.
   */
  lemma NetBalanceAgrees(members: seq<Id>, es: seq<Expense>, m: Id)
    requires forall e :: e in es ==> WellFormed(members, e)
    requires m in members
    requires forall e :: e in es ==> Count(e.participants, m) <= 1
    ensures NetBalance(es, Some(m)) == ComputeBalances(members, es)[m]
  {
    OwesAgrees(es, m);
  }

  /**
   * Without that proviso the figures differ: for one expense of 2 paid by
   * "a" and listing "b" twice, the settlement debits "b" 2 but the
   * dashboard shows a net of -1.
   */
  lemma DuplicateParticipantDiverges()
    ensures var e := Expense("x", "t", "a", 2.0, "", "", "", ["b", "b"]);
            && ComputeBalances(["a", "b"], [e])["b"] == -2.0
            && NetBalance([e], Some("b")) == -1.0
  {
    var e := Expense("x", "t", "a", 2.0, "", "", "", ["b", "b"]);
    assert [e][..0] == [];
    assert Count(e.participants, "b") == 2 by {
      assert e.participants[1..] == ["b"];
      assert e.participants[1..][1..] == [];
    }
    assert Share(e) == 1.0;
    assert OwedFor(e, "b") == 2.0;
    assert "a" != "b";
  }

  /** A pie-chart slice: a category and the total spent in it. */
  datatype Slice = Slice(name: string, value: real)

  /** The amounts spent in category `c`. */
  function CategorySum(es: seq<Expense>, c: string): real {
    if es == [] then 0.0
    else CategorySum(es[..|es| - 1], c) + (if es[|es| - 1].category == c then es[|es| - 1].amount else 0.0)
  }

  predicate DistinctNames(ss: seq<Slice>) {
    forall i, j :: 0 <= i < j < |ss| ==> ss[i].name != ss[j].name
  }

  predicate Listed(ss: seq<Slice>, c: string) {
    exists i :: 0 <= i < |ss| && ss[i].name == c
  }

  /** Some expense has category `c`. */
  predicate UsesCategory(es: seq<Expense>, c: string) {
    exists e :: e in es && e.category == c
  }

  /** `ss` are the category totals of `es`: one slice per used category, each holding its sum. */
  predicate TotalsOf(es: seq<Expense>, ss: seq<Slice>) {
    && DistinctNames(ss)
    && (forall i :: 0 <= i < |ss| ==> ss[i].value == CategorySum(es, ss[i].name) && UsesCategory(es, ss[i].name))
    && (forall e :: e in es ==> Listed(ss, e.category))
  }

  lemma DistinctNamesTail(ss: seq<Slice>)
    requires DistinctNames(ss) && ss != []
    ensures DistinctNames(ss[1..])
    ensures forall i :: 1 <= i < |ss| ==> ss[i].name != ss[0].name
  {
    forall i, j | 0 <= i < j < |ss[1..]| ensures ss[1..][i].name != ss[1..][j].name {
      assert ss[1..][i] == ss[i + 1] && ss[1..][j] == ss[j + 1];
    }
  }

  lemma ListedCons(ss: seq<Slice>, c: string)
    requires ss != []
    ensures Listed(ss, c) <==> ss[0].name == c || Listed(ss[1..], c)
  {
    if Listed(ss, c) && ss[0].name != c {
      var i :| 0 <= i < |ss| && ss[i].name == c;
      assert ss[1..][i - 1] == ss[i];
    }
    if Listed(ss[1..], c) {
      var i :| 0 <= i < |ss[1..]| && ss[1..][i].name == c;
      assert ss[i + 1] == ss[1..][i];
    }
  }

  /** One step of the category reduction: add to the category's slice, creating it at the end when new. */
  function AddTo(ss: seq<Slice>, c: string, amount: real): (r: seq<Slice>)
    requires DistinctNames(ss)
    ensures |r| == if Listed(ss, c) then |ss| else |ss| + 1
    ensures forall i :: 0 <= i < |ss| ==>
              r[i].name == ss[i].name && r[i].value == ss[i].value + (if ss[i].name == c then amount else 0.0)
    ensures !Listed(ss, c) ==> r[|ss|] == Slice(c, amount)
    ensures r != []
  {
    if ss == [] then [Slice(c, amount)]
    else
      DistinctNamesTail(ss);
      ListedCons(ss, c);
      if ss[0].name == c then
        [Slice(c, ss[0].value + amount)] + ss[1..]
      else
        var rest := AddTo(ss[1..], c, amount);
        assert forall i :: 1 <= i < |rest| + 1 ==> ([ss[0]] + rest)[i] == rest[i - 1];
        [ss[0]] + rest
  }

  /** A category no expense uses sums to zero. */
  lemma {:induction false} UnusedCategorySum(es: seq<Expense>, c: string)
    requires !UsesCategory(es, c)
    ensures CategorySum(es, c) == 0.0
  {
    if es != [] {
      assert forall x :: x in es[..|es| - 1] ==> x in es;
      assert es[|es| - 1] in es;
      UnusedCategorySum(es[..|es| - 1], c);
    }
  }

  lemma AddToValues(init: seq<Expense>, ss: seq<Slice>, e: Expense)
    requires TotalsOf(init, ss)
    ensures var r := AddTo(ss, e.category, e.amount);
            forall i :: 0 <= i < |r| ==> r[i].value == CategorySum(init + [e], r[i].name) && UsesCategory(init + [e], r[i].name)
  {
    var es := init + [e];
    assert es[..|es| - 1] == init;
    var r := AddTo(ss, e.category, e.amount);
    forall i | 0 <= i < |r| ensures r[i].value == CategorySum(es, r[i].name) && UsesCategory(es, r[i].name) {
      if i < |ss| {
        var x :| x in init && x.category == ss[i].name;
        assert x in es;
      } else {
        forall x | x in init ensures x.category != e.category {
          assert Listed(ss, x.category);
        }
        UnusedCategorySum(init, e.category);
        assert e in es;
      }
    }
  }

  lemma AddToDistinctCovers(init: seq<Expense>, ss: seq<Slice>, e: Expense)
    requires TotalsOf(init, ss)
    ensures DistinctNames(AddTo(ss, e.category, e.amount))
    ensures forall x :: x in init + [e] ==> Listed(AddTo(ss, e.category, e.amount), x.category)
  {
    var r := AddTo(ss, e.category, e.amount);
    forall i, j | 0 <= i < j < |r| ensures r[i].name != r[j].name {
      if j == |ss| {
        assert r[i].name == ss[i].name;
      }
    }
    forall x | x in init + [e] ensures Listed(r, x.category) {
      if x in init {
        var i :| 0 <= i < |ss| && ss[i].name == x.category;
        assert r[i].name == x.category;
      } else if Listed(ss, e.category) {
        var i :| 0 <= i < |ss| && ss[i].name == e.category;
        assert r[i].name == e.category;
      } else {
        assert r[|ss|].name == e.category;
      }
    }
  }

  /** Adding the next expense turns the totals of the earlier ones into the totals of all. */
  lemma AddToStep(init: seq<Expense>, ss: seq<Slice>, e: Expense)
    requires TotalsOf(init, ss)
    ensures TotalsOf(init + [e], AddTo(ss, e.category, e.amount))
  {
    AddToValues(init, ss, e);
    AddToDistinctCovers(init, ss, e);
  }

  /** The index of the first expense in category `c`, or `|es|` when no expense is in it. */
  function FirstUse(es: seq<Expense>, c: string): (n: nat)
    ensures n <= |es|
    ensures n < |es| <==> UsesCategory(es, c)
    ensures n < |es| ==> es[n].category == c
    ensures forall k :: 0 <= k < n ==> es[k].category != c
  {
    if es == [] then 0
    else if es[0].category == c then 0
    else
      var n := 1 + FirstUse(es[1..], c);
      assert forall k :: 1 <= k < |es| ==> es[k] == es[1..][k - 1];
      assert UsesCategory(es, c) ==> UsesCategory(es[1..], c) by {
        if UsesCategory(es, c) {
          var x :| x in es && x.category == c;
          assert x in es[1..];
        }
      }
      n
  }

  /** Appending an expense does not move the first use of a category already used. */
  lemma FirstUseSnoc(init: seq<Expense>, e: Expense, c: string)
    ensures UsesCategory(init, c) ==> FirstUse(init + [e], c) == FirstUse(init, c)
    ensures !UsesCategory(init, c) && e.category == c ==> FirstUse(init + [e], c) == |init|
  {
    var es := init + [e];
    var n, m := FirstUse(es, c), FirstUse(init, c);
    if UsesCategory(init, c) {
      assert es[m] == init[m];
    } else if e.category == c {
      assert es[|init|] == e;
    }
  }

  /** The slices appear in the order in which their categories are first used. */
  predicate InFirstUseOrder(es: seq<Expense>, ss: seq<Slice>) {
    forall i, j :: 0 <= i < j < |ss| ==> FirstUse(es, ss[i].name) < FirstUse(es, ss[j].name)
  }

  /** A category seen for the first time goes after every earlier one. */
  lemma AddToOrder(init: seq<Expense>, ss: seq<Slice>, e: Expense)
    requires TotalsOf(init, ss) && InFirstUseOrder(init, ss)
    ensures InFirstUseOrder(init + [e], AddTo(ss, e.category, e.amount))
  {
    var es := init + [e];
    var r := AddTo(ss, e.category, e.amount);
    forall i, j | 0 <= i < j < |r| ensures FirstUse(es, r[i].name) < FirstUse(es, r[j].name) {
      if j < |ss| {
        OldSliceKeepsFirstUse(init, ss, e, i);
        OldSliceKeepsFirstUse(init, ss, e, j);
        assert FirstUse(init, ss[i].name) < FirstUse(init, ss[j].name);
      } else {
        assert j == |ss| && !Listed(ss, e.category);
        OldSliceKeepsFirstUse(init, ss, e, i);
        NewSliceFirstUse(init, ss, e);
      }
    }
  }

  lemma OldSliceKeepsFirstUse(init: seq<Expense>, ss: seq<Slice>, e: Expense, i: nat)
    requires TotalsOf(init, ss) && i < |ss|
    ensures AddTo(ss, e.category, e.amount)[i].name == ss[i].name
    ensures FirstUse(init + [e], ss[i].name) == FirstUse(init, ss[i].name) < |init|
  {
    FirstUseSnoc(init, e, ss[i].name);
  }

  lemma NewSliceFirstUse(init: seq<Expense>, ss: seq<Slice>, e: Expense)
    requires TotalsOf(init, ss) && !Listed(ss, e.category)
    ensures AddTo(ss, e.category, e.amount)[|ss|].name == e.category
    ensures FirstUse(init + [e], e.category) == |init|
  {
    FirstUseSnoc(init, e, e.category);
  }

  /**
   * `categories` then `chartData`: one slice per category in order of first
   * use, each with the total spent in it; no expenses give no slices.
   */
  function CategoryTotals(es: seq<Expense>): (r: seq<Slice>)
    ensures TotalsOf(es, r)
    ensures InFirstUseOrder(es, r)
    ensures r == [] <==> es == []
  {
    if es == [] then []
    else
      var init, e := es[..|es| - 1], es[|es| - 1];
      assert es == init + [e];
      var ss := CategoryTotals(init);
      AddToStep(init, ss, e);
      AddToOrder(init, ss, e);
      AddTo(ss, e.category, e.amount)
  }

  /** Sum of the slice values. */
  function SliceTotal(ss: seq<Slice>): real {
    if ss == [] then 0.0 else ss[0].value + SliceTotal(ss[1..])
  }

  lemma {:induction false} AddToTotal(ss: seq<Slice>, c: string, amount: real)
    requires DistinctNames(ss)
    ensures SliceTotal(AddTo(ss, c, amount)) == SliceTotal(ss) + amount
  {
    if ss != [] && ss[0].name != c {
      assert DistinctNames(ss[1..]) by {
        forall i, j | 0 <= i < j < |ss[1..]| ensures ss[1..][i].name != ss[1..][j].name {
          assert ss[1..][i] == ss[i + 1] && ss[1..][j] == ss[j + 1];
        }
      }
      AddToTotal(ss[1..], c, amount);
    }
  }

  /** The chart's slices add up to the trip total. */
  lemma {:induction false} SlicesAddUpToTotal(es: seq<Expense>)
    ensures SliceTotal(CategoryTotals(es)) == TotalSpent(es)
  {
    if es != [] {
      var init := es[..|es| - 1];
      SlicesAddUpToTotal(init);
      AddToTotal(CategoryTotals(init), es[|es| - 1].category, es[|es| - 1].amount);
    }
  }

  /** With no expenses every figure is zero and the chart is empty. */
  lemma NoExpenses(user: Option<Id>)
    ensures TotalSpent([]) == 0.0 && NetBalance([], user) == 0.0 && CategoryTotals([]) == []
  {
  }

  /** The two summary cards: the first and second amounts shown. */
  datatype Cards = Cards(first: real, second: real)

  /**
   * The first card shows the size of the net balance; the second shows the
   * same size when the user is in debt and otherwise what the user owes.
   */
  function CardFigures(es: seq<Expense>, user: Option<Id>): (c: Cards)
    ensures c.first >= 0.0
    ensures c.first == NetBalance(es, user) || c.first == -NetBalance(es, user)
    ensures NetBalance(es, user) < 0.0 ==> c.second == c.first
    ensures NetBalance(es, user) >= 0.0 ==> c.second == UserOwes(es, OwesKey(user))
  {
    var net := NetBalance(es, user);
    var size := if net < 0.0 then -net else net;
    Cards(size, if net < 0.0 then size else UserOwes(es, OwesKey(user)))
  }

  /**
   * `handleAddMember`: a name that trims to nothing changes nothing;
   * otherwise the member is added to the trip (with the name as typed) and
   * appended to the shown list.
   */
  function HandleAddMember(s: Database.Store, shown: seq<User>, tripId: Id, name: string,
                           userSuffix: string, memberSuffix: string)
    : (r: (Database.Store, seq<User>))
    ensures IsBlank(name) ==> r == (s, shown)
    ensures !IsBlank(name) ==>
              var added := Database.AddTripMember(s, tripId, name, userSuffix, memberSuffix);
              r == (added.store, shown + [added.value]) && added.value.name == name
  {
    TrimEmptyIffBlank(name);
    if Trim(name) == "" then (s, shown)
    else
      var added := Database.AddTripMember(s, tripId, name, userSuffix, memberSuffix);
      (added.store, shown + [added.value])
  }

  /**
   * `handleUpdateMember`: when a member is being edited and the new name is
   * not blank, the stored user gets the new name and the shown entry with
   * that id is replaced; every other shown entry is kept in place.
   */
  function HandleUpdateMember(s: Database.Store, shown: seq<User>, editing: Option<User>)
    : (r: (Database.Store, seq<User>))
    ensures editing.None? || IsBlank(editing.value.name) ==> r == (s, shown)
    ensures editing.Some? && !IsBlank(editing.value.name) ==>
              && r.0 == Database.UpdateTripMember(s, editing.value.id, Database.UserPatch(None, None, Some(editing.value.name), None))
              && |r.1| == |shown|
              && forall i :: 0 <= i < |shown| ==> r.1[i] == if shown[i].id == editing.value.id then editing.value else shown[i]
  {
    match editing
    case None => (s, shown)
    case Some(ed) =>
      TrimEmptyIffBlank(ed.name);
      if Trim(ed.name) == "" then (s, shown)
      else
        (Database.UpdateTripMember(s, ed.id, Database.UserPatch(None, None, Some(ed.name), None)),
         MapWhere(shown, (m: User) => m.id == ed.id, _ => ed))
  }
}
