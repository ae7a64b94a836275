/**
 * The demo data written on first start (three users, one trip with all three
 * as members, two expenses) and what the settlement makes of it.
 */
module Seed {
  import opened Collections
  import opened Types
  import opened Balances
  import opened Settlement
  import Database

  const Diego := User("user-1", "diego@example.com", "Diego García", Some("https://i.pravatar.cc/150?u=diego"))
  const Sofia := User("user-2", "sofia@example.com", "Sofía Martínez", None)
  const Marcos := User("user-3", "marcos@example.com", "Marcos Ruiz", None)

  const Dinner := Expense("exp-1", "trip-1", "user-1", 85500.0, "Cena de bienvenida", "2024-07-01", "Comida",
                          ["user-1", "user-2", "user-3"])
  const Drinks := Expense("exp-2", "trip-1", "user-2", 25300.0, "Bebidas playa", "2024-07-02", "Ocio",
                          ["user-1", "user-2"])

  /** The store after the first start; `createdAt` is the start-up time. */
  function SeedStore(createdAt: string): Database.Store {
    Database.Store(
      Some([Diego, Sofia, Marcos]),
      Some([Trip("trip-1", "Verano en Barcelona", "Barcelona, España", "2024-07-01", "2024-07-15", Active, createdAt,
                 Some("https://images.unsplash.com/photo-1539109136881-3be0616acf4b?q=80&w=800"))]),
      Some([TripMember("m1", "trip-1", "user-1", Admin),
            TripMember("m2", "trip-1", "user-2", Editor),
            TripMember("m3", "trip-1", "user-3", Editor)]),
      Some([Dinner, Drinks]),
      None, None, None,
      Some(Diego))
  }

  const MemberIds: seq<Id> := ["user-1", "user-2", "user-3"]

  /** The trip's members are the three seeded users, in user-list order. */
  lemma SeedTripMembers(createdAt: string)
    ensures Database.GetTripMembers(SeedStore(createdAt), "trip-1") == [Diego, Sofia, Marcos]
  {
    var ms := Database.Get(SeedStore(createdAt).members, []);
    var ids := Database.MemberIds(ms, "trip-1");
    assert ms[0].userId == "user-1" && ms[1].userId == "user-2" && ms[2].userId == "user-3";
    assert "user-1" in ids && "user-2" in ids && "user-3" in ids;
    FilterKeepsAll([Diego, Sofia, Marcos], (u: User) => u.id in ids);
  }

  /** The trip's expenses are the two seeded ones, in stored order. */
  lemma SeedTripExpenses(createdAt: string)
    ensures Database.GetExpenses(SeedStore(createdAt), "trip-1") == [Dinner, Drinks]
  {
    var s := SeedStore(createdAt);
    assert Database.AllExpenses(s) == [Dinner, Drinks];
    var keep := (e: Expense) => e.tripId == "trip-1";
    assert keep(Dinner) && keep(Drinks);
    FilterKeepsAll([Dinner, Drinks], keep);
  }

  /** Every seeded expense is well formed for the seeded members. */
  lemma SeedWellFormed()
    ensures forall e :: e in [Dinner, Drinks] ==> WellFormed(MemberIds, e)
  {
  }

  lemma UserIdsDiffer()
    ensures "user-1" != "user-2" && "user-1" != "user-3" && "user-2" != "user-3"
  {
    assert "user-2"[5] != "user-1"[5];
    assert "user-3"[5] != "user-1"[5];
    assert "user-3"[5] != "user-2"[5];
  }

  lemma SeedPaid()
    ensures Paid([Dinner, Drinks], "user-1") == 85500.0
    ensures Paid([Dinner, Drinks], "user-2") == 25300.0
    ensures Paid([Dinner, Drinks], "user-3") == 0.0
  {
    var es := [Dinner, Drinks];
    assert es[..1] == [Dinner] && [Dinner][..0] == [];
    forall m ensures Paid(es, m) == (if m == "user-1" then 85500.0 else 0.0) + (if m == "user-2" then 25300.0 else 0.0) {
      assert Paid([Dinner], m) == Paid([], m) + (if Dinner.payerId == m then 85500.0 else 0.0);
      assert Paid(es, m) == Paid([Dinner], m) + (if Drinks.payerId == m then 25300.0 else 0.0);
    }
    UserIdsDiffer();
  }

  lemma SeedCounts()
    ensures Count(Dinner.participants, "user-1") == 1
    ensures Count(Dinner.participants, "user-2") == 1
    ensures Count(Dinner.participants, "user-3") == 1
    ensures Count(Drinks.participants, "user-1") == 1
    ensures Count(Drinks.participants, "user-2") == 1
    ensures Count(Drinks.participants, "user-3") == 0
  {
    UserIdsDiffer();
    assert Dinner.participants[1..] == ["user-2", "user-3"];
    assert Dinner.participants[1..][1..] == ["user-3"];
    assert Drinks.participants[1..] == ["user-2"];
  }

  lemma SeedOwed()
    ensures Owed([Dinner, Drinks], "user-1") == 41150.0
    ensures Owed([Dinner, Drinks], "user-2") == 41150.0
    ensures Owed([Dinner, Drinks], "user-3") == 28500.0
  {
    SeedCounts();
    var es := [Dinner, Drinks];
    assert es[..1] == [Dinner] && [Dinner][..0] == [];
    assert Share(Dinner) == 28500.0 && Share(Drinks) == 12650.0;
    assert Times(1, 28500.0) == 28500.0 && Times(1, 12650.0) == 12650.0;
    forall m ensures Owed(es, m) == OwedFor(Dinner, m) + OwedFor(Drinks, m) {
      assert Owed([Dinner], m) == Owed([], m) + OwedFor(Dinner, m);
    }
  }

  /** The balance record of the seeded trip. */
  function SeedRecord(): map<Id, real> {
    SeedWellFormed();
    ComputeBalances(MemberIds, [Dinner, Drinks])
  }

  /** Diego is owed 44350, Sofía owes 15850 and Marcos owes 28500. */
  lemma SeedBalances()
    ensures forall k :: k in SeedRecord() <==> k in MemberIds
    ensures "user-1" in SeedRecord() && SeedRecord()["user-1"] == 44350.0
    ensures "user-2" in SeedRecord() && SeedRecord()["user-2"] == -15850.0
    ensures "user-3" in SeedRecord() && SeedRecord()["user-3"] == -28500.0
  {
    SeedPaid();
    SeedOwed();
  }

  /** The three ids hold no repetition, so the balance record's key order is the member order. */
  lemma SeedKeys()
    ensures Dedup(MemberIds) == MemberIds
  {
    UserIdsDiffer();
    assert MemberIds[..2] == ["user-1", "user-2"] && MemberIds[..2][..1] == ["user-1"];
    assert ["user-1"][..0] == [];
  }

  /** Marcos is the larger debtor and comes first; Sofía second. */
  lemma SeedDebtors()
    ensures forall k :: k in MemberIds ==> k in SeedRecord()
    ensures Debtors(MemberIds, SeedRecord()) == [Party("user-3", 28500.0), Party("user-2", 15850.0)]
  {
    SeedBalances();
    var b := SeedRecord();
    var k1, k2 := MemberIds[1..], MemberIds[1..][1..];
    assert k1 == ["user-2", "user-3"] && k2 == ["user-3"] && k2[1..] == [];
    assert DebtorEntries(k2, b) == [Party("user-3", 28500.0)] + DebtorEntries([], b);
    assert DebtorEntries(k1, b) == [Party("user-2", 15850.0)] + DebtorEntries(k2, b);
    assert DebtorEntries(MemberIds, b) == DebtorEntries(k1, b);
    SeedSortDebtors();
  }

  lemma SeedSortDebtors()
    ensures SortDesc([Party("user-2", 15850.0), Party("user-3", 28500.0)]) ==
              [Party("user-3", 28500.0), Party("user-2", 15850.0)]
  {
    var marcos, sofia := Party("user-3", 28500.0), Party("user-2", 15850.0);
    assert [sofia, marcos][1..] == [marcos] && [marcos][1..] == [];
    assert SortDesc([marcos]) == Insert(marcos, []) == [marcos];
    assert [marcos][1..] == [];
    assert Insert(sofia, [marcos]) == [marcos] + Insert(sofia, []);
  }

  /** Diego is the only creditor. */
  lemma SeedCreditors()
    ensures forall k :: k in MemberIds ==> k in SeedRecord()
    ensures Creditors(MemberIds, SeedRecord()) == [Party("user-1", 44350.0)]
  {
    SeedBalances();
    var b := SeedRecord();
    assert MemberIds[1..] == ["user-2", "user-3"] && MemberIds[1..][1..] == ["user-3"];
    assert CreditorEntries(MemberIds, b) == [Party("user-1", 44350.0)];
  }

  /** The matching of those two lists: two transfers, both to Diego. */
  lemma SeedMatch()
    ensures Match([Party("user-3", 28500.0), Party("user-2", 15850.0)], [Party("user-1", 44350.0)], 0, 0) ==
              [Transfer("user-3", "user-1", 28500.0), Transfer("user-2", "user-1", 15850.0)]
  {
    var cs1 := [Party("user-1", 15850.0)];
    var ds1 := [Party("user-3", 0.0), Party("user-2", 15850.0)];
    var cs2 := [Party("user-1", 0.0)];
    var ds2 := [Party("user-3", 0.0), Party("user-2", 0.0)];
    assert Match(ds1, cs1, 1, 0) == [Transfer("user-2", "user-1", 15850.0)] + Match(ds2, cs2, 2, 1);
  }

  /** The settlement of the seeded trip: Marcos pays Diego 28500, then Sofía pays Diego 15850. */
  lemma SeedSettlement()
    ensures Settle(MemberIds, [Dinner, Drinks]) ==
              [Transfer("user-3", "user-1", 28500.0), Transfer("user-2", "user-1", 15850.0)]
  {
    SeedKeys();
    SeedDebtors();
    SeedCreditors();
    SeedMatch();
  }
}
