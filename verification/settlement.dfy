/**
 * The second half of the expense screen's settlement: members whose balance is
 * below -0.01 become debtors (owing the magnitude), members above +0.01 become
 * creditors, both lists are sorted by descending magnitude, and a two-index
 * greedy loop pairs the current largest debtor with the current largest
 * creditor until one of the lists is used up.
 */
module Settlement {
  import opened Collections
  import opened Types
  import opened Balances

  /** The tolerance below which a balance counts as settled. */
  const Epsilon: real := 0.01

  /** A debtor or creditor: a member id with a positive magnitude still to pay or receive. */
  datatype Party = Party(id: Id, amount: real)

  /** An instruction for `fromId` to pay `amount` to `toId`. */
  datatype Transfer = Transfer(fromId: Id, toId: Id, amount: real)

  predicate SortedDesc(ps: seq<Party>) {
    forall i, j :: 0 <= i < j < |ps| ==> ps[i].amount >= ps[j].amount
  }

  predicate DistinctIds(ps: seq<Party>) {
    forall i, j :: 0 <= i < j < |ps| ==> ps[i].id != ps[j].id
  }

  /** Some party of `ps` has id `x`. */
  predicate HasId(ps: seq<Party>, x: Id) {
    exists i :: 0 <= i < |ps| && ps[i].id == x
  }

  /** Inserts `p` before the first party whose magnitude is not larger, keeping earlier-listed parties first on ties. */
  function Insert(p: Party, s: seq<Party>): (r: seq<Party>)
    ensures multiset(r) == multiset(s) + multiset{p}
  {
    if s == [] || p.amount >= s[0].amount then
      [p] + s
    else
      assert s == [s[0]] + s[1..];
      [s[0]] + Insert(p, s[1..])
  }

  lemma {:induction false} InsertSorted(p: Party, s: seq<Party>)
    requires SortedDesc(s)
    ensures SortedDesc(Insert(p, s))
  {
    if s == [] || p.amount >= s[0].amount {
      ConsSorted(p, s);
    } else {
      var rest := Insert(p, s[1..]);
      SortedTail(s);
      InsertSorted(p, s[1..]);
      InsertElements(p, s[1..]);
      ConsSorted(s[0], rest);
    }
  }

  /** A party at least as large as every listed one can go in front of a sorted list. */
  lemma ConsSorted(x: Party, s: seq<Party>)
    requires SortedDesc(s)
    requires s != [] ==> x.amount >= s[0].amount
    ensures SortedDesc([x] + s)
  {
    var r := [x] + s;
    forall i, j | 0 <= i < j < |r| ensures r[i].amount >= r[j].amount {
      assert r[j] == s[j - 1];
      if i > 0 {
        assert r[i] == s[i - 1];
      }
    }
  }

  lemma SortedTail(s: seq<Party>)
    requires SortedDesc(s) && s != []
    ensures SortedDesc(s[1..])
    ensures forall q :: q in s[1..] ==> q.amount <= s[0].amount
  {
    forall i, j | 0 <= i < j < |s[1..]| ensures s[1..][i].amount >= s[1..][j].amount {
      assert s[1..][i] == s[i + 1] && s[1..][j] == s[j + 1];
    }
    forall q | q in s[1..] ensures q.amount <= s[0].amount {
      var k :| 0 <= k < |s[1..]| && s[1..][k] == q;
      assert s[k + 1] == q;
    }
  }

  /** Inserting adds `p` and nothing else. */
  lemma InsertElements(p: Party, s: seq<Party>)
    ensures forall q :: q in Insert(p, s) <==> q in s || q == p
  {
    var r := Insert(p, s);
    assert forall q :: q in r <==> multiset(r)[q] > 0;
    assert forall q :: q in s <==> multiset(s)[q] > 0;
  }

  /** A party whose id no listed party has can go in front of a list with distinct ids. */
  lemma ConsDistinct(x: Party, s: seq<Party>)
    requires DistinctIds(s)
    requires forall q :: q in s ==> q.id != x.id
    ensures DistinctIds([x] + s)
  {
    var r := [x] + s;
    forall i, j | 0 <= i < j < |r| ensures r[i].id != r[j].id {
      assert r[j] == s[j - 1];
      if i > 0 {
        assert r[i] == s[i - 1];
      }
    }
  }

  lemma DistinctIdsTail(s: seq<Party>)
    requires DistinctIds(s) && s != []
    ensures DistinctIds(s[1..])
    ensures forall q :: q in s[1..] ==> q.id != s[0].id
  {
    forall i, j | 0 <= i < j < |s[1..]| ensures s[1..][i].id != s[1..][j].id {
      assert s[1..][i] == s[i + 1] && s[1..][j] == s[j + 1];
    }
    forall q | q in s[1..] ensures q.id != s[0].id {
      var k :| 0 <= k < |s[1..]| && s[1..][k] == q;
      assert s[k + 1] == q;
    }
  }

  lemma {:induction false} InsertDistinct(p: Party, s: seq<Party>)
    requires DistinctIds(s)
    requires forall q :: q in s ==> q.id != p.id
    ensures DistinctIds(Insert(p, s))
  {
    if s == [] || p.amount >= s[0].amount {
      ConsDistinct(p, s);
    } else {
      var rest := Insert(p, s[1..]);
      DistinctIdsTail(s);
      assert forall q :: q in s[1..] ==> q in s;
      InsertDistinct(p, s[1..]);
      InsertElements(p, s[1..]);
      assert s[0] in s;
      ConsDistinct(s[0], rest);
    }
  }

  /**
   * `.sort((a, b) => b.balance - a.balance)`: a stable sort by descending
   * magnitude (an insertion sort, which keeps equal magnitudes in input order).
   */
  function SortDesc(s: seq<Party>): (r: seq<Party>)
    ensures multiset(r) == multiset(s)
    ensures SortedDesc(r)
  {
    if s == [] then []
    else
      assert s == [s[0]] + s[1..];
      var rest := SortDesc(s[1..]);
      InsertSorted(s[0], rest);
      Insert(s[0], rest)
  }

  lemma {:induction false} SortDistinct(s: seq<Party>)
    requires DistinctIds(s)
    ensures DistinctIds(SortDesc(s))
  {
    if s != [] {
      DistinctIdsTail(s);
      SortDistinct(s[1..]);
      var rest := SortDesc(s[1..]);
      forall q | q in rest ensures q.id != s[0].id {
        assert multiset(rest)[q] > 0;
        assert q in s[1..] by {
          assert multiset(s[1..])[q] > 0;
        }
      }
      InsertDistinct(s[0], rest);
    }
  }

  /** The record's entries below -0.01, as magnitudes, in key order. */
  function DebtorEntries(keys: seq<Id>, b: map<Id, real>): (r: seq<Party>)
    requires forall k :: k in keys ==> k in b
    ensures forall p :: p in r <==> p.id in keys && b[p.id] < -Epsilon && p.amount == -b[p.id]
    ensures NoDuplicates(keys) ==> DistinctIds(r)
  {
    if keys == [] then []
    else
      var rest := DebtorEntries(keys[1..], b);
      assert NoDuplicates(keys) ==> keys[0] !in keys[1..] && NoDuplicates(keys[1..]) by {
        if NoDuplicates(keys) {
          forall i | 0 <= i < |keys[1..]| ensures keys[1..][i] != keys[0] {
            assert keys[1..][i] == keys[i + 1];
          }
          forall i, j | 0 <= i < j < |keys[1..]| ensures keys[1..][i] != keys[1..][j] {
            assert keys[1..][i] == keys[i + 1] && keys[1..][j] == keys[j + 1];
          }
        }
      }
      if b[keys[0]] < -Epsilon then [Party(keys[0], -b[keys[0]])] + rest else rest
  }

  /** The record's entries above +0.01, in key order. */
  function CreditorEntries(keys: seq<Id>, b: map<Id, real>): (r: seq<Party>)
    requires forall k :: k in keys ==> k in b
    ensures forall p :: p in r <==> p.id in keys && b[p.id] > Epsilon && p.amount == b[p.id]
    ensures NoDuplicates(keys) ==> DistinctIds(r)
  {
    if keys == [] then []
    else
      var rest := CreditorEntries(keys[1..], b);
      assert NoDuplicates(keys) ==> keys[0] !in keys[1..] && NoDuplicates(keys[1..]) by {
        if NoDuplicates(keys) {
          forall i | 0 <= i < |keys[1..]| ensures keys[1..][i] != keys[0] {
            assert keys[1..][i] == keys[i + 1];
          }
          forall i, j | 0 <= i < j < |keys[1..]| ensures keys[1..][i] != keys[1..][j] {
            assert keys[1..][i] == keys[i + 1] && keys[1..][j] == keys[j + 1];
          }
        }
      }
      if b[keys[0]] > Epsilon then [Party(keys[0], b[keys[0]])] + rest else rest
  }

  /** The sorted debtor list: exactly the members below -0.01, largest debt first. */
  function Debtors(keys: seq<Id>, b: map<Id, real>): (r: seq<Party>)
    requires forall k :: k in keys ==> k in b
    ensures forall p :: p in r <==> p.id in keys && b[p.id] < -Epsilon && p.amount == -b[p.id]
    ensures SortedDesc(r)
    ensures NoDuplicates(keys) ==> DistinctIds(r)
  {
    var entries := DebtorEntries(keys, b);
    assert NoDuplicates(keys) ==> DistinctIds(SortDesc(entries)) by {
      if NoDuplicates(keys) { SortDistinct(entries); }
    }
    SameMultisetSameElements(SortDesc(entries), entries);
    SortDesc(entries)
  }

  /** The sorted creditor list: exactly the members above +0.01, largest credit first. */
  function Creditors(keys: seq<Id>, b: map<Id, real>): (r: seq<Party>)
    requires forall k :: k in keys ==> k in b
    ensures forall p :: p in r <==> p.id in keys && b[p.id] > Epsilon && p.amount == b[p.id]
    ensures SortedDesc(r)
    ensures NoDuplicates(keys) ==> DistinctIds(r)
  {
    var entries := CreditorEntries(keys, b);
    assert NoDuplicates(keys) ==> DistinctIds(SortDesc(entries)) by {
      if NoDuplicates(keys) { SortDistinct(entries); }
    }
    SameMultisetSameElements(SortDesc(entries), entries);
    SortDesc(entries)
  }

  function Min(a: real, b: real): real {
    if a <= b then a else b
  }

  /**
   * The greedy loop as a recursive definition: `di`, `ci` are the loop indices
   * and `ds`, `cs` carry the remaining magnitudes, updated in place. One of the
   * two current parties always drops to exactly zero, so the indices advance.
   */
  function Match(ds: seq<Party>, cs: seq<Party>, di: nat, ci: nat): (r: seq<Transfer>)
    requires di <= |ds| && ci <= |cs|
    ensures r == [] <==> di == |ds| || ci == |cs|
    ensures |r| <= (|ds| - di) + (|cs| - ci)
    decreases |ds| - di + |cs| - ci
  {
    if di == |ds| || ci == |cs| then []
    else
      var amount := Min(ds[di].amount, cs[ci].amount);
      var ds', cs' := Reduce(ds, di, amount), Reduce(cs, ci, amount);
      [Transfer(ds[di].id, cs[ci].id, amount)] + Match(ds', cs', Advance(ds', di), Advance(cs', ci))
  }

  /** Total that `x` pays over the transfers. */
  function OutFlow(ts: seq<Transfer>, x: Id): real {
    if ts == [] then 0.0
    else
      var t := ts[|ts| - 1];
      OutFlow(ts[..|ts| - 1], x) + (if t.fromId == x then t.amount else 0.0)
  }

  /** Total that `x` receives over the transfers. */
  function InFlow(ts: seq<Transfer>, x: Id): real {
    if ts == [] then 0.0
    else
      var t := ts[|ts| - 1];
      InFlow(ts[..|ts| - 1], x) + (if t.toId == x then t.amount else 0.0)
  }

  /**
   * `cur` is `orig` part-way through the matching loop with index `k`: ids are
   * unchanged, every remaining magnitude lies between zero and the original,
   * parties behind the index are settled to below the tolerance, the party at
   * the index still has at least the tolerance and parties ahead are untouched.
   */
  ghost predicate Progress(orig: seq<Party>, cur: seq<Party>, k: nat) {
    && |cur| == |orig| && k <= |cur|
    && (forall i :: 0 <= i < |cur| ==> cur[i].id == orig[i].id && 0.0 <= cur[i].amount <= orig[i].amount)
    && (forall i :: k < i < |cur| ==> cur[i] == orig[i])
    && (forall i :: 0 <= i < k ==> cur[i].amount < Epsilon)
    && (k < |cur| ==> cur[k].amount >= Epsilon)
  }

  /** The remaining magnitudes after the current party of one side gives up `amount`. */
  function Reduce(cur: seq<Party>, k: nat, amount: real): seq<Party>
    requires k < |cur|
  {
    cur[k := Party(cur[k].id, cur[k].amount - amount)]
  }

  /** `if (x.balance < 0.01) idx++` after the reduction. */
  function Advance(cur: seq<Party>, k: nat): nat
    requires k < |cur|
  {
    if cur[k].amount < Epsilon then k + 1 else k
  }

  /** One loop iteration keeps `Progress` on either side. */
  lemma ProgressStep(orig: seq<Party>, cur: seq<Party>, k: nat, amount: real)
    requires forall i :: 0 <= i < |orig| ==> orig[i].amount > Epsilon
    requires Progress(orig, cur, k) && k < |cur|
    requires 0.0 <= amount <= cur[k].amount
    ensures Progress(orig, Reduce(cur, k, amount), Advance(Reduce(cur, k, amount), k))
  {
  }

  /** Appending a transfer from `debtors[k]` keeps every debtor's paid-so-far equal to its reduction. */
  lemma OutFlowStep(debtors: seq<Party>, ds: seq<Party>, k: nat, ts: seq<Transfer>, t: Transfer)
    requires DistinctIds(debtors) && |ds| == |debtors| && k < |ds|
    requires forall i :: 0 <= i < |ds| ==> ds[i].id == debtors[i].id
    requires forall i :: 0 <= i < |ds| ==> OutFlow(ts, debtors[i].id) == debtors[i].amount - ds[i].amount
    requires t.fromId == debtors[k].id
    ensures forall i :: 0 <= i < |ds| ==>
              OutFlow(ts + [t], debtors[i].id) == debtors[i].amount - Reduce(ds, k, t.amount)[i].amount
  {
    assert (ts + [t])[..|ts|] == ts;
  }

  /** Appending a transfer to `creditors[k]` keeps every creditor's received-so-far equal to its reduction. */
  lemma InFlowStep(creditors: seq<Party>, cs: seq<Party>, k: nat, ts: seq<Transfer>, t: Transfer)
    requires DistinctIds(creditors) && |cs| == |creditors| && k < |cs|
    requires forall j :: 0 <= j < |cs| ==> cs[j].id == creditors[j].id
    requires forall j :: 0 <= j < |cs| ==> InFlow(ts, creditors[j].id) == creditors[j].amount - cs[j].amount
    requires t.toId == creditors[k].id
    ensures forall j :: 0 <= j < |cs| ==>
              InFlow(ts + [t], creditors[j].id) == creditors[j].amount - Reduce(cs, k, t.amount)[j].amount
  {
    assert (ts + [t])[..|ts|] == ts;
  }

  /** What holds of the matching loop's state before every iteration. */
  ghost predicate LoopInvariant(debtors: seq<Party>, creditors: seq<Party>,
                                ds: seq<Party>, cs: seq<Party>, di: nat, ci: nat, transfers: seq<Transfer>)
  {
    && Progress(debtors, ds, di) && Progress(creditors, cs, ci)
    && Match(debtors, creditors, 0, 0) == transfers + Match(ds, cs, di, ci)
    && (forall i :: 0 <= i < |ds| ==> OutFlow(transfers, debtors[i].id) == debtors[i].amount - ds[i].amount)
    && (forall j :: 0 <= j < |cs| ==> InFlow(transfers, creditors[j].id) == creditors[j].amount - cs[j].amount)
    && (forall t :: t in transfers ==> t.amount >= Epsilon && HasId(debtors, t.fromId) && HasId(creditors, t.toId))
    && |transfers| <= di + ci
    && (di == |ds| && ci == |cs| ==> |transfers| == 0 || |transfers| < di + ci)
  }

  /** One iteration emits the next transfer of `Match` and moves on to its remainder. */
  lemma MatchStep(debtors: seq<Party>, creditors: seq<Party>,
                  ds: seq<Party>, cs: seq<Party>, di: nat, ci: nat, transfers: seq<Transfer>,
                  amount: real, t: Transfer)
    requires di < |ds| && ci < |cs|
    requires amount == Min(ds[di].amount, cs[ci].amount)
    requires t == Transfer(ds[di].id, cs[ci].id, amount)
    requires Match(debtors, creditors, 0, 0) == transfers + Match(ds, cs, di, ci)
    ensures var ds', cs' := Reduce(ds, di, amount), Reduce(cs, ci, amount);
            Match(debtors, creditors, 0, 0) == (transfers + [t]) + Match(ds', cs', Advance(ds', di), Advance(cs', ci))
  {
    var ds', cs' := Reduce(ds, di, amount), Reduce(cs, ci, amount);
    var rest := Match(ds', cs', Advance(ds', di), Advance(cs', ci));
    assert Match(ds, cs, di, ci) == [t] + rest;
    AppendAssoc(transfers, [t], rest);
  }

  lemma AppendAssoc<T>(a: seq<T>, b: seq<T>, c: seq<T>)
    ensures a + (b + c) == (a + b) + c
  {
  }

  /** One iteration of the matching loop keeps `LoopInvariant`. */
  lemma LoopStep(debtors: seq<Party>, creditors: seq<Party>,
                 ds: seq<Party>, cs: seq<Party>, di: nat, ci: nat, transfers: seq<Transfer>,
                 amount: real, t: Transfer)
    requires forall i :: 0 <= i < |debtors| ==> debtors[i].amount > Epsilon
    requires forall j :: 0 <= j < |creditors| ==> creditors[j].amount > Epsilon
    requires DistinctIds(debtors) && DistinctIds(creditors)
    requires LoopInvariant(debtors, creditors, ds, cs, di, ci, transfers)
    requires di < |ds| && ci < |cs|
    requires amount == Min(ds[di].amount, cs[ci].amount)
    requires t == Transfer(ds[di].id, cs[ci].id, amount)
    ensures LoopInvariant(debtors, creditors, Reduce(ds, di, amount), Reduce(cs, ci, amount),
                          Advance(Reduce(ds, di, amount), di), Advance(Reduce(cs, ci, amount), ci),
                          transfers + [t])
  {
    var ds', cs' := Reduce(ds, di, amount), Reduce(cs, ci, amount);
    var di', ci' := Advance(ds', di), Advance(cs', ci);
    assert HasId(debtors, t.fromId) && HasId(creditors, t.toId) by {
      assert debtors[di].id == t.fromId && creditors[ci].id == t.toId;
    }
    MatchStep(debtors, creditors, ds, cs, di, ci, transfers, amount, t);
    ProgressStep(debtors, ds, di, amount);
    ProgressStep(creditors, cs, ci, amount);
    OutFlowStep(debtors, ds, di, transfers, t);
    InFlowStep(creditors, cs, ci, transfers, t);
    AdvanceStep(ds, cs, di, ci, amount);
  }

  /** The smaller side of a match drops to zero, so at least one index moves on. */
  lemma AdvanceStep(ds: seq<Party>, cs: seq<Party>, di: nat, ci: nat, amount: real)
    requires di < |ds| && ci < |cs|
    requires amount == Min(ds[di].amount, cs[ci].amount)
    ensures Advance(Reduce(ds, di, amount), di) > di || Advance(Reduce(cs, ci, amount), ci) > ci
  {
  }

  /** The loop's state before the first iteration satisfies `LoopInvariant`. */
  lemma LoopStart(debtors: seq<Party>, creditors: seq<Party>)
    requires forall i :: 0 <= i < |debtors| ==> debtors[i].amount > Epsilon
    requires forall j :: 0 <= j < |creditors| ==> creditors[j].amount > Epsilon
    ensures LoopInvariant(debtors, creditors, debtors, creditors, 0, 0, [])
  {
    assert [] + Match(debtors, creditors, 0, 0) == Match(debtors, creditors, 0, 0);
  }

  /**
   * What the matching loop guarantees of its transfers: each goes from a
   * debtor to a creditor and is at least the tolerance, nobody pays more than
   * their debt or receives more than their credit, one side ends settled to
   * within the tolerance, and at most `|debtors| + |creditors| - 1` transfers
   * are emitted.
   */
  predicate Planned(debtors: seq<Party>, creditors: seq<Party>, transfers: seq<Transfer>) {
    && (forall t :: t in transfers ==> t.amount >= Epsilon && HasId(debtors, t.fromId) && HasId(creditors, t.toId))
    && (forall i :: 0 <= i < |debtors| ==> 0.0 <= OutFlow(transfers, debtors[i].id) <= debtors[i].amount)
    && (forall j :: 0 <= j < |creditors| ==> 0.0 <= InFlow(transfers, creditors[j].id) <= creditors[j].amount)
    && (|| (forall i :: 0 <= i < |debtors| ==> debtors[i].amount - OutFlow(transfers, debtors[i].id) < Epsilon)
        || (forall j :: 0 <= j < |creditors| ==> creditors[j].amount - InFlow(transfers, creditors[j].id) < Epsilon))
    && (|transfers| == 0 || |transfers| < |debtors| + |creditors|)
  }

  /** When the loop stops, the transfers are the whole of `Match` and one side is settled. */
  lemma LoopExit(debtors: seq<Party>, creditors: seq<Party>,
                 ds: seq<Party>, cs: seq<Party>, di: nat, ci: nat, transfers: seq<Transfer>)
    requires LoopInvariant(debtors, creditors, ds, cs, di, ci, transfers)
    requires !(di < |ds| && ci < |cs|)
    ensures transfers == Match(debtors, creditors, 0, 0)
    ensures Planned(debtors, creditors, transfers)
  {
    assert Match(ds, cs, di, ci) == [];
    assert transfers + [] == transfers;
  }

  /** The transfers the matching loop emits for the given sides, from the start. */
  function Greedy(debtors: seq<Party>, creditors: seq<Party>): (r: seq<Transfer>)
    ensures r == [] <==> debtors == [] || creditors == []
    ensures |r| <= |debtors| + |creditors|
  {
    Match(debtors, creditors, 0, 0)
  }

  /**
   * The matching loop of `calculateSettlement`: given the sorted debtors and
   * creditors (magnitudes above the tolerance, one entry per member), it emits
   * the transfers of `Greedy`, which are `Planned`.
   */
  method PlanTransfers(debtors: seq<Party>, creditors: seq<Party>) returns (transfers: seq<Transfer>)
    requires forall i :: 0 <= i < |debtors| ==> debtors[i].amount > Epsilon
    requires forall j :: 0 <= j < |creditors| ==> creditors[j].amount > Epsilon
    requires DistinctIds(debtors) && DistinctIds(creditors)
    ensures transfers == Greedy(debtors, creditors)
    ensures Planned(debtors, creditors, transfers)
  {
    var ds, cs := debtors, creditors;
    var di: nat, ci: nat := 0, 0;
    var emitted: seq<Transfer> := [];
    LoopStart(debtors, creditors);
    while di < |ds| && ci < |cs|
      invariant LoopInvariant(debtors, creditors, ds, cs, di, ci, emitted)
      invariant |ds| == |debtors| && |cs| == |creditors| && di <= |ds| && ci <= |cs|
      decreases |ds| - di + |cs| - ci
    {
      var amount := Min(ds[di].amount, cs[ci].amount);
      var t := Transfer(ds[di].id, cs[ci].id, amount);
      LoopStep(debtors, creditors, ds, cs, di, ci, emitted, amount, t);
      emitted := emitted + [t];
      ds := Reduce(ds, di, amount);
      cs := Reduce(cs, ci, amount);
      di := Advance(ds, di);
      ci := Advance(cs, ci);
    }
    LoopExit(debtors, creditors, ds, cs, di, ci, emitted);
    transfers := emitted;
  }

  /**
   * The transfers `calculateSettlement` shows, as one definition. There are
   * none exactly when no member is below -0.01 or no member is above +0.01.
   */
  function Settle(members: seq<Id>, es: seq<Expense>): (r: seq<Transfer>)
    requires forall e :: e in es ==> WellFormed(members, e)
    ensures var b := ComputeBalances(members, es);
            r == [] <==> (forall m :: m in members ==> b[m] >= -Epsilon) || (forall m :: m in members ==> b[m] <= Epsilon)
  {
    var b := ComputeBalances(members, es);
    var keys := Dedup(members);
    NoDebtors(keys, b);
    NoCreditors(keys, b);
    Greedy(Debtors(keys, b), Creditors(keys, b))
  }

  /** Nobody is listed as a debtor exactly when no member is below the tolerance. */
  lemma NoDebtors(keys: seq<Id>, b: map<Id, real>)
    requires forall k :: k in keys ==> k in b
    ensures Debtors(keys, b) == [] <==> forall m :: m in keys ==> b[m] >= -Epsilon
  {
    var debtors := Debtors(keys, b);
    if debtors != [] {
      assert debtors[0] in debtors;
    }
    forall m | m in keys && b[m] < -Epsilon ensures debtors != [] {
      assert Party(m, -b[m]) in debtors;
    }
  }

  /** Nobody is listed as a creditor exactly when no member is above the tolerance. */
  lemma NoCreditors(keys: seq<Id>, b: map<Id, real>)
    requires forall k :: k in keys ==> k in b
    ensures Creditors(keys, b) == [] <==> forall m :: m in keys ==> b[m] <= Epsilon
  {
    var creditors := Creditors(keys, b);
    if creditors != [] {
      assert creditors[0] in creditors;
    }
    forall m | m in keys && b[m] > Epsilon ensures creditors != [] {
      assert Party(m, b[m]) in creditors;
    }
  }

  /** Three members; `b` and `c` each pay 0.01 for an expense shared by `a` alone. */
  const SmallDebts: (seq<Id>, seq<Expense>) :=
    (["a", "b", "c"],
     [Expense("e1", "t", "b", 0.01, "", "", "", ["a"]), Expense("e2", "t", "c", 0.01, "", "", "", ["a"])])

  /** The balances of `SmallDebts`: -0.02 for `a`, +0.01 for `b` and for `c`. */
  lemma SmallDebtsBalances()
    ensures forall e :: e in SmallDebts.1 ==> WellFormed(SmallDebts.0, e)
    ensures var b := ComputeBalances(SmallDebts.0, SmallDebts.1);
            b["a"] == -0.02 && b["b"] == 0.01 && b["c"] == 0.01
  {
    var e1, e2 := SmallDebts.1[0], SmallDebts.1[1];
    assert "a" != "b" && "a" != "c" && "b" != "c" by {
      assert "a"[0] != "b"[0] && "a"[0] != "c"[0] && "b"[0] != "c"[0];
    }
    assert Count(["a"], "b") == 0 && Count(["a"], "c") == 0 && Count(["a"], "a") == 1;
    TimesIsProduct(1, 0.01);
    TimesIsProduct(0, 0.01);
    assert OwedFor(e1, "a") == 0.01 && OwedFor(e2, "a") == 0.01;
    assert OwedFor(e1, "b") == 0.0 && OwedFor(e2, "b") == 0.0;
    assert OwedFor(e1, "c") == 0.0 && OwedFor(e2, "c") == 0.0;
    TwoExpenses(e1, e2, "a");
    TwoExpenses(e1, e2, "b");
    TwoExpenses(e1, e2, "c");
  }

  /**
   * Debts can stay open above the tolerance: in `SmallDebts` member `a` ends
   * at -0.02 while both creditors sit exactly at the tolerance and are not
   * listed, so no transfer is proposed.
   */
  lemma ResidualAboveTolerance(members: seq<Id>, es: seq<Expense>)
    requires (members, es) == SmallDebts
    ensures forall e :: e in es ==> WellFormed(members, e)
    ensures -ComputeBalances(members, es)["a"] > Epsilon
    ensures Settle(members, es) == []
  {
    SmallDebtsBalances();
    SmallDebtsNoCreditor(members, es);
  }

  lemma SmallDebtsNoCreditor(members: seq<Id>, es: seq<Expense>)
    requires (members, es) == SmallDebts
    ensures forall e :: e in es ==> WellFormed(members, e)
    ensures forall m :: m in members ==> ComputeBalances(members, es)[m] <= Epsilon
  {
    SmallDebtsBalances();
    assert forall m :: m in members ==> m == "a" || m == "b" || m == "c";
  }

  /** Paid and owed totals over two expenses, unrolled. */
  lemma TwoExpenses(e1: Expense, e2: Expense, m: Id)
    ensures Paid([e1, e2], m) == (if e1.payerId == m then e1.amount else 0.0) + (if e2.payerId == m then e2.amount else 0.0)
    ensures Owed([e1, e2], m) == OwedFor(e1, m) + OwedFor(e2, m)
  {
    var es := [e1, e2];
    assert es[..|es| - 1] == [e1] && es[|es| - 1] == e2;
    assert [e1][..0] == [];
    assert Paid([e1], m) == Paid([], m) + (if e1.payerId == m then e1.amount else 0.0);
    assert Owed([e1], m) == Owed([], m) + OwedFor(e1, m);
  }

  /** The sorted lists meet what the matching loop needs: magnitudes above the tolerance, one entry per member. */
  lemma SidesReady(keys: seq<Id>, b: map<Id, real>)
    requires forall k :: k in keys ==> k in b
    requires NoDuplicates(keys)
    ensures forall i :: 0 <= i < |Debtors(keys, b)| ==> Debtors(keys, b)[i].amount > Epsilon
    ensures forall j :: 0 <= j < |Creditors(keys, b)| ==> Creditors(keys, b)[j].amount > Epsilon
    ensures DistinctIds(Debtors(keys, b)) && DistinctIds(Creditors(keys, b))
  {
    var debtors, creditors := Debtors(keys, b), Creditors(keys, b);
    forall i | 0 <= i < |debtors| ensures debtors[i].amount > Epsilon {
      assert debtors[i] in debtors;
    }
    forall j | 0 <= j < |creditors| ensures creditors[j].amount > Epsilon {
      assert creditors[j] in creditors;
    }
  }

  /** A transfer between listed parties runs from a member below -0.01 to one above +0.01. */
  lemma TransferEndpoints(keys: seq<Id>, b: map<Id, real>, transfers: seq<Transfer>)
    requires forall k :: k in keys ==> k in b
    requires forall t :: t in transfers ==> HasId(Debtors(keys, b), t.fromId) && HasId(Creditors(keys, b), t.toId)
    ensures forall t :: t in transfers ==>
              && t.fromId in keys && b[t.fromId] < -Epsilon
              && t.toId in keys && b[t.toId] > Epsilon
  {
    var debtors, creditors := Debtors(keys, b), Creditors(keys, b);
    forall t | t in transfers
      ensures t.fromId in keys && b[t.fromId] < -Epsilon && t.toId in keys && b[t.toId] > Epsilon
    {
      var i :| 0 <= i < |debtors| && debtors[i].id == t.fromId;
      var j :| 0 <= j < |creditors| && creditors[j].id == t.toId;
      assert debtors[i] in debtors && creditors[j] in creditors;
    }
  }

  /** A per-debtor bound on what the transfers take from each debtor, read back per member. */
  lemma DebtorFlowBound(keys: seq<Id>, b: map<Id, real>, transfers: seq<Transfer>)
    requires forall k :: k in keys ==> k in b
    requires forall i :: 0 <= i < |Debtors(keys, b)| ==> OutFlow(transfers, Debtors(keys, b)[i].id) <= Debtors(keys, b)[i].amount
    ensures forall m :: m in keys && b[m] < -Epsilon ==> OutFlow(transfers, m) <= -b[m]
  {
    var debtors := Debtors(keys, b);
    forall m | m in keys && b[m] < -Epsilon
      ensures OutFlow(transfers, m) <= -b[m]
    {
      assert Party(m, -b[m]) in debtors;
      var i :| 0 <= i < |debtors| && debtors[i] == Party(m, -b[m]);
    }
  }

  /** A per-creditor bound on what the transfers bring each creditor, read back per member. */
  lemma CreditorFlowBound(keys: seq<Id>, b: map<Id, real>, transfers: seq<Transfer>)
    requires forall k :: k in keys ==> k in b
    requires forall j :: 0 <= j < |Creditors(keys, b)| ==> InFlow(transfers, Creditors(keys, b)[j].id) <= Creditors(keys, b)[j].amount
    ensures forall m :: m in keys && b[m] > Epsilon ==> InFlow(transfers, m) <= b[m]
  {
    var creditors := Creditors(keys, b);
    forall m | m in keys && b[m] > Epsilon
      ensures InFlow(transfers, m) <= b[m]
    {
      assert Party(m, b[m]) in creditors;
      var j :| 0 <= j < |creditors| && creditors[j] == Party(m, b[m]);
    }
  }

  /** The ids of a list of parties. */
  function IdSet(ps: seq<Party>): set<Id> {
    set p | p in ps :: p.id
  }

  /** Distinct ids: one id per party. */
  lemma {:induction false} IdSetCount(ps: seq<Party>)
    requires DistinctIds(ps)
    ensures |IdSet(ps)| == |ps|
  {
    if ps != [] {
      DistinctIdsTail(ps);
      IdSetCount(ps[1..]);
      assert IdSet(ps) == {ps[0].id} + IdSet(ps[1..]) by {
        assert ps == [ps[0]] + ps[1..];
      }
    }
  }

  /**
   * Debtors and creditors are different members, one entry each, so together
   * they are no more than the members.
   */
  lemma SidesFitMembers(keys: seq<Id>, b: map<Id, real>)
    requires forall k :: k in keys ==> k in b
    requires NoDuplicates(keys)
    ensures |Debtors(keys, b)| + |Creditors(keys, b)| <= |keys|
  {
    var debtors, creditors := Debtors(keys, b), Creditors(keys, b);
    IdSetCount(debtors);
    IdSetCount(creditors);
    var ds, cs := IdSet(debtors), IdSet(creditors);
    assert ds * cs == {} by {
      forall x | x in ds ensures x !in cs {
        var p :| p in debtors && p.id == x;
      }
    }
    assert |ds + cs| == |ds| + |cs|;
    DistinctElementsCount(keys);
    SubsetCount(ds + cs, set k | k in keys);
  }

  /** When every listed debtor is settled, every member below the tolerance is left within it. */
  lemma DebtorsSettled(keys: seq<Id>, b: map<Id, real>, transfers: seq<Transfer>)
    requires forall k :: k in keys ==> k in b
    requires forall i :: 0 <= i < |Debtors(keys, b)| ==> Debtors(keys, b)[i].amount - OutFlow(transfers, Debtors(keys, b)[i].id) < Epsilon
    ensures forall m :: m in keys && b[m] < -Epsilon ==> -b[m] - OutFlow(transfers, m) < Epsilon
  {
    var debtors := Debtors(keys, b);
    forall m | m in keys && b[m] < -Epsilon
      ensures -b[m] - OutFlow(transfers, m) < Epsilon
    {
      assert Party(m, -b[m]) in debtors;
      var i :| 0 <= i < |debtors| && debtors[i] == Party(m, -b[m]);
    }
  }

  /** When every listed creditor is settled, every member above the tolerance is left within it. */
  lemma CreditorsSettled(keys: seq<Id>, b: map<Id, real>, transfers: seq<Transfer>)
    requires forall k :: k in keys ==> k in b
    requires forall j :: 0 <= j < |Creditors(keys, b)| ==> Creditors(keys, b)[j].amount - InFlow(transfers, Creditors(keys, b)[j].id) < Epsilon
    ensures forall m :: m in keys && b[m] > Epsilon ==> b[m] - InFlow(transfers, m) < Epsilon
  {
    var creditors := Creditors(keys, b);
    forall m | m in keys && b[m] > Epsilon
      ensures b[m] - InFlow(transfers, m) < Epsilon
    {
      assert Party(m, b[m]) in creditors;
      var j :| 0 <= j < |creditors| && creditors[j] == Party(m, b[m]);
    }
  }

  /**
   * `calculateSettlement` end to end: the balance record, then the transfers.
   * Every transfer runs from a member below -0.01 to a member above +0.01, so
   * members within the tolerance never appear; no debtor pays more than owed
   * and no creditor receives more than owed to them. When the loop ends, all
   * debtors or all creditors are within the tolerance, and there are fewer
   * transfers than members.
   */
  method CalculateSettlement(members: seq<Id>, es: seq<Expense>) returns (balances: map<Id, real>, transfers: seq<Transfer>)
    requires forall e :: e in es ==> WellFormed(members, e)
    ensures forall m :: m in balances <==> m in members
    ensures forall m :: m in members ==> balances[m] == Paid(es, m) - Owed(es, m)
    ensures transfers == Settle(members, es)
    ensures forall t :: t in transfers ==>
              && t.amount >= Epsilon
              && t.fromId in balances && balances[t.fromId] < -Epsilon
              && t.toId in balances && balances[t.toId] > Epsilon
    ensures forall m :: m in balances && balances[m] < -Epsilon ==> OutFlow(transfers, m) <= -balances[m]
    ensures forall m :: m in balances && balances[m] > Epsilon ==> InFlow(transfers, m) <= balances[m]
    ensures || (forall m :: m in balances && balances[m] < -Epsilon ==> -balances[m] - OutFlow(transfers, m) < Epsilon)
            || (forall m :: m in balances && balances[m] > Epsilon ==> balances[m] - InFlow(transfers, m) < Epsilon)
    ensures |transfers| == 0 || |transfers| < |members|
  {
    balances := ComputeBalances(members, es);
    var keys := Dedup(members);
    var debtors := Debtors(keys, balances);
    var creditors := Creditors(keys, balances);
    SidesReady(keys, balances);
    transfers := PlanTransfers(debtors, creditors);
    TransferEndpoints(keys, balances, transfers);
    DebtorFlowBound(keys, balances, transfers);
    CreditorFlowBound(keys, balances, transfers);
    SidesFitMembers(keys, balances);
    if forall i :: 0 <= i < |debtors| ==> debtors[i].amount - OutFlow(transfers, debtors[i].id) < Epsilon {
      DebtorsSettled(keys, balances, transfers);
    } else {
      CreditorsSettled(keys, balances, transfers);
    }
  }
}
