/**
 * The first half of the expense screen's settlement: every trip member starts
 * at zero, each expense credits its payer with the full amount and debits every
 * listed participant an equal share `amount / |participants|`.
 *
 * The balance record is a `map` from member id to an exact `real`. Recorded
 * payments are NOT applied: the settlement reads expenses only.
 */
module Balances {
  import opened Collections
  import opened Types

  /**
   * What the settlement silently relies on: the payer and every participant
   * are trip members (otherwise an absent record key is read) and the
   * participant list is non-empty (otherwise the share divides by zero).
   */
  predicate WellFormed(members: seq<Id>, e: Expense) {
    && e.payerId in members
    && |e.participants| > 0
    && forall p :: p in e.participants ==> p in members
  }

  /** The equal share every listed participant owes. */
  function Share(e: Expense): real
    requires |e.participants| > 0
  {
    e.amount / (|e.participants| as real)
  }

  /** How many times `m` is listed as a participant of `e` (duplicates count). */
  function Occurrences(e: Expense, m: Id): nat {
    Count(e.participants, m)
  }

  /** Sum of the amounts `m` paid. */
  function Paid(es: seq<Expense>, m: Id): real {
    if es == [] then 0.0
    else
      var e := es[|es| - 1];
      Paid(es[..|es| - 1], m) + (if e.payerId == m then e.amount else 0.0)
  }

  /** What `m` owes for one expense: one share per listing. */
  function OwedFor(e: Expense, m: Id): real {
    if |e.participants| == 0 then 0.0 else Times(Occurrences(e, m), Share(e))
  }

  /** Sum of what `m` owes over all expenses. */
  function Owed(es: seq<Expense>, m: Id): real {
    if es == [] then 0.0 else Owed(es[..|es| - 1], m) + OwedFor(es[|es| - 1], m)
  }

  /** The record after `members.forEach(m => balances[m.id] = 0)`. */
  function ZeroBalances(members: seq<Id>): (b: map<Id, real>)
    ensures forall k :: k in b <==> k in members
    ensures forall k :: k in b ==> b[k] == 0.0
  {
    map m | m in members :: 0.0
  }

  /** `n` shares of `share`, accumulated one at a time as the participant loop does. */
  function Times(n: nat, share: real): real {
    if n == 0 then 0.0 else Times(n - 1, share) + share
  }

  lemma {:induction false} TimesIsProduct(n: nat, share: real)
    ensures Times(n, share) == (n as real) * share
  {
    if n > 0 {
      TimesIsProduct(n - 1, share);
      assert (n as real) * share == ((n - 1) as real) * share + share;
    }
  }

  /** `participants.forEach(pid => balances[pid] -= share)`, left to right. */
  function Debit(b: map<Id, real>, ps: seq<Id>, share: real): (r: map<Id, real>)
    requires forall p :: p in ps ==> p in b
    ensures r.Keys == b.Keys
    ensures forall k {:trigger r[k]} :: k in b ==> r[k] == b[k] - Times(Count(ps, k), share)
  {
    if ps == [] then b
    else
      var b' := b[ps[0] := b[ps[0]] - share];
      var r := Debit(b', ps[1..], share);
      forall k | k in b ensures r[k] == b[k] - Times(Count(ps, k), share) {
        DebitEntry(b, b', ps, share, k);
      }
      r
  }

  /** The debit of the first participant and of the rest together make up the whole debit of `k`. */
  lemma DebitEntry(b: map<Id, real>, b': map<Id, real>, ps: seq<Id>, share: real, k: Id)
    requires ps != [] && ps[0] in b && k in b
    requires b' == b[ps[0] := b[ps[0]] - share]
    ensures b'[k] - Times(Count(ps[1..], k), share) == b[k] - Times(Count(ps, k), share)
  {
    var c := Count(ps[1..], k);
    if k == ps[0] {
      assert Count(ps, k) == c + 1;
    } else {
      assert Count(ps, k) == c;
    }
  }

  /** One iteration of `expenses.forEach`: credit the payer, then debit each participant. */
  function ApplyExpense(b: map<Id, real>, e: Expense): (r: map<Id, real>)
    requires e.payerId in b && |e.participants| > 0
    requires forall p :: p in e.participants ==> p in b
    ensures r.Keys == b.Keys
    ensures forall k :: k in b ==>
              r[k] == b[k] + (if k == e.payerId then e.amount else 0.0) - OwedFor(e, k)
  {
    Debit(b[e.payerId := b[e.payerId] + e.amount], e.participants, Share(e))
  }

  /**
   * The balance record of `calculateSettlement`: one entry per member, equal to
   * what the member paid minus one share per listing as a participant.
   */
  function ComputeBalances(members: seq<Id>, es: seq<Expense>): (r: map<Id, real>)
    requires forall e :: e in es ==> WellFormed(members, e)
    ensures forall k :: k in r <==> k in members
    ensures forall m :: m in members ==> r[m] == Paid(es, m) - Owed(es, m)
  {
    if es == [] then ZeroBalances(members)
    else
      var init, e := es[..|es| - 1], es[|es| - 1];
      assert e in es;
      assert forall x :: x in init ==> x in es;
      var b := ComputeBalances(members, init);
      assert WellFormed(members, e);
      var r := ApplyExpense(b, e);
      forall m | m in members ensures r[m] == Paid(es, m) - Owed(es, m) {
        assert Paid(es, m) == Paid(init, m) + (if e.payerId == m then e.amount else 0.0);
        assert Owed(es, m) == Owed(init, m) + OwedFor(e, m);
      }
      r
  }

  /** A member never named as payer or participant keeps balance zero. */
  lemma {:induction false} UntouchedMemberIsZero(members: seq<Id>, es: seq<Expense>, m: Id)
    requires forall e :: e in es ==> WellFormed(members, e)
    requires m in members
    requires forall e :: e in es ==> e.payerId != m && m !in e.participants
    ensures ComputeBalances(members, es)[m] == 0.0
  {
    PaidOwedZero(es, m);
  }

  lemma {:induction false} PaidOwedZero(es: seq<Expense>, m: Id)
    requires forall e :: e in es ==> e.payerId != m && m !in e.participants
    ensures Paid(es, m) == 0.0 && Owed(es, m) == 0.0
  {
    if es != [] {
      assert forall x :: x in es[..|es| - 1] ==> x in es;
      PaidOwedZero(es[..|es| - 1], m);
      assert es[|es| - 1] in es;
    }
  }

  /** Sum of the record's entries for `keys`. */
  function SumOver(keys: seq<Id>, b: map<Id, real>): real
    requires forall k :: k in keys ==> k in b
  {
    if keys == [] then 0.0 else b[keys[0]] + SumOver(keys[1..], b)
  }

  lemma {:induction false} SumOverZero(keys: seq<Id>, b: map<Id, real>)
    requires forall k :: k in keys ==> k in b && b[k] == 0.0
    ensures SumOver(keys, b) == 0.0
  {
    if keys != [] {
      SumOverZero(keys[1..], b);
    }
  }

  /** Adding `d` to one entry adds `d` to the sum when that entry is summed (once). */
  lemma {:induction false} SumOverUpdate(keys: seq<Id>, b: map<Id, real>, k: Id, d: real)
    requires NoDuplicates(keys)
    requires forall x :: x in keys ==> x in b
    requires k in b
    ensures SumOver(keys, b[k := b[k] + d]) == SumOver(keys, b) + (if k in keys then d else 0.0)
  {
    if keys != [] {
      assert NoDuplicates(keys[1..]) by {
        forall i, j | 0 <= i < j < |keys[1..]| ensures keys[1..][i] != keys[1..][j] {
          assert keys[1..][i] == keys[i + 1] && keys[1..][j] == keys[j + 1];
        }
      }
      assert keys[0] !in keys[1..] by {
        forall i | 0 <= i < |keys[1..]| ensures keys[1..][i] != keys[0] {
          assert keys[1..][i] == keys[i + 1];
        }
      }
      SumOverUpdate(keys[1..], b, k, d);
      assert k in keys <==> k == keys[0] || k in keys[1..];
    }
  }

  /** Debiting a list is debiting its head, then its tail; the total debited grows by one share. */
  lemma DebitCons(b: map<Id, real>, ps: seq<Id>, share: real)
    requires ps != [] && forall p :: p in ps ==> p in b
    ensures Debit(b, ps, share) == Debit(b[ps[0] := b[ps[0]] - share], ps[1..], share)
    ensures Times(|ps|, share) == Times(|ps[1..]|, share) + share
  {
  }

  /** Taking one share from a listed member lowers the sum by that share. */
  lemma SumOverDebitOne(keys: seq<Id>, b: map<Id, real>, b': map<Id, real>, p: Id, share: real)
    requires NoDuplicates(keys)
    requires forall x :: x in keys ==> x in b
    requires p in keys && p in b && b' == b[p := b[p] - share]
    ensures forall x :: x in keys ==> x in b'
    ensures SumOver(keys, b') == SumOver(keys, b) - share
  {
    SumOverUpdate(keys, b, p, -share);
    assert b[p := b[p] + -share] == b';
  }

  lemma {:induction false} SumOverDebit(keys: seq<Id>, b: map<Id, real>, ps: seq<Id>, share: real)
    requires NoDuplicates(keys)
    requires forall x :: x in keys ==> x in b
    requires forall p :: p in ps ==> p in b && p in keys
    ensures SumOver(keys, Debit(b, ps, share)) == SumOver(keys, b) - Times(|ps|, share)
  {
    if ps != [] {
      var b' := b[ps[0] := b[ps[0]] - share];
      assert ps[0] in ps;
      SumOverDebitOne(keys, b, b', ps[0], share);
      assert forall p :: p in ps[1..] ==> p in ps;
      var rest := Debit(b', ps[1..], share);
      SumOverDebit(keys, b', ps[1..], share);
      DebitCons(b, ps, share);
      SumChain(keys, b, b', rest, Debit(b, ps, share), share, Times(|ps|, share), Times(|ps[1..]|, share));
    }
  }

  /** Two successive decreases of a sum, seen through an equal map. */
  lemma SumChain(keys: seq<Id>, b: map<Id, real>, b': map<Id, real>, rest: map<Id, real>, full: map<Id, real>,
                 share: real, t: real, t1: real)
    requires forall x :: x in keys ==> x in b && x in b' && x in rest
    requires full == rest
    requires SumOver(keys, b') == SumOver(keys, b) - share
    requires SumOver(keys, rest) == SumOver(keys, b') - t1
    requires t == t1 + share
    ensures SumOver(keys, full) == SumOver(keys, b) - t
  {
  }

  /** One expense leaves the sum unchanged: the payer gains what the participants lose. */
  lemma ApplyExpenseKeepsSum(keys: seq<Id>, b: map<Id, real>, e: Expense)
    requires NoDuplicates(keys)
    requires forall x :: x in keys ==> x in b
    requires e.payerId in keys && |e.participants| > 0
    requires forall p :: p in e.participants ==> p in keys
    ensures SumOver(keys, ApplyExpense(b, e)) == SumOver(keys, b)
  {
    var credited := b[e.payerId := b[e.payerId] + e.amount];
    var s0 := SumOver(keys, b);
    SumOverUpdate(keys, b, e.payerId, e.amount);
    var s1 := SumOver(keys, credited);
    assert s1 == s0 + e.amount;
    SumOverDebit(keys, credited, e.participants, Share(e));
    SharesAddUp(e);
    var s2 := SumOver(keys, Debit(credited, e.participants, Share(e)));
    assert s2 == s1 - e.amount;
  }

  /** The shares of one expense add up to its amount. */
  lemma SharesAddUp(e: Expense)
    requires |e.participants| > 0
    ensures Times(|e.participants|, Share(e)) == e.amount
  {
    var n := |e.participants| as real;
    TimesIsProduct(|e.participants|, Share(e));
    assert n * (e.amount / n) == e.amount;
  }

  /**
   * Zero-sum: when every expense is well formed, the balances of the distinct
   * members add up to exactly zero.
   */
  lemma {:induction false} ZeroSum(members: seq<Id>, es: seq<Expense>)
    requires forall e :: e in es ==> WellFormed(members, e)
    ensures SumOver(Dedup(members), ComputeBalances(members, es)) == 0.0
  {
    var keys := Dedup(members);
    if es == [] {
      SumOverZero(keys, ZeroBalances(members));
    } else {
      var init := es[..|es| - 1];
      var e := es[|es| - 1];
      assert forall x :: x in init ==> x in es;
      assert e in es;
      assert WellFormed(members, e);
      ZeroSum(members, init);
      ApplyExpenseKeepsSum(keys, ComputeBalances(members, init), e);
    }
  }
}
