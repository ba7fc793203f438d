/** What the settlement calculator guarantees, proved about the model in
    `Calculator`: the loop never pushes a residual balance across zero, it
    stops only when every debtor or every creditor is settled to within the
    advance threshold, equal payments need no transfers, and every reported
    transfer runs from someone below the share to someone above it. */
module SettlementProperties {
  import opened FriendList
  import opened Calculator

  /** What debtor `k` paid over the rounds `rs`, reported or not. */
  function PaidBy(rs: seq<Round>, k: nat): real
    decreases |rs|
  {
    if rs == [] then 0.0
    else (if rs[0].debtor == k then rs[0].amount else 0.0) + PaidBy(rs[1..], k)
  }

  /** What creditor `k` received over the rounds `rs`, reported or not. */
  function ReceivedBy(rs: seq<Round>, k: nat): real
    decreases |rs|
  {
    if rs == [] then 0.0
    else (if rs[0].creditor == k then rs[0].amount else 0.0) + ReceivedBy(rs[1..], k)
  }

  lemma {:induction false} PaidByAbsent(rs: seq<Round>, k: nat)
    requires forall a :: 0 <= a < |rs| ==> rs[a].debtor != k
    ensures PaidBy(rs, k) == 0.0
    decreases |rs|
  {
    if rs != [] {
      PaidByAbsent(rs[1..], k);
    }
  }

  lemma {:induction false} ReceivedByAbsent(rs: seq<Round>, k: nat)
    requires forall a :: 0 <= a < |rs| ==> rs[a].creditor != k
    ensures ReceivedBy(rs, k) == 0.0
    decreases |rs|
  {
    if rs != [] {
      ReceivedByAbsent(rs[1..], k);
    }
  }

  /** The loop stops only when either every debtor from `i` on has paid its
      debt to within `AdvanceThreshold`, or every creditor from `j` on has
      received its credit to within `AdvanceThreshold`. */
  lemma {:induction false} TraceSettles(ds: seq<Balance>, cs: seq<Balance>, i: nat, j: nat)
    requires i <= |ds| && j <= |cs|
    ensures
      || (forall k :: i <= k < |ds| ==> PaidBy(Trace(ds, cs, i, j), k) > -ds[k].balance - AdvanceThreshold)
      || (forall k :: j <= k < |cs| ==> ReceivedBy(Trace(ds, cs, i, j), k) > cs[k].balance - AdvanceThreshold)
    decreases |ds| - i + |cs| - j
  {
    if i < |ds| && j < |cs| {
      var n := Next(ds, cs, i, j);
      var ds', cs', i', j' := n.ds, n.cs, n.i, n.j;
      var rest := Trace(ds', cs', i', j');
      var t := Trace(ds, cs, i, j);
      assert t[1..] == rest;
      TraceSettles(ds', cs', i', j');
      if forall k :: i' <= k < |ds'| ==> PaidBy(rest, k) > -ds'[k].balance - AdvanceThreshold {
        forall k | i <= k < |ds| ensures PaidBy(t, k) > -ds[k].balance - AdvanceThreshold {
          if k == i && i' == i + 1 {
            PaidByAbsent(rest, i);
          }
        }
      } else {
        forall k | j <= k < |cs| ensures ReceivedBy(t, k) > cs[k].balance - AdvanceThreshold {
          if k == j && j' == j + 1 {
            ReceivedByAbsent(rest, j);
          }
        }
      }
    }
  }

  /** Debtors from `i` on are below zero and creditors from `j` on above it. */
  ghost predicate Signed(ds: seq<Balance>, cs: seq<Balance>, i: nat, j: nat)
  {
    && (forall k :: i <= k < |ds| ==> ds[k].balance < 0.0)
    && (forall k :: j <= k < |cs| ==> cs[k].balance > 0.0)
  }

  /** Residual balances never cross zero: every round moves a positive
      amount, no debtor pays more than it owes and no creditor receives more
      than it is owed. */
  lemma {:induction false} TraceNeverOverpays(ds: seq<Balance>, cs: seq<Balance>, i: nat, j: nat)
    requires i <= |ds| && j <= |cs|
    requires Signed(ds, cs, i, j)
    ensures forall a :: 0 <= a < |Trace(ds, cs, i, j)| ==> Trace(ds, cs, i, j)[a].amount > 0.0
    ensures forall k :: i <= k < |ds| ==> PaidBy(Trace(ds, cs, i, j), k) <= -ds[k].balance
    ensures forall k :: j <= k < |cs| ==> ReceivedBy(Trace(ds, cs, i, j), k) <= cs[k].balance
    decreases |ds| - i + |cs| - j
  {
    var t := Trace(ds, cs, i, j);
    if i < |ds| && j < |cs| {
      var n := Next(ds, cs, i, j);
      var ds', cs', i', j' := n.ds, n.cs, n.i, n.j;
      var rest := Trace(ds', cs', i', j');
      assert t[1..] == rest;
      assert Signed(ds', cs', i', j');
      TraceNeverOverpays(ds', cs', i', j');
      forall k | i <= k < |ds| ensures PaidBy(t, k) <= -ds[k].balance {
        if k == i && i' == i + 1 {
          PaidByAbsent(rest, i);
        }
      }
      forall k | j <= k < |cs| ensures ReceivedBy(t, k) <= cs[k].balance {
        if k == j && j' == j + 1 {
          ReceivedByAbsent(rest, j);
        }
      }
    } else {
      forall k | i <= k < |ds| ensures PaidBy(t, k) <= -ds[k].balance {
        PaidByAbsent(t, k);
      }
      forall k | j <= k < |cs| ensures ReceivedBy(t, k) <= cs[k].balance {
        ReceivedByAbsent(t, k);
      }
    }
  }

  /** For a whole group: every round moves a positive amount, nobody pays or
      receives more than their balance, and when the loop stops all debtors
      or all creditors are settled to within `AdvanceThreshold`. */
  lemma GroupRoundsSettle(fs: seq<Friend>)
    requires fs != []
    ensures
      var bs := Balances(fs, Share(fs));
      var ds, cs, t := Debtors(bs), Creditors(bs), Rounds(fs);
      && (forall a :: 0 <= a < |t| ==> t[a].amount > 0.0)
      && (forall k :: 0 <= k < |ds| ==> PaidBy(t, k) <= -ds[k].balance)
      && (forall k :: 0 <= k < |cs| ==> ReceivedBy(t, k) <= cs[k].balance)
      && (|| (forall k :: 0 <= k < |ds| ==> PaidBy(t, k) > -ds[k].balance - AdvanceThreshold)
          || (forall k :: 0 <= k < |cs| ==> ReceivedBy(t, k) > cs[k].balance - AdvanceThreshold))
  {
    var bs := Balances(fs, Share(fs));
    var ds, cs := Debtors(bs), Creditors(bs);
    TraceNeverOverpays(ds, cs, 0, 0);
    TraceSettles(ds, cs, 0, 0);
  }

  lemma {:induction false} TotalOfEqual(fs: seq<Friend>, a: real)
    requires forall k :: 0 <= k < |fs| ==> Paid(fs[k]) == a
    ensures Total(fs) == |fs| as real * a
    decreases |fs|
  {
    if fs != [] {
      TotalOfEqual(fs[..|fs| - 1], a);
    }
  }

  /** When everybody paid the same, that is the share, all balances are zero
      and no transfer is reported. */
  lemma EqualPaymentsNoTransfers(fs: seq<Friend>, a: real)
    requires forall k :: 0 <= k < |fs| ==> Paid(fs[k]) == a
    ensures fs != [] ==> Calculate(fs).perPerson == a
    ensures Calculate(fs).transfers == []
  {
    if fs != [] {
      TotalOfEqual(fs, a);
      assert Share(fs) == a;
      var bs := Balances(fs, Share(fs));
      assert forall k :: 0 <= k < |bs| ==> bs[k].balance == 0.0;
      forall x: Balance | x.balance != 0.0 ensures x !in bs {
      }
      assert multiset(Debtors(bs)) == multiset{};
      assert Rounds(fs) == [];
    }
  }

  /** Every debtor is one of the balances it was filtered from. */
  lemma DebtorOfBalances(bs: seq<Balance>, d: nat)
    requires d < |Debtors(bs)|
    ensures exists m :: 0 <= m < |bs| && bs[m] == Debtors(bs)[d]
  {
    var ds := Debtors(bs);
    assert ds[d] in multiset(ds);
    assert ds[d] in bs;
  }

  /** Every creditor is one of the balances it was filtered from. */
  lemma CreditorOfBalances(bs: seq<Balance>, c: nat)
    requires c < |Creditors(bs)|
    ensures exists m :: 0 <= m < |bs| && bs[m] == Creditors(bs)[c]
  {
    var cs := Creditors(bs);
    assert cs[c] in multiset(cs);
    assert cs[c] in bs;
  }

  /** A debtor of the group is a friend who paid less than the share by
      more than `FilterTolerance`; its balance is that friend's payment
      minus the share. */
  lemma DebtorIsFriend(fs: seq<Friend>, d: nat)
    requires fs != []
    requires d < |Debtors(Balances(fs, Share(fs)))|
    ensures exists k ::
      && 0 <= k < |fs|
      && fs[k].name == Debtors(Balances(fs, Share(fs)))[d].name
      && Debtors(Balances(fs, Share(fs)))[d].balance == Paid(fs[k]) - Share(fs)
      && Paid(fs[k]) - Share(fs) < -FilterTolerance
  {
    DebtorOfBalances(Balances(fs, Share(fs)), d);
  }

  /** A creditor of the group is a friend who paid more than the share by
      more than `FilterTolerance`; its balance is that friend's payment
      minus the share. */
  lemma CreditorIsFriend(fs: seq<Friend>, c: nat)
    requires fs != []
    requires c < |Creditors(Balances(fs, Share(fs)))|
    ensures exists k ::
      && 0 <= k < |fs|
      && fs[k].name == Creditors(Balances(fs, Share(fs)))[c].name
      && Creditors(Balances(fs, Share(fs)))[c].balance == Paid(fs[k]) - Share(fs)
      && Paid(fs[k]) - Share(fs) > FilterTolerance
  {
    CreditorOfBalances(Balances(fs, Share(fs)), c);
  }

  /** Every reported transfer is more than `EmitThreshold`, comes from a
      friend who paid less than the share by more than `FilterTolerance`, and
      goes to a friend who paid more than the share by more than it. */
  lemma TransferEndpoints(fs: seq<Friend>)
    requires fs != []
    ensures forall t :: t in Calculate(fs).transfers ==>
      && t.amount > EmitThreshold
      && (exists k :: 0 <= k < |fs| && fs[k].name == t.from && Paid(fs[k]) - Share(fs) < -FilterTolerance)
      && (exists k :: 0 <= k < |fs| && fs[k].name == t.to && Paid(fs[k]) - Share(fs) > FilterTolerance)
  {
    var bs := Balances(fs, Share(fs));
    var ds, cs := Debtors(bs), Creditors(bs);
    var transfers := Transfers(Rounds(fs), ds, cs);
    assert Calculate(fs).transfers == transfers;
    TransfersNamed(Rounds(fs), ds, cs);
    forall t | t in transfers
      ensures exists k :: 0 <= k < |fs| && fs[k].name == t.from && Paid(fs[k]) - Share(fs) < -FilterTolerance
      ensures exists k :: 0 <= k < |fs| && fs[k].name == t.to && Paid(fs[k]) - Share(fs) > FilterTolerance
    {
      var d :| 0 <= d < |ds| && ds[d].name == t.from;
      DebtorIsFriend(fs, d);
      var c :| 0 <= c < |cs| && cs[c].name == t.to;
      CreditorIsFriend(fs, c);
    }
  }

  /** When no remaining debtor owes more than `e`, no round moves more than `e`. */
  lemma {:induction false} TraceSmallDebts(ds: seq<Balance>, cs: seq<Balance>, i: nat, j: nat, e: real)
    requires i <= |ds| && j <= |cs|
    requires Signed(ds, cs, i, j)
    requires forall k :: i <= k < |ds| ==> ds[k].balance >= -e
    ensures forall a :: 0 <= a < |Trace(ds, cs, i, j)| ==> Trace(ds, cs, i, j)[a].amount <= e
    decreases |ds| - i + |cs| - j
  {
    if i < |ds| && j < |cs| {
      var n := Next(ds, cs, i, j);
      var ds', cs', i', j' := n.ds, n.cs, n.i, n.j;
      var rest := Trace(ds', cs', i', j');
      assert Signed(ds', cs', i', j');
      TraceSmallDebts(ds', cs', i', j', e);
    }
  }

  /** Rounds that all move at most `EmitThreshold` report nothing. */
  lemma {:induction false} SmallRoundsUnreported(rs: seq<Round>, ds: seq<Balance>, cs: seq<Balance>)
    requires forall a :: 0 <= a < |rs| ==> rs[a].debtor < |ds| && rs[a].creditor < |cs|
    requires forall a :: 0 <= a < |rs| ==> rs[a].amount <= EmitThreshold
    ensures Transfers(rs, ds, cs) == []
    decreases |rs|
  {
    if rs != [] {
      SmallRoundsUnreported(rs[1..], ds, cs);
    }
  }

  /** Nearly equal payments are settled: when nobody paid less than the
      share by more than `EmitThreshold`, no transfer is reported. */
  lemma NearlyEqualNoTransfers(fs: seq<Friend>)
    requires forall k :: 0 <= k < |fs| ==> Paid(fs[k]) >= Share(fs) - EmitThreshold
    ensures Calculate(fs).transfers == []
  {
    if fs != [] {
      var bs := Balances(fs, Share(fs));
      var ds, cs := Debtors(bs), Creditors(bs);
      forall k | 0 <= k < |ds| ensures ds[k].balance >= -EmitThreshold {
        DebtorIsFriend(fs, k);
      }
      TraceSmallDebts(ds, cs, 0, 0, EmitThreshold);
      SmallRoundsUnreported(Rounds(fs), ds, cs);
    }
  }
}
