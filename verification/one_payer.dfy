/** The scenario of one friend paying for everybody: with `n` friends and a
    payment `T` whose share `T / n` is above the reporting threshold, each of
    the others sends exactly `T / n` to the payer, in list order, and the
    transfers add up to `T - T / n`. */
module OnePayer {
  import opened Sequences
  import opened FriendList
  import opened Calculator

  function SumAmounts(ts: seq<Transfer>): real
    decreases |ts|
  {
    if ts == [] then 0.0 else ts[0].amount + SumAmounts(ts[1..])
  }

  /** `m` copies of `x` added up; equal to `m * x` (`TimesIsProduct`) but
      unfolded one addition at a time, which keeps the loop proofs linear. */
  function Times(m: nat, x: real): real
    decreases m
  {
    if m == 0 then 0.0 else Times(m - 1, x) + x
  }

  lemma {:induction false} TimesIsProduct(m: nat, x: real)
    ensures Times(m, x) == m as real * x
    decreases m
  {
    if m > 0 {
      TimesIsProduct(m - 1, x);
      assert m as real * x == (m - 1) as real * x + x;
    }
  }

  lemma {:induction false} TimesAtLeast(m: nat, x: real)
    requires x >= 0.0
    ensures Times(m, x) >= 0.0
    ensures m >= 1 ==> Times(m, x) >= x
    decreases m
  {
    if m > 0 {
      TimesAtLeast(m - 1, x);
    }
  }

  /** One round of the loop in that situation: the debtor pays `share` and
      moves on; the creditor moves on only once nothing is left. */
  lemma {:induction false} SinglePayeeStep(ds: seq<Balance>, cs: seq<Balance>, i: nat, share: real)
    requires |cs| == 1 && i < |ds|
    requires share >= AdvanceThreshold
    requires ds[i].balance == -share
    requires cs[0].balance == Times(|ds| - i, share)
    ensures Min(cs[0].balance, -ds[i].balance) == share
    ensures Next(ds, cs, i, 0)
      == Step(ds[i := ds[i].(balance := 0.0)], cs[0 := cs[0].(balance := Times(|ds| - i - 1, share))],
              i + 1, if |ds| - i == 1 then 1 else 0)
  {
    TimesAtLeast(|ds| - i, share);
    TimesAtLeast(|ds| - i - 1, share);
  }

  /** Rounds of the loop when every remaining debtor owes `share` and the only
      creditor is owed exactly what they owe together: one round per debtor,
      each moving `share`. */
  lemma {:induction false} TraceSinglePayee(ds: seq<Balance>, cs: seq<Balance>, i: nat, share: real)
    requires |cs| == 1 && i < |ds|
    requires share >= AdvanceThreshold
    requires forall k :: i <= k < |ds| ==> ds[k].balance == -share
    requires cs[0].balance == Times(|ds| - i, share)
    ensures |Trace(ds, cs, i, 0)| == |ds| - i
    ensures forall a :: 0 <= a < |ds| - i ==> Trace(ds, cs, i, 0)[a] == Round(i + a, 0, share)
    decreases |ds| - i
  {
    var m := |ds| - i;
    SinglePayeeStep(ds, cs, i, share);
    var ds' := ds[i := ds[i].(balance := 0.0)];
    var cs' := cs[0 := cs[0].(balance := Times(m - 1, share))];
    var t := Trace(ds, cs, i, 0);
    if m == 1 {
      assert t == [Round(i, 0, share)];
    } else {
      var rest := Trace(ds', cs', i + 1, 0);
      assert t == [Round(i, 0, share)] + rest;
      TraceSinglePayee(ds', cs', i + 1, share);
      forall a | 0 <= a < m ensures t[a] == Round(i + a, 0, share) {
        if a > 0 {
          assert t[a] == rest[a - 1];
        }
      }
    }
  }

  /** When every round is above the reporting threshold, every round is
      reported, in order. */
  lemma {:induction false} AllRoundsReported(rs: seq<Round>, ds: seq<Balance>, cs: seq<Balance>)
    requires forall a :: 0 <= a < |rs| ==> rs[a].debtor < |ds| && rs[a].creditor < |cs|
    requires forall a :: 0 <= a < |rs| ==> rs[a].amount > EmitThreshold
    ensures |Transfers(rs, ds, cs)| == |rs|
    ensures forall a :: 0 <= a < |rs| ==>
      Transfers(rs, ds, cs)[a] == Transfer(ds[rs[a].debtor].name, cs[rs[a].creditor].name, rs[a].amount)
    decreases |rs|
  {
    if rs != [] {
      AllRoundsReported(rs[1..], ds, cs);
    }
  }

  lemma {:induction false} SumOfEqualAmounts(ts: seq<Transfer>, x: real)
    requires forall a :: 0 <= a < |ts| ==> ts[a].amount == x
    ensures SumAmounts(ts) == Times(|ts|, x)
    decreases |ts|
  {
    if ts != [] {
      SumOfEqualAmounts(ts[1..], x);
      AddLast(|ts| - 1, x);
    }
  }

  /** `Times` can be unfolded at either end. */
  lemma {:induction false} AddLast(m: nat, x: real)
    ensures Times(m + 1, x) == x + Times(m, x)
  {
  }

  lemma {:induction false} TotalOnePayer(fs: seq<Friend>, p: nat, m: nat)
    requires p < |fs| && m <= |fs|
    requires forall k :: 0 <= k < |fs| && k != p ==> Paid(fs[k]) == 0.0
    ensures Total(fs[..m]) == if p < m then Paid(fs[p]) else 0.0
    decreases m
  {
    if m > 0 {
      assert fs[..m][..m - 1] == fs[..m - 1];
      TotalOnePayer(fs, p, m - 1);
    }
  }

  /** The share of one payment `total` split `n` ways is above the reporting
      threshold, and the payer gets back `n - 1` shares. */
  lemma PayerArithmetic(total: real, n: nat)
    requires n >= 2 && total > EmitThreshold * n as real
    ensures total / n as real > EmitThreshold
    ensures total - total / n as real == Times(n - 1, total / n as real)
  {
    var share := total / n as real;
    QuotientTimesDivisor(total, n);
    assert total == n as real * share;
    assert (share - EmitThreshold) * n as real > 0.0;
    assert total - share == (n - 1) as real * share;
    TimesIsProduct(n - 1, share);
  }

  /** The share of the scenario is the payment split `n` ways. */
  lemma OnePayerShare(fs: seq<Friend>, p: nat)
    requires p < |fs|
    requires forall k :: 0 <= k < |fs| && k != p ==> Paid(fs[k]) == 0.0
    ensures Share(fs) == Paid(fs[p]) / |fs| as real
  {
    TotalOnePayer(fs, p, |fs|);
    assert fs[..|fs|] == fs;
  }

  /** The balances of the scenario: the payer is owed `n - 1` shares,
      everybody else owes one. */
  lemma OnePayerBalances(fs: seq<Friend>, p: nat)
    requires 2 <= |fs| && p < |fs|
    requires forall k :: 0 <= k < |fs| && k != p ==> Paid(fs[k]) == 0.0
    requires Paid(fs[p]) > EmitThreshold * |fs| as real
    ensures Share(fs) == Paid(fs[p]) / |fs| as real
    ensures Share(fs) > EmitThreshold
    ensures var bs := Balances(fs, Share(fs));
      && bs[p].balance == Times(|fs| - 1, Share(fs))
      && (forall k :: 0 <= k < |bs| && k != p ==> bs[k].balance == -Share(fs))
  {
    OnePayerShare(fs, p);
    PayerArithmetic(Paid(fs[p]), |fs|);
  }

  /** With every balance but the one at `p` equal to `-share` and that one
      positive, the payer is the only creditor. */
  lemma CreditorsOfOnePayer(bs: seq<Balance>, p: nat, share: real)
    requires p < |bs|
    requires share > EmitThreshold
    requires bs[p].balance >= share
    requires forall k :: 0 <= k < |bs| && k != p ==> bs[k].balance == -share
    ensures Creditors(bs) == [bs[p]]
  {
    FilterOnly(bs, IsCreditor, p);
    SortSortedIsIdentity([bs[p]], CreditorKey);
  }

  /** ... and everybody else is a debtor, in list order: their balances are
      equal, so the stable sort keeps them where they are. */
  lemma DebtorsOfOnePayer(bs: seq<Balance>, p: nat, share: real)
    requires p < |bs|
    requires share > EmitThreshold
    requires bs[p].balance >= share
    requires forall k :: 0 <= k < |bs| && k != p ==> bs[k].balance == -share
    ensures Debtors(bs) == RemoveAt(bs, p)
  {
    FilterAllBut(bs, IsDebtor, p);
    SortSortedIsIdentity(RemoveAt(bs, p), DebtorKey);
  }

  lemma OthersOweShare(bs: seq<Balance>, p: nat, share: real)
    requires p < |bs|
    requires forall k :: 0 <= k < |bs| && k != p ==> bs[k].balance == -share
    ensures forall k :: 0 <= k < |bs| - 1 ==> RemoveAt(bs, p)[k].balance == -share
  {
    var ds := RemoveAt(bs, p);
    forall k | 0 <= k < |ds| ensures ds[k].balance == -share {
      if k < p {
        assert ds[k] == bs[k];
      } else {
        assert ds[k] == bs[k + 1];
      }
    }
  }

  lemma SinglePayeeTrace(bs: seq<Balance>, p: nat, share: real)
    requires 2 <= |bs| && p < |bs|
    requires share > EmitThreshold
    requires bs[p].balance == Times(|bs| - 1, share)
    requires forall k :: 0 <= k < |bs| && k != p ==> bs[k].balance == -share
    ensures var t := Trace(RemoveAt(bs, p), [bs[p]], 0, 0);
      && |t| == |bs| - 1
      && forall a :: 0 <= a < |t| ==> t[a] == Round(a, 0, share)
  {
    var ds, cs := RemoveAt(bs, p), [bs[p]];
    OthersOweShare(bs, p, share);
    assert cs[0].balance == Times(|ds| - 0, share);
    TraceSinglePayee(ds, cs, 0, share);
  }

  /** In such a group the payer is the only creditor and everybody else is a
      debtor, in list order. */
  lemma SinglePayeeSides(bs: seq<Balance>, p: nat, share: real)
    requires 2 <= |bs| && p < |bs|
    requires share > EmitThreshold
    requires bs[p].balance == Times(|bs| - 1, share)
    requires forall k :: 0 <= k < |bs| && k != p ==> bs[k].balance == -share
    ensures Creditors(bs) == [bs[p]]
    ensures Debtors(bs) == RemoveAt(bs, p)
  {
    TimesAtLeast(|bs| - 1, share);
    CreditorsOfOnePayer(bs, p, share);
    DebtorsOfOnePayer(bs, p, share);
  }

  /** Rounds that each move `share` from debtor `a` to the only creditor are
      all reported, as transfers from the debtors in order. */
  lemma {:induction false} SinglePayeeReported(rs: seq<Round>, ds: seq<Balance>, cs: seq<Balance>, share: real)
    requires |cs| == 1 && |rs| == |ds|
    requires share > EmitThreshold
    requires forall a :: 0 <= a < |rs| ==> rs[a] == Round(a, 0, share)
    ensures |Transfers(rs, ds, cs)| == |ds|
    ensures forall a :: 0 <= a < |ds| ==> Transfers(rs, ds, cs)[a] == Transfer(ds[a].name, cs[0].name, share)
  {
    AllRoundsReported(rs, ds, cs);
  }

  /** `n - 1` transfers of `total / n` each add up to `total - total / n`. */
  lemma EqualSharesSum(ts: seq<Transfer>, total: real, n: nat)
    requires n >= 1
    requires |ts| == n - 1
    requires forall a :: 0 <= a < |ts| ==> ts[a].amount == total / n as real
    ensures SumAmounts(ts) == total - total / n as real
  {
    var share := total / n as real;
    SumOfEqualAmounts(ts, share);
    TimesIsProduct(n - 1, share);
    QuotientTimesDivisor(total, n);
    assert (n - 1) as real * share == n as real * share - share;
  }

  /** The transfers expected when the payer at `p` is owed by everybody
      else: one of `share` from each of the others, in list order. */
  function PayBack(bs: seq<Balance>, p: nat, share: real): (ts: seq<Transfer>)
    requires p < |bs|
    ensures |ts| == |bs| - 1
  {
    seq(|bs| - 1, a requires 0 <= a < |bs| - 1 => Transfer(RemoveAt(bs, p)[a].name, bs[p].name, share))
  }

  /** The transfers of such a group are exactly the expected pay-back. */
  lemma SinglePayeeNames(bs: seq<Balance>, p: nat, share: real)
    requires 2 <= |bs| && p < |bs|
    requires share > EmitThreshold
    requires bs[p].balance == Times(|bs| - 1, share)
    requires forall k :: 0 <= k < |bs| && k != p ==> bs[k].balance == -share
    ensures var ds, cs := RemoveAt(bs, p), [bs[p]];
      Transfers(Trace(ds, cs, 0, 0), ds, cs) == PayBack(bs, p, share)
  {
    SinglePayeeTrace(bs, p, share);
    var ds, cs := RemoveAt(bs, p), [bs[p]];
    SinglePayeeReported(Trace(ds, cs, 0, 0), ds, cs, share);
  }

  /** The group transfers of the scenario are the pay-back to the payer. */
  lemma OnePayerLoop(fs: seq<Friend>, p: nat)
    requires 2 <= |fs| && p < |fs|
    requires forall k :: 0 <= k < |fs| && k != p ==> Paid(fs[k]) == 0.0
    requires Paid(fs[p]) > EmitThreshold * |fs| as real
    ensures GroupTransfers(fs) == PayBack(Balances(fs, Share(fs)), p, Share(fs))
  {
    OnePayerBalances(fs, p);
    var bs := Balances(fs, Share(fs));
    SinglePayeeSides(bs, p, Share(fs));
    SinglePayeeNames(bs, p, Share(fs));
  }

  /** The pay-back of a group's balances, named after the friends. */
  lemma PayBackNames(fs: seq<Friend>, perPerson: real, p: nat, share: real)
    requires p < |fs|
    ensures var ts := PayBack(Balances(fs, perPerson), p, share);
      && |ts| == |fs| - 1
      && forall a :: 0 <= a < |fs| - 1 ==> ts[a] == Transfer(RemoveAt(fs, p)[a].name, fs[p].name, share)
  {
    var bs := Balances(fs, perPerson);
    forall a | 0 <= a < |fs| - 1 ensures RemoveAt(fs, p)[a].name == RemoveAt(bs, p)[a].name {
    }
  }

  /** The transfers of the scenario, friend by friend. */
  lemma OnePayerTransfers(fs: seq<Friend>, p: nat)
    requires 2 <= |fs| && p < |fs|
    requires forall k :: 0 <= k < |fs| && k != p ==> Paid(fs[k]) == 0.0
    requires Paid(fs[p]) > EmitThreshold * |fs| as real
    ensures var ts := GroupTransfers(fs);
      && |ts| == |fs| - 1
      && forall a :: 0 <= a < |fs| - 1 ==> ts[a] == Transfer(RemoveAt(fs, p)[a].name, fs[p].name, Share(fs))
  {
    OnePayerLoop(fs, p);
    PayBackNames(fs, Share(fs), p, Share(fs));
  }

  /** One friend paid `T`, the others nothing: friend by friend in list
      order, each of the others sends `T / n` to the payer. By
      `EqualSharesSum` these `n - 1` transfers add up to `T - T / n`, all of
      the payment but the payer's own share. */
  lemma OnePayerSettlement(fs: seq<Friend>, p: nat)
    requires 2 <= |fs| && p < |fs|
    requires forall k :: 0 <= k < |fs| && k != p ==> Paid(fs[k]) == 0.0
    requires Paid(fs[p]) > EmitThreshold * |fs| as real
    ensures var s := Calculate(fs);
      && s.perPerson == Paid(fs[p]) / |fs| as real
      && |s.transfers| == |fs| - 1
      && (forall a :: 0 <= a < |fs| - 1 ==>
            s.transfers[a] == Transfer(RemoveAt(fs, p)[a].name, fs[p].name, s.perPerson))
  {
    OnePayerShare(fs, p);
    OnePayerTransfers(fs, p);
  }
}
