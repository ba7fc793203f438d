/** `calculateSettlements` as the source writes it: a summing loop for the
    total and the two-pointer `while` loop that updates the residual
    balances in place and pushes a transfer whenever a round moves more than
    `EmitThreshold`. The method is proved to compute exactly the functional
    model `Calculator.Calculate`. */
module SettleLoop {
  import opened FriendList
  import opened Calculator

  /** The transfers only read the names of the lists they index. */
  lemma {:induction false} TransfersReadNames(rs: seq<Round>, ds: seq<Balance>, cs: seq<Balance>, ds': seq<Balance>, cs': seq<Balance>)
    requires |ds| == |ds'| && |cs| == |cs'|
    requires forall k :: 0 <= k < |ds| ==> ds[k].name == ds'[k].name
    requires forall k :: 0 <= k < |cs| ==> cs[k].name == cs'[k].name
    requires forall a :: 0 <= a < |rs| ==> rs[a].debtor < |ds| && rs[a].creditor < |cs|
    ensures Transfers(rs, ds, cs) == Transfers(rs, ds', cs')
    decreases |rs|
  {
    if rs != [] {
      TransfersReadNames(rs[1..], ds, cs, ds', cs');
    }
  }

  /** The transfers of `[r] + rest` are those of `r` followed by those of `rest`. */
  lemma TransfersCons(r: Round, rest: seq<Round>, ds: seq<Balance>, cs: seq<Balance>)
    requires r.debtor < |ds| && r.creditor < |cs|
    requires forall a :: 0 <= a < |rest| ==> rest[a].debtor < |ds| && rest[a].creditor < |cs|
    ensures Transfers([r] + rest, ds, cs)
      == (if r.amount > EmitThreshold then [Transfer(ds[r.debtor].name, cs[r.creditor].name, r.amount)] else [])
         + Transfers(rest, ds, cs)
  {
    assert ([r] + rest)[1..] == rest;
  }

  /** What one round of the loop reports: at most one transfer, from
      `ds[i]` to `cs[j]`. */
  function Emitted(ds: seq<Balance>, cs: seq<Balance>, i: nat, j: nat): (r: seq<Transfer>)
    requires i < |ds| && j < |cs|
    ensures |r| <= 1
    ensures r != [] <==> Min(cs[j].balance, -ds[i].balance) > EmitThreshold
    ensures forall t :: t in r ==>
      t.from == ds[i].name && t.to == cs[j].name && t.amount == Min(cs[j].balance, -ds[i].balance) > EmitThreshold
  {
    var amount := Min(cs[j].balance, -ds[i].balance);
    if amount > EmitThreshold then [Transfer(ds[i].name, cs[j].name, amount)] else []
  }

  /** One iteration of the loop: the transfers still to come from `(i, j)`
      are this round's transfer followed by those still to come from the
      next step. */
  lemma LoopStep(ds: seq<Balance>, cs: seq<Balance>, i: nat, j: nat)
    requires i < |ds| && j < |cs|
    ensures
      var n := Next(ds, cs, i, j);
      Transfers(Trace(ds, cs, i, j), ds, cs) == Emitted(ds, cs, i, j) + Transfers(Trace(n.ds, n.cs, n.i, n.j), n.ds, n.cs)
  {
    var n := Next(ds, cs, i, j);
    var rest := Trace(n.ds, n.cs, n.i, n.j);
    var r := Round(i, j, Min(cs[j].balance, -ds[i].balance));
    TransfersCons(r, rest, ds, cs);
    TransfersReadNames(rest, ds, cs, n.ds, n.cs);
  }

  lemma ConcatAssoc<T>(a: seq<T>, b: seq<T>, c: seq<T>)
    ensures (a + b) + c == a + (b + c)
  {
  }

  /** `friends.reduce((sum, f) => sum + (Number(f.amount) || 0), 0)`. */
  method SumPaid(fs: seq<Friend>) returns (total: real)
    ensures total == Total(fs)
  {
    total := 0.0;
    var k := 0;
    while k < |fs|
      invariant k <= |fs|
      invariant total == Total(fs[..k])
    {
      assert fs[..k + 1][..k] == fs[..k];
      total := total + Paid(fs[k]);
      k := k + 1;
    }
    assert fs[..|fs|] == fs;
  }

  /** The body of the loop: push the transfer if it is above
      `EmitThreshold`, move `amount` between the two residual balances, and
      advance each pointer whose residual is within `AdvanceThreshold` of 0. */
  method RunRound(debtors: seq<Balance>, creditors: seq<Balance>, i: nat, j: nat)
    returns (emitted: seq<Transfer>, debtors': seq<Balance>, creditors': seq<Balance>, i': nat, j': nat)
    requires i < |debtors| && j < |creditors|
    ensures |emitted| <= 1
    ensures emitted != [] <==> Min(creditors[j].balance, -debtors[i].balance) > EmitThreshold
    ensures forall t :: t in emitted ==>
      t.from == debtors[i].name && t.to == creditors[j].name && t.amount > EmitThreshold
    ensures |debtors'| == |debtors| && |creditors'| == |creditors|
    ensures debtors'[i].balance == 0.0 || creditors'[j].balance == 0.0
    ensures debtors'[i].balance + creditors'[j].balance == debtors[i].balance + creditors[j].balance
    ensures i <= i' <= i + 1 && j <= j' <= j + 1 && i + j < i' + j'
    ensures emitted == Emitted(debtors, creditors, i, j)
    ensures Step(debtors', creditors', i', j') == Next(debtors, creditors, i, j)
  {
    var amount := Min(creditors[j].balance, -debtors[i].balance);
    emitted := [];
    if amount > EmitThreshold {
      emitted := [Transfer(debtors[i].name, creditors[j].name, amount)];
    }
    debtors' := debtors[i := debtors[i].(balance := debtors[i].balance + amount)];
    creditors' := creditors[j := creditors[j].(balance := creditors[j].balance - amount)];
    i', j' := i, j;
    if Abs(debtors'[i].balance) < AdvanceThreshold {
      i' := i + 1;
    }
    if Abs(creditors'[j].balance) < AdvanceThreshold {
      j' := j + 1;
    }
  }

  /** The `while (i < debtors.length && j < creditors.length)` loop: it
      returns the transfers the rounds of `Trace` report. */
  method Match(debtors0: seq<Balance>, creditors0: seq<Balance>) returns (transfers: seq<Transfer>)
    ensures transfers == Transfers(Trace(debtors0, creditors0, 0, 0), debtors0, creditors0)
  {
    var debtors, creditors := debtors0, creditors0;
    transfers := [];
    var i: nat, j: nat := 0, 0;
    while i < |debtors| && j < |creditors|
      invariant i <= |debtors| && j <= |creditors|
      invariant transfers + Transfers(Trace(debtors, creditors, i, j), debtors, creditors)
        == Transfers(Trace(debtors0, creditors0, 0, 0), debtors0, creditors0)
      decreases |debtors| - i + |creditors| - j
    {
      LoopStep(debtors, creditors, i, j);
      var emitted, debtors', creditors', i', j' := RunRound(debtors, creditors, i, j);
      ConcatAssoc(transfers, emitted, Transfers(Trace(debtors', creditors', i', j'), debtors', creditors'));
      transfers := transfers + emitted;
      debtors, creditors, i, j := debtors', creditors', i', j';
    }
  }

  /** `calculateSettlements(friends)`, loop for loop. */
  method CalculateSettlements(fs: seq<Friend>) returns (s: Settlement)
    ensures s == Calculate(fs)
  {
    if |fs| == 0 {
      return Settlement(0.0, 0.0, []);
    }
    var total := SumPaid(fs);
    var perPerson := total / |fs| as real;
    var balances := Balances(fs, perPerson);
    var creditors := Creditors(balances);
    var debtors := Debtors(balances);
    var transfers := Match(debtors, creditors);
    s := Settlement(total, perPerson, transfers);
  }
}
