/** `calculateSettlements` (src/App.jsx): how much everyone paid, the even
    share, and the transfers that settle the group.

    Amounts are exact reals. The three tolerances of the source are kept
    apart: balances within `FilterTolerance` of zero are settled before the
    matching starts, a transfer is only reported above `EmitThreshold`, and a
    pointer moves on once its residual balance is within `AdvanceThreshold`
    of zero.

    The greedy two-pointer loop is modelled by `Trace`, which lists its
    rounds: the debtor index, the creditor index and the amount moved in
    each iteration. `Transfers` keeps the rounds the loop reports and names
    their endpoints. */
module Calculator {
  import opened Sequences
  import opened FriendList

  const FilterTolerance: real := 0.0001
  const EmitThreshold: real := 0.01
  const AdvanceThreshold: real := 0.01

  /** What one friend is owed (positive) or owes (negative). */
  datatype Balance = Balance(name: string, balance: real)

  /** One iteration of the matching loop: `amount` moves from
      `debtors[debtor]` to `creditors[creditor]`. */
  datatype Round = Round(debtor: nat, creditor: nat, amount: real)

  datatype Transfer = Transfer(from: string, to: string, amount: real)

  datatype Settlement = Settlement(total: real, perPerson: real, transfers: seq<Transfer>)

  /** `Number(f.amount) || 0`: an amount that is not a number counts as 0. */
  function Paid(f: Friend): real
  {
    match f.amount
    case Some(v) => v
    case None => 0.0
  }

  /** `friends.reduce((sum, f) => sum + paid(f), 0)`. */
  function Total(fs: seq<Friend>): real
    decreases |fs|
  {
    if fs == [] then 0.0 else Total(fs[..|fs| - 1]) + Paid(fs[|fs| - 1])
  }

  /** The even share, `total / friends.length`. */
  function Share(fs: seq<Friend>): real
    requires fs != []
  {
    Total(fs) / |fs| as real
  }

  /** Each friend's payment minus the share, in list order. */
  function Balances(fs: seq<Friend>, perPerson: real): (bs: seq<Balance>)
    ensures |bs| == |fs|
  {
    seq(|fs|, k requires 0 <= k < |fs| => Balance(fs[k].name, Paid(fs[k]) - perPerson))
  }

  function SumBalances(bs: seq<Balance>): real
    decreases |bs|
  {
    if bs == [] then 0.0 else SumBalances(bs[..|bs| - 1]) + bs[|bs| - 1].balance
  }

  lemma {:induction false} SumOfBalances(fs: seq<Friend>, perPerson: real)
    ensures SumBalances(Balances(fs, perPerson)) == Total(fs) - |fs| as real * perPerson
    decreases |fs|
  {
    if fs != [] {
      var n := |fs|;
      SumOfBalances(fs[..n - 1], perPerson);
      assert Balances(fs, perPerson)[..n - 1] == Balances(fs[..n - 1], perPerson);
    }
  }

  /** Exactly, the balances of a non-empty group add up to zero. */
  lemma BalancesSumToZero(fs: seq<Friend>)
    requires fs != []
    ensures SumBalances(Balances(fs, Share(fs))) == 0.0
  {
    SumOfBalances(fs, Share(fs));
    assert |fs| as real * Share(fs) == Total(fs);
  }

  predicate IsCreditor(b: Balance) { b.balance > FilterTolerance }

  predicate IsDebtor(b: Balance) { b.balance < -FilterTolerance }

  /** Sort key for `(a, b) => b.balance - a.balance`: largest balance first. */
  function CreditorKey(b: Balance): real { -b.balance }

  /** Sort key for `(a, b) => a.balance - b.balance`: most negative first. */
  function DebtorKey(b: Balance): real { b.balance }

  /** The balances above the tolerance, largest first. */
  function Creditors(bs: seq<Balance>): (cs: seq<Balance>)
    ensures forall x :: multiset(cs)[x] == if x.balance > FilterTolerance then multiset(bs)[x] else 0
    ensures forall a, b :: 0 <= a < b < |cs| ==> cs[a].balance >= cs[b].balance
    ensures forall k :: 0 <= k < |cs| ==> cs[k].balance > FilterTolerance
  {
    var kept := Filter(bs, IsCreditor);
    var cs := SortBy(kept, CreditorKey);
    assert forall k :: 0 <= k < |cs| ==> cs[k] in multiset(kept);
    cs
  }

  /** The balances below minus the tolerance, most negative first. */
  function Debtors(bs: seq<Balance>): (ds: seq<Balance>)
    ensures forall x :: multiset(ds)[x] == if x.balance < -FilterTolerance then multiset(bs)[x] else 0
    ensures forall a, b :: 0 <= a < b < |ds| ==> ds[a].balance <= ds[b].balance
    ensures forall k :: 0 <= k < |ds| ==> ds[k].balance < -FilterTolerance
  {
    var kept := Filter(bs, IsDebtor);
    var ds := SortBy(kept, DebtorKey);
    assert forall k :: 0 <= k < |ds| ==> ds[k] in multiset(kept);
    ds
  }

  /** Nobody is both a creditor and a debtor, and together they are at most
      the whole group. */
  lemma CreditorsDebtorsDisjoint(bs: seq<Balance>)
    ensures forall x :: x in Creditors(bs) ==> x !in Debtors(bs)
    ensures |Creditors(bs)| + |Debtors(bs)| <= |bs|
  {
    FilterDisjointLength(bs, IsCreditor, IsDebtor);
    forall x | x in Creditors(bs) ensures x !in Debtors(bs) {
      assert x in multiset(Creditors(bs));
    }
  }

  function Min(a: real, b: real): real { if a <= b then a else b }

  function Abs(x: real): real { if x < 0.0 then -x else x }

  /** The residual balances and pointers after one round from `(i, j)`. */
  datatype Step = Step(ds: seq<Balance>, cs: seq<Balance>, i: nat, j: nat)

  /** One iteration of the loop: it moves `min(creditor, -debtor)`, which
      zeroes one of the two residuals exactly, so at least one pointer
      advances; between a debtor at or below zero and a creditor at or above
      it, neither residual crosses zero; and every other entry is left
      alone. A pointer advances exactly when its residual is within
      `AdvanceThreshold` of 0. */
  function Next(ds: seq<Balance>, cs: seq<Balance>, i: nat, j: nat): (n: Step)
    requires i < |ds| && j < |cs|
    ensures |n.ds| == |ds| && |n.cs| == |cs|
    ensures n.i <= |n.ds| && n.j <= |n.cs|
    ensures forall k :: 0 <= k < |ds| ==> n.ds[k].name == ds[k].name
    ensures forall k :: 0 <= k < |cs| ==> n.cs[k].name == cs[k].name
    ensures n.ds[i].balance + n.cs[j].balance == ds[i].balance + cs[j].balance
    ensures n.ds[i].balance == 0.0 || n.cs[j].balance == 0.0
    ensures ds[i].balance <= 0.0 <= cs[j].balance ==> n.ds[i].balance <= 0.0 <= n.cs[j].balance
    ensures i <= n.i <= i + 1 && j <= n.j <= j + 1 && i + j < n.i + n.j
    ensures n.i == i + 1 <==> Abs(n.ds[i].balance) < AdvanceThreshold
    ensures n.j == j + 1 <==> Abs(n.cs[j].balance) < AdvanceThreshold
    ensures forall k :: 0 <= k < |ds| && k != i ==> n.ds[k] == ds[k]
    ensures forall k :: 0 <= k < |cs| && k != j ==> n.cs[k] == cs[k]
  {
    var amount := Min(cs[j].balance, -ds[i].balance);
    var d := ds[i].balance + amount;
    var c := cs[j].balance - amount;
    Step(ds[i := ds[i].(balance := d)], cs[j := cs[j].(balance := c)],
         if Abs(d) < AdvanceThreshold then i + 1 else i,
         if Abs(c) < AdvanceThreshold then j + 1 else j)
  }

  /** The rounds of the loop `while (i < debtors.length && j < creditors.length)`
      entered with the given lists and pointers: each round moves
      `min(creditor, -debtor)` and continues from `Next`. */
  function Trace(ds: seq<Balance>, cs: seq<Balance>, i: nat, j: nat): (t: seq<Round>)
    requires i <= |ds| && j <= |cs|
    ensures forall a :: 0 <= a < |t| ==> i <= t[a].debtor < |ds| && j <= t[a].creditor < |cs|
    ensures forall a, b :: 0 <= a < b < |t| ==>
      && t[a].debtor <= t[b].debtor
      && t[a].creditor <= t[b].creditor
      && t[a].debtor + t[a].creditor < t[b].debtor + t[b].creditor
    ensures |t| <= if i < |ds| && j < |cs| then (|ds| - i) + (|cs| - j) - 1 else 0
    decreases |ds| - i + |cs| - j
  {
    if i < |ds| && j < |cs| then
      var n := Next(ds, cs, i, j);
      [Round(i, j, Min(cs[j].balance, -ds[i].balance))] + Trace(n.ds, n.cs, n.i, n.j)
    else []
  }

  /** The reported transfers: the rounds moving more than `EmitThreshold`,
      named after their debtor and creditor. */
  function Transfers(rs: seq<Round>, ds: seq<Balance>, cs: seq<Balance>): (r: seq<Transfer>)
    requires forall a :: 0 <= a < |rs| ==> rs[a].debtor < |ds| && rs[a].creditor < |cs|
    ensures |r| <= |rs|
    decreases |rs|
  {
    if rs == [] then []
    else
      var round := rs[0];
      (if round.amount > EmitThreshold
       then [Transfer(ds[round.debtor].name, cs[round.creditor].name, round.amount)]
       else [])
      + Transfers(rs[1..], ds, cs)
  }

  /** Every reported transfer moves more than `EmitThreshold` from a debtor
      to a creditor. */
  lemma {:induction false} TransfersNamed(rs: seq<Round>, ds: seq<Balance>, cs: seq<Balance>)
    requires forall a :: 0 <= a < |rs| ==> rs[a].debtor < |ds| && rs[a].creditor < |cs|
    ensures forall t :: t in Transfers(rs, ds, cs) ==>
      && t.amount > EmitThreshold
      && (exists k :: 0 <= k < |ds| && ds[k].name == t.from)
      && (exists k :: 0 <= k < |cs| && cs[k].name == t.to)
    decreases |rs|
  {
    if rs != [] {
      TransfersNamed(rs[1..], ds, cs);
    }
  }

  /** The rounds the loop runs for a non-empty group. */
  function Rounds(fs: seq<Friend>): (t: seq<Round>)
    requires fs != []
    ensures forall a :: 0 <= a < |t| ==>
      t[a].debtor < |Debtors(Balances(fs, Share(fs)))| && t[a].creditor < |Creditors(Balances(fs, Share(fs)))|
    ensures |t| <= |fs| - 1
  {
    var bs := Balances(fs, Share(fs));
    CreditorsDebtorsDisjoint(bs);
    Trace(Debtors(bs), Creditors(bs), 0, 0)
  }

  lemma QuotientTimesDivisor(x: real, n: nat)
    requires n > 0
    ensures (x / n as real) * n as real == x
  {
  }

  lemma ShareTimesCount(fs: seq<Friend>)
    requires fs != []
    ensures Share(fs) * |fs| as real == Total(fs)
  {
    QuotientTimesDivisor(Total(fs), |fs|);
  }

  /** The transfers reported for a non-empty group. */
  function GroupTransfers(fs: seq<Friend>): (r: seq<Transfer>)
    requires fs != []
    ensures |r| <= |fs| - 1
  {
    var bs := Balances(fs, Share(fs));
    Transfers(Rounds(fs), Debtors(bs), Creditors(bs))
  }

  /** `calculateSettlements(friends)`. */
  function Calculate(fs: seq<Friend>): (s: Settlement)
    ensures fs == [] ==> s == Settlement(0.0, 0.0, [])
    ensures |s.transfers| <= if fs == [] then 0 else |fs| - 1
  {
    if fs == [] then Settlement(0.0, 0.0, [])
    else
      Settlement(Total(fs), Share(fs), GroupTransfers(fs))
  }
}
