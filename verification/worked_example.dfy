/** A worked example: A paid 30, B paid 10 and C paid nothing. The total
    is 40, the share 40/3, A is the only creditor, and the debtors are C
    (owing 40/3) then B (owing 10/3), most negative first. The loop sends
    40/3 from C to A, then 10/3 from B to A. */
module WorkedExample {
  import opened Sequences
  import opened AmountInput
  import opened FriendList
  import opened Calculator

  /** `[{A, 30}, {B, 10}, {C, 0}]`. */
  function ThreeFriends(): seq<Friend>
  {
    [Friend(1, "A", Some(30.0)), Friend(2, "B", Some(10.0)), Friend(3, "C", Some(0.0))]
  }

  /** The total is 40, the share 40/3, and the balances 50/3, -10/3 and -40/3. */
  lemma ExampleBalances()
    ensures Total(ThreeFriends()) == 40.0 && Share(ThreeFriends()) == 40.0 / 3.0
    ensures Balances(ThreeFriends(), Share(ThreeFriends())) == ExampleBs()
  {
    var fs := ThreeFriends();
    assert fs[..2][..1] == fs[..1];
    assert fs[..3][..2] == fs[..2];
    assert Total(fs[..1]) == 30.0;
    assert Total(fs[..2]) == 40.0;
    assert fs[..3] == fs;
    assert Total(fs) == 40.0;
  }

  /** The balances of `ThreeFriends`, in list order. */
  function ExampleBs(): seq<Balance>
  {
    [Balance("A", 50.0 / 3.0), Balance("B", -10.0 / 3.0), Balance("C", -40.0 / 3.0)]
  }

  /** Only A is above the share. */
  lemma ExampleCreditors()
    ensures Creditors(ExampleBs()) == [Balance("A", 50.0 / 3.0)]
  {
    var bs := ExampleBs();
    FilterOnly(bs, IsCreditor, 0);
    SortSortedIsIdentity([bs[0]], CreditorKey);
  }

  /** B and C are below the share, kept in list order ... */
  lemma ExampleDebtorsKept()
    ensures Filter(ExampleBs(), IsDebtor) == [Balance("B", -10.0 / 3.0), Balance("C", -40.0 / 3.0)]
  {
    var bs := ExampleBs();
    FilterAllBut(bs, IsDebtor, 0);
    assert RemoveAt(bs, 0) == [bs[1], bs[2]];
  }

  /** ... and sorted most negative first. */
  lemma ExampleDebtorsSorted()
    ensures SortBy([Balance("B", -10.0 / 3.0), Balance("C", -40.0 / 3.0)], DebtorKey)
      == [Balance("C", -40.0 / 3.0), Balance("B", -10.0 / 3.0)]
  {
    var b, c := Balance("B", -10.0 / 3.0), Balance("C", -40.0 / 3.0);
    assert [b, c][1..] == [c];
    SortSortedIsIdentity([c], DebtorKey);
  }

  lemma ExampleDebtors()
    ensures Debtors(ExampleBs()) == [Balance("C", -40.0 / 3.0), Balance("B", -10.0 / 3.0)]
  {
    ExampleDebtorsKept();
    ExampleDebtorsSorted();
  }

  /** Two rounds: C pays off all 40/3 and A keeps 10/3 to receive; then B
      pays its 10/3 and both pointers move past the ends. */
  lemma ExampleTrace()
    ensures Trace([Balance("C", -40.0 / 3.0), Balance("B", -10.0 / 3.0)], [Balance("A", 50.0 / 3.0)], 0, 0)
      == [Round(0, 0, 40.0 / 3.0), Round(1, 0, 10.0 / 3.0)]
  {
  }

  /** Both rounds are above the reporting threshold. */
  lemma ExampleReported()
    ensures Transfers([Round(0, 0, 40.0 / 3.0), Round(1, 0, 10.0 / 3.0)],
                      [Balance("C", -40.0 / 3.0), Balance("B", -10.0 / 3.0)], [Balance("A", 50.0 / 3.0)])
      == [Transfer("C", "A", 40.0 / 3.0), Transfer("B", "A", 10.0 / 3.0)]
  {
    var rs := [Round(0, 0, 40.0 / 3.0), Round(1, 0, 10.0 / 3.0)];
    assert rs[1..][1..] == [];
  }

  lemma ExampleRounds()
    ensures Rounds(ThreeFriends()) == [Round(0, 0, 40.0 / 3.0), Round(1, 0, 10.0 / 3.0)]
  {
    ExampleBalances();
    ExampleCreditors();
    ExampleDebtors();
    ExampleTrace();
  }

  lemma ExampleGroupTransfers()
    ensures GroupTransfers(ThreeFriends()) == [Transfer("C", "A", 40.0 / 3.0), Transfer("B", "A", 10.0 / 3.0)]
  {
    ExampleBalances();
    ExampleCreditors();
    ExampleDebtors();
    ExampleRounds();
    ExampleReported();
  }

  /** The whole result of `calculateSettlements` for the example. */
  lemma ExampleSettlement()
    ensures Calculate(ThreeFriends())
      == Settlement(40.0, 40.0 / 3.0, [Transfer("C", "A", 40.0 / 3.0), Transfer("B", "A", 10.0 / 3.0)])
  {
    ExampleBalances();
    ExampleGroupTransfers();
  }

  /** The decimal `12.5`, read from its digits. */
  lemma ExampleDecimal()
    ensures DecimalValue("12", "5") == 12.5
  {
    assert DigitsValue("12") == 12 by {
      assert "12"[..1] == "1";
    }
    assert DigitsValue("5") == 5 && Pow10(1) == 10;
  }

  /** Typing `12,5` stores 12.5: the comma is the decimal separator. */
  lemma ExampleCommaAmount()
    ensures AmountFromInput("12" + "," + "5") == 12.5
  {
    CommaIsDecimalPoint("12", "5");
    ExampleDecimal();
  }
}
