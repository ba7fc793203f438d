/** The amount text field: the character cleanup done before an amount is
    stored (src/App.jsx `handleAmountChange` and `handleAddFriend`) and the
    JavaScript `Number(...)` conversion applied to its result.

    After cleanup a string only holds the characters `0-9 . , -`. Over that
    alphabet `Number(s)` is 0 for the empty string, the decimal value of
    `-?(D+(.D*)?|.D+)` (D a digit), and NaN for everything else. NaN is
    modelled as `None`. */
module AmountInput {
  import opened Sequences

  datatype Option<T> = None | Some(value: T)

  /** The cleanup keeps at most this many characters (`.slice(0, 8)`). */
  const MaxInputLength: nat := 8

  predicate IsDigit(c: char) { '0' <= c <= '9' }

  /** Characters the cleanup keeps (`/[^0-9.,-]/g` removes the rest). */
  predicate IsAmountChar(c: char) { IsDigit(c) || c == '.' || c == ',' || c == '-' }

  predicate AllDigits(s: string) { forall k :: 0 <= k < |s| ==> IsDigit(s[k]) }

  /** Drops every character outside `0-9 . , -` and keeps the first eight
      of what is left. */
  function Clean(s: string): (r: string)
    ensures |r| <= MaxInputLength
    ensures forall k :: 0 <= k < |r| ==> IsAmountChar(r[k])
    ensures r <= Filter(s, IsAmountChar)
    ensures |r| == MaxInputLength || r == Filter(s, IsAmountChar)
  {
    var kept := Filter(s, IsAmountChar);
    if |kept| <= MaxInputLength then kept else kept[..MaxInputLength]
  }

  /** A string that is already clean is its own cleanup. */
  lemma CleanFixesCleanStrings(s: string)
    requires |s| <= MaxInputLength
    requires forall k :: 0 <= k < |s| ==> IsAmountChar(s[k])
    ensures Clean(s) == s
  {
    FilterAll(s, IsAmountChar);
  }

  /** Cleaning twice is cleaning once. */
  lemma CleanIdempotent(s: string)
    ensures Clean(Clean(s)) == Clean(s)
  {
    CleanFixesCleanStrings(Clean(s));
  }

  /** `s.replace(',', '.')`: a string pattern replaces only its first occurrence. */
  function ReplaceFirstComma(s: string): (r: string)
    ensures |r| == |s|
    ensures forall k :: 0 <= k < |s| ==>
      r[k] == if s[k] == ',' && ',' !in s[..k] then '.' else s[k]
    decreases |s|
  {
    if s == [] then []
    else if s[0] == ',' then
      assert forall k :: 0 < k < |s| ==> ',' in s[..k] by {
        forall k | 0 < k < |s| ensures ',' in s[..k] { assert s[..k][0] == ','; }
      }
      ['.'] + s[1..]
    else
      var rest := ReplaceFirstComma(s[1..]);
      assert forall k :: 0 < k < |s| ==> (',' in s[..k] <==> ',' in s[1..][..k - 1]) by {
        forall k | 0 < k < |s| ensures ',' in s[..k] <==> ',' in s[1..][..k - 1] {
          assert s[..k] == [s[0]] + s[1..][..k - 1];
        }
      }
      [s[0]] + rest
  }

  /** The comma replacement leaves one comma fewer when there is one. */
  lemma {:induction false} ReplaceFirstCommaCount(s: string)
    ensures multiset(ReplaceFirstComma(s))[','] ==
      if ',' in s then multiset(s)[','] - 1 else 0
    decreases |s|
  {
    if s != [] {
      assert s == [s[0]] + s[1..];
      if s[0] == ',' {
        assert ReplaceFirstComma(s) == ['.'] + s[1..];
      } else {
        ReplaceFirstCommaCount(s[1..]);
        assert ReplaceFirstComma(s) == [s[0]] + ReplaceFirstComma(s[1..]);
      }
    }
  }

  function DigitValue(c: char): nat
    requires IsDigit(c)
  {
    c as int - '0' as int
  }

  function Pow10(n: nat): (r: nat)
    ensures r >= 1
  {
    if n == 0 then 1 else 10 * Pow10(n - 1)
  }

  /** The value of a digit string read in base ten, most significant first. */
  function DigitsValue(s: string): (r: nat)
    requires AllDigits(s)
    ensures r < Pow10(|s|)
    decreases |s|
  {
    if s == [] then 0 else 10 * DigitsValue(s[..|s| - 1]) + DigitValue(s[|s| - 1])
  }

  /** Length of the longest all-digit prefix of `s`. */
  function LeadingDigits(s: string): (n: nat)
    ensures n <= |s|
    ensures AllDigits(s[..n])
    ensures n < |s| ==> !IsDigit(s[n])
    decreases |s|
  {
    if s != [] && IsDigit(s[0]) then
      var n := 1 + LeadingDigits(s[1..]);
      assert s[..n] == [s[0]] + s[1..][..n - 1];
      n
    else 0
  }

  /** `Number` of an unsigned decimal literal `D+(.D*)?` or `.D+`. */
  function ParseUnsigned(s: string): (r: Option<real>)
    ensures r.Some? ==> 0.0 <= r.value < Pow10(|s|) as real
  {
    var k := LeadingDigits(s);
    if k == |s| then
      if k > 0 then Some(DigitsValue(s) as real) else None
    else if s[k] == '.' && AllDigits(s[k + 1..]) && (k > 0 || k + 1 < |s|) then
      WholeBelowPower(s, k);
      Some(DecimalValue(s[..k], s[k + 1..]))
    else None
  }

  /** The value of the decimal literal `whole.fraction`. */
  function DecimalValue(whole: string, fraction: string): (r: real)
    requires AllDigits(whole) && AllDigits(fraction)
    ensures DigitsValue(whole) as real <= r < DigitsValue(whole) as real + 1.0
  {
    FractionBelowOne(fraction);
    DigitsValue(whole) as real + DigitsValue(fraction) as real / Pow10(|fraction|) as real
  }

  lemma FractionBelowOne(f: string)
    requires AllDigits(f)
    ensures 0.0 <= DigitsValue(f) as real / Pow10(|f|) as real < 1.0
  {
    RatioBelowOne(DigitsValue(f), Pow10(|f|));
  }

  lemma RatioBelowOne(d: nat, p: nat)
    requires d < p
    ensures 0.0 <= d as real / p as real < 1.0
  {
    var q := d as real / p as real;
    assert q * p as real == d as real;
  }

  lemma {:induction false} PowMonotone(a: nat, b: nat)
    requires a <= b
    ensures Pow10(a) <= Pow10(b)
    decreases b
  {
    if a < b {
      PowMonotone(a, b - 1);
    }
  }

  lemma WholeBelowPower(s: string, k: nat)
    requires k < |s|
    requires AllDigits(s[..k])
    ensures DigitsValue(s[..k]) + 1 <= Pow10(|s|)
  {
    PowMonotone(k, |s|);
  }

  /** JavaScript `Number(s)` for a string over `0-9 . , -`; `None` stands for NaN. */
  function ParseNumber(s: string): (r: Option<real>)
    ensures r.Some? && s != [] && s[0] == '-' ==> -(Pow10(|s| - 1) as real) < r.value <= 0.0
    ensures r.Some? && (s == [] || s[0] != '-') ==> 0.0 <= r.value < Pow10(|s|) as real
  {
    if s == [] then Some(0.0)
    else if s[0] == '-' then
      match ParseUnsigned(s[1..])
      case Some(v) => Some(-v)
      case None => None
    else ParseUnsigned(s)
  }

  /** The amount an input string is stored as: cleaned, first comma read as
      the decimal point, converted, and 0 when the conversion gives NaN. */
  function AmountFromInput(value: string): (r: real)
    ensures -(Pow10(MaxInputLength - 1) as real) < r < Pow10(MaxInputLength) as real
  {
    var cleaned := ReplaceFirstComma(Clean(value));
    PowMonotone(|cleaned|, MaxInputLength);
    PowMonotone(if cleaned == [] then 0 else |cleaned| - 1, MaxInputLength - 1);
    match ParseNumber(cleaned)
    case Some(v) => v
    case None => 0.0
  }

  // ---- decimal rendering of naturals, the partner of the parser ----

  function DigitChar(d: nat): (c: char)
    requires d < 10
    ensures IsDigit(c) && DigitValue(c) == d
  {
    ('0' as int + d) as char
  }

  /** Decimal rendering of a natural number without leading zeros. */
  function ShowNat(n: nat): (s: string)
    ensures AllDigits(s)
    ensures 1 <= |s|
    decreases n
  {
    if n < 10 then [DigitChar(n)] else ShowNat(n / 10) + [DigitChar(n % 10)]
  }

  lemma {:induction false} ShowNatValue(n: nat)
    ensures DigitsValue(ShowNat(n)) == n
    decreases n
  {
    if n >= 10 {
      ShowNatValue(n / 10);
      var s := ShowNat(n);
      assert s[..|s| - 1] == ShowNat(n / 10);
    }
  }

  lemma {:induction false} ShowNatLength(n: nat, k: nat)
    requires 1 <= k
    requires n < Pow10(k)
    ensures |ShowNat(n)| <= k
    decreases n
  {
    if n >= 10 {
      assert 2 <= k;
      assert Pow10(k) == 10 * Pow10(k - 1);
      ShowNatLength(n / 10, k - 1);
    }
  }

  lemma {:induction false} LeadingDigitsOfDigits(s: string)
    requires AllDigits(s)
    ensures LeadingDigits(s) == |s|
    decreases |s|
  {
    if s != [] {
      LeadingDigitsOfDigits(s[1..]);
    }
  }

  /** Round trip: a natural number's decimal rendering parses back to it. */
  lemma ParseShowNat(n: nat)
    ensures ParseNumber(ShowNat(n)) == Some(n as real)
  {
    var s := ShowNat(n);
    ShowNatValue(n);
    LeadingDigitsOfDigits(s);
    assert s[..|s|] == s;
  }

  /** A digit string passes the cleanup untouched when it is short enough. */
  lemma DigitsAreClean(s: string)
    requires AllDigits(s) && |s| <= MaxInputLength
    ensures ReplaceFirstComma(Clean(s)) == s
  {
    CleanFixesCleanStrings(s);
    assert forall k :: 0 <= k < |s| ==> s[k] != ',';
  }

  /** Round trip through the whole input pipeline: typing the decimal digits
      of a natural below 10^8 stores exactly that number. */
  lemma AmountFromShowNat(n: nat)
    requires n < Pow10(MaxInputLength)
    ensures AmountFromInput(ShowNat(n)) == n as real
  {
    ShowNatLength(n, MaxInputLength);
    DigitsAreClean(ShowNat(n));
    ParseShowNat(n);
  }

  lemma {:induction false} LeadingDigitsOfPrefix(a: string, rest: string)
    requires AllDigits(a)
    requires rest == [] || !IsDigit(rest[0])
    ensures LeadingDigits(a + rest) == |a|
    decreases |a|
  {
    if a == [] {
      assert a + rest == rest;
    } else {
      assert (a + rest)[1..] == a[1..] + rest;
      LeadingDigitsOfPrefix(a[1..], rest);
    }
  }

  /** Only the first comma is replaced: whatever follows it, commas
      included, is untouched. */
  lemma CommaReplacedByDot(whole: string, rest: string)
    requires ',' !in whole
    ensures ReplaceFirstComma(whole + "," + rest) == whole + "." + rest
  {
    var typed := whole + "," + rest;
    assert typed[..|whole|] == whole;
  }

  /** `Number` of a decimal literal `whole.fraction`. */
  lemma ParseDecimal(whole: string, fraction: string)
    requires AllDigits(whole) && AllDigits(fraction)
    requires whole != [] || fraction != []
    ensures ParseNumber(whole + "." + fraction) == Some(DecimalValue(whole, fraction))
  {
    var dotted := whole + "." + fraction;
    LeadingDigitsOfPrefix(whole, "." + fraction);
    assert dotted == whole + ("." + fraction);
    var k := LeadingDigits(dotted);
    assert k == |whole| && dotted[k] == '.';
    assert dotted[..k] == whole;
    assert dotted[k + 1..] == fraction;
    assert dotted[0] != '-';
  }

  /** A comma typed as the decimal separator is read as a decimal point:
      `whole,fraction` is stored as the decimal whole.fraction. */
  lemma CommaIsDecimalPoint(whole: string, fraction: string)
    requires AllDigits(whole) && AllDigits(fraction)
    requires whole != [] || fraction != []
    requires |whole| + 1 + |fraction| <= MaxInputLength
    ensures AmountFromInput(whole + "," + fraction) == DecimalValue(whole, fraction)
  {
    CleanFixesCleanStrings(whole + "," + fraction);
    assert ',' !in whole by {
      assert forall k :: 0 <= k < |whole| ==> whole[k] != ',';
    }
    CommaReplacedByDot(whole, fraction);
    ParseDecimal(whole, fraction);
  }

  /** A point followed by anything but digits is not a number. */
  lemma ParseDotNonDigits(whole: string, rest: string)
    requires AllDigits(whole) && !AllDigits(rest)
    ensures ParseNumber(whole + "." + rest) == None
  {
    var dotted := whole + "." + rest;
    LeadingDigitsOfPrefix(whole, "." + rest);
    assert dotted == whole + ("." + rest);
    assert dotted[|whole|] == '.';
    assert dotted[|whole| + 1..] == rest;
    assert dotted[0] != '-';
  }

  /** Only the first comma becomes a point, so text with two commas, such as
      `1,234,5`, is not a number and is stored as 0. */
  lemma TwoCommasStoreZero(whole: string, middle: string, last: string)
    requires AllDigits(whole) && AllDigits(middle) && AllDigits(last)
    requires |whole| + |middle| + |last| + 2 <= MaxInputLength
    ensures AmountFromInput(whole + "," + middle + "," + last) == 0.0
  {
    var rest := middle + "," + last;
    assert whole + "," + middle + "," + last == whole + "," + rest;
    CleanFixesCleanStrings(whole + "," + rest);
    assert ',' !in whole by {
      assert forall k :: 0 <= k < |whole| ==> whole[k] != ',';
    }
    CommaReplacedByDot(whole, rest);
    assert !AllDigits(rest) by {
      assert rest[|middle|] == ',';
    }
    ParseDotNonDigits(whole, rest);
  }
}
