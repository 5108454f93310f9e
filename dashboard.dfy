/**
 * The dashboard's one computed figure: the total connected power of a
 * project's circuits, Σ qty × power_w with a missing factor counting as 0,
 * and the way it is displayed (truncated to an integer, digits grouped in
 * threes with spaces).
 */
module Dashboard {
  import opened Wrappers

  /** A circuit row as read from the store; either column may be NULL. */
  datatype Circuit = Circuit(qty: Option<int>, powerW: Option<real>)

  predicate Complete(c: Circuit) {
    c.qty.Some? && c.powerW.Some?
  }

  /** One row's share: qty × power_w, or 0 where the product would be NaN. */
  function Contribution(c: Circuit): (r: real)
    ensures !Complete(c) ==> r == 0.0
    ensures r == Sum(Products([c]))
  {
    assert [c][1..] == [];
    if Complete(c) then c.qty.value as real * c.powerW.value else 0.0
  }

  function SumContributions(cs: seq<Circuit>): real {
    if cs == [] then 0.0 else Contribution(cs[0]) + SumContributions(cs[1..])
  }

  /** Total connected power in watts; an empty circuit list gives 0. */
  function TotalPower(cs: seq<Circuit>): (total: real)
    ensures cs == [] ==> total == 0.0
  {
    if |cs| == 0 then 0.0 else SumContributions(cs)
  }

  /** The guard for an empty list agrees with the plain sum. */
  lemma TotalIsSum(cs: seq<Circuit>)
    ensures TotalPower(cs) == SumContributions(cs)
  {
  }

  lemma {:induction false} SumAppend(a: seq<Circuit>, b: seq<Circuit>)
    ensures SumContributions(a + b) == SumContributions(a) + SumContributions(b)
  {
    if a == [] {
      assert a + b == b;
    } else {
      assert (a + b)[1..] == a[1..] + b;
      SumAppend(a[1..], b);
    }
  }

  /** The total of two lists of circuits is the sum of their totals. */
  lemma TotalPowerAppend(a: seq<Circuit>, b: seq<Circuit>)
    ensures TotalPower(a + b) == TotalPower(a) + TotalPower(b)
  {
    SumAppend(a, b);
  }

  /** A row missing its quantity or its power changes nothing. */
  lemma IncompleteRowAddsNothing(cs: seq<Circuit>, c: Circuit)
    requires !Complete(c)
    ensures TotalPower(cs + [c]) == TotalPower(cs)
    ensures TotalPower([c] + cs) == TotalPower(cs)
  {
    assert SumContributions([c]) == Contribution(c) by { assert [c][1..] == []; }
    TotalIsSum([c]);
    TotalPowerAppend(cs, [c]);
    TotalPowerAppend([c], cs);
  }

  /** Reference definition: the plain sum of qty × power_w over the rows that have both. */
  function Products(cs: seq<Circuit>): seq<real> {
    if cs == [] then []
    else if Complete(cs[0]) then [cs[0].qty.value as real * cs[0].powerW.value] + Products(cs[1..])
    else Products(cs[1..])
  }

  function Sum(xs: seq<real>): real {
    if xs == [] then 0.0 else xs[0] + Sum(xs[1..])
  }

  lemma {:induction false} TotalPowerIsSumOfCompleteRows(cs: seq<Circuit>)
    ensures TotalPower(cs) == Sum(Products(cs))
  {
    TotalIsSum(cs);
    if cs != [] {
      TotalPowerIsSumOfCompleteRows(cs[1..]);
      TotalIsSum(cs[1..]);
      var rest := Products(cs[1..]);
      if Complete(cs[0]) {
        var x := cs[0].qty.value as real * cs[0].powerW.value;
        assert Products(cs) == [x] + rest;
        assert ([x] + rest)[1..] == rest;
      }
    }
  }

  /** A list with no complete row has total 0. */
  lemma {:induction false} NoCompleteRowMeansZero(cs: seq<Circuit>)
    requires forall i :: 0 <= i < |cs| ==> !Complete(cs[i])
    ensures TotalPower(cs) == 0.0
  {
    TotalIsSum(cs);
    if cs != [] {
      NoCompleteRowMeansZero(cs[1..]);
      TotalIsSum(cs[1..]);
    }
  }

  /** Non-negative quantities and powers give a non-negative total. */
  lemma {:induction false} TotalPowerNonNegative(cs: seq<Circuit>)
    requires forall i :: 0 <= i < |cs| && Complete(cs[i]) ==> cs[i].qty.value >= 0 && cs[i].powerW.value >= 0.0
    ensures TotalPower(cs) >= 0.0
  {
    if cs != [] {
      TotalPowerNonNegative(cs[1..]);
      TotalIsSum(cs[1..]);
      if Complete(cs[0]) {
        var q, p := cs[0].qty.value as real, cs[0].powerW.value;
        assert q >= 0.0 && p >= 0.0;
        assert q * p >= 0.0;
      }
      assert Contribution(cs[0]) >= 0.0;
    }
  }

  /** Removing row `i` takes exactly its contribution out of the sum. */
  lemma SumRemoveAt(b: seq<Circuit>, i: nat)
    requires i < |b|
    ensures SumContributions(b) == Contribution(b[i]) + SumContributions(b[..i] + b[i+1..])
  {
    assert b == b[..i] + b[i..];
    SumAppend(b[..i], b[i..]);
    SumAppend(b[..i], b[i+1..]);
    assert b[i..][1..] == b[i+1..];
  }

  lemma MultisetRemoveAt(b: seq<Circuit>, i: nat)
    requires i < |b|
    ensures multiset(b[..i] + b[i+1..]) == multiset(b) - multiset{b[i]}
  {
    assert b == b[..i] + [b[i]] + b[i+1..];
  }

  /** Taking the first row of `a` and a matching row of `b` out keeps the bags equal. */
  lemma RemoveMatching(a: seq<Circuit>, b: seq<Circuit>, i: nat)
    requires multiset(a) == multiset(b) && a != [] && i < |b| && b[i] == a[0]
    ensures multiset(a[1..]) == multiset(b[..i] + b[i+1..])
  {
    MultisetRemoveAt(a, 0);
    MultisetRemoveAt(b, i);
    assert a[..0] + a[1..] == a[1..];
  }

  /** A position at which an element of the bag of `b` occurs in `b`. */
  lemma IndexOf(b: seq<Circuit>, x: Circuit) returns (i: nat)
    requires x in multiset(b)
    ensures i < |b| && b[i] == x
  {
    assert x in b;
    i :| i < |b| && b[i] == x;
  }

  lemma {:induction false} SumOrderIndependent(a: seq<Circuit>, b: seq<Circuit>)
    requires multiset(a) == multiset(b)
    ensures SumContributions(a) == SumContributions(b)
    decreases |a|
  {
    if a == [] {
      assert |b| == |multiset(b)|;
    } else {
      var i := IndexOf(b, a[0]);
      var rest := b[..i] + b[i+1..];
      RemoveMatching(a, b, i);
      SumOrderIndependent(a[1..], rest);
      SumRemoveAt(b, i);
    }
  }

  /** The circuits query has no ORDER BY: the total does not depend on the order of the rows. */
  lemma TotalPowerOrderIndependent(a: seq<Circuit>, b: seq<Circuit>)
    requires multiset(a) == multiset(b)
    ensures TotalPower(a) == TotalPower(b)
  {
    SumOrderIndependent(a, b);
    TotalIsSum(a);
    TotalIsSum(b);
  }

  /** Two circuits, 2 × 100 W and one with no power rating, total 200 W. */
  lemma TwoCircuitExample()
    ensures TotalPower([Circuit(Some(2), Some(100.0)), Circuit(Some(1), None)]) == 200.0
  {
  }

  // ----- display -----

  /** Python's int() on a float: truncation toward zero. */
  function TruncateTowardZero(x: real): (n: int)
    ensures 0.0 <= x ==> 0 <= n && n as real <= x < n as real + 1.0
    ensures x < 0.0 ==> n <= 0 && n as real - 1.0 < x <= n as real
  {
    if x >= 0.0 then x.Floor else -((-x).Floor)
  }

  predicate IsDigit(c: char) {
    '0' <= c <= '9'
  }

  predicate AllDigits(s: string) {
    forall i :: 0 <= i < |s| ==> IsDigit(s[i])
  }

  function DigitChar(d: nat): (c: char)
    requires d < 10
    ensures IsDigit(c) && c as int - '0' as int == d
  {
    ('0' as int + d) as char
  }

  /** The number a string of decimal digits denotes. */
  function ValueOf(s: string): nat
    requires AllDigits(s)
  {
    if s == [] then 0 else ValueOf(s[..|s|-1]) * 10 + (s[|s|-1] as int - '0' as int)
  }

  /** Decimal digits of `n`, without leading zeros. */
  function Decimal(n: nat): (ds: string)
    ensures |ds| > 0 && AllDigits(ds) && ValueOf(ds) == n
    ensures ds[0] == '0' ==> ds == "0"
  {
    if n < 10 then [DigitChar(n)]
    else
      var p := Decimal(n / 10);
      var ds := p + [DigitChar(n % 10)];
      assert ds[..|ds|-1] == p;
      ds
  }

  predicate NoSpaces(s: string) {
    forall i :: 0 <= i < |s| ==> s[i] != ' '
  }

  /** Thousands grouping: a space before every block of three digits counted from the right. */
  function GroupThousands(ds: string): (g: string)
    ensures |ds| > 0 ==> |g| == |ds| + (|ds| - 1) / 3
    decreases |ds|
  {
    if |ds| <= 3 then ds
    else GroupThousands(ds[..|ds|-3]) + [' '] + ds[|ds|-3..]
  }

  lemma ModShift(x: int)
    ensures (x + 4) % 4 == x % 4
  {
  }

  /** The spaces of `g` sit exactly at distance 4, 8, 12, ... from its end. */
  predicate SeparatorsEveryFourth(g: string) {
    forall i :: 0 <= i < |g| ==> (g[i] == ' ' <==> (|g| - i) % 4 == 0)
  }

  /** Grouping puts a separator before each block of three digits and nowhere else. */
  lemma {:induction false} GroupThousandsSeparators(ds: string)
    requires NoSpaces(ds)
    ensures SeparatorsEveryFourth(GroupThousands(ds))
    decreases |ds|
  {
    var g := GroupThousands(ds);
    if |ds| > 3 {
      var front := ds[..|ds|-3];
      var head := GroupThousands(front);
      GroupThousandsSeparators(front);
      assert g == head + [' '] + ds[|ds|-3..];
      forall i | 0 <= i < |g| ensures g[i] == ' ' <==> (|g| - i) % 4 == 0 {
        if i < |head| {
          assert g[i] == head[i];
          assert head[i] == ' ' <==> (|head| - i) % 4 == 0;
          ModShift(|head| - i);
        } else if i > |head| {
          assert g[i] == ds[|ds| - 3 + (i - |head| - 1)];
        }
      }
    }
  }

  /** Removes the separators again. */
  function Strip(s: string): string {
    if s == [] then [] else (if s[0] == ' ' then [] else [s[0]]) + Strip(s[1..])
  }

  lemma {:induction false} StripAppend(a: string, b: string)
    ensures Strip(a + b) == Strip(a) + Strip(b)
  {
    if a == [] {
      assert a + b == b;
    } else {
      assert (a + b)[1..] == a[1..] + b;
      StripAppend(a[1..], b);
    }
  }

  lemma {:induction false} StripNoSpaces(s: string)
    requires NoSpaces(s)
    ensures Strip(s) == s
  {
    if s != [] {
      StripNoSpaces(s[1..]);
    }
  }

  /** Grouping loses nothing: removing the separators gives back the digits. */
  lemma {:induction false} StripGroupThousands(ds: string)
    requires NoSpaces(ds)
    ensures Strip(GroupThousands(ds)) == ds
    decreases |ds|
  {
    if |ds| <= 3 {
      StripNoSpaces(ds);
    } else {
      var front, back := ds[..|ds|-3], ds[|ds|-3..];
      var head := GroupThousands(front);
      assert GroupThousands(ds) == head + [' '] + back;
      StripGroupThousands(front);
      StripAppend(head + [' '], back);
      StripAppend(head, [' ']);
      assert Strip([' ']) == [];
      StripNoSpaces(back);
      assert front + back == ds;
    }
  }

  /** `f"{n:,}".replace(",", " ")`: optional minus sign, then grouped digits. */
  function FormatThousands(n: int): (s: string)
    ensures |s| > 0
    ensures n < 0 <==> s[0] == '-'
    ensures n < 0 ==> SeparatorsEveryFourth(s[1..])
    ensures n >= 0 ==> SeparatorsEveryFourth(s)
    // after the sign comes a digit, and no leading zero unless the number is 0
    ensures var k := if n < 0 then 1 else 0;
      k < |s| && IsDigit(s[k]) && (s[k] == '0' ==> s == "0")
  {
    var ds := Decimal(if n < 0 then -n else n);
    DigitsHaveNoSpaces(ds);
    GroupThousandsSeparators(ds);
    GroupThousandsFirst(ds);
    assert IsDigit(ds[0]);
    assert ds == "0" ==> ValueOf(ds) == 0 by {
      if ds == "0" { assert ds[..0] == []; }
    }
    var g := GroupThousands(ds);
    if n < 0 then
      assert ("-" + g)[1..] == g;
      "-" + g
    else g
  }

  /**
   * The text shown for the total power metric. It is lossless for the
   * truncated total: parsing it gives back `int()` of the total.
   */
  function DisplayPower(total: real): (s: string)
    ensures ParseThousands(s) == Some(TruncateTowardZero(total))
    ensures total > -1.0 <==> s[0] != '-'
    // the text is `int()` of the total, grouped in threes
    ensures s == FormatThousands(TruncateTowardZero(total))
    ensures total > -1.0 ==> SeparatorsEveryFourth(s)
    ensures total <= -1.0 ==> SeparatorsEveryFourth(s[1..])
  {
    FormatThousandsRoundTrip(TruncateTowardZero(total));
    FormatThousands(TruncateTowardZero(total))
  }

  /** Reads a displayed figure back: optional minus sign, separators ignored. */
  function ParseThousands(s: string): Option<int> {
    if |s| > 0 && s[0] == '-' then
      var ds := Strip(s[1..]);
      if |ds| > 0 && AllDigits(ds) then Some(-(ValueOf(ds) as int)) else None
    else
      var ds := Strip(s);
      if |ds| > 0 && AllDigits(ds) then Some(ValueOf(ds)) else None
  }

  lemma DigitsHaveNoSpaces(ds: string)
    requires AllDigits(ds)
    ensures NoSpaces(ds)
  {
  }

  /** Grouping never puts a separator first. */
  lemma {:induction false} GroupThousandsFirst(ds: string)
    requires |ds| > 0
    ensures |GroupThousands(ds)| > 0 && GroupThousands(ds)[0] == ds[0]
    decreases |ds|
  {
    if |ds| > 3 {
      GroupThousandsFirst(ds[..|ds|-3]);
    }
  }

  /** The display format is lossless for integers: parsing it gives the number back. */
  lemma FormatThousandsRoundTrip(n: int)
    ensures ParseThousands(FormatThousands(n)) == Some(n)
  {
    var m: nat := if n < 0 then -n else n;
    var ds := Decimal(m);
    DigitsHaveNoSpaces(ds);
    StripGroupThousands(ds);
    if n < 0 {
      assert ("-" + GroupThousands(ds))[1..] == GroupThousands(ds);
    } else {
      GroupThousandsFirst(ds);
      assert IsDigit(ds[0]);
    }
  }

  lemma DecimalExample()
    ensures Decimal(1234) == "1234"
    ensures Decimal(1234567) == "1234567"
  {
    assert Decimal(1) == "1";
    assert Decimal(12) == "12";
    assert Decimal(123) == "123";
    assert Decimal(1234) == "1234";
    assert Decimal(12345) == "12345";
    assert Decimal(123456) == "123456";
  }

  /** 1 234 567.9 W is shown as "1 234 567": truncated, then a space every three digits. */
  lemma DisplayLargeExample()
    ensures DisplayPower(1234567.9) == "1 234 567"
  {
    assert TruncateTowardZero(1234567.9) == 1234567;
    DecimalExample();
    GroupExample();
  }

  lemma GroupExample()
    ensures GroupThousands("1234") == "1 234"
    ensures GroupThousands("1234567") == "1 234 567"
  {
    assert "1234"[..1] == "1" && "1234"[1..] == "234";
    assert "1234567"[..4] == "1234" && "1234567"[4..] == "567";
  }

  /** A negative total keeps its sign and truncates toward zero: -1234.5 is shown as "-1 234". */
  lemma DisplayNegativeExample()
    ensures DisplayPower(-1234.5) == "-1 234"
  {
    assert TruncateTowardZero(-1234.5) == -1234;
    DecimalExample();
    GroupExample();
    assert FormatThousands(-1234) == "-" + GroupThousands(Decimal(1234));
  }

  lemma DisplayTwoCircuitExample()
    ensures DisplayPower(TotalPower([Circuit(Some(2), Some(100.0)), Circuit(Some(1), None)])) == "200"
  {
    TwoCircuitExample();
    assert Decimal(200) == "200" by {
      assert Decimal(2) == "2";
      assert Decimal(20) == "20";
    }
  }
}
