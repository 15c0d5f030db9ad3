/** Label names: abc2program/common/abc_file_utils.cpp, GetLabelNameByInstIdx, and the key
    MakeOrderAndOffsets makes of two of them. */
module Labels {

  function Digit(d: nat): char
    requires d < 10
  {
    "0123456789"[d]
  }

  function Decimal(n: nat): (s: string)
    ensures s != [] && ':' !in s
  {
    if n < 10 then [Digit(n)] else Decimal(n / 10) + [Digit(n % 10)]
  }

  /** The number a decimal numeral stands for; anything else counts as a zero digit. */
  ghost function Value(s: string): nat {
    if s == [] then 0
    else Value(s[..|s| - 1]) * 10 + DigitValue(s[|s| - 1])
  }

  ghost function DigitValue(c: char): nat {
    if '0' <= c <= '9' then c as int - '0' as int else 0
  }

  lemma {:induction false} DecimalValue(n: nat)
    ensures Value(Decimal(n)) == n
  {
    if n < 10 {
      assert Value([Digit(n)]) == Value([]) * 10 + DigitValue(Digit(n));
    } else {
      DecimalValue(n / 10);
      var s := Decimal(n);
      assert s[..|s| - 1] == Decimal(n / 10);
    }
  }

  const LABEL_PREFIX := "label@"

  function Label(i: nat): string { LABEL_PREFIX + Decimal(i) }

  predicate AllDigits(s: string) { forall k :: 0 <= k < |s| ==> '0' <= s[k] <= '9' }

  lemma {:induction false} DecimalDigits(n: nat)
    ensures AllDigits(Decimal(n)) && (|Decimal(n)| > 1 ==> Decimal(n)[0] != '0')
  {
    if n >= 10 {
      DecimalDigits(n / 10);
      if n < 100 {
        assert Decimal(n / 10) == [Digit(n / 10)];
      }
    }
  }

  /** The label of an instruction is label@ and its index in decimal. */
  lemma LabelIs(i: nat)
    ensures var s := Label(i);
            |s| > 6 && s[..6] == "label@" && AllDigits(s[6..]) && Value(s[6..]) == i && (|s| > 7 ==> s[6] != '0')
  {
    DecimalValue(i);
    DecimalDigits(i);
    assert Label(i)[6..] == Decimal(i);
  }

  lemma LabelInjective(i: nat, j: nat)
    requires Label(i) == Label(j)
    ensures i == j
  {
    assert Label(i)[|LABEL_PREFIX|..] == Decimal(i) && Label(j)[|LABEL_PREFIX|..] == Decimal(j);
    DecimalValue(i);
    DecimalValue(j);
  }

  lemma LabelShape(i: nat)
    ensures ':' !in Label(i) && Label(i) != ""
  {
  }

  /** The key of a try range. */
  function TryKey(begin: string, end: string): string { begin + ":" + end }

  ghost function BeforeColon(s: string): nat {
    if s == [] || s[0] == ':' then 0 else 1 + BeforeColon(s[1..])
  }

  lemma {:induction false} KeySplits(a: string, b: string)
    requires ':' !in a
    ensures BeforeColon(TryKey(a, b)) == |a|
  {
    if a != [] {
      assert TryKey(a, b)[1..] == TryKey(a[1..], b);
      KeySplits(a[1..], b);
    }
  }

  lemma TryKeyInjective(a: string, b: string, c: string, d: string)
    requires ':' !in a && ':' !in c && TryKey(a, b) == TryKey(c, d)
    ensures a == c && b == d
  {
    KeySplits(a, b);
    KeySplits(c, d);
    var s := TryKey(a, b);
    assert s[..|a|] == a && s[..|c|] == c;
    assert s[|a| + 1..] == b && s[|c| + 1..] == d;
  }
}
