/** Decimal text of integers, as Rust's formatting prints it, and its inverse. */
module Decimal {
  import opened Wrappers

  predicate IsDigit(c: char) { '0' <= c <= '9' }

  predicate AllDigits(s: string) { forall i :: 0 <= i < |s| ==> IsDigit(s[i]) }

  function DigitChar(d: nat): (c: char)
    requires d < 10
    ensures IsDigit(c) && DigitValue(c) == d
  {
    '0' + d as char
  }

  function DigitValue(c: char): nat
    requires IsDigit(c)
  {
    (c - '0') as nat
  }

  function NatText(n: nat): (s: string)
    ensures s != "" && AllDigits(s)
  {
    if n < 10 then [DigitChar(n)] else NatText(n / 10) + [DigitChar(n % 10)]
  }

  function DigitsValue(s: string): nat
    requires AllDigits(s)
  {
    if s == "" then 0
    else DigitsValue(s[..|s| - 1]) * 10 + DigitValue(s[|s| - 1])
  }

  lemma {:induction false} NatTextValue(n: nat)
    ensures DigitsValue(NatText(n)) == n
  {
    if n < 10 {
      assert NatText(n)[..0] == "";
    } else {
      NatTextValue(n / 10);
      var s := NatText(n);
      assert s[..|s| - 1] == NatText(n / 10);
    }
  }

  /** Signed decimal text: the `Display` of an integer. */
  function IntText(x: int): (s: string)
    ensures s != ""
  {
    if x < 0 then "-" + NatText(-x) else NatText(x)
  }

  lemma {:induction false} IntTextChars(x: int)
    ensures forall i :: 0 <= i < |IntText(x)| ==> IsDigit(IntText(x)[i]) || IntText(x)[i] == '-'
  {
  }

  /** Accepts canonical signed decimal text only: no leading zeros, no "-0", no plus sign. */
  function ParseInt(s: string): (r: Option<int>)
    ensures r.Some? ==> IntText(r.value) == s
  {
    var negative := s != "" && s[0] == '-';
    var digits := if negative then s[1..] else s;
    if !AllDigits(digits) then None
    else
      var value: int := DigitsValue(digits);
      var x := if negative then -value else value;
      if IntText(x) == s then Some(x) else None
  }

  lemma {:induction false} ParseIntText(x: int)
    ensures ParseInt(IntText(x)) == Some(x)
  {
    hide NatText, DigitsValue;
    if x < 0 {
      NatTextValue(-x);
      assert IntText(x)[1..] == NatText(-x);
    } else {
      NatTextValue(x);
      assert IsDigit(NatText(x)[0]);
    }
  }

  // ----- the digits themselves

  function Power10(k: nat): (p: nat)
    ensures p >= 1
  {
    if k == 0 then 1 else 10 * Power10(k - 1)
  }

  lemma {:induction false} DivideTwice(n: nat, p: nat)
    requires p >= 1
    ensures n / 10 / p == n / (10 * p)
  {
    var q, r := n / 10 / p, n / 10 % p;
    assert n / 10 == q * p + r;
    assert n == 10 * (n / 10) + n % 10;
    assert n == q * (10 * p) + (10 * r + n % 10);
    assert 0 <= 10 * r + n % 10 < 10 * p;
    QuotientOf(n, 10 * p, q, 10 * r + n % 10);
  }

  lemma {:induction false} QuotientOf(n: nat, d: nat, q: nat, r: nat)
    requires d >= 1 && r < d && n == q * d + r
    ensures n / d == q
  {
    var e := n / d;
    assert n == e * d + n % d;
    assert (q - e) * d == n % d - r;
    MultipleBound(q - e, d);
  }

  lemma {:induction false} MultipleBound(k: int, d: nat)
    ensures k >= 1 ==> k * d >= d
    ensures k <= -1 ==> k * d + d <= 0
  {
  }

  /** Each character is the digit of its power of ten, and no digit is missing or superfluous. */
  lemma {:induction false} NatTextDigits(n: nat)
    ensures var s := NatText(n);
            && (forall i :: 0 <= i < |s| ==> s[i] == "0123456789"[n / Power10(|s| - 1 - i) % 10])
            && n < Power10(|s|)
            && (|s| > 1 ==> n >= Power10(|s| - 1))
  {
    var s := NatText(n);
    DigitChars(n % 10);
    if n < 10 {
      assert Power10(1) == 10 && n / 1 % 10 == n;
    } else {
      NatTextDigits(n / 10);
      var t := NatText(n / 10);
      var last := |s| - 1;
      assert |t| == last && s[..last] == t;
      forall i | 0 <= i < |s|
        ensures s[i] == "0123456789"[n / Power10(last - i) % 10]
      {
        if i < last {
          var p := Power10(|t| - 1 - i);
          DivideTwice(n, p);
          assert Power10(last - i) == 10 * p;
          assert s[i] == t[i];
        } else {
          assert n / 1 % 10 == n % 10;
        }
      }
    }
  }

  lemma {:induction false} DigitChars(d: nat)
    requires d < 10
    ensures DigitChar(d) == "0123456789"[d]
  {
  }

  /** An integer is printed as those digits, a negative one behind a minus sign. */
  lemma {:induction false} IntTextDigits(n: nat)
    ensures var s := IntText(n);
            && (forall i :: 0 <= i < |s| ==> s[i] == "0123456789"[n / Power10(|s| - 1 - i) % 10])
            && n < Power10(|s|)
            && (|s| > 1 ==> n >= Power10(|s| - 1))
            && (n > 0 ==> IntText(0 - n) == "-" + s)
  {
    NatTextDigits(n);
  }

  // ----- zero padding

  function Zeros(k: nat): (s: string)
    ensures |s| == k && AllDigits(s)
  {
    seq(k, _ => '0')
  }

  /** Digits of `n`, padded with zeros to at least `width`. */
  function Padded(n: nat, width: nat): (s: string)
    ensures AllDigits(s) && |s| >= width
  {
    var s := NatText(n);
    if |s| >= width then s else Zeros(width - |s|) + s
  }

  lemma {:induction false} LeadingZeros(k: nat, s: string)
    requires AllDigits(s)
    ensures DigitsValue(Zeros(k) + s) == DigitsValue(s)
    decreases |s|, k
  {
    if s == "" {
      assert Zeros(k) + s == Zeros(k);
      if k > 0 {
        assert Zeros(k)[..k - 1] == Zeros(k - 1);
        assert Zeros(k - 1) + "" == Zeros(k - 1);
        LeadingZeros(k - 1, "");
      }
    } else {
      var t := Zeros(k) + s;
      assert t[..|t| - 1] == Zeros(k) + s[..|s| - 1];
      LeadingZeros(k, s[..|s| - 1]);
    }
  }

  lemma {:induction false} PaddedValue(n: nat, width: nat)
    ensures DigitsValue(Padded(n, width)) == n
  {
    var s := NatText(n);
    NatTextValue(n);
    if |s| < width {
      LeadingZeros(width - |s|, s);
      assert Padded(n, width) == Zeros(width - |s|) + s;
    }
  }

  lemma {:induction false} ShortText(n: nat)
    requires n < 10000
    ensures n < 10 ==> NatText(n) == ["0123456789"[n]]
    ensures 10 <= n < 100 ==> NatText(n) == ["0123456789"[n / 10], "0123456789"[n % 10]]
    ensures 100 <= n < 1000 ==>
              NatText(n) == ["0123456789"[n / 100], "0123456789"[n / 10 % 10], "0123456789"[n % 10]]
    ensures 1000 <= n ==>
              NatText(n) == ["0123456789"[n / 1000], "0123456789"[n / 100 % 10], "0123456789"[n / 10 % 10], "0123456789"[n % 10]]
    decreases n
  {
    hide DigitChar;
    DigitChars(n % 10);
    if n < 10 {
    } else {
      ShortText(n / 10);
      assert n / 10 / 10 == n / 100 && n / 10 / 100 == n / 1000;
    }
  }

  lemma {:induction false} ZerosAre(k: nat)
    requires k <= 3
    ensures Zeros(k) == if k == 0 then "" else if k == 1 then "0" else if k == 2 then "00" else "000"
  {
  }

  /** Two digits, the tens first. */
  lemma {:induction false} TwoDigits(n: nat)
    requires n < 100
    ensures Padded(n, 2) == ["0123456789"[n / 10], "0123456789"[n % 10]]
  {
    ShortText(n);
    hide NatText, Zeros;
    ZerosAre(1);
  }

  /** A padded number is its digits after zeros. */
  lemma {:induction false} PaddedFour(n: nat, digits: string)
    requires NatText(n) == digits && 1 <= |digits| <= 4
    ensures Padded(n, 4) == (if |digits| == 4 then "" else if |digits| == 3 then "0" else if |digits| == 2 then "00" else "000")
                            + digits
  {
    hide NatText, Zeros;
    if |digits| < 4 {
      ZerosAre(4 - |digits|);
    }
  }

  lemma {:induction false} FourFrom(n: nat, d: string)
    requires n < 10000 && |d| == 10 && d[0] == '0'
    requires NatText(n) == if n < 10 then [d[n]]
                           else if n < 100 then [d[n / 10], d[n % 10]]
                           else if n < 1000 then [d[n / 100], d[n / 10 % 10], d[n % 10]]
                           else [d[n / 1000], d[n / 100 % 10], d[n / 10 % 10], d[n % 10]]
    ensures Padded(n, 4) == [d[n / 1000], d[n / 100 % 10], d[n / 10 % 10], d[n % 10]]
  {
    hide NatText, Padded;
    PaddedFour(n, NatText(n));
  }

  /** Four digits, the thousands first. */
  lemma {:induction false} FourDigits(n: nat)
    requires n < 10000
    ensures var d := "0123456789"; Padded(n, 4) == [d[n / 1000], d[n / 100 % 10], d[n / 10 % 10], d[n % 10]]
  {
    ShortText(n);
    hide NatText, Padded;
    FourFrom(n, "0123456789");
  }

  /** A number below 10^width fits its width exactly; the widths used are 2 and 4. */
  lemma {:induction false} PaddedWidth(n: nat)
    ensures n < 100 ==> |Padded(n, 2)| == 2
    ensures n < 10000 ==> |Padded(n, 4)| == 4
  {
    if n < 10000 {
      assert n / 10 < 1000 && n / 10 / 10 < 100 && n / 10 / 10 / 10 < 10;
      assert |NatText(n / 10 / 10 / 10)| == 1;
      assert |NatText(n / 10 / 10)| <= 2;
      assert |NatText(n / 10)| <= 3;
    }
    if n < 100 {
      assert |NatText(n / 10)| == 1;
    }
  }
}
