/**
 * `parseInt` reads back what `String(n)` writes: the round trip the route
 * handlers rely on when they turn a height into a quality label such as
 * `720p` and read it back to order the tiers.
 */
module NumberText {
  import opened Js

  lemma {:induction false} DigitsValueOfNatToString(n: nat)
    ensures DigitsValue(NatToString(n), 10) == n
    decreases n
  {
    if n >= 10 {
      var d := NatToString(n);
      assert d[..|d| - 1] == NatToString(n / 10);
      DigitsValueOfNatToString(n / 10);
    }
  }

  lemma {:induction false} DigitRunStopsAt(d: string, tail: string, radix: nat)
    requires forall k :: 0 <= k < |d| ==> DigitValue(d[k]) < radix
    requires tail == [] || DigitValue(tail[0]) >= radix
    ensures DigitRun(d + tail, radix) == d
  {
    if d != [] {
      assert (d + tail)[1..] == d[1..] + tail;
      DigitRunStopsAt(d[1..], tail, radix);
    }
  }

  /** The digits `String(m)` writes, followed by a non-digit, carry no `0x`
      prefix and are read back as `m`. */
  lemma {:induction false} ReadBackMagnitude(m: nat, tail: string)
    requires tail == [] || (!IsDecimalDigit(tail[0]) && tail[0] != 'x' && tail[0] != 'X')
    ensures ParseMagnitude(NatToString(m) + tail) == Some(m)
  {
    var d := NatToString(m);
    var u := d + tail;
    assert forall k :: 0 <= k < |d| ==> DigitValue(d[k]) < 10;
    DigitRunStopsAt(d, tail, 10);
    DigitsValueOfNatToString(m);
    if |u| >= 2 && u[0] == '0' {
      assert m == 0 && |d| == 1;
      assert u[1] == tail[0];
    }
  }

  /** `parseInt` reads back what `String(n)` wrote when a `p` follows it, as
      in the labels `"720p"` and `"-5p"`. */
  lemma ParseIntOfIntToString(n: int)
    ensures ParseInt(IntToString(n) + "p") == Some(n)
  {
    if n < 0 {
      ParseIntOfNegative(n);
    } else {
      ParseIntOfNonNegative(n);
    }
  }

  lemma ParseIntOfNegative(n: int)
    requires n < 0
    ensures ParseInt(IntToString(n) + "p") == Some(n)
  {
    NegativeRoundTrip(n);
    NegativeLabel(n);
  }

  lemma NegativeRoundTrip(n: int)
    requires n < 0
    ensures ParseInt("-" + (NatToString(-n) + "p")) == Some(n)
  {
    ReadBackLabel(-n);
    ParseIntOfMinus("-" + (NatToString(-n) + "p"), n, NatToString(-n) + "p");
  }

  lemma ReadBackLabel(m: nat)
    ensures ParseMagnitude(NatToString(m) + "p") == Some(m)
  {
    var p := "p";
    assert p[0] == 'p' && !IsDecimalDigit(p[0]);
    ReadBackMagnitude(m, p);
  }

  lemma NegativeLabel(n: int)
    requires n < 0
    ensures IntToString(n) + "p" == "-" + (NatToString(-n) + "p")
  {
    assert IntToString(n) == "-" + NatToString(-n);
  }

  lemma ParseIntOfMinus(s: string, n: int, u: string)
    requires s == "-" + u && n <= 0
    requires ParseMagnitude(u) == Some(-n)
    ensures ParseInt(s) == Some(n)
  {
    assert s[0] == '-';
    TrimStartNoop(s);
    assert s[1..] == u;
  }

  lemma ParseIntOfNonNegative(n: nat)
    ensures ParseInt(IntToString(n) + "p") == Some(n)
  {
    var s := IntToString(n) + "p";
    ReadBackLabel(n);
    assert IsDecimalDigit(s[0]);
    assert s[0] != '-' && s[0] != '+';
    TrimStartNoop(s);
    assert TrimStart(s) == s;
  }
}
