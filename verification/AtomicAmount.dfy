/** Formatting of atomic amounts: a digit string of smallest units as a decimal number. */
module AtomicAmount {
  import opened Wrappers

  type Digit = d: nat | d < 10

  /** What is shown: a whole part, which is then grouped by locale, and fraction digits. */
  datatype Amount = Amount(whole: nat, fraction: seq<Digit>)

  function Value(digits: seq<Digit>): nat {
    if digits == [] then 0 else 10 * Value(digits[..|digits| - 1]) + digits[|digits| - 1]
  }

  function Pow10(n: nat): nat {
    if n == 0 then 1 else 10 * Pow10(n - 1)
  }

  function PadStart(digits: seq<Digit>, length: nat): (padded: seq<Digit>)
    ensures |padded| >= length
  {
    if |digits| >= length then digits else Repeat(0, length - |digits|) + digits
  }

  function StripTrailingZeros(digits: seq<Digit>): (s: seq<Digit>)
    ensures s <= digits
    ensures s != [] ==> s[|s| - 1] != 0
    ensures forall k :: |s| <= k < |digits| ==> digits[k] == 0
  {
    if digits == [] || digits[|digits| - 1] != 0 then digits else StripTrailingZeros(digits[..|digits| - 1])
  }

  function Clamp(decimals: int): nat {
    if decimals < 0 then 0 else if decimals > 18 then 18 else decimals
  }

  function FormatAtomicAmount(raw: seq<Digit>, decimals: int): Amount {
    FormatWith(raw, Clamp(decimals))
  }

  function FormatWith(raw: seq<Digit>, d: nat): Amount {
    if d == 0 then Amount(Value(raw), []) else Split(PadStart(raw, d + 1), d)
  }

  /** The last `d` digits are the fraction, shown without its trailing zeros. */
  function Split(digits: seq<Digit>, d: nat): Amount
    requires d <= |digits|
  {
    Amount(Value(digits[..|digits| - d]), StripTrailingZeros(digits[|digits| - d..]))
  }

  lemma {:induction false} ValueOfConcat(a: seq<Digit>, b: seq<Digit>)
    ensures Value(a + b) == Value(a) * Pow10(|b|) + Value(b)
  {
    if b == [] {
      assert a + b == a;
    } else {
      var m := |b| - 1;
      assert (a + b)[..|a + b| - 1] == a + b[..m];
      ValueOfConcat(a, b[..m]);
      Regroup(Value(a), Pow10(m), Value(b[..m]), b[m]);
    }
  }

  lemma Regroup(x: nat, p: nat, v: nat, l: nat)
    ensures 10 * (x * p + v) + l == x * (10 * p) + (10 * v + l)
  {
  }

  lemma {:induction false} ValueOfZeros(z: seq<Digit>)
    requires forall k :: 0 <= k < |z| ==> z[k] == 0
    ensures Value(z) == 0
  {
    if z != [] {
      ValueOfZeros(z[..|z| - 1]);
    }
  }

  lemma {:induction false} ValueBounded(digits: seq<Digit>)
    ensures Value(digits) < Pow10(|digits|)
  {
    if digits != [] {
      ValueBounded(digits[..|digits| - 1]);
    }
  }

  /** A digit string of known length is determined by its value. */
  lemma {:induction false} ValueInjective(a: seq<Digit>, b: seq<Digit>)
    requires |a| == |b| && Value(a) == Value(b)
    ensures a == b
  {
    if a != [] {
      var m := |a| - 1;
      ValueInjective(a[..m], b[..m]);
      assert a == a[..m] + [a[m]] && b == b[..m] + [b[m]];
    }
  }

  lemma PadKeepsValue(digits: seq<Digit>, length: nat)
    ensures Value(PadStart(digits, length)) == Value(digits)
  {
    if |digits| < length {
      var z := Repeat(0, length - |digits|);
      ValueOfConcat(z, digits);
      ValueOfZeros(z);
    }
  }

  /** The number of smallest units an amount of `d` decimals shows. */
  function Shown(amount: Amount, d: nat): nat
    requires |amount.fraction| <= d
  {
    amount.whole * Pow10(d) + Value(amount.fraction + Repeat(0, d - |amount.fraction|))
  }

  /** No unit is lost: the whole part and the fraction, read in `10^d` units, add up to the
      raw amount, and the fraction is shown without trailing zeros. */
  lemma FormatIsExact(raw: seq<Digit>, d: nat)
    ensures var shown := FormatWith(raw, d);
            && |shown.fraction| <= d && Shown(shown, d) == Value(raw)
            && (shown.fraction != [] ==> shown.fraction[|shown.fraction| - 1] != 0)
  {
    if d == 0 {
      WholeIsExact(Value(raw));
    } else {
      PadKeepsValue(raw, d + 1);
      SplitIsExact(PadStart(raw, d + 1), d);
    }
  }

  lemma WholeIsExact(n: nat)
    ensures Shown(Amount(n, []), 0) == n
  {
  }

  /** Cutting off the last `d` digits and their trailing zeros keeps the value. */
  lemma SplitIsExact(digits: seq<Digit>, d: nat)
    requires d < |digits|
    ensures |Split(digits, d).fraction| <= d && Shown(Split(digits, d), d) == Value(digits)
  {
    var whole, fraction := digits[..|digits| - d], digits[|digits| - d..];
    var stripped := StripTrailingZeros(fraction);
    assert digits == whole + fraction;
    assert fraction == stripped + Repeat(0, d - |stripped|);
    ValueOfConcat(whole, fraction);
  }

  /** Two amounts look the same exactly when they are the same. */
  lemma FormatIsFaithful(raw: seq<Digit>, raw': seq<Digit>, decimals: int)
    ensures FormatAtomicAmount(raw, decimals) == FormatAtomicAmount(raw', decimals) <==> Value(raw) == Value(raw')
  {
    var d := Clamp(decimals);
    FormatIsExact(raw, d);
    FormatIsExact(raw', d);
    if Value(raw) == Value(raw') {
      SameValueSameFormat(raw, raw', d);
    }
  }

  lemma SameValueSameFormat(raw: seq<Digit>, raw': seq<Digit>, d: nat)
    requires Value(raw) == Value(raw')
    ensures FormatWith(raw, d) == FormatWith(raw', d)
  {
    if d > 0 {
      PadKeepsValue(raw, d + 1);
      PadKeepsValue(raw', d + 1);
      SameSplit(PadStart(raw, d + 1), PadStart(raw', d + 1), d);
    }
  }

  /** Digit strings of one value split into the same whole value and the same last `d` digits. */
  lemma SameSplit(a: seq<Digit>, b: seq<Digit>, d: nat)
    requires d < |a| && d < |b| && Value(a) == Value(b)
    ensures Split(a, d) == Split(b, d)
  {
    var w, f, w', f' := a[..|a| - d], a[|a| - d..], b[..|b| - d], b[|b| - d..];
    assert a == w + f && b == w' + f';
    ValueOfConcat(w, f);
    ValueOfConcat(w', f');
    ValueBounded(f);
    ValueBounded(f');
    SplitUnique(Value(w), Value(f), Value(w'), Value(f'), Pow10(d));
    ValueInjective(f, f');
  }

  lemma SplitUnique(w: nat, f: nat, w': nat, f': nat, base: nat)
    requires f < base && f' < base && w * base + f == w' * base + f'
    ensures w == w' && f == f'
  {
    if w < w' {
      MulGap(w, w', base);
    } else if w > w' {
      MulGap(w', w, base);
    }
  }

  lemma MulGap(small: nat, large: nat, base: nat)
    requires small < large
    ensures large * base >= small * base + base
  {
    assert large * base == small * base + base + (large - small - 1) * base;
    assert (large - small - 1) * base >= 0;
  }

  // ---- The text shown ----

  predicate AllDigits(text: string) {
    forall i :: 0 <= i < |text| ==> '0' <= text[i] <= '9'
  }

  function DigitsOf(text: string): (digits: seq<Digit>)
    requires AllDigits(text)
    ensures |digits| == |text| && forall i :: 0 <= i < |text| ==> digits[i] == (text[i] - '0') as int
  {
    seq(|text|, i requires 0 <= i < |text| => (text[i] - '0') as int)
  }

  function TextOf(digits: seq<Digit>): (text: string)
    ensures |text| == |digits| && forall i :: 0 <= i < |digits| ==> text[i] == '0' + digits[i] as char
    ensures AllDigits(text) && DigitsOf(text) == digits
  {
    seq(|digits|, i requires 0 <= i < |digits| => '0' + digits[i] as char)
  }

  /** How the locale writes whole numbers. */
  type Grouping = nat -> string

  function AmountText(amount: Amount, group: Grouping): string {
    if amount.fraction == [] then group(amount.whole) else group(amount.whole) + "." + TextOf(amount.fraction)
  }

  /** The value that is formatted: a missing one counts as zero. */
  function RawText(value: string): string {
    if value == "" then "0" else value
  }

  /** Text that is not a digit string is shown as it is. */
  function FormatText(value: string, decimals: int, group: Grouping): string {
    if !AllDigits(RawText(value)) then RawText(value)
    else AmountText(FormatAtomicAmount(DigitsOf(RawText(value)), decimals), group)
  }

  /** What is shown for a digit string is a whole number as the locale writes it and, after a
      dot, a fraction without trailing zeros, and the two add up to the raw amount. */
  lemma TextIsExact(value: string, decimals: int, group: Grouping)
    ensures !AllDigits(RawText(value)) ==> FormatText(value, decimals, group) == value
    ensures AllDigits(RawText(value)) ==>
              var d := if decimals <= 0 then 0 else if decimals <= 18 then decimals else 18;
              Exact(FormatText(value, decimals, group), DigitsOf(RawText(value)), d, group)
  {
    if AllDigits(RawText(value)) {
      AmountIsExact(DigitsOf(RawText(value)), Clamp(decimals), group);
    }
  }

  /** The text is a whole number as the locale writes it and, after a dot, at most `d` fraction
      digits without trailing zeros, and the two add up to the raw amount. */
  ghost predicate Exact(text: string, raw: seq<Digit>, d: nat, group: Grouping) {
    exists shown: Amount :: |shown.fraction| <= d && text == AmountText(shown, group)
                            && Shown(shown, d) == Value(raw) && Stripped(shown.fraction)
  }

  lemma AmountIsExact(raw: seq<Digit>, d: nat, group: Grouping)
    ensures Exact(AmountText(FormatWith(raw, d), group), raw, d, group)
  {
    FormatIsExact(raw, d);
  }

  /** No value is shown as the number zero, whatever the decimals. */
  lemma NoValueIsZero(decimals: int, group: Grouping)
    ensures FormatText("", decimals, group) == FormatText("0", decimals, group) == group(0)
  {
    var raw, d := DigitsOf("0"), Clamp(decimals);
    assert raw == [0] && Value(raw) == 0;
    FormatIsExact(raw, d);
    FormatIsExact(Repeat<Digit>(0, d + 1), d);
    ZeroIsWhole(d);
  }

  lemma ZeroIsWhole(d: nat)
    ensures FormatWith([0], d) == Amount(0, [])
  {
    if d > 0 {
      var digits := PadStart([0], d + 1);
      assert forall k :: 0 <= k < |digits| ==> digits[k] == 0;
      ValueOfZeros(digits[..|digits| - d]);
    } else {
      assert Value([0]) == 0;
    }
  }

  predicate Stripped(fraction: seq<Digit>) {
    fraction != [] ==> fraction[|fraction| - 1] != 0
  }

  /** A locale's grouping under which no two different amounts look alike: it writes different
      numbers differently, and none as another number with a fraction. */
  ghost predicate Readable(group: Grouping) {
    && (forall w, w' :: group(w) == group(w') ==> w == w')
    && (forall w, w', f :: 0 < |f| <= 18 && Stripped(f) ==> group(w) != group(w') + "." + TextOf(f))
  }

  ghost predicate Faithful(group: Grouping) {
    forall v, v', decimals :: AllDigits(RawText(v)) && AllDigits(RawText(v')) ==>
      (FormatText(v, decimals, group) == FormatText(v', decimals, group) <==>
         Value(DigitsOf(RawText(v))) == Value(DigitsOf(RawText(v'))))
  }

  /** The digits after the last dot are the fraction, whatever the grouping writes before it. */
  lemma SameFraction(whole: string, fraction: string, whole': string, fraction': string)
    requires AllDigits(fraction) && AllDigits(fraction')
    requires whole + "." + fraction == whole' + "." + fraction'
    ensures whole == whole' && fraction == fraction'
  {
    var text := whole + "." + fraction;
    assert text[|whole|] == '.' && text[|whole'|] == '.';
    assert forall i :: |whole| < i < |text| ==> text[i] == fraction[i - |whole| - 1];
    assert forall i :: |whole'| < i < |text| ==> text[i] == fraction'[i - |whole'| - 1];
    assert |whole| == |whole'|;
    assert text[..|whole|] == whole && text[|whole| + 1..] == fraction;
    assert text[..|whole'|] == whole' && text[|whole'| + 1..] == fraction';
  }

  lemma SameText(a: Amount, b: Amount, group: Grouping)
    requires Readable(group) && AmountText(a, group) == AmountText(b, group)
    requires Stripped(a.fraction) && Stripped(b.fraction) && |a.fraction| <= 18 && |b.fraction| <= 18
    ensures a == b
  {
    if a.fraction != [] && b.fraction != [] {
      SameFraction(group(a.whole), TextOf(a.fraction), group(b.whole), TextOf(b.fraction));
      assert DigitsOf(TextOf(a.fraction)) == DigitsOf(TextOf(b.fraction));
    }
  }

  lemma ReadableIsFaithful(raw: seq<Digit>, raw': seq<Digit>, decimals: int, group: Grouping)
    requires Readable(group)
    ensures AmountText(FormatAtomicAmount(raw, decimals), group)
              == AmountText(FormatAtomicAmount(raw', decimals), group) <==>
              Value(raw) == Value(raw')
  {
    FormatIsFaithful(raw, raw', decimals);
    if AmountText(FormatAtomicAmount(raw, decimals), group) == AmountText(FormatAtomicAmount(raw', decimals), group) {
      ShownAlike(raw, raw', Clamp(decimals), group);
    }
  }

  lemma ShownAlike(raw: seq<Digit>, raw': seq<Digit>, d: nat, group: Grouping)
    requires Readable(group) && d <= 18
    requires AmountText(FormatWith(raw, d), group) == AmountText(FormatWith(raw', d), group)
    ensures FormatWith(raw, d) == FormatWith(raw', d)
  {
    FormatIsExact(raw, d);
    FormatIsExact(raw', d);
    SameText(FormatWith(raw, d), FormatWith(raw', d), group);
  }

  function Digits(n: nat): (digits: seq<Digit>)
    ensures digits != [] && Value(digits) == n
  {
    if n < 10 then [n] else Digits(n / 10) + [n % 10]
  }

  /** A digit string with `|fraction|` decimals is cut where the fraction begins. */
  lemma FormatOfParts(whole: seq<Digit>, fraction: seq<Digit>, group: Grouping)
    requires whole != [] && 0 < |fraction| <= 18
    ensures FormatText(TextOf(whole + fraction), |fraction|, group) ==
              AmountText(Amount(Value(whole), StripTrailingZeros(fraction)), group)
    ensures Value(whole + fraction) == Value(whole) * Pow10(|fraction|) + Value(fraction)
  {
    SplitOfParts(whole, fraction);
    ValueOfConcat(whole, fraction);
    assert FormatAtomicAmount(whole + fraction, |fraction|) == Amount(Value(whole), StripTrailingZeros(fraction));
    ShownDigits(whole + fraction, |fraction|, group);
  }

  lemma ShownDigits(raw: seq<Digit>, decimals: int, group: Grouping)
    requires raw != []
    ensures FormatText(TextOf(raw), decimals, group) == AmountText(FormatAtomicAmount(raw, decimals), group)
  {
  }

  lemma SplitOfParts(whole: seq<Digit>, fraction: seq<Digit>)
    requires whole != [] && fraction != []
    ensures FormatWith(whole + fraction, |fraction|) == Amount(Value(whole), StripTrailingZeros(fraction))
  {
    var raw := whole + fraction;
    assert PadStart(raw, |fraction| + 1) == raw;
    assert raw[..|raw| - |fraction|] == whole && raw[|raw| - |fraction|..] == fraction;
  }

  lemma ShownWhole(whole: seq<Digit>, d: nat, group: Grouping)
    requires whole != [] && 0 < d <= 18
    ensures FormatText(TextOf(whole + Repeat(0, d)), d, group) == group(Value(whole))
  {
    var zeros := Repeat<Digit>(0, d);
    StrippedZeros(zeros);
    FormatOfParts(whole, zeros, group);
  }

  lemma StrippedZeros(zeros: seq<Digit>)
    requires forall k :: 0 <= k < |zeros| ==> zeros[k] == 0
    ensures StripTrailingZeros(zeros) == []
  {
  }

  lemma ShownFraction(whole: seq<Digit>, f: seq<Digit>, group: Grouping)
    requires whole != [] && 0 < |f| <= 18 && Stripped(f)
    ensures FormatText(TextOf(whole + f), |f|, group) == group(Value(whole)) + "." + TextOf(f)
  {
    FormatOfParts(whole, f, group);
  }

  /** A nonzero fraction keeps two digit strings apart, whatever comes before it. */
  lemma FractionTells(whole: seq<Digit>, whole': seq<Digit>, f: seq<Digit>)
    requires f != [] && Stripped(f)
    ensures Value(whole + Repeat(0, |f|)) != Value(whole' + f)
  {
    var zeros := Repeat<Digit>(0, |f|);
    ValueOfConcat(whole, zeros);
    ValueOfConcat(whole', f);
    ValueOfZeros(zeros);
    ValueBounded(f);
    assert Value(f) > 0;
    if Value(whole + zeros) == Value(whole' + f) {
      SplitUnique(Value(whole), 0, Value(whole'), Value(f), Pow10(|f|));
    }
  }

  /** A whole number written as another with a fraction makes two different amounts look alike. */
  lemma LooksAlike(w: nat, w': nat, f: seq<Digit>, group: Grouping)
    requires 0 < |f| <= 18 && Stripped(f) && group(w) == group(w') + "." + TextOf(f)
    ensures !Faithful(group)
  {
    var v, v' := TextOf(Digits(w) + Repeat(0, |f|)), TextOf(Digits(w') + f);
    ShownWhole(Digits(w), |f|, group);
    ShownFraction(Digits(w'), f, group);
    FractionTells(Digits(w), Digits(w'), f);
    assert AllDigits(RawText(v)) && AllDigits(RawText(v')) && FormatText(v, |f|, group) == FormatText(v', |f|, group);
  }

  /** A faithful grouping writes different numbers differently. */
  lemma FaithfulIsInjective(w: nat, w': nat, group: Grouping)
    requires Faithful(group) && group(w) == group(w')
    ensures w == w'
  {
    var v, v' := TextOf(Digits(w)), TextOf(Digits(w'));
    assert DigitsOf(RawText(v)) == Digits(w) && DigitsOf(RawText(v')) == Digits(w');
    assert FormatText(v, 0, group) == group(w) && FormatText(v', 0, group) == group(w');
  }

  /** Digit strings look alike exactly when they are the same amount, if and only if the
      locale's grouping is readable. */
  lemma FaithfulExactly(group: Grouping)
    ensures Faithful(group) <==> Readable(group)
  {
    if Readable(group) {
      forall v, v', decimals | AllDigits(RawText(v)) && AllDigits(RawText(v'))
        ensures FormatText(v, decimals, group) == FormatText(v', decimals, group) <==>
                  Value(DigitsOf(RawText(v))) == Value(DigitsOf(RawText(v')))
      {
        ReadableIsFaithful(DigitsOf(RawText(v)), DigitsOf(RawText(v')), decimals, group);
      }
    }
    if Faithful(group) {
      forall w, w' | group(w) == group(w')
        ensures w == w'
      {
        FaithfulIsInjective(w, w', group);
      }
      forall w, w', f | 0 < |f| <= 18 && Stripped(f)
        ensures group(w) != group(w') + "." + TextOf(f)
      {
        if group(w) == group(w') + "." + TextOf(f) {
          LooksAlike(w, w', f, group);
        }
      }
    }
  }

  /** A grouping that writes no dot and no two numbers alike is readable. */
  lemma DotlessIsReadable(group: Grouping)
    requires forall w, w' :: group(w) == group(w') ==> w == w'
    requires forall w :: '.' !in group(w)
    ensures Readable(group)
  {
    forall w, w', f | 0 < |f| <= 18 && Stripped(f)
      ensures group(w) != group(w') + "." + TextOf(f)
    {
      assert (group(w') + "." + TextOf(f))[|group(w')|] == '.';
    }
  }

  lemma Value1234()
    ensures Value([1, 2, 3, 4]) == 1234 && Value([1]) == 1
  {
    assert [1, 2, 3, 4][..3] == [1, 2, 3] && [1, 2, 3][..2] == [1, 2] && [1, 2][..1] == [1];
  }

  /** A locale that separates thousands by dots is not: with three decimals, 1234 whole units
      and one unit and 234 thousandths are shown alike. */
  lemma DottedThousandsLookAlike(group: Grouping, f: seq<Digit>)
    requires group(1) == "1" && group(1234) == "1.234" && f == [2, 3, 4]
    ensures FormatText(TextOf([1, 2, 3, 4] + Repeat(0, 3)), 3, group) == "1.234"
              == FormatText(TextOf([1] + f), 3, group)
    ensures !Readable(group) && !Faithful(group)
  {
    ShownWhole([1, 2, 3, 4], 3, group);
    ShownFraction([1], f, group);
    Value1234();
    Fraction234(f);
    LooksAlike(1234, 1, f, group);
    FaithfulExactly(group);
  }

  lemma Fraction234(f: seq<Digit>)
    requires f == [2, 3, 4]
    ensures |f| == 3 && Stripped(f) && TextOf(f) == "234" && "1" + "." + TextOf(f) == "1.234"
  {
  }
}
