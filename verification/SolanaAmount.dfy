/** The decimal text the gateway requires beside a raw Solana token amount. */
module SolanaAmount {
  import opened Digits

  type Decimal = ds: seq<nat> | AllBelow(10, ds)

  function Text(ds: Decimal): (s: string)
    ensures |s| == |ds|
    ensures forall i :: 0 <= i < |s| ==> s[i] == '0' + ds[i] as char
  {
    seq(|ds|, i requires 0 <= i < |ds| => '0' + ds[i] as char)
  }

  function Joined(whole: string, fraction: string): string {
    if fraction == "" then whole else whole + "." + fraction
  }

  /** The text of a whole part and a fraction: no point without a fraction. */
  function Print(whole: Decimal, fraction: Decimal): string {
    Joined(Text(whole), Text(fraction))
  }

  /** `big.Int.String`: the minimal digits, but one for zero. */
  function Shown(amount: nat): Decimal {
    if amount == 0 then [0] else Of(10, amount)
  }

  /** `strings.TrimRight(…, "0")`. */
  function TrimZeros(ds: Decimal): (t: Decimal)
    ensures |t| <= |ds|
    ensures t == [] || t[|t| - 1] != 0
    ensures ds == t + Zeros(|ds| - |t|)
  {
    if ds == [] || ds[|ds| - 1] != 0 then ds else TrimZeros(ds[..|ds| - 1])
  }

  /** The shown digits, with zeros in front until one digit is left of the point. */
  function Padded(amount: nat, decimals: nat): (ds: Decimal)
    ensures |ds| > decimals
  {
    var digits := Shown(amount);
    if |digits| <= decimals then Zeros(decimals - |digits| + 1) + digits else digits
  }

  function CanonicalSolanaUIAmount(amount: nat, decimals: nat): string {
    if decimals == 0 then Text(Shown(amount))
    else
      var digits := Padded(amount, decimals);
      var point := |digits| - decimals;
      Print(digits[..point], TrimZeros(digits[point..]))
  }

  // ----- what the text means -----

  /** The numeral whole.fraction, scaled by ten to the decimals, is the amount. */
  predicate Denotes(whole: Decimal, fraction: Decimal, decimals: nat, amount: nat) {
    |fraction| <= decimals && Value(10, whole + fraction) * Pow(10, decimals - |fraction|) == amount
  }

  /** A whole part without a redundant leading zero, and a fraction without a redundant trailing one. */
  predicate Plain(whole: Decimal, fraction: Decimal) {
    && whole != [] && (whole == [0] || whole[0] != 0)
    && (fraction == [] || fraction[|fraction| - 1] != 0)
  }

  lemma {:induction false} ValueBeforeZeros(ds: Decimal, k: nat)
    ensures Value(10, ds + Zeros(k)) == Value(10, ds) * Pow(10, k)
  {
    if k == 0 {
      assert ds + Zeros(0) == ds;
    } else {
      var all := ds + Zeros(k);
      ValueBeforeZeros(ds, k - 1);
      assert all[..|all| - 1] == ds + Zeros(k - 1);
      assert Value(10, ds) * Pow(10, k - 1) * 10 == Value(10, ds) * Pow(10, k);
    }
  }

  lemma ShownValue(amount: nat)
    ensures Value(10, Shown(amount)) == amount
    ensures amount > 0 ==> Shown(amount)[0] != 0
  {
    if amount > 0 {
      ValueOf(10, amount);
    } else {
      assert Value(10, [0]) == Value(10, []) * 10 + 0;
    }
  }

  /** What the padding is for: at least one digit left of the point, and no redundant one. */
  ghost predicate Aligned(ds: Decimal, decimals: nat) {
    |ds| > decimals && (ds[0] != 0 || |ds| == decimals + 1)
  }

  lemma PaddedAligned(amount: nat, decimals: nat)
    ensures Value(10, Padded(amount, decimals)) == amount && Aligned(Padded(amount, decimals), decimals)
  {
    ShownValue(amount);
    var digits := Shown(amount);
    if |digits| <= decimals {
      ValueAfterZeros(10, decimals - |digits| + 1, digits);
    }
  }

  lemma {:induction false} SameLengthSameValue(a: Decimal, b: Decimal)
    requires |a| == |b| && Value(10, a) == Value(10, b)
    ensures a == b
  {
    if a != [] {
      var x, y := a[..|a| - 1], b[..|b| - 1];
      DivModUnique(10, Value(10, x), a[|a| - 1]);
      DivModUnique(10, Value(10, y), b[|b| - 1]);
      SameLengthSameValue(x, y);
      assert a == x + [a[|a| - 1]] && b == y + [b[|b| - 1]];
    }
  }

  /** A longer sequence without a leading zero has the larger value. */
  lemma LongerIsLarger(a: Decimal, b: Decimal)
    requires |a| > |b| && a[0] != 0
    ensures Value(10, a) > Value(10, b)
  {
  }

  lemma AlignedIsUnique(a: Decimal, b: Decimal, decimals: nat)
    requires Aligned(a, decimals) && Aligned(b, decimals) && Value(10, a) == Value(10, b)
    ensures a == b
  {
    if |a| > |b| {
      LongerIsLarger(a, b);
    } else if |b| > |a| {
      LongerIsLarger(b, a);
    } else {
      SameLengthSameValue(a, b);
    }
  }

  /** The numeral written out to all its decimals. */
  function Full(whole: Decimal, fraction: Decimal, decimals: nat): Decimal
    requires |fraction| <= decimals
  {
    whole + fraction + Zeros(decimals - |fraction|)
  }

  lemma FullDenotes(whole: Decimal, fraction: Decimal, decimals: nat)
    requires |fraction| <= decimals
    ensures Denotes(whole, fraction, decimals, Value(10, Full(whole, fraction, decimals)))
  {
    ValueBeforeZeros(whole + fraction, decimals - |fraction|);
  }

  function WholeOf(digits: Decimal, decimals: nat): Decimal
    requires decimals <= |digits|
  {
    digits[..|digits| - decimals]
  }

  function FractionOf(digits: Decimal, decimals: nat): (fraction: Decimal)
    requires decimals <= |digits|
    ensures |fraction| <= decimals
  {
    TrimZeros(digits[|digits| - decimals..])
  }

  lemma PartsAreFull(digits: Decimal, decimals: nat)
    requires decimals <= |digits|
    ensures Full(WholeOf(digits, decimals), FractionOf(digits, decimals), decimals) == digits
  {
    var tail: Decimal := digits[|digits| - decimals..];
    assert digits == WholeOf(digits, decimals) + tail;
    assert tail == TrimZeros(tail) + Zeros(decimals - |TrimZeros(tail)|);
  }

  function Whole(amount: nat, decimals: nat): Decimal {
    WholeOf(Padded(amount, decimals), decimals)
  }

  function Fraction(amount: nat, decimals: nat): Decimal {
    FractionOf(Padded(amount, decimals), decimals)
  }

  /** Without decimals there is nothing to pad or trim, so the early return is no exception. */
  lemma CanonicalPrintsParts(amount: nat, decimals: nat)
    ensures CanonicalSolanaUIAmount(amount, decimals) == Print(Whole(amount, decimals), Fraction(amount, decimals))
  {
    if decimals == 0 {
      var digits := Padded(amount, 0);
      assert digits[..|digits|] == Shown(amount);
      assert TrimZeros(digits[|digits|..]) == [];
    }
  }

  lemma AlignedIsPlain(digits: Decimal, decimals: nat)
    requires Aligned(digits, decimals)
    ensures var point := |digits| - decimals;
            Plain(digits[..point], TrimZeros(digits[point..]))
  {
  }

  lemma PartsArePlain(amount: nat, decimals: nat)
    ensures Plain(Whole(amount, decimals), Fraction(amount, decimals))
  {
    PaddedAligned(amount, decimals);
    AlignedIsPlain(Padded(amount, decimals), decimals);
  }

  lemma PartsDenote(digits: Decimal, decimals: nat, whole: Decimal, fraction: Decimal)
    requires |fraction| <= decimals && digits == Full(whole, fraction, decimals)
    ensures Denotes(whole, fraction, decimals, Value(10, digits))
  {
    FullDenotes(whole, fraction, decimals);
  }

  /** The text is a numeral without a redundant zero that denotes exactly the amount. */
  lemma CanonicalDenotes(amount: nat, decimals: nat)
    ensures Plain(Whole(amount, decimals), Fraction(amount, decimals))
    ensures Denotes(Whole(amount, decimals), Fraction(amount, decimals), decimals, amount)
  {
    PartsArePlain(amount, decimals);
    PaddedAligned(amount, decimals);
    PartsAreFull(Padded(amount, decimals), decimals);
    PartsDenote(Padded(amount, decimals), decimals, Whole(amount, decimals), Fraction(amount, decimals));
  }

  /** Trimming undoes the writing out. */
  lemma {:induction false} TrimOfFull(fraction: Decimal, k: nat)
    requires fraction == [] || fraction[|fraction| - 1] != 0
    ensures TrimZeros(fraction + Zeros(k)) == fraction
  {
    var all: Decimal := fraction + Zeros(k);
    if k == 0 {
      assert all == fraction;
    } else {
      var shorter: Decimal := fraction + Zeros(k - 1);
      assert all == shorter + [0] && all[|all| - 1] == 0;
      assert all[..|all| - 1] == shorter;
      TrimOfFull(fraction, k - 1);
    }
  }

  lemma PartsOfFull(digits: Decimal, whole: Decimal, fraction: Decimal, decimals: nat)
    requires Plain(whole, fraction) && |fraction| <= decimals && digits == Full(whole, fraction, decimals)
    ensures WholeOf(digits, decimals) == whole && FractionOf(digits, decimals) == fraction
  {
    TrimOfFull(fraction, decimals - |fraction|);
    assert |digits| - decimals == |whole|;
    assert digits == whole + (fraction + Zeros(decimals - |fraction|));
    assert digits[|digits| - decimals..] == fraction + Zeros(decimals - |fraction|);
  }

  /** No other plain numeral denotes the amount: comparing the text is comparing the number. */
  lemma CanonicalIsTheOnlyPlainText(whole: Decimal, fraction: Decimal, decimals: nat, amount: nat)
    requires Plain(whole, fraction) && Denotes(whole, fraction, decimals, amount)
    ensures Print(whole, fraction) == CanonicalSolanaUIAmount(amount, decimals)
  {
    PlainParts(whole, fraction, decimals, amount);
    CanonicalPrintsParts(amount, decimals);
  }

  lemma PlainParts(whole: Decimal, fraction: Decimal, decimals: nat, amount: nat)
    requires Plain(whole, fraction) && Denotes(whole, fraction, decimals, amount)
    ensures whole == Whole(amount, decimals) && fraction == Fraction(amount, decimals)
  {
    PlainIsPadded(whole, fraction, decimals, amount);
    PartsOfFull(Padded(amount, decimals), whole, fraction, decimals);
  }

  lemma PlainIsPadded(whole: Decimal, fraction: Decimal, decimals: nat, amount: nat)
    requires Plain(whole, fraction) && Denotes(whole, fraction, decimals, amount)
    ensures Full(whole, fraction, decimals) == Padded(amount, decimals)
  {
    var digits := Full(whole, fraction, decimals);
    FullDenotes(whole, fraction, decimals);
    PaddedAligned(amount, decimals);
    assert digits[0] == whole[0];
    AlignedIsUnique(digits, Padded(amount, decimals), decimals);
  }

  lemma TextInjective(a: Decimal, b: Decimal)
    requires Text(a) == Text(b)
    ensures a == b
  {
  }

  lemma PointAt(whole: Decimal, fraction: Decimal)
    ensures forall i :: 0 <= i < |whole| ==> Print(whole, fraction)[i] != '.'
    ensures fraction == [] <==> '.' !in Print(whole, fraction)
    ensures fraction != [] ==> Print(whole, fraction)[|whole|] == '.'
  {
  }

  lemma PrintInjective(whole: Decimal, fraction: Decimal, whole': Decimal, fraction': Decimal)
    requires Print(whole, fraction) == Print(whole', fraction')
    ensures whole == whole' && fraction == fraction'
  {
    var s := Print(whole, fraction);
    PointAt(whole, fraction);
    PointAt(whole', fraction');
    if fraction == [] {
      TextInjective(whole, whole');
    } else {
      assert |whole| == |whole'|;
      assert s[..|whole|] == Text(whole) && s[..|whole|] == Text(whole');
      assert s[|whole| + 1..] == Text(fraction) && s[|whole| + 1..] == Text(fraction');
      TextInjective(whole, whole');
      TextInjective(fraction, fraction');
    }
  }

  lemma PartsDecideAmount(a: nat, b: nat, decimals: nat)
    requires Whole(a, decimals) == Whole(b, decimals) && Fraction(a, decimals) == Fraction(b, decimals)
    ensures a == b
  {
    CanonicalDenotes(a, decimals);
    CanonicalDenotes(b, decimals);
  }

  /** For fixed decimals different amounts have different texts. */
  lemma CanonicalIsInjective(a: nat, b: nat, decimals: nat)
    requires CanonicalSolanaUIAmount(a, decimals) == CanonicalSolanaUIAmount(b, decimals)
    ensures a == b
  {
    CanonicalPrintsParts(a, decimals);
    CanonicalPrintsParts(b, decimals);
    PrintInjective(Whole(a, decimals), Fraction(a, decimals), Whole(b, decimals), Fraction(b, decimals));
    PartsDecideAmount(a, b, decimals);
  }

  // ----- reading the text -----

  /** The digits of a text as one number, whatever point there is between them. */
  function Mantissa(s: string): nat {
    if s == "" then 0
    else
      var c := s[|s| - 1];
      if '0' <= c <= '9' then Mantissa(s[..|s| - 1]) * 10 + (c as nat - '0' as nat) else Mantissa(s[..|s| - 1])
  }

  /** How many characters follow the last point; none without a point. */
  function Places(s: string): nat {
    if '.' !in s || s[|s| - 1] == '.' then 0 else 1 + Places(s[..|s| - 1])
  }

  lemma {:induction false} MantissaOfText(s: string, ds: Decimal)
    ensures Mantissa(s + Text(ds)) == Mantissa(s) * Pow(10, |ds|) + Value(10, ds)
  {
    if ds == [] {
      assert s + Text(ds) == s;
    } else {
      var init: Decimal := ds[..|ds| - 1];
      var all := s + Text(ds);
      assert all[..|all| - 1] == s + Text(init);
      assert all[|all| - 1] == '0' + ds[|ds| - 1] as char;
      MantissaOfText(s, init);
      MulAssociates(Mantissa(s), Pow(10, |init|), 10);
      assert Pow(10, |ds|) == 10 * Pow(10, |init|);
    }
  }

  lemma {:induction false} PlacesAfterPoint(s: string, ds: Decimal)
    ensures Places(s + "." + Text(ds)) == |ds|
  {
    var all := s + "." + Text(ds);
    assert all[|s|] == '.';
    if ds != [] {
      var init: Decimal := ds[..|ds| - 1];
      assert all[..|all| - 1] == s + "." + Text(init);
      assert all[|all| - 1] == '0' + ds[|ds| - 1] as char;
      PlacesAfterPoint(s, init);
    }
  }

  lemma {:induction false} ValueOfConcat(a: Decimal, b: Decimal)
    ensures Value(10, a + b) == Value(10, a) * Pow(10, |b|) + Value(10, b)
  {
    if b == [] {
      assert a + b == a;
    } else {
      var init: Decimal := b[..|b| - 1];
      assert (a + b)[..|a + b| - 1] == a + init;
      ValueOfConcat(a, init);
      MulAssociates(Value(10, a), Pow(10, |init|), 10);
      assert Pow(10, |b|) == 10 * Pow(10, |init|);
    }
  }

  lemma TextHasNoPoint(s: string, ds: Decimal)
    requires s == Text(ds)
    ensures '.' !in s && Places(s) == 0
  {
    forall i | 0 <= i < |s|
      ensures s[i] != '.'
    {
      assert s[i] == '0' + ds[i] as char;
    }
  }

  lemma MantissaOfDigits(s: string, ds: Decimal)
    requires s == "" + Text(ds)
    ensures Mantissa(s) == Value(10, ds)
  {
    MantissaOfText("", ds);
  }

  lemma TextReads(whole: Decimal)
    ensures Mantissa(Text(whole)) == Value(10, whole) && Places(Text(whole)) == 0
  {
    assert Text(whole) == "" + Text(whole);
    MantissaOfDigits(Text(whole), whole);
    TextHasNoPoint(Text(whole), whole);
  }

  lemma PointReads(whole: Decimal, fraction: Decimal)
    ensures var s := Text(whole) + "." + Text(fraction);
            Mantissa(s) == Value(10, whole + fraction) && Places(s) == |fraction|
  {
    var front := Text(whole) + ".";
    assert front[..|front| - 1] == Text(whole) && front[|front| - 1] == '.';
    TextReads(whole);
    MantissaOfText(front, fraction);
    ValueOfConcat(whole, fraction);
    PlacesAfterPoint(Text(whole), fraction);
  }

  lemma PrintReads(whole: Decimal, fraction: Decimal)
    ensures Mantissa(Print(whole, fraction)) == Value(10, whole + fraction)
    ensures Places(Print(whole, fraction)) == |fraction|
  {
    if fraction == [] {
      TextReads(whole);
      assert whole + fraction == whole;
    } else {
      PointReads(whole, fraction);
    }
  }

  /** Reading the text gives back the amount: its digits, scaled by the decimals that are left, and there
      are never more places than decimals. */
  lemma CanonicalReadsBack(amount: nat, decimals: nat)
    ensures var s := CanonicalSolanaUIAmount(amount, decimals);
            && Places(s) <= decimals
            && Mantissa(s) * Pow(10, decimals - Places(s)) == amount
  {
    CanonicalPrintsParts(amount, decimals);
    CanonicalDenotes(amount, decimals);
    DenotingReads(CanonicalSolanaUIAmount(amount, decimals), Whole(amount, decimals), Fraction(amount, decimals),
                  decimals, amount);
  }

  lemma DenotingReads(s: string, whole: Decimal, fraction: Decimal, decimals: nat, amount: nat)
    requires s == Print(whole, fraction) && Denotes(whole, fraction, decimals, amount)
    ensures Places(s) <= decimals && Mantissa(s) * Pow(10, decimals - Places(s)) == amount
  {
    PrintReads(whole, fraction);
  }

  /** And it is written as the schema's pattern wants it, with nothing redundant: a zero in front only
      alone before the point or the end, no zero and no point at the end of a fraction. */
  lemma CanonicalLooksPlain(amount: nat, decimals: nat)
    ensures var s := CanonicalSolanaUIAmount(amount, decimals);
            && s != "" && '0' <= s[0] <= '9'
            && (s[0] == '0' ==> |s| == 1 || s[1] == '.')
            && ('.' in s ==> s[|s| - 1] != '0' && s[|s| - 1] != '.')
  {
    CanonicalPrintsParts(amount, decimals);
    CanonicalDenotes(amount, decimals);
    PlainLooksPlain(CanonicalSolanaUIAmount(amount, decimals), Whole(amount, decimals), Fraction(amount, decimals));
  }

  lemma PlainLooksPlain(s: string, whole: Decimal, fraction: Decimal)
    requires s == Print(whole, fraction) && Plain(whole, fraction)
    ensures s != "" && '0' <= s[0] <= '9'
    ensures s[0] == '0' ==> |s| == 1 || s[1] == '.'
    ensures '.' in s ==> s[|s| - 1] != '0' && s[|s| - 1] != '.'
  {
    PointAt(whole, fraction);
    assert s[0] == Text(whole)[0];
    if fraction != [] {
      assert s[|s| - 1] == Text(fraction)[|fraction| - 1];
    }
  }
}
