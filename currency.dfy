/** Currency digit strings (app.js:50-78, 460-462).  Amounts are whole rupiah,
    so every amount is a natural number written in decimal, and the text shown
    in an input box groups its digits in threes with commas. */
module Currency {
  import opened Seqs

  predicate IsDigit(c: char) { '0' <= c <= '9' }

  predicate AllDigits(s: string) { forall i :: 0 <= i < |s| ==> IsDigit(s[i]) }

  /** The decimal text `n.toString()` produces: "0", or digits without a leading zero. */
  predicate Canonical(s: string)
  {
    s == "0" || (|s| > 0 && AllDigits(s) && s[0] != '0')
  }

  function DigitValue(c: char): nat
    requires IsDigit(c)
  {
    c as int - '0' as int
  }

  function DigitChar(d: nat): (c: char)
    requires d < 10
    ensures IsDigit(c) && DigitValue(c) == d
  {
    ('0' as int + d) as char
  }

  /** `parseInt` of a non-empty string of decimal digits (the empty string reads as 0 here). */
  function DigitsValue(ds: string): nat
    requires AllDigits(ds)
  {
    if ds == [] then 0 else 10 * DigitsValue(ds[..|ds| - 1]) + DigitValue(ds[|ds| - 1])
  }

  /** `n.toString()` for a whole number of rupiah. */
  function NatToDigits(n: nat): (ds: string)
    ensures Canonical(ds) && AllDigits(ds)
    ensures DigitsValue(ds) == n
  {
    if n < 10 then [DigitChar(n)]
    else
      var ds := NatToDigits(n / 10) + [DigitChar(n % 10)];
      assert ds[..|ds| - 1] == NatToDigits(n / 10);
      ds
  }

  /** `str.replace(/[^\d]/g, '')`; `StripKeepsDigits` says what survives. */
  function StripNonDigits(s: string): (r: string)
    ensures AllDigits(r)
    ensures |r| <= |s|
  {
    Filter(s, IsDigit)
  }

  /** The strip keeps every digit, in its order, and nothing else: every
      copy of a digit survives and no other character does. */
  lemma StripKeepsDigits(s: string)
    ensures IsSubsequence(StripNonDigits(s), s)
    ensures forall c :: multiset(StripNonDigits(s))[c] == if IsDigit(c) then multiset(s)[c] else 0
  {
    FilterIsSubsequence(s, IsDigit);
    forall c ensures multiset(Filter(s, IsDigit))[c] == if IsDigit(c) then multiset(s)[c] else 0 {
      FilterCount(s, IsDigit, c);
    }
  }

  /** `parseFormattedCurrency` (app.js:75-78): a falsy (empty) string is 0;
      otherwise the digits are read as a decimal number, and a string with no
      digit at all (`parseInt('')` is NaN, and `NaN || 0` is 0) is 0 too. */
  function ParseFormattedCurrency(s: string): (n: nat)
    ensures n == DigitsValue(StripNonDigits(s))
    ensures AllDigits(s) ==> n == DigitsValue(s)
    ensures (forall i :: 0 <= i < |s| ==> !IsDigit(s[i])) ==> n == 0
  {
    if s == [] then 0
    else
      var ds := StripNonDigits(s);
      StripDigitsOnly(s);
      StripNoDigits(s);
      if ds == [] then 0 else DigitsValue(ds)
  }

  /** `parseCurrency` (app.js:460-462): the same reading without the
      empty-string guard; on every string the two agree. */
  function ParseCurrency(s: string): (n: nat)
    ensures n == ParseFormattedCurrency(s)
  {
    var ds := StripNonDigits(s);
    if ds == [] then 0 else DigitsValue(ds)
  }

  lemma {:induction false} StripDigitsOnly(s: string)
    ensures AllDigits(s) ==> StripNonDigits(s) == s
  {
    if AllDigits(s) {
      FilterAllPass(s, IsDigit);
    }
  }

  lemma {:induction false} StripNoDigits(s: string)
    ensures (forall i :: 0 <= i < |s| ==> !IsDigit(s[i])) ==> StripNonDigits(s) == []
  {
    if s != [] && forall i :: 0 <= i < |s| ==> !IsDigit(s[i]) {
      assert forall i :: 0 <= i < |s[1..]| ==> !IsDigit(s[1..][i]) by {
        forall i | 0 <= i < |s[1..]| ensures !IsDigit(s[1..][i]) {
          assert s[1..][i] == s[i + 1];
        }
      }
      StripNoDigits(s[1..]);
    }
  }

  // ---------------------------------------------------------------------------
  // formatNumberWithComma (app.js:71-73)

  /** Whether `/\B(?=(\d{3})+(?!\d))/g` matches before position `i` of a digit
      string of length `n`: not at the start (a word boundary), and a positive
      multiple of three digits follows up to the end. */
  predicate CommaBefore(n: nat, i: nat)
  {
    0 < i < n && (n - i) % 3 == 0
  }

  /** The regular-expression replacement, scanning positions `i..` left to right. */
  function InsertCommas(ds: string, i: nat): string
    decreases |ds| - i
  {
    if i >= |ds| then []
    else (if CommaBefore(|ds|, i) then "," else "") + [ds[i]] + InsertCommas(ds, i + 1)
  }

  /** `formatNumberWithComma`, applied (as its one caller does) to a digit string. */
  function FormatNumberWithComma(ds: string): (r: string)
    requires AllDigits(ds)
    ensures |r| >= |ds|
  {
    InsertCommasLength(ds, 0);
    InsertCommas(ds, 0)
  }

  lemma {:induction false} InsertCommasLength(ds: string, i: nat)
    ensures i <= |ds| ==> |InsertCommas(ds, i)| >= |ds| - i
    decreases |ds| - i
  {
    if i < |ds| {
      InsertCommasLength(ds, i + 1);
    }
  }

  /** Removing the commas gives back the digits from position `i` on. */
  lemma {:induction false} InsertCommasStrip(ds: string, i: nat)
    requires AllDigits(ds) && i <= |ds|
    ensures StripNonDigits(InsertCommas(ds, i)) == ds[i..]
    decreases |ds| - i
  {
    if i < |ds| {
      var rest := StripNonDigits(InsertCommas(ds, i + 1));
      assert rest == ds[i + 1..] by {
        InsertCommasStrip(ds, i + 1);
      }
      assert StripNonDigits([ds[i]] + InsertCommas(ds, i + 1)) == ds[i..] by {
        StripCell(ds, i);
      }
      StripSeparator(ds, i);
    }
  }

  /** The digit at `i` survives the strip in front of the rest. */
  lemma StripCell(ds: string, i: nat)
    requires AllDigits(ds) && i < |ds|
    requires StripNonDigits(InsertCommas(ds, i + 1)) == ds[i + 1..]
    ensures StripNonDigits([ds[i]] + InsertCommas(ds, i + 1)) == ds[i..]
  {
    FilterCons(ds[i], InsertCommas(ds, i + 1), IsDigit);
    assert ds[i..] == [ds[i]] + ds[i + 1..];
  }

  /** The comma the scan may insert before position `i` is stripped again. */
  lemma StripSeparator(ds: string, i: nat)
    requires i < |ds|
    ensures StripNonDigits(InsertCommas(ds, i)) == StripNonDigits([ds[i]] + InsertCommas(ds, i + 1))
  {
    var cell := [ds[i]] + InsertCommas(ds, i + 1);
    if CommaBefore(|ds|, i) {
      assert InsertCommas(ds, i) == [','] + cell;
      FilterCons(',', cell, IsDigit);
    } else {
      assert InsertCommas(ds, i) == cell;
    }
  }

  /** The formatted text holds exactly the digits, in order, plus commas. */
  lemma FormatStripsBack(ds: string)
    requires AllDigits(ds)
    ensures StripNonDigits(FormatNumberWithComma(ds)) == ds
  {
    InsertCommasStrip(ds, 0);
  }

  /** Past the last comma the digits are copied verbatim. */
  lemma {:induction false} InsertCommasTail(ds: string, i: nat)
    requires |ds| - 3 < i <= |ds|
    ensures InsertCommas(ds, i) == ds[i..]
    decreases |ds| - i
  {
    if i < |ds| {
      InsertCommasTail(ds, i + 1);
      assert ds[i..] == [ds[i]] + ds[i + 1..];
    }
  }

  /** Cutting the last three digits off: the scan of the whole string is the
      scan of the front, a comma, and the last three digits. */
  lemma {:induction false} InsertCommasSplit(ds: string, k: nat, i: nat)
    requires 0 < k && k + 3 == |ds| && i <= k
    ensures InsertCommas(ds, i) == InsertCommas(ds[..k], i) + ("," + ds[k..])
    decreases k - i
  {
    if i == k {
      SplitAtLastGroup(ds, k);
    } else {
      InsertCommasSplit(ds, k, i + 1);
      SplitStep(ds, k, i);
    }
  }

  lemma SplitAtLastGroup(ds: string, k: nat)
    requires 0 < k && k + 3 == |ds|
    ensures InsertCommas(ds, k) == InsertCommas(ds[..k], k) + ("," + ds[k..])
  {
    assert CommaBefore(|ds|, k);
    assert InsertCommas(ds, k) == "," + [ds[k]] + InsertCommas(ds, k + 1);
    InsertCommasTail(ds, k + 1);
    assert ds[k..] == [ds[k]] + ds[k + 1..];
  }

  /** A position before the cut gets a comma in the whole string exactly
      when it gets one in the front. */
  lemma SameSeparator(k: nat, i: nat)
    requires i < k
    ensures CommaBefore(k + 3, i) == CommaBefore(k, i)
  {
    assert (k + 3 - i) % 3 == (k - i) % 3 by {
      assert k + 3 - i == (k - i) + 3;
    }
  }

  lemma SplitStep(ds: string, k: nat, i: nat)
    requires 0 < k && k + 3 == |ds| && i < k
    requires InsertCommas(ds, i + 1) == InsertCommas(ds[..k], i + 1) + ("," + ds[k..])
    ensures InsertCommas(ds, i) == InsertCommas(ds[..k], i) + ("," + ds[k..])
  {
    SameSeparator(k, i);
    var sep := if CommaBefore(k, i) then "," else "";
    var front, tail := InsertCommas(ds[..k], i + 1), "," + ds[k..];
    assert InsertCommas(ds, i) == sep + [ds[i]] + (front + tail);
    assert InsertCommas(ds[..k], i) == sep + [ds[i]] + front by {
      assert ds[..k][i] == ds[i];
    }
    assert sep + [ds[i]] + (front + tail) == (sep + [ds[i]] + front) + tail;
  }

  /** The grouping the regular expression produces: up to three digits stay
      as they are; otherwise a comma sits before the last three digits and
      the rest is grouped the same way. */
  lemma FormatGroups(ds: string)
    requires AllDigits(ds)
    ensures |ds| <= 3 ==> FormatNumberWithComma(ds) == ds
    ensures |ds| > 3 ==>
      FormatNumberWithComma(ds) == FormatNumberWithComma(ds[..|ds| - 3]) + "," + ds[|ds| - 3..]
  {
    if |ds| <= 3 {
      if |ds| > 0 {
        InsertCommasTail(ds, 1);
        assert ds == [ds[0]] + ds[1..];
      }
    } else {
      var k := |ds| - 3;
      InsertCommasSplit(ds, k, 0);
      assert InsertCommas(ds[..k], 0) + ("," + ds[k..]) == InsertCommas(ds[..k], 0) + "," + ds[k..];
    }
  }

  /** One comma for every full group of three digits after the first group. */
  lemma {:induction false} FormatLength(ds: string)
    requires AllDigits(ds) && |ds| > 0
    ensures |FormatNumberWithComma(ds)| == |ds| + (|ds| - 1) / 3
    decreases |ds|
  {
    FormatGroups(ds);
    if |ds| > 3 {
      FormatLength(ds[..|ds| - 3]);
    }
  }

  /** Round trip: parsing the comma-grouped text of `n.toString()` gives `n` back. */
  lemma FormatParseRoundTrip(n: nat)
    ensures ParseFormattedCurrency(FormatNumberWithComma(NatToDigits(n))) == n
  {
    var ds := NatToDigits(n);
    FormatStripsBack(ds);
  }

  // ---------------------------------------------------------------------------
  // The text normalisation in formatCurrencyInput (app.js:54-58)

  /** `value.replace(/^0+/, '')`. */
  function StripLeadingZeros(ds: string): (r: string)
    requires AllDigits(ds)
    ensures AllDigits(r)
    ensures r == [] || r[0] != '0'
    ensures DigitsValue(r) == DigitsValue(ds)
  {
    if ds != [] && ds[0] == '0' then
      LeadingZeroValue(ds[1..]);
      assert ds == ['0'] + ds[1..];
      StripLeadingZeros(ds[1..])
    else ds
  }

  /** A leading zero does not change the value of a digit string. */
  lemma {:induction false} LeadingZeroValue(ds: string)
    requires AllDigits(ds)
    ensures AllDigits(['0'] + ds) && DigitsValue(['0'] + ds) == DigitsValue(ds)
    decreases |ds|
  {
    var zs := ['0'] + ds;
    if ds != [] {
      LeadingZeroValue(ds[..|ds| - 1]);
      assert zs[..|zs| - 1] == ['0'] + ds[..|ds| - 1];
    } else {
      assert zs[..0] == [];
    }
  }

  /** A digit string whose first digit is not 0 has a positive value. */
  lemma {:induction false} LeadingDigitPositive(ds: string)
    requires AllDigits(ds) && |ds| > 0 && ds[0] != '0'
    ensures DigitsValue(ds) > 0
    decreases |ds|
  {
    if |ds| > 1 {
      LeadingDigitPositive(ds[..|ds| - 1]);
    } else {
      assert ds[..0] == [];
    }
  }

  /** `toString` reads a canonical digit string back unchanged. */
  lemma {:induction false} CanonicalRoundTrip(ds: string)
    requires Canonical(ds)
    ensures NatToDigits(DigitsValue(ds)) == ds
    decreases |ds|
  {
    var n := DigitsValue(ds);
    if |ds| == 1 {
      assert ds[..|ds| - 1] == [];
      assert DigitsValue(ds[..|ds| - 1]) == 0;
      assert n == DigitValue(ds[0]);
      assert ds == [DigitChar(n)];
    } else {
      var front := ds[..|ds| - 1];
      assert front[0] == ds[0];
      LeadingDigitPositive(front);
      CanonicalRoundTrip(front);
      assert n / 10 == DigitsValue(front);
      assert n % 10 == DigitValue(ds[|ds| - 1]);
      assert ds == front + [ds[|ds| - 1]];
    }
  }

  /** The text `formatCurrencyInput` writes back into an input box. */
  function NormalizeCurrencyInput(s: string): (r: string)
    ensures r == FormatNumberWithComma(NatToDigits(ParseFormattedCurrency(s)))
  {
    var v := StripLeadingZeros(StripNonDigits(s));
    var canon := if v == [] then "0" else v;
    CanonicalRoundTrip(canon);
    FormatNumberWithComma(canon)
  }

  /** Normalising keeps the amount the text denotes. */
  lemma NormalizeKeepsAmount(s: string)
    ensures ParseFormattedCurrency(NormalizeCurrencyInput(s)) == ParseFormattedCurrency(s)
  {
    FormatParseRoundTrip(ParseFormattedCurrency(s));
  }

  /** Normalising text that is already normalised changes nothing. */
  lemma NormalizeIdempotent(s: string)
    ensures NormalizeCurrencyInput(NormalizeCurrencyInput(s)) == NormalizeCurrencyInput(s)
  {
    NormalizeKeepsAmount(s);
  }
}
