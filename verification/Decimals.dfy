/**
 The two places where the quote store builds strings out of numbers and relies on reading them
 back: quote ids `Q-<n>`, and the decision log's keys `<quote id>:<version>`.
 */
module Decimals {
  import opened Base

  const DIGITS: string := "0123456789"

  predicate IsDigit(c: char) {
    '0' <= c <= '9'
  }

  predicate AllDigits(s: string) {
    forall k :: 0 <= k < |s| ==> IsDigit(s[k])
  }

  /** The decimal numeral of a number. */
  function Numeral(n: nat): (s: string)
    ensures s != [] && AllDigits(s)
  {
    if n < 10 then [DIGITS[n]] else Numeral(n / 10) + [DIGITS[n % 10]]
  }

  function ValueOf(s: string): nat
    requires AllDigits(s)
  {
    if s == [] then 0 else 10 * ValueOf(s[..|s| - 1]) + (Last(s) as int - '0' as int)
  }

  lemma {:induction false} NumeralReadsBack(n: nat)
    ensures ValueOf(Numeral(n)) == n
  {
    if n < 10 {
      assert Numeral(n)[..0] == [];
    } else {
      NumeralReadsBack(n / 10);
      assert Numeral(n) == Numeral(n / 10) + [DIGITS[n % 10]];
      assert Numeral(n)[..|Numeral(n)| - 1] == Numeral(n / 10);
      assert DIGITS[n % 10] as int - '0' as int == n % 10;
    }
  }

  /** A numeral has no leading zero. */
  lemma {:induction false} NumeralHasNoLeadingZero(n: nat)
    ensures Numeral(n)[0] == '0' ==> n == 0
  {
    if n >= 10 {
      NumeralHasNoLeadingZero(n / 10);
    }
  }

  // ---------------------------------------------------------------- quote ids

  function QuoteId(n: nat): string {
    "Q-" + Numeral(n)
  }

  /** The number in an id of the form `Q-<digits>`, leading zeros allowed. */
  function IdNumber(id: string): Option<nat> {
    if |id| > 2 && id[..2] == "Q-" && AllDigits(id[2..]) then Some(ValueOf(id[2..])) else None
  }

  lemma QuoteIdReadsBack(n: nat)
    ensures IdNumber(QuoteId(n)) == Some(n)
  {
    assert QuoteId(n)[2..] == Numeral(n);
    NumeralReadsBack(n);
  }

  lemma FirstIds()
    ensures QuoteId(7) == "Q-7" && QuoteId(1001) == "Q-1001"
  {
    assert Numeral(10) == "10" && Numeral(100) == "100";
  }

  // ---------------------------------------------------------------- decision keys

  function SignedNumeral(n: int): string {
    if n < 0 then "-" + Numeral(-n) else Numeral(n)
  }

  function DecisionKey(quoteId: string, version: int): string {
    quoteId + ":" + SignedNumeral(version)
  }

  lemma FirstKeys()
    ensures DecisionKey("Q-1001", 1) == "Q-1001:1" && DecisionKey("Q-1001", -1) == "Q-1001:-1"
  {
  }

  lemma NumeralsHaveNoColon(v: int)
    ensures forall k :: 0 <= k < |SignedNumeral(v)| ==> SignedNumeral(v)[k] != ':'
    ensures SignedNumeral(v) != ""
  {
    hide Numeral;
  }

  /** The separator is the last colon of the key. */
  lemma KeyEndsWithItsNumeral(q: string, v: int)
    ensures var key := DecisionKey(q, v);
            && |q| < |key| && key[|q|] == ':' && (forall k :: |q| < k < |key| ==> key[k] != ':')
  {
    hide SignedNumeral;
    var key := DecisionKey(q, v);
    NumeralsHaveNoColon(v);
    forall k | |q| < k < |key|
      ensures key[k] != ':'
    {
      assert key[k] == SignedNumeral(v)[k - |q| - 1];
    }
  }

  lemma SignedNumeralReadsBack(v: int, w: int)
    requires SignedNumeral(v) == SignedNumeral(w)
    ensures v == w
  {
    hide Numeral;
    assert IsDigit(Numeral(if v < 0 then -v else v)[0]) && IsDigit(Numeral(if w < 0 then -w else w)[0]);
    assert v < 0 <==> SignedNumeral(v)[0] == '-';
    assert w < 0 <==> SignedNumeral(w)[0] == '-';
    if v < 0 {
      assert Numeral(-v) == SignedNumeral(v)[1..] == SignedNumeral(w)[1..] == Numeral(-w);
      NumeralReadsBack(-v);
      NumeralReadsBack(-w);
    } else {
      NumeralReadsBack(v);
      NumeralReadsBack(w);
    }
  }

  /** Different versions never share a key, whatever characters their quote ids contain. */
  lemma DecisionKeysAreDistinct(q: string, v: int, r: string, w: int)
    requires DecisionKey(q, v) == DecisionKey(r, w)
    ensures q == r && v == w
  {
    hide Numeral;
    KeyEndsWithItsNumeral(q, v);
    KeyEndsWithItsNumeral(r, w);
    assert |q| == |r|;
    assert q == DecisionKey(q, v)[..|q|] == r;
    assert SignedNumeral(v) == DecisionKey(q, v)[|q| + 1..] == SignedNumeral(w);
    SignedNumeralReadsBack(v, w);
  }
}
