/** `slavicPluralizationRule`: which of the zero/one/few/many message forms a count takes. */
module Pluralization {
  /** 11 to 19 in the last two digits take the "many" form. */
  predicate Teen(n: nat) {
    10 < n % 100 < 20
  }

  predicate EndsWithOne(n: nat) {
    n % 10 == 1
  }

  predicate EndsWithTwoToFour(n: nat) {
    2 <= n % 10 <= 4
  }

  /**
   * The form index for `choice`: 0 for zero; with fewer than four forms the
   * "one" form or else the "few" form; otherwise one, few or many.
   */
  function SlavicRule(choice: nat, choicesLength: int): (r: nat)
    ensures r <= 3
    ensures r == 0 <==> choice == 0
    ensures choicesLength < 4 ==> r <= 2
  {
    if choice == 0 then 0
    else if choicesLength < 4 then (if !Teen(choice) && EndsWithOne(choice) then 1 else 2)
    else if !Teen(choice) && EndsWithOne(choice) then 1
    else if !Teen(choice) && EndsWithTwoToFour(choice) then 2
    else 3
  }

  /** The last digit is the last digit of the last two digits. */
  lemma LastDigitOfLastTwo(n: nat)
    ensures n % 10 == (n % 100) % 10
  {
    var q := n / 100;
    var r := n % 100;
    assert n == 100 * q + r;
    assert (100 * q) % 10 == 0;
  }

  /** For a non-zero count the form depends only on the count's last two digits. */
  lemma DependsOnLastTwoDigits(a: nat, b: nat, choicesLength: int)
    requires a > 0 && b > 0 && a % 100 == b % 100
    ensures SlavicRule(a, choicesLength) == SlavicRule(b, choicesLength)
  {
    LastDigitOfLastTwo(a);
    LastDigitOfLastTwo(b);
  }

  /** With four forms: "one" for non-teens ending in 1, "few" for non-teens ending in 2 to 4, else "many". */
  lemma FourForms(n: nat, choicesLength: int)
    requires n > 0 && choicesLength >= 4
    ensures SlavicRule(n, choicesLength) == 1 <==> !Teen(n) && EndsWithOne(n)
    ensures SlavicRule(n, choicesLength) == 2 <==> !Teen(n) && EndsWithTwoToFour(n)
    ensures SlavicRule(n, choicesLength) == 3 <==> Teen(n) || !(EndsWithOne(n) || EndsWithTwoToFour(n))
  {
  }

  /** Counts from the rule's own documentation: 1 and 21 are "one", 2 and 22 are "few", 5 and 11 are "many". */
  lemma DocumentedCounts()
    ensures SlavicRule(1, 4) == 1 && SlavicRule(21, 4) == 1 && SlavicRule(101, 4) == 1
    ensures SlavicRule(2, 4) == 2 && SlavicRule(22, 4) == 2
    ensures SlavicRule(5, 4) == 3 && SlavicRule(11, 4) == 3 && SlavicRule(111, 4) == 3
  {
  }
}
