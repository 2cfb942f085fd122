/** The assumption made about `localeCompare`. */
module Locale {

  /** localeCompare as an order on strings that tells different strings apart. */
  ghost predicate LocaleOrder(compare: (string, string) -> int) {
    && (forall x, y :: compare(x, y) <= 0 <==> compare(y, x) >= 0)
    && (forall x, y, z :: compare(x, y) <= 0 && compare(y, z) <= 0 ==> compare(x, z) <= 0)
    && (forall x, y :: compare(x, y) == 0 ==> x == y)
  }

  /** Equal strings compare as equal. */
  lemma CompareSelf(compare: (string, string) -> int, x: string)
    requires LocaleOrder(compare)
    ensures compare(x, x) == 0
  {
  }
}
