/** How the host language orders strings: by UTF-16 code units, a prefix first. */
module TextOrder {

  /**
   * Ranks characters as their UTF-16 encodings compare: a character outside the basic plane
   * begins with a surrogate, and surrogates lie below U+E000.
   */
  function Rank(c: char): int {
    var n := c as int;
    if n < 0xE000 then n
    else if n < 0x10000 then n + 0x100000
    else n - 0x2000
  }

  predicate TextLe(a: string, b: string) {
    if a == "" then true
    else if b == "" then false
    else if a[0] == b[0] then TextLe(a[1..], b[1..])
    else Rank(a[0]) < Rank(b[0])
  }

  predicate TextLess(a: string, b: string) {
    a != b && TextLe(a, b)
  }

  lemma {:induction false} TextLeTotal(a: string, b: string)
    ensures TextLe(a, b) || TextLe(b, a)
    ensures TextLe(a, b) && TextLe(b, a) ==> a == b
  {
    if a != "" && b != "" && a[0] == b[0] {
      TextLeTotal(a[1..], b[1..]);
      assert a == [a[0]] + a[1..] && b == [b[0]] + b[1..];
    }
  }

  lemma {:induction false} TextLeTransitive(a: string, b: string, c: string)
    requires TextLe(a, b) && TextLe(b, c)
    ensures TextLe(a, c)
  {
    if a != "" && a[0] == b[0] && b[0] == c[0] {
      TextLeTransitive(a[1..], b[1..], c[1..]);
    }
  }
}
