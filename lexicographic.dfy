/**
 * Lexicographic order on strings, compared character by character by code
 * point. This is the order a document store uses when it sorts a string field
 * ascending (a binary comparison of the UTF-8 bytes, which orders code points
 * the same way).
 */
module Lexicographic {

  /** `a` sorts at or before `b`. */
  predicate StrLe(a: string, b: string)
  {
    a == [] || (b != [] && (a[0] < b[0] || (a[0] == b[0] && StrLe(a[1..], b[1..]))))
  }

  /** One step of the comparison: the first characters decide unless they are equal. */
  lemma StrLeCons(x: char, s: string, y: char, t: string)
    ensures StrLe([x] + s, [y] + t) <==> x < y || (x == y && StrLe(s, t))
  {
    assert ([x] + s)[1..] == s;
    assert ([y] + t)[1..] == t;
  }

  lemma {:induction false} StrLeReflexive(a: string)
    ensures StrLe(a, a)
  {
    if a != [] {
      StrLeReflexive(a[1..]);
    }
  }

  /** Any two strings are comparable. */
  lemma {:induction false} StrLeTotal(a: string, b: string)
    ensures StrLe(a, b) || StrLe(b, a)
  {
    if a != [] && b != [] && a[0] == b[0] {
      StrLeTotal(a[1..], b[1..]);
    }
  }

  lemma {:induction false} StrLeTransitive(a: string, b: string, c: string)
    requires StrLe(a, b) && StrLe(b, c)
    ensures StrLe(a, c)
  {
    if a != [] && a[0] == b[0] && b[0] == c[0] {
      StrLeTransitive(a[1..], b[1..], c[1..]);
    }
  }
}
