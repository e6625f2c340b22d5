// Concatenations, bracketed either way.
module Sequences {
  lemma Associate<T>(a: seq<T>, b: seq<T>, c: seq<T>)
    ensures a + b + c == a + (b + c)
  {
  }

  lemma AssociateThree<T>(s: seq<T>, a: seq<T>, b: seq<T>, c: seq<T>)
    ensures s + a + b + c == s + (a + b + c)
  {
  }

  lemma AssociateFour<T>(s: seq<T>, a: seq<T>, b: seq<T>, c: seq<T>, d: seq<T>)
    ensures s + a + b + c + d == s + (a + b + c + d)
  {
  }

  lemma AssociateFive<T>(s: seq<T>, a: seq<T>, b: seq<T>, c: seq<T>, d: seq<T>, e: seq<T>)
    ensures s + a + b + c + d + e == s + (a + b + c + d + e)
  {
    AssociateFour(s, a, b, c, d);
    Associate(s, a + b + c + d, e);
  }

  lemma FlattenFive<T>(a: seq<T>, b: seq<T>, c: seq<T>, d: seq<T>, e: seq<T>)
    ensures a + (b + (c + (d + e))) == a + b + c + d + e
  {
  }

  lemma Units<T>(a: seq<T>)
    ensures a + [] == a && [] + a == a
  {
  }
}
