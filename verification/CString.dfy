// C strings and the four key orders of the AVL tree.
module CString {

  // A string character: any byte except the terminating NUL.
  type CChar = x: int | 1 <= x < 256 witness 1
  type CStr = seq<CChar>

  // What `*s` reads: the first character, or the terminator.
  function Head(s: CStr): int {
    if s == [] then 0 else s[0]
  }

  function Sign(a: int, b: int): int {
    if a < b then -1 else if a > b then 1 else 0
  }

  // toupper in the C locale on a signed char.
  function ToUpper(c: int): int {
    if 'a' as int <= c <= 'z' as int then c - 32
    else if c >= 128 then c - 256
    else c
  }

  // strcmp compares unsigned bytes, case_ignore_strcmp folded signed characters.
  function Rank(ignoreCase: bool, c: int): int {
    if ignoreCase then ToUpper(c) else c
  }

  function Lex(ignoreCase: bool, s1: CStr, s2: CStr): int {
    var a, b := Rank(ignoreCase, Head(s1)), Rank(ignoreCase, Head(s2));
    if a != b then Sign(a, b)
    else if s1 == [] || s2 == [] then 0
    else Lex(ignoreCase, s1[1..], s2[1..])
  }

  datatype Order = Order(ignoreCase: bool, descending: bool)

  function Compare(o: Order, s1: CStr, s2: CStr): int {
    if o.descending then -Lex(o.ignoreCase, s1, s2) else Lex(o.ignoreCase, s1, s2)
  }

  lemma {:induction false} LexFlip(ic: bool, s1: CStr, s2: CStr)
    ensures Lex(ic, s1, s2) == -Lex(ic, s2, s1)
  {
    if s1 != [] && s2 != [] {
      LexFlip(ic, s1[1..], s2[1..]);
    }
  }

  lemma {:induction false} LexTransitive(ic: bool, s1: CStr, s2: CStr, s3: CStr)
    requires Lex(ic, s1, s2) <= 0 && Lex(ic, s2, s3) <= 0
    ensures Lex(ic, s1, s3) <= 0
    ensures Lex(ic, s1, s2) < 0 || Lex(ic, s2, s3) < 0 ==> Lex(ic, s1, s3) < 0
  {
    if s1 != [] && s2 != [] && s3 != [] {
      if Rank(ic, s1[0]) == Rank(ic, s2[0]) && Rank(ic, s2[0]) == Rank(ic, s3[0]) {
        LexTransitive(ic, s1[1..], s2[1..], s3[1..]);
      }
    }
  }

  /** Every order the tree can be created with is a total preorder: comparing the
      other way round flips the sign, and "before" is transitive through equal keys. */
  lemma CompareIsPreorder(o: Order, s1: CStr, s2: CStr, s3: CStr)
    ensures Compare(o, s1, s1) == 0
    ensures Compare(o, s1, s2) == -Compare(o, s2, s1)
    ensures Compare(o, s1, s2) <= 0 && Compare(o, s2, s3) <= 0 ==> Compare(o, s1, s3) <= 0
    ensures Compare(o, s1, s2) < 0 && Compare(o, s2, s3) <= 0 ==> Compare(o, s1, s3) < 0
    ensures Compare(o, s1, s2) <= 0 && Compare(o, s2, s3) < 0 ==> Compare(o, s1, s3) < 0
  {
    LexFlip(o.ignoreCase, s1, s1);
    LexFlip(o.ignoreCase, s1, s2);
    LexFlip(o.ignoreCase, s2, s3);
    LexFlip(o.ignoreCase, s1, s3);
    if Compare(o, s1, s2) <= 0 && Compare(o, s2, s3) <= 0 {
      if o.descending {
        LexTransitive(o.ignoreCase, s3, s2, s1);
      } else {
        LexTransitive(o.ignoreCase, s1, s2, s3);
      }
    }
  }

  // ---------------------------------------------------------------- what the orders are

  // The first difference of two strings is a smaller byte, or the end of the first.
  ghost predicate ByteBelow(s1: CStr, s2: CStr) {
    exists i :: ByteBelowAt(s1, s2, i)
  }

  predicate ByteBelowAt(s1: CStr, s2: CStr, i: nat) {
    i <= |s1| && i < |s2| && s1[..i] == s2[..i] && (i == |s1| || s1[i] < s2[i])
  }

  // The same character up to the case of ASCII letters.
  predicate SameLetter(a: int, b: int) {
    a == b || ('a' as int <= a <= 'z' as int && b == a - 32) || ('a' as int <= b <= 'z' as int && a == b - 32)
  }

  predicate SameLetters(s1: CStr, s2: CStr) {
    |s1| == |s2| && forall i | 0 <= i < |s1| :: SameLetter(s1[i], s2[i])
  }

  // Bytes from 128 on come before the end and before all others; of ASCII characters the capitals count.
  predicate FoldedLess(a: int, b: int) {
    if a < 128 && b < 128 then Capital(a) < Capital(b) else if a >= 128 && b >= 128 then a < b else a >= 128
  }

  function Capital(c: int): int {
    if 'a' as int <= c <= 'z' as int then c - 32 else c
  }

  // The first difference that is not one of case decides, the end counting as 0.
  ghost predicate FoldedBelow(s1: CStr, s2: CStr) {
    exists i :: FoldedBelowAt(s1, s2, i)
  }

  predicate FoldedBelowAt(s1: CStr, s2: CStr, i: nat) {
    && i <= |s1| && i <= |s2| && SameLetters(s1[..i], s2[..i])
    && FoldedLess(if i < |s1| then s1[i] else 0, if i < |s2| then s2[i] else 0)
  }

  ghost predicate KeyBelow(o: Order, s1: CStr, s2: CStr) {
    var a, b := if o.descending then s2 else s1, if o.descending then s1 else s2;
    if o.ignoreCase then FoldedBelow(a, b) else ByteBelow(a, b)
  }

  lemma {:induction false} LexOfBytes(s1: CStr, s2: CStr)
    ensures Lex(false, s1, s2) < 0 <==> ByteBelow(s1, s2)
    ensures Lex(false, s1, s2) == 0 <==> s1 == s2
  {
    if s1 == [] {
      assert s2 != [] ==> ByteBelowAt(s1, s2, 0);
    } else if s2 != [] {
      forall i: nat | i > 0 && ByteBelowAt(s1, s2, i) ensures s1[0] == s2[0] {
        assert s1[..i][0] == s2[..i][0];
      }
      if s1[0] == s2[0] {
        LexOfBytes(s1[1..], s2[1..]);
        assert s1 == [s1[0]] + s1[1..] && s2 == [s2[0]] + s2[1..];
        if i: nat :| ByteBelowAt(s1[1..], s2[1..], i) {
          assert s1[..i + 1] == [s1[0]] + s1[1..][..i] && s2[..i + 1] == [s2[0]] + s2[1..][..i];
          assert ByteBelowAt(s1, s2, i + 1);
        }
        if i: nat :| ByteBelowAt(s1, s2, i) {
          assert i > 0 && s1[1..][..i - 1] == s1[..i][1..] && s2[1..][..i - 1] == s2[..i][1..];
          assert ByteBelowAt(s1[1..], s2[1..], i - 1);
        }
      } else {
        assert s1[0] < s2[0] ==> ByteBelowAt(s1, s2, 0);
      }
    }
  }

  lemma RankFolds(a: int, b: int)
    requires 0 <= a < 256 && 0 <= b < 256
    ensures Rank(true, a) < Rank(true, b) <==> FoldedLess(a, b)
    ensures Rank(true, a) == Rank(true, b) <==> SameLetter(a, b)
  {
  }

  lemma {:induction false} LexOfLetters(s1: CStr, s2: CStr)
    ensures Lex(true, s1, s2) < 0 <==> FoldedBelow(s1, s2)
    ensures Lex(true, s1, s2) == 0 <==> SameLetters(s1, s2)
  {
    RankFolds(Head(s1), Head(s2));
    assert FoldedLess(Head(s1), Head(s2)) ==> FoldedBelowAt(s1, s2, 0);
    forall i: nat | i > 0 && FoldedBelowAt(s1, s2, i) ensures SameLetter(s1[0], s2[0]) {
      assert SameLetter(s1[..i][0], s2[..i][0]);
    }
    if s1 != [] && s2 != [] && SameLetter(s1[0], s2[0]) {
      LexOfLetters(s1[1..], s2[1..]);
      if i: nat :| FoldedBelowAt(s1[1..], s2[1..], i) {
        LettersTail(s1, s2, i + 1);
        assert FoldedBelowAt(s1, s2, i + 1);
      }
      if i: nat :| FoldedBelowAt(s1, s2, i) {
        LettersTail(s1, s2, i);
        assert FoldedBelowAt(s1[1..], s2[1..], i - 1);
      }
      LettersTail(s1, s2, if |s1| < |s2| then |s1| else |s2|);
      assert s1[..|s1|] == s1 && s2[..|s2|] == s2 && s1[1..][..|s1| - 1] == s1[1..] && s2[1..][..|s2| - 1] == s2[1..];
    }
  }

  lemma LettersTail(s1: CStr, s2: CStr, i: nat)
    requires 0 < i <= |s1| && i <= |s2| && SameLetter(s1[0], s2[0])
    ensures SameLetters(s1[..i], s2[..i]) <==> SameLetters(s1[1..][..i - 1], s2[1..][..i - 1])
  {
    var a, b, x, y := s1[..i], s2[..i], s1[1..][..i - 1], s2[1..][..i - 1];
    assert forall j | 0 <= j < i - 1 :: x[j] == a[j + 1] && y[j] == b[j + 1];
    assert forall j | 0 < j < i :: a[j] == x[j - 1] && b[j] == y[j - 1];
  }

  /** Each of the four orders, in terms of the characters: by bytes, or by capitals with the bytes from 128 on
      first; and the other way round for a descending tree. Keys count as equal exactly if they are the same,
      or the same up to the case of ASCII letters. */
  lemma CompareMeaning(o: Order, s1: CStr, s2: CStr)
    ensures Compare(o, s1, s2) < 0 <==> KeyBelow(o, s1, s2)
    ensures Compare(o, s1, s2) == 0 <==> if o.ignoreCase then SameLetters(s1, s2) else s1 == s2
  {
    LexOfBytes(s1, s2);
    LexOfBytes(s2, s1);
    LexOfLetters(s1, s2);
    LexOfLetters(s2, s1);
    LexFlip(o.ignoreCase, s1, s2);
  }

  /** Ignoring case, "A" comes behind "A" with a byte of 200 behind it, since characters are signed. */
  lemma PrefixComesLater()
    ensures Compare(Order(true, false), [0x41], [0x41, 200]) > 0
  {
    assert [0x41, 200][1..] == [200] && [0x41][1..] == [];
  }
}
