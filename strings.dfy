/**
 * The order Python's `sorted` and pandas' key sort put strings in:
 * lexicographic by code point, a proper prefix first.
 */
module Strings {

  /** a comes no later than b. */
  predicate LexLe(a: string, b: string) {
    if |a| == 0 then true
    else if |b| == 0 then false
    else if a[0] != b[0] then a[0] < b[0]
    else LexLe(a[1..], b[1..])
  }

  /** a comes strictly before b. */
  predicate LexLt(a: string, b: string) {
    LexLe(a, b) && a != b
  }

  lemma {:induction false} LexLeTotal(a: string, b: string)
    ensures LexLe(a, b) || LexLe(b, a)
  {
    if |a| > 0 && |b| > 0 && a[0] == b[0] {
      LexLeTotal(a[1..], b[1..]);
    }
  }

  lemma {:induction false} LexLeAntisymmetric(a: string, b: string)
    requires LexLe(a, b) && LexLe(b, a)
    ensures a == b
  {
    if |a| > 0 && |b| > 0 {
      LexLeAntisymmetric(a[1..], b[1..]);
      assert a == [a[0]] + a[1..] && b == [b[0]] + b[1..];
    }
  }

  lemma {:induction false} LexLeTransitive(a: string, b: string, c: string)
    requires LexLe(a, b) && LexLe(b, c)
    ensures LexLe(a, c)
  {
    if |a| > 0 && |b| > 0 && |c| > 0 && a[0] == b[0] && b[0] == c[0] {
      LexLeTransitive(a[1..], b[1..], c[1..]);
    }
  }

  /** The order of a sort on two string columns: by the first, then by the second. */
  predicate PairLe(a1: string, a2: string, b1: string, b2: string) {
    LexLt(a1, b1) || (a1 == b1 && LexLe(a2, b2))
  }

  lemma PairLeTotal(a1: string, a2: string, b1: string, b2: string)
    ensures PairLe(a1, a2, b1, b2) || PairLe(b1, b2, a1, a2)
  {
    LexLeTotal(a1, b1);
    LexLeTotal(a2, b2);
  }

  lemma PairLeTransitive(a1: string, a2: string, b1: string, b2: string, c1: string, c2: string)
    requires PairLe(a1, a2, b1, b2) && PairLe(b1, b2, c1, c2)
    ensures PairLe(a1, a2, c1, c2)
  {
    if a1 == b1 && b1 == c1 {
      LexLeTransitive(a2, b2, c2);
    } else if a1 != b1 && b1 != c1 {
      LexLeTransitive(a1, b1, c1);
      if a1 == c1 {
        LexLeAntisymmetric(a1, b1);
      }
    }
  }
}
