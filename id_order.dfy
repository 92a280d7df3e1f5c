/**
 * The order listBooks sorts by: std::string's operator<, a lexicographic
 * comparison character by character in which a proper prefix comes first.
 * (std::string compares bytes as unsigned char; on UTF-8 text that order is
 * the order of code points, which is how Dafny compares chars.)
 */
module IdOrder {

  predicate IdLess(a: string, b: string) {
    if a == [] then b != []
    else if b == [] then false
    else a[0] < b[0] || (a[0] == b[0] && IdLess(a[1..], b[1..]))
  }

  lemma {:induction false} IdLessIrreflexive(a: string)
    ensures !IdLess(a, a)
  {
    if a != [] {
      IdLessIrreflexive(a[1..]);
    }
  }

  lemma {:induction false} IdLessAsymmetric(a: string, b: string)
    ensures IdLess(a, b) ==> !IdLess(b, a)
  {
    if a != [] && b != [] {
      IdLessAsymmetric(a[1..], b[1..]);
    }
  }

  lemma {:induction false} IdLessTransitive(a: string, b: string, c: string)
    ensures IdLess(a, b) && IdLess(b, c) ==> IdLess(a, c)
  {
    if a != [] && b != [] && c != [] {
      IdLessTransitive(a[1..], b[1..], c[1..]);
    }
  }

  lemma {:induction false} IdLessTotal(a: string, b: string)
    ensures a == b || IdLess(a, b) || IdLess(b, a)
  {
    if a != [] && b != [] {
      IdLessTotal(a[1..], b[1..]);
      if a[0] == b[0] && a[1..] == b[1..] {
        assert a == [a[0]] + a[1..] && b == [b[0]] + b[1..];
      }
    }
  }

  /** "Not after" (the order sorted output must respect) is transitive. */
  lemma NotLessTransitive(a: string, b: string, c: string)
    ensures !IdLess(b, a) && !IdLess(c, b) ==> !IdLess(c, a)
  {
    if !IdLess(b, a) && !IdLess(c, b) {
      IdLessTotal(a, b);
      IdLessTotal(b, c);
      IdLessTransitive(a, b, c);
      IdLessAsymmetric(a, c);
      IdLessIrreflexive(a);
    }
  }
}
