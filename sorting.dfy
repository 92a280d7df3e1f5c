/**
 * listBooks sorts the book list in place with std::list::sort, comparing ids
 * with operator<.  list::sort is stable.  The model sorts with a stable
 * insertion sort and proves that the result is the ONLY list that is ordered
 * by id and keeps, for each id, the books carrying it in their old order, so
 * any stable sort (list::sort's merge sort among them) yields the same list.
 */
module Sorting {
  import opened IdOrder
  import opened Records

  /** Non-decreasing by id: no book is followed by one with a smaller id. */
  ghost predicate SortedById(s: seq<Book>) {
    forall i, j :: 0 <= i < j < |s| ==> !IdLess(s[j].id, s[i].id)
  }

  /** The books with id k, in list order. */
  function WithId(s: seq<Book>, k: string): seq<Book> {
    if s == [] then [] else (if s[0].id == k then [s[0]] else []) + WithId(s[1..], k)
  }

  /** Stability: for every id, the books with that id appear in the same relative order. */
  ghost predicate SameOrderPerId(s: seq<Book>, t: seq<Book>) {
    forall k :: WithId(s, k) == WithId(t, k)
  }

  /** Insert b before the first book whose id is not smaller than b's. */
  function Insert(b: Book, s: seq<Book>): seq<Book> {
    if s == [] then [b]
    else if IdLess(s[0].id, b.id) then [s[0]] + Insert(b, s[1..])
    else [b] + s
  }

  /** Stable insertion sort by id. */
  function SortById(s: seq<Book>): seq<Book> {
    if s == [] then [] else Insert(s[0], SortById(s[1..]))
  }

  lemma WithIdCons(b: Book, s: seq<Book>, k: string)
    ensures WithId([b] + s, k) == (if b.id == k then [b] else []) + WithId(s, k)
  {
    assert ([b] + s)[1..] == s;
  }

  lemma {:induction false} WithIdMember(s: seq<Book>, k: string, x: Book)
    ensures x in WithId(s, k) ==> x in s && x.id == k
  {
    if s != [] {
      WithIdMember(s[1..], k, x);
    }
  }

  lemma {:induction false} InsertPermutes(b: Book, s: seq<Book>)
    ensures multiset(Insert(b, s)) == multiset(s) + multiset{b}
  {
    if s != [] && IdLess(s[0].id, b.id) {
      InsertPermutes(b, s[1..]);
      assert s == [s[0]] + s[1..];
    }
  }

  lemma {:induction false} InsertMember(b: Book, s: seq<Book>, x: Book)
    ensures x in Insert(b, s) ==> x == b || x in s
  {
    if s != [] && IdLess(s[0].id, b.id) {
      InsertMember(b, s[1..], x);
    }
  }

  lemma SortedCons(x: Book, s: seq<Book>)
    requires SortedById(s)
    requires forall j :: 0 <= j < |s| ==> !IdLess(s[j].id, x.id)
    ensures SortedById([x] + s)
  {
  }

  lemma {:induction false} InsertSorted(b: Book, s: seq<Book>)
    requires SortedById(s)
    ensures SortedById(Insert(b, s))
  {
    if s == [] {
    } else if IdLess(s[0].id, b.id) {
      var rest := Insert(b, s[1..]);
      InsertSorted(b, s[1..]);
      IdLessAsymmetric(s[0].id, b.id);
      forall j | 0 <= j < |rest| ensures !IdLess(rest[j].id, s[0].id) {
        InsertMember(b, s[1..], rest[j]);
      }
      SortedCons(s[0], rest);
    } else {
      forall j | 0 <= j < |s| ensures !IdLess(s[j].id, b.id) {
        NotLessTransitive(b.id, s[0].id, s[j].id);
      }
      SortedCons(b, s);
    }
  }

  lemma {:induction false} InsertWithId(b: Book, s: seq<Book>, k: string)
    ensures WithId(Insert(b, s), k) == (if b.id == k then [b] else []) + WithId(s, k)
  {
    if s == [] {
      WithIdCons(b, [], k);
    } else if IdLess(s[0].id, b.id) {
      IdLessIrreflexive(b.id);
      InsertWithId(b, s[1..], k);
      WithIdCons(s[0], Insert(b, s[1..]), k);
    } else {
      WithIdCons(b, s, k);
    }
  }

  /** The sorted list is a permutation of the old one. */
  lemma {:induction false} SortByIdPermutes(s: seq<Book>)
    ensures multiset(SortById(s)) == multiset(s)
  {
    if s != [] {
      SortByIdPermutes(s[1..]);
      InsertPermutes(s[0], SortById(s[1..]));
      assert s == [s[0]] + s[1..];
    }
  }

  /** The sorted list is non-decreasing by id. */
  lemma {:induction false} SortByIdSorted(s: seq<Book>)
    ensures SortedById(SortById(s))
  {
    if s != [] {
      SortByIdSorted(s[1..]);
      InsertSorted(s[0], SortById(s[1..]));
    }
  }

  /** The sort is stable: books with equal ids keep their relative order. */
  lemma {:induction false} SortByIdStable(s: seq<Book>)
    ensures SameOrderPerId(SortById(s), s)
  {
    if s != [] {
      SortByIdStable(s[1..]);
      forall k ensures WithId(SortById(s), k) == WithId(s, k) {
        InsertWithId(s[0], SortById(s[1..]), k);
      }
    }
  }

  /** Two lists ordered by id that agree on the order of each id's books are the same list. */
  lemma {:induction false} SortedStableUnique(t: seq<Book>, u: seq<Book>)
    requires SortedById(t) && SortedById(u)
    requires SameOrderPerId(t, u)
    ensures t == u
  {
    if t == [] || u == [] {
      assert WithId(t, if t == [] then "" else t[0].id) == WithId(u, if t == [] then "" else t[0].id);
      assert WithId(t, if u == [] then "" else u[0].id) == WithId(u, if u == [] then "" else u[0].id);
    } else {
      var a, b := t[0], u[0];
      assert a in WithId(u, a.id) by { assert WithId(t, a.id)[0] == a; }
      assert b in WithId(t, b.id) by { assert WithId(u, b.id)[0] == b; }
      WithIdMember(u, a.id, a);
      WithIdMember(t, b.id, b);
      IdLessIrreflexive(a.id);
      IdLessIrreflexive(b.id);
      assert !IdLess(a.id, b.id);
      assert !IdLess(b.id, a.id);
      IdLessTotal(a.id, b.id);
      assert a == b by {
        assert WithId(t, a.id)[0] == a;
        assert WithId(u, a.id)[0] == b;
      }
      forall k ensures WithId(t[1..], k) == WithId(u[1..], k) {
        var head := if a.id == k then [a] else [];
        assert WithId(t, k) == head + WithId(t[1..], k);
        assert WithId(u, k) == head + WithId(u[1..], k);
        assert WithId(t, k) == WithId(u, k);
        assert WithId(t[1..], k) == WithId(t, k)[|head|..];
        assert WithId(u[1..], k) == WithId(u, k)[|head|..];
      }
      SortedStableUnique(t[1..], u[1..]);
      assert t == [a] + t[1..] && u == [b] + u[1..];
    }
  }

  /**
   * What listBooks leaves behind is characterised without reference to any
   * sorting algorithm: t is SortById(s) iff t is ordered by id and keeps each
   * id's books in their order in s.
   */
  lemma SortByIdCharacterization(s: seq<Book>, t: seq<Book>)
    ensures SortById(s) == t <==> SortedById(t) && SameOrderPerId(t, s)
  {
    SortByIdSorted(s);
    SortByIdStable(s);
    if SortedById(t) && SameOrderPerId(t, s) {
      SortedStableUnique(SortById(s), t);
    }
  }

  /** A list already ordered by id is left as it is, so listing twice changes nothing beyond the first listing. */
  lemma SortByIdIdempotent(s: seq<Book>)
    ensures SortedById(s) ==> SortById(s) == s
    ensures SortById(SortById(s)) == SortById(s)
  {
    SortByIdCharacterization(s, s);
    SortByIdSorted(s);
    SortByIdCharacterization(SortById(s), SortById(s));
  }
}
