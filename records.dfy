/**
 * The two record types of the library and the sequence operations the
 * standard containers perform on them: find_if (first match), erase at a
 * position, and the lookup that searchBook prints.
 */
module Records {
  import opened Wrappers

  /** struct Book: identity key is `id`; duplicates are not excluded. */
  datatype Book = Book(title: string, author: string, id: string)

  /** struct Borrower: the borrowed ids are never checked against the books. */
  datatype Borrower = Borrower(name: string, borrowedBooks: seq<string>)

  /** The ids of the books, in list order. */
  function Ids(s: seq<Book>): (r: seq<string>)
    ensures |r| == |s| && forall i :: 0 <= i < |s| ==> r[i] == s[i].id
  {
    seq(|s|, i requires 0 <= i < |s| => s[i].id)
  }

  /** The names of the borrowers, in list order. */
  function Names(s: seq<Borrower>): (r: seq<string>)
    ensures |r| == |s| && forall i :: 0 <= i < |s| ==> r[i] == s[i].name
  {
    seq(|s|, i requires 0 <= i < |s| => s[i].name)
  }

  /**
   * std::find_if with an equality test on the key: the position of the first
   * key equal to k, or |keys| (the end iterator) when there is none.
   */
  function FirstIndex(keys: seq<string>, k: string): (i: nat)
    ensures i <= |keys|
    ensures i < |keys| ==> keys[i] == k
    ensures forall j :: 0 <= j < i ==> keys[j] != k
  {
    if keys == [] then 0
    else if keys[0] == k then 0
    else 1 + FirstIndex(keys[1..], k)
  }

  /** The end position is returned exactly when the key is absent. */
  lemma FirstIndexEnd(keys: seq<string>, k: string)
    ensures FirstIndex(keys, k) == |keys| <==> k !in keys
  {
  }

  /** The three find_if facts pin the position down: any position with them is FirstIndex. */
  lemma FirstIndexIs(keys: seq<string>, k: string, i: nat)
    requires i <= |keys|
    requires i < |keys| ==> keys[i] == k
    requires forall j :: 0 <= j < i ==> keys[j] != k
    ensures FirstIndex(keys, k) == i
  {
  }

  /** Appending a key leaves an earlier first match where it was; an absent key is then found at the end. */
  lemma FirstIndexAppend(keys: seq<string>, x: string, k: string)
    ensures k in keys ==> FirstIndex(keys + [x], k) == FirstIndex(keys, k)
    ensures k !in keys ==> FirstIndex(keys + [x], k) == if k == x then |keys| else |keys| + 1
  {
    var f := FirstIndex(keys, k);
    if f < |keys| {
      FirstIndexIs(keys + [x], k, f);
    } else if k == x {
      FirstIndexIs(keys + [x], k, |keys|);
    } else {
      FirstIndexIs(keys + [x], k, |keys| + 1);
    }
  }

  /**
   * list::erase / forward_list::erase_after at position i; position |s| (the
   * end) erases nothing.  The other elements keep their relative order.
   */
  function RemoveAt<T>(s: seq<T>, i: nat): (r: seq<T>)
    requires i <= |s|
    ensures i == |s| ==> r == s
    ensures i < |s| ==> |r| == |s| - 1
    ensures i < |s| ==> forall j :: 0 <= j < |r| ==> r[j] == if j < i then s[j] else s[j + 1]
  {
    if i == |s| then s else s[..i] + s[i + 1..]
  }

  /** Erasing at a valid position takes exactly that element out of the multiset. */
  lemma RemoveAtMultiset<T>(s: seq<T>, i: nat)
    requires i < |s|
    ensures multiset(RemoveAt(s, i)) == multiset(s) - multiset{s[i]}
  {
    assert s == s[..i] + [s[i]] + s[i + 1..];
  }

  /** searchBook: the first book with that id, or None when no book has it. */
  function Lookup(s: seq<Book>, id: string): (r: Option<Book>)
    ensures r.None? <==> id !in Ids(s)
    ensures r.Some? ==> r.value.id == id
    ensures r.Some? ==> exists i :: 0 <= i < |s| && s[i] == r.value && forall j :: 0 <= j < i ==> s[j].id != id
  {
    var i := FirstIndex(Ids(s), id);
    if i < |s| then
      assert forall j :: 0 <= j < i ==> s[j].id != id by {
        forall j | 0 <= j < i ensures s[j].id != id {
          assert Ids(s)[j] != id;
        }
      }
      Some(s[i])
    else None
  }

  /** removeBook's effect on the stored books. */
  function RemoveBookById(s: seq<Book>, id: string): seq<Book> {
    RemoveAt(s, FirstIndex(Ids(s), id))
  }

  /** removeBorrower's effect on the stored borrowers. */
  function RemoveBorrowerByName(s: seq<Borrower>, name: string): seq<Borrower> {
    RemoveAt(s, FirstIndex(Names(s), name))
  }

  /** How many stored books carry the id. */
  function CountId(s: seq<Book>, id: string): nat {
    multiset(Ids(s))[id]
  }

  lemma IdsRemoveAt(s: seq<Book>, i: nat)
    requires i <= |s|
    ensures Ids(RemoveAt(s, i)) == RemoveAt(Ids(s), i)
  {
    var a, b := Ids(RemoveAt(s, i)), RemoveAt(Ids(s), i);
    assert |a| == |b|;
    forall j | 0 <= j < |a| ensures a[j] == b[j] {
    }
  }

  /**
   * Searching for a book just appended finds the new book exactly when no
   * earlier book had its id; otherwise the earlier one still wins.
   */
  lemma LookupAfterAppend(s: seq<Book>, b: Book)
    ensures Lookup(s + [b], b.id) == if b.id in Ids(s) then Lookup(s, b.id) else Some(b)
  {
    assert Ids(s + [b]) == Ids(s) + [b.id];
    FirstIndexAppend(Ids(s), b.id, b.id);
    if b.id in Ids(s) {
      var i := FirstIndex(Ids(s), b.id);
      assert (s + [b])[i] == s[i];
    }
  }

  /** Removing by the id of a book just appended undoes the append, provided that id was new. */
  lemma AddThenRemoveBook(s: seq<Book>, b: Book)
    requires b.id !in Ids(s)
    ensures RemoveBookById(s + [b], b.id) == s
  {
    assert Ids(s + [b]) == Ids(s) + [b.id];
    FirstIndexAppend(Ids(s), b.id, b.id);
    assert (s + [b])[..|s|] == s;
  }

  /** removeBook takes away exactly one copy of a present id and no copy of any other id. */
  lemma RemoveBookCounts(s: seq<Book>, id: string)
    requires id in Ids(s)
    ensures CountId(RemoveBookById(s, id), id) == CountId(s, id) - 1
    ensures forall k :: k != id ==> CountId(RemoveBookById(s, id), k) == CountId(s, k)
  {
    var keys := Ids(s);
    var i := FirstIndex(keys, id);
    IdsRemoveAt(s, i);
    var rest := Ids(RemoveBookById(s, id));
    assert rest == RemoveAt(keys, i);
    RemoveAtMultiset(keys, i);
    assert multiset(rest) == multiset(keys) - multiset{id};
  }

  /**
   * After removeBook(id) on a present id, searchBook(id) reports not-found
   * exactly when the id was stored once.
   */
  lemma LookupAfterRemove(s: seq<Book>, id: string)
    requires id in Ids(s)
    ensures Lookup(RemoveBookById(s, id), id).None? <==> CountId(s, id) == 1
  {
    RemoveBookCounts(s, id);
    var rest := Ids(RemoveBookById(s, id));
    assert id in rest <==> multiset(rest)[id] > 0;
    assert id in Ids(s) <==> multiset(Ids(s))[id] > 0;
  }

  /**
   * With a duplicated id, one removal is not enough: the second copy is still
   * found.
   */
  lemma DuplicateSurvivesRemove(first: Book, second: Book)
    requires first.id == second.id
    ensures Lookup(RemoveBookById([first, second], first.id), first.id) == Some(second)
  {
    assert Ids([first, second]) == [first.id, second.id];
    var r := RemoveBookById([first, second], first.id);
    assert r == [second];
    assert Ids(r) == [second.id];
  }

  /** A borrower just prepended is the first match for its name, so removing that name restores the old list. */
  lemma AddThenRemoveBorrower(s: seq<Borrower>, name: string)
    ensures RemoveBorrowerByName([Borrower(name, [])] + s, name) == s
  {
    assert Names([Borrower(name, [])] + s)[0] == name;
    assert ([Borrower(name, [])] + s)[1..] == s;
  }
}
