/**
 * The Library class: a book list and a borrower list held in the object and
 * changed in place by its operations.  Console input becomes parameters
 * (the id or name typed, the sequence of ids typed at the add-book prompt)
 * and console output becomes return values (found or not, the listed lines).
 */
module LibraryManager {
  import opened Wrappers
  import opened BookId
  import opened Records
  import opened Sorting

  /** The ten books the constructor preloads, in list order. */
  const SeedBooks: seq<Book> := [
    Book("紅樓夢", "曹雪芹", "A1234"),
    Book("西遊記", "吳承恩", "B2345"),
    Book("水滸傳", "施耐庵", "B3456"),
    Book("三國演義", "羅貫中", "C4567"),
    Book("金瓶梅", "蘭陵笑笑生", "C5678"),
    Book("聊齋志異", "蒲松齡", "D6789"),
    Book("儒林外史", "吳敬梓", "D7890"),
    Book("封神演義", "許仲琳", "E8901"),
    Book("鏡花緣", "李汝珍", "E9012"),
    Book("老殘遊記", "劉鶚", "F0123")
  ]

  /**
   * The five preloaded borrowers as the list holds them: each was pushed on
   * the front, so the last one added comes first.
   */
  const SeedBorrowers: seq<Borrower> := [
    Borrower("小麗", ["B3456", "C5678"]),
    Borrower("小強", ["F0123"]),
    Borrower("小美", ["D6789", "E8901"]),
    Borrower("小華", ["C4567"]),
    Borrower("小明", ["A1234", "B2345"])
  ]

  /** Every preloaded id has the valid form. */
  lemma SeedBooksValid()
    ensures forall i :: 0 <= i < |SeedBooks| ==> IsValidBookId(SeedBooks[i].id)
  {
    forall i | 0 <= i < |SeedBooks| ensures IsValidBookId(SeedBooks[i].id) {
      var id := SeedBooks[i].id;
      assert |id| == 5 && id == [id[0], id[1], id[2], id[3], id[4]];
      LetterAndDigitsValid(id[0], id[1], id[2], id[3], id[4]);
    }
  }

  class Library {
    var books: seq<Book>
    var borrowers: seq<Borrower>

    /**
     * The one invariant the program keeps: every stored id has the valid
     * form.  Ids need not be unique, and borrowed ids are not checked
     * against the books.
     */
    ghost predicate Valid()
      reads this
    {
      forall i :: 0 <= i < |books| ==> IsValidBookId(books[i].id)
    }

    /** Library(): the seed data. */
    constructor ()
      ensures Valid()
      ensures books == SeedBooks && borrowers == SeedBorrowers
    {
      books := SeedBooks;
      borrowers := [];
      borrowers := [Borrower("小明", ["A1234", "B2345"])] + borrowers;
      borrowers := [Borrower("小華", ["C4567"])] + borrowers;
      borrowers := [Borrower("小美", ["D6789", "E8901"])] + borrowers;
      borrowers := [Borrower("小強", ["F0123"])] + borrowers;
      borrowers := [Borrower("小麗", ["B3456", "C5678"])] + borrowers;
      SeedBooksValid();
    }

    /**
     * addBook: `attempts` are the ids typed at the prompt, in order.  The
     * prompt repeats until an id is valid; that id is stored with the title
     * and author at the end of the list.  When no typed id is valid the
     * input runs out before the loop ends and nothing is added.
     */
    method AddBook(title: string, author: string, attempts: seq<string>) returns (accepted: Option<string>)
      requires Valid()
      modifies this`books
      ensures Valid()
      ensures accepted.None? ==> books == old(books)
      ensures accepted.None? <==> forall j :: 0 <= j < |attempts| ==> !IsValidBookId(attempts[j])
      ensures accepted.Some? ==> books == old(books) + [Book(title, author, accepted.value)]
      ensures accepted.Some? ==>
        exists k :: 0 <= k < |attempts| && attempts[k] == accepted.value &&
          IsValidBookId(attempts[k]) && forall j :: 0 <= j < k ==> !IsValidBookId(attempts[j])
    {
      var k := 0;
      while k < |attempts| && !IsValidBookId(attempts[k])
        invariant 0 <= k <= |attempts|
        invariant forall j :: 0 <= j < k ==> !IsValidBookId(attempts[j])
      {
        k := k + 1;
      }
      if k == |attempts| {
        accepted := None;
      } else {
        var id := attempts[k];
        books := books + [Book(title, author, id)];
        accepted := Some(id);
      }
    }

    /** find_if over the books: the position of the first book with that id, |books| when none has it. */
    method FindBook(id: string) returns (k: nat)
      ensures k == FirstIndex(Ids(books), id)
    {
      k := 0;
      while k < |books| && books[k].id != id
        invariant k <= |books|
        invariant forall j :: 0 <= j < k ==> books[j].id != id
      {
        k := k + 1;
      }
      FirstIndexIs(Ids(books), id, k);
    }

    /** removeBook: erases the first book with that id; reports whether there was one. */
    method RemoveBook(id: string) returns (removed: bool)
      requires Valid()
      modifies this`books
      ensures Valid()
      ensures removed <==> id in Ids(old(books))
      ensures books == RemoveBookById(old(books), id)
    {
      var k := FindBook(id);
      FirstIndexEnd(Ids(books), id);
      removed := k < |books|;
      if removed {
        ghost var before := books;
        books := RemoveAt(books, k);
      }
    }

    /** searchBook: the first book with that id (whose title and author are shown), or not-found. */
    method SearchBook(id: string) returns (r: Option<Book>)
      ensures r == Lookup(books, id)
    {
      var k := FindBook(id);
      if k < |books| {
        r := Some(books[k]);
      } else {
        r := None;
      }
    }

    /**
     * listBooks: sorts the list in place by id (stably), then shows every
     * book as title, author, id.
     */
    method ListBooks() returns (lines: seq<seq<string>>)
      requires Valid()
      modifies this`books
      ensures Valid()
      ensures books == SortById(old(books))
      ensures SortedById(books) && SameOrderPerId(books, old(books))
      ensures multiset(books) == multiset(old(books))
      ensures |lines| == |books|
      ensures forall i :: 0 <= i < |books| ==> lines[i] == [books[i].title, books[i].author, books[i].id]
    {
      SortByIdSorted(books);
      SortByIdStable(books);
      SortByIdPermutes(books);
      ghost var before := books;
      books := SortById(books);
      forall i | 0 <= i < |books| ensures IsValidBookId(books[i].id) {
        assert books[i] in multiset(before);
      }
      lines := [];
      for i := 0 to |books|
        invariant |lines| == i
        invariant forall j :: 0 <= j < i ==> lines[j] == [books[j].title, books[j].author, books[j].id]
      {
        lines := lines + [[books[i].title, books[i].author, books[i].id]];
      }
    }

    /** addBorrower: pushes a borrower with that name and no borrowed books on the front. */
    method AddBorrower(name: string)
      modifies this`borrowers
      ensures borrowers == [Borrower(name, [])] + old(borrowers)
    {
      borrowers := [Borrower(name, [])] + borrowers;
    }

    /**
     * removeBorrower: walks the list with `prev` one step behind the
     * current position (-1 stands for before_begin) and erases the element
     * after `prev` at the first name match.
     */
    method RemoveBorrower(name: string) returns (removed: bool)
      modifies this`borrowers
      ensures removed <==> name in Names(old(borrowers))
      ensures borrowers == RemoveBorrowerByName(old(borrowers), name)
    {
      var prev := -1;
      var i := 0;
      while i < |borrowers|
        invariant 0 <= i <= |borrowers| && prev == i - 1
        invariant borrowers == old(borrowers)
        invariant forall j :: 0 <= j < i ==> borrowers[j].name != name
      {
        if borrowers[i].name == name {
          FirstIndexIs(Names(borrowers), name, i);
          borrowers := RemoveAt(borrowers, prev + 1);
          removed := true;
          return;
        }
        prev := prev + 1;
        i := i + 1;
      }
      FirstIndexIs(Names(borrowers), name, i);
      FirstIndexEnd(Names(borrowers), name);
      removed := false;
    }

    /** searchBorrower: whether some borrower has that name. */
    method SearchBorrower(name: string) returns (found: bool)
      ensures found <==> name in Names(borrowers)
    {
      found := false;
      var i := 0;
      while i < |borrowers|
        invariant 0 <= i <= |borrowers|
        invariant forall j :: 0 <= j < i ==> borrowers[j].name != name
      {
        if borrowers[i].name == name {
          found := true;
          return;
        }
        i := i + 1;
      }
    }

    /** listBorrowers: one line per borrower in list order: the name, then each borrowed id. */
    method ListBorrowers() returns (lines: seq<seq<string>>)
      ensures |lines| == |borrowers|
      ensures forall i :: 0 <= i < |borrowers| ==> lines[i] == [borrowers[i].name] + borrowers[i].borrowedBooks
    {
      lines := [];
      for i := 0 to |borrowers|
        invariant |lines| == i
        invariant forall j :: 0 <= j < i ==> lines[j] == [borrowers[j].name] + borrowers[j].borrowedBooks
      {
        var line := [borrowers[i].name];
        var ids := borrowers[i].borrowedBooks;
        for j := 0 to |ids|
          invariant line == [borrowers[i].name] + ids[..j]
        {
          line := line + [ids[j]];
        }
        assert ids[..|ids|] == ids;
        lines := lines + [line];
      }
    }
  }

  /** In the seed data, "B2345" is the second book, 西遊記 by 吳承恩, and no other book has that id. */
  lemma SeedB2345Once()
    ensures SeedBooks[1] == Book("西遊記", "吳承恩", "B2345")
    ensures forall m :: 0 <= m < |SeedBooks| && m != 1 ==> SeedBooks[m].id != "B2345"
  {
  }

  /** The facts about the seed data that the scenario below relies on. */
  lemma SeedB2345()
    ensures "B2345" in Ids(SeedBooks)
    ensures Lookup(SeedBooks, "B2345") == Some(Book("西遊記", "吳承恩", "B2345"))
    ensures Lookup(RemoveBookById(SeedBooks, "B2345"), "B2345") == None
  {
    SeedB2345Once();
    var keys := Ids(SeedBooks);
    FirstIndexIs(keys, "B2345", 1);
    assert keys[1] == "B2345";
    var rest := RemoveBookById(SeedBooks, "B2345");
    assert rest == RemoveAt(SeedBooks, 1);
    forall j | 0 <= j < |rest| ensures rest[j].id != "B2345" {
      assert rest[j] == SeedBooks[if j < 1 then j else j + 1];
    }
  }

  /**
   * The preloaded data in use: "B2345" is found as 西遊記 by 吳承恩, and
   * after it is removed it is not found; the borrowers, one of whom holds
   * it, are untouched.
   */
  method SeedScenario() {
    var lib := new Library();
    SeedB2345();
    var r := lib.SearchBook("B2345");
    assert r == Some(Book("西遊記", "吳承恩", "B2345"));
    var removed := lib.RemoveBook("B2345");
    assert removed;
    r := lib.SearchBook("B2345");
    assert r == None;
    assert lib.borrowers == SeedBorrowers;
  }
}
