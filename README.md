# Library manager (homework 3) in Dafny

This project models the `Library` class of a small console library manager.
The class keeps a list of books (title, author, id) and a list of borrowers
(a name and the ids they borrowed), and changes both lists in place:

- adding a book at the end, once a typed id has the form "one ASCII letter,
  four ASCII digits";
- removing the first book with a given id;
- searching for the first book with a given id;
- listing the books, which first sorts the list in place by id;
- pushing a new borrower with no borrowed books on the front of its list;
- removing the first borrower with a given name;
- searching for a borrower by name;
- listing the borrowers.

Layout, one module per concern:

- `wrappers.dfy` (`Wrappers`) holds `Option`.
- `book_id.dfy` (`BookId`) models the id check `^[A-Za-z]\d{4}$`. The pattern
  is a sequence of character classes. An anchored matcher checks a string
  against it, and a lemma gives the plain character-level meaning.
- `id_order.dfy` (`IdOrder`) models `std::string`'s `operator<` as a
  lexicographic order (`IdLess`). Lemmas prove it is a strict total order.
- `records.dfy` (`Records`) holds the `Book` and `Borrower` records and the
  sequence operations the containers perform: `FirstIndex` (`find_if`),
  `RemoveAt` (`erase` / `erase_after`) and `Lookup` (what `searchBook`
  shows). It also holds the lemmas that relate adding, removing and searching.
- `sorting.dfy` (`Sorting`) defines `SortById`, a stable insertion sort. It
  proves that `SortById(s)` is the one and only list that is ordered by id
  and keeps the books of each id in their old order. So any stable sort,
  including the merge sort of `std::list::sort`, leaves the same list.
- `library.dfy` (`LibraryManager`) holds the `Library` class. It has the
  fields `books: seq<Book>` and `borrowers: seq<Borrower>`, the seed data,
  one method per operation, and a scenario method that runs the seed data.

The class invariant `Valid()` says only that every stored id has the valid
form. Duplicate ids are allowed, as in the code. Borrowed ids are never
checked against the books.

Two properties one might expect hold only when ids are unique, because the
code accepts duplicate ids. The model follows the code here:

- After removing a book, a search for its id reports not-found only when the
  id was stored once (`LookupAfterRemove`). `DuplicateSurvivesRemove` gives
  the counterexample with two copies.
- After adding a book, a search for its id returns the new book only when
  the id was new; otherwise the earlier book is found (`LookupAfterAppend`).

## Model

| member | source | states |
|---|---|---|
| `BookId.MatchesIff` | homework3/homework3.cpp:32 | an anchored pattern of one-character atoms matches a string iff the lengths agree and each character is in its atom's class (the `^…$` anchors plus `regex_match`'s whole-string rule) |
| `BookId.ValidBookIdIff` | homework3/homework3.cpp:31-33 | `isValidBookId(id)` holds iff `id` has 5 characters, the first an ASCII letter and the other four ASCII digits |
| `BookId.LetterAndDigitsValid` | homework3/homework3.cpp:31-33 | any ASCII letter followed by four ASCII digits is accepted |
| `BookId.AddBookScenarioIds` | homework3/homework3.cpp:71-78 | the prompt rejects "x123" (three digits) and accepts "X1234" |
| `IdOrder.IdLessIrreflexive` | homework3/homework3.cpp:124 | no id sorts before itself |
| `IdOrder.IdLessAsymmetric` | homework3/homework3.cpp:124 | if `a < b` then not `b < a` |
| `IdOrder.IdLessTransitive` | homework3/homework3.cpp:124 | `a < b` and `b < c` give `a < c` |
| `IdOrder.IdLessTotal` | homework3/homework3.cpp:124 | two different ids are always ordered one way or the other |
| `IdOrder.NotLessTransitive` | homework3/homework3.cpp:124 | "not after" is transitive, the order a sorted list respects |
| `Records.FirstIndex` | homework3/homework3.cpp:91-93 | `find_if` returns a position that is at most the length; it holds the key when it is not the end; no earlier position holds the key |
| `Records.FirstIndexEnd` | homework3/homework3.cpp:94 | the end position is returned iff the key is absent |
| `Records.FirstIndexIs` | homework3/homework3.cpp:91-93 | any position with the three `find_if` facts is the `find_if` result |
| `Records.FirstIndexAppend` | homework3/homework3.cpp:81 | appending a key keeps an earlier first match where it was; an absent key appended is found at the old length |
| `Records.RemoveAt` | homework3/homework3.cpp:95 | erasing at the end changes nothing; erasing at a valid position shortens the list by one and keeps every other element, in order |
| `Records.RemoveAtMultiset` | homework3/homework3.cpp:95 | erasing at a valid position removes exactly that element from the multiset of elements |
| `Records.Lookup` | homework3/homework3.cpp:109-117 | the search reports not-found iff no book has the id; a found book has the id and is stored at a position before which no book has the id (the first match) |
| `Records.LookupAfterAppend` | homework3/homework3.cpp:81 | after appending book `b`, a search for `b.id` returns `b` if the id was new, and otherwise the same book as before |
| `Records.AddThenRemoveBook` | homework3/homework3.cpp:91-96 | appending a book with a new id and then removing that id restores the old list |
| `Records.RemoveBookCounts` | homework3/homework3.cpp:91-100 | removing a present id lowers that id's count by exactly one and leaves every other id's count alone |
| `Records.LookupAfterRemove` | homework3/homework3.cpp:91-117 | after removing a present id, searching for it reports not-found iff it was stored exactly once |
| `Records.DuplicateSurvivesRemove` | homework3/homework3.cpp:91-100 | with two books of the same id, one removal leaves the second one findable |
| `Records.AddThenRemoveBorrower` | homework3/homework3.cpp:139 | pushing a borrower on the front and then removing that name restores the old list, even if the name was already present |
| `Sorting.SortByIdPermutes` | homework3/homework3.cpp:123-125 | sorting keeps exactly the same books (a permutation) |
| `Sorting.SortByIdSorted` | homework3/homework3.cpp:123-125 | the sorted list is non-decreasing by id |
| `Sorting.SortByIdStable` | homework3/homework3.cpp:123-125 | for every id, the books with that id keep their relative order (`list::sort` is stable) |
| `Sorting.SortedStableUnique` | homework3/homework3.cpp:123-125 | two lists that are both ordered by id and agree on the order of each id's books are equal |
| `Sorting.SortByIdCharacterization` | homework3/homework3.cpp:123-125 | a list is the sort result iff it is ordered by id and stable with respect to the input, so any stable sort gives the same result |
| `Sorting.SortByIdIdempotent` | homework3/homework3.cpp:121-125 | a list already ordered by id is left unchanged, so listing twice gives the same list as listing once |
| `Sorting.InsertSorted` | homework3/homework3.cpp:123-125 | inserting into a list ordered by id keeps it ordered |
| `Sorting.InsertWithId` | homework3/homework3.cpp:123-125 | inserting a book adds it in front of the books with its id and leaves the other ids' books alone |
| `LibraryManager.SeedBooksValid` | homework3/homework3.cpp:39-50 | every preloaded book id has the valid form |
| `LibraryManager.SeedB2345Once` | homework3/homework3.cpp:40-49 | the second preloaded book is 西遊記 by 吳承恩 with id "B2345", and no other preloaded book has that id |
| `LibraryManager.SeedB2345` | homework3/homework3.cpp:39-50 | on the seed data, "B2345" is found as 西遊記 by 吳承恩, and after removing it a search reports not-found |
| `LibraryManager.Library.constructor` | homework3/homework3.cpp:37-58 | the library starts with the ten seed books in order and the five seed borrowers in reverse order of insertion, and the invariant holds |
| `LibraryManager.Library.AddBook` | homework3/homework3.cpp:61-83 | the first valid typed id is stored with the title and author at the end of the list and nothing else changes; no book is added iff no typed id is valid; the invariant is kept |
| `LibraryManager.Library.FindBook` | homework3/homework3.cpp:91-93 | the loop returns the `find_if` position of the id |
| `LibraryManager.Library.RemoveBook` | homework3/homework3.cpp:86-101 | reports success iff some book has the id; the list afterwards is the old list without its first book with that id; the invariant is kept |
| `LibraryManager.Library.SearchBook` | homework3/homework3.cpp:104-118 | returns the first book with the id, or not-found iff there is none; changes nothing |
| `LibraryManager.Library.ListBooks` | homework3/homework3.cpp:121-131 | leaves the books as the stable sort of the old list: ordered by id, a permutation, and each id's books in their old order; lists title, author and id of each book in that order; the invariant is kept |
| `LibraryManager.Library.AddBorrower` | homework3/homework3.cpp:134-141 | the new borrower, with no borrowed books, comes first, followed by the old borrowers unchanged |
| `LibraryManager.Library.RemoveBorrower` | homework3/homework3.cpp:144-160 | reports success iff some borrower has the name; erases exactly the first such borrower, and otherwise leaves the list unchanged |
| `LibraryManager.Library.SearchBorrower` | homework3/homework3.cpp:163-177 | reports found iff some borrower has the name; changes nothing |
| `LibraryManager.Library.ListBorrowers` | homework3/homework3.cpp:180-190 | one line per borrower in list order, each the name followed by the borrowed ids; changes nothing |

## Left out

- Console I/O: the prompts, the messages and their text, `cin >> ws` and `getline`. Typed input becomes parameters. What is printed becomes return values: an `Option`, a `bool`, or the listed lines as sequences of strings.
- The `main` menu loop and its integer parsing, including what happens on non-numeric input. This is input dispatch, not library logic.
- The `std::regex` engine. Only the one fixed pattern is modelled, as character classes with an anchored matcher.
- Byte strings: `std::string` holds bytes and Dafny strings hold characters. Every string with a non-ASCII character is rejected either way. Comparing UTF-8 bytes as unsigned values gives the same order as comparing code points, so `IdLess` agrees with `operator<`.
- The choice of `std::list` and `std::forward_list`. Both lists are sequences. For the forward list, the `prev` iterator becomes a position one behind the loop index, with -1 for `before_begin`.
- The algorithm inside `std::list::sort`. `SortById` is an insertion sort, and `SortByIdCharacterization` shows that every stable sort gives the same list.
- LibraryManager.Library.AddBook: if every typed id is invalid, the source keeps prompting and never returns. When input ends, a failed `cin >> id` leaves the id unchanged, so the loop never stops. The model returns `None` with the books unchanged once the finite sequence of attempts runs out.
