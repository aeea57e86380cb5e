# BooksCollector catalog — Dafny model

This project models the `BooksCollector` catalog of the `qa_python` repository. The catalog is a small
in-memory object with four parts:

- a fixed **genre vocabulary** (`genre`) and its **age-restricted subset** (`genre_age_rating`);
- the **book-to-genre mapping** (`books_genre`), in which the empty string marks a registered book whose genre
  is still unassigned;
- the **favourites** list (`favorites`).

The class itself lives in `main.py`, and main.py is not part of this model. What is modelled is the behaviour
that the test suite `tests.py` demands of it.

Files:

- `wrappers.dfy` — `Option`, the result of `get_book_genre`. `None` (an unknown book) is kept apart from
  `Some("")` (a known book with no genre yet).
- `catalog.dfy` (module `Catalog`) — the specification on values:
  - the validity rules (name length 1..40, vocabulary shape, stored genres, favourites);
  - each mutation's effect on the mapping or the favourites, written as a function (`Register`,
    `AddFavorite`, `RemoveFavorite`) or as a relation (`GenreUpdate`);
  - the derived views (`BooksWithGenre`, `ChildrenBooks`);
  - the lemmas that connect all of these.
- `books_collector.dfy` (module `Collector`) — class `BooksCollector`:
  - `booksGenre: map<string, string>` and `favorites: seq<string>` are updated in place;
  - the vocabulary is held in `const` fields;
  - `Valid()` is the class invariant, and every mutating method is proved against the `Catalog` functions;
  - the genre query and the children query are methods that loop over the mapping's keys. They are proved
    to return each matching book exactly once.
- `collector_tests.dfy` (module `CollectorTests`) — each test of `tests.py` as client code. A method runs the
  test's steps and returns the value the test asserts on, and its postcondition is that assertion.

## Model

| member | source | states |
|---|---|---|
| `Catalog.Register` | tests.py:26-45 | registering adds the name, as unassigned, exactly when it is 1..40 characters and not yet present; every existing entry keeps its genre |
| `Catalog.RegisterCount` | tests.py:26-45 | registration grows the mapping by one for an accepted new name and by zero for an empty, over-long or duplicate name |
| `Catalog.RegisterTwice` | tests.py:41-45 | registering the same name twice equals registering it once |
| `Catalog.RegisterKeepsValid` | tests.py:26-45 | registration keeps every name valid, every stored genre in the vocabulary or "", and every favourite registered |
| `Catalog.GenreUpdateKeepsValid` | tests.py:47-60 | any allowed genre assignment keeps the set of books, touches no other book and stores only "" or a vocabulary genre |
| `Catalog.GenreUpdate` | tests.py:47-72 | the allowed effects of assigning a genre: only the named registered book can change, the set of books is kept, a vocabulary genre is stored exactly, and any other string leaves "" or the previous genre |
| `Catalog.ReassignOverwrites` | tests.py:66-72 | two valid assignments in a row leave the second genre; the mapping differs from the start only at that book |
| `Catalog.UnknownGenreOnUnassigned` | tests.py:55-60 | an unknown genre given to a registered, unassigned book leaves the mapping unchanged, so the book's genre stays "" |
| `Catalog.BooksWithGenre` | tests.py:91-109 | a name is in a genre's list iff the genre is in the vocabulary and the book is registered with exactly that genre; empty for a genre outside the vocabulary |
| `Catalog.ChildrenBooks` | tests.py:116-143 | every book in the children's list is registered with a vocabulary genre that is not age-restricted, never with "" |
| `Catalog.ChildrenBooksMeaning` | tests.py:116-132 | in a valid catalog a book is suitable for children iff its genre is non-empty and not age-restricted |
| `Catalog.AssignmentMovesBook` | tests.py:91-102 | a valid assignment puts the book in its new genre's list and takes it out of every other genre's list |
| `Catalog.RegisterKeepsViews` | tests.py:74-78 | a newly registered, unassigned book appears in no genre list and not among the children's books |
| `Catalog.GeneratedBooks` | tests.py:13-24 | the fixture's catalog: every non-excluded vocabulary genre lists exactly k books, and every excluded genre lists none |
| `Catalog.BooksInGenresCount` | tests.py:13-24 | with k books in each genre of a set S, the books whose genre is in S number k times the size of S |
| `Catalog.SafeGenreCount` | tests.py:126-132 | the non-restricted genres number len(genre) − len(genre_age_rating) |
| `Catalog.ChildrenCount` | tests.py:116-132 | with k generated books per genre, each genre list has k books and k·(len(genre) − len(genre_age_rating)) books are suitable for children |
| `Catalog.NoChildrenBooks` | tests.py:134-143 | when every book is age-restricted or unassigned, no book is suitable for children |
| `Catalog.AddFavorite` | tests.py:145-165 | only a registered name joins the favourites, at most once; the size grows by one exactly for a registered name not yet listed; validity is kept |
| `Catalog.RemoveFavorite` | tests.py:167-175 | removal drops exactly the given name (size minus one if present, unchanged otherwise) and keeps the favourites free of repeats |
| `Catalog.RemoveFavoriteKeepsValid` | tests.py:167-175 | after a removal every favourite is still a registered book, listed once |
| `Catalog.AddFavoriteTwice` | tests.py:153-159 | adding the same favourite twice equals adding it once |
| `Catalog.RemoveAppended` | tests.py:167-175 | removing a name just appended to a list that lacked it gives back that list |
| `Catalog.DeleteUndoesAdd` | tests.py:167-175 | deleting a favourite just added restores the previous favourites |
| `Collector.BooksCollector.constructor` | tests.py:8-11 | a new collector has the given vocabulary, no books and no favourites, and satisfies the invariant |
| `Collector.BooksCollector.AddNewBook` | tests.py:26-45 | the new mapping is `Register` of the old one; favourites are unchanged; the invariant is kept |
| `Collector.BooksCollector.SetBookGenre` | tests.py:47-72 | a registered book given a vocabulary genre holds exactly that genre afterwards; other books and the favourites are unchanged; an unknown genre either resets the book to "" or leaves it unchanged |
| `Collector.BooksCollector.GetBookGenre` | tests.py:74-89 | `None` exactly for unregistered names; otherwise the genre the mapping stores for the book ("" while unassigned), which is "" or a vocabulary genre |
| `Collector.BooksCollector.GetBooksGenre` | tests.py:111-114 | the returned mapping has exactly the names `GetBookGenre` knows, with the genres it reports |
| `Collector.BooksCollector.GetBooksWithSpecificGenre` | tests.py:91-109 | each book whose genre is the given vocabulary genre, exactly once, and nothing else; empty for a genre outside the vocabulary |
| `Collector.BooksCollector.GetBooksForChildren` | tests.py:116-143 | each book with an assigned, non-restricted genre, exactly once, and nothing else |
| `Collector.BooksCollector.AddBookInFavorites` | tests.py:145-165 | the favourites become `AddFavorite` of the old ones; the mapping is unchanged |
| `Collector.BooksCollector.DeleteBookFromFavorites` | tests.py:167-175 | the favourites become `RemoveFavorite` of the old ones; the mapping is unchanged |
| `Collector.BooksCollector.GetListOfFavoritesBooks` | tests.py:177-185 | the result holds exactly the favourites, as many as there are; each is a registered book, none listed twice |
| `CollectorTests.AddTwoBooks` | tests.py:26-30 | two distinct valid names give a mapping of size 2 |
| `CollectorTests.WrongNameLengthNotAdded` | tests.py:32-39 | the empty name and the 45-character name leave the mapping empty |
| `CollectorTests.AlreadyAddedNotAddedTwice` | tests.py:41-45 | the same name registered twice gives a mapping of size 1 |
| `CollectorTests.SetGenreInList` | tests.py:47-53 | any vocabulary genre set on a new book is stored for it |
| `CollectorTests.SetGenreNotInList` | tests.py:55-60 | an unknown genre set on a new book leaves its genre "" |
| `CollectorTests.ChangeGenre` | tests.py:62-72 | with at least two genres, setting `genre[0]` and then `genre[1]` stores `genre[1]` |
| `CollectorTests.GetGenreOfUnassigned` | tests.py:74-78 | a new book's genre reads as "" (not absent) |
| `CollectorTests.GetGenreOfAssigned` | tests.py:80-86 | reading back a vocabulary genre just set gives that genre |
| `CollectorTests.GetGenreOfUnknownBook` | tests.py:88-89 | an unregistered name reads as absent |
| `CollectorTests.SpecificGenreRelevantList` | tests.py:91-102 | on the generated catalog every listed book has the asked genre and there are exactly k of them |
| `CollectorTests.SpecificGenreWrongGenreEmpty` | tests.py:104-109 | a genre outside the vocabulary lists no books |
| `CollectorTests.BooksGenreIsMapping` | tests.py:111-114 | `get_books_genre()` returns the collector's own mapping |
| `CollectorTests.ChildrenRelevantList` | tests.py:116-132 | on the generated catalog no listed book is age-restricted and there are k·(len(genre) − len(genre_age_rating)) of them |
| `CollectorTests.ChildrenNoRelevantBooks` | tests.py:134-143 | with only restricted and unassigned books generated, nothing is suitable for children |
| `CollectorTests.FavoritesAddTwoBooks` | tests.py:145-151 | two registered books added to favourites give two favourites |
| `CollectorTests.FavoritesNotAddedTwice` | tests.py:153-159 | the same favourite added twice gives one favourite |
| `CollectorTests.FavoritesUnknownBookNotAdded` | tests.py:161-165 | an unregistered name added to favourites leaves them empty |
| `CollectorTests.FavoritesDeleteTwoBooks` | tests.py:167-175 | adding two favourites and deleting both leaves none |
| `CollectorTests.FavoritesListAll` | tests.py:177-185 | adding every registered book to the favourites lists each book exactly once, as many as there are books |

## Left out

- `main.py`, where `BooksCollector` is defined, is not part of this model. The class is modelled from the
  behaviour its tests require. A `BooksCollector` built from no arguments becomes a constructor that takes
  the vocabulary and its restricted subset.
- The concrete genre names are left out. The constructor accepts any vocabulary with no repeated genres,
  without the empty string, and with a restricted subset that has no repeats. The tests' counts
  (`len(genre) - len(genre_age_rating)`) depend on those conditions.
- `Collector.BooksCollector.SetBookGenre`: for a string outside the vocabulary given to a book that already
  has a genre, the contract allows both resetting it to "" and leaving it alone. No test decides this case;
  the tests only show that a freshly added book stays "". The body chooses
  nondeterministically (`if *`), so the model commits to neither.
- `generate_book_list` (tests.py:13-24) is modelled only by the state it produces (`Catalog.GeneratedBooks`):
  k books per genre that is not excluded, and k unassigned books. Its name format and its direct writes
  into `books_genre` are left out.
- pytest machinery (fixtures, `parametrize`, `skipif`) is left out. Parameters become method parameters, and
  `skipif` becomes the precondition `|genre| >= 2`. The test `SpecificGenreWrongGenreEmpty` and the test
  `SetGenreNotInList` assume their unknown genre string is not in the vocabulary.
- The order of returned lists is not modelled. Results are specified as sets, with no repeats and matching
  lengths.
- `get_books_genre` returns the mapping as a value. Aliasing between the returned dictionary and the
  collector's field is not modelled.
- Names are `seq<char>` measured by their number of characters, which matches Python's `len` on `str`.
