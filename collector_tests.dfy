/**
  The behaviour the test suite of the catalog checks, written as client code of
  `BooksCollector`: each method runs one test's steps and returns what that
  test asserts on, and its postcondition is the assertion. The vocabulary is a
  parameter wherever a test depends only on its shape. A test that starts from
  the generated fixture catalog takes the collector as a parameter whose state
  satisfies `GeneratedBooks`.
 */
module CollectorTests {
  import opened Wrappers
  import opened Catalog
  import opened Collector

  const UnknownGenre := "Неизвестный жанр"

  method AddTwoBooks(genre: seq<string>, rating: seq<string>) returns (count: nat)
    requires ValidVocabulary(genre, rating)
    ensures count == 2
  {
    var c := new BooksCollector(genre, rating);
    c.AddNewBook("Гордость и предубеждение и зомби");
    c.AddNewBook("Что делать, если ваш кот хочет вас убить");
    count := |c.GetBooksGenre()|;
  }

  method WrongNameLengthNotAdded(genre: seq<string>, rating: seq<string>, name: string) returns (count: nat)
    requires ValidVocabulary(genre, rating)
    requires name == "" || name == "Название книги с длиной более чем 40 символов"
    ensures count == 0
  {
    var c := new BooksCollector(genre, rating);
    c.AddNewBook(name);
    count := |c.GetBooksGenre()|;
  }

  method AlreadyAddedNotAddedTwice(genre: seq<string>, rating: seq<string>) returns (count: nat)
    requires ValidVocabulary(genre, rating)
    ensures count == 1
  {
    var c := new BooksCollector(genre, rating);
    c.AddNewBook("Название книги");
    c.AddNewBook("Название книги");
    count := |c.GetBooksGenre()|;
  }

  method SetGenreInList(genre: seq<string>, rating: seq<string>, g: string) returns (stored: string)
    requires ValidVocabulary(genre, rating) && g in genre
    ensures stored == g
  {
    var c := new BooksCollector(genre, rating);
    var name := "Название книги";
    c.AddNewBook(name);
    c.SetBookGenre(name, g);
    stored := c.booksGenre[name];
  }

  method SetGenreNotInList(genre: seq<string>, rating: seq<string>) returns (stored: string)
    requires ValidVocabulary(genre, rating) && UnknownGenre !in genre
    ensures stored == ""
  {
    var c := new BooksCollector(genre, rating);
    var name := "Название книги";
    c.AddNewBook(name);
    c.SetBookGenre(name, UnknownGenre);
    stored := c.booksGenre[name];
  }

  method ChangeGenre(genre: seq<string>, rating: seq<string>) returns (stored: string)
    requires ValidVocabulary(genre, rating) && |genre| >= 2
    ensures stored == genre[1]
  {
    var c := new BooksCollector(genre, rating);
    var name := "Название книги";
    c.AddNewBook(name);
    c.SetBookGenre(name, c.genre[0]);
    c.SetBookGenre(name, c.genre[1]);
    stored := c.booksGenre[name];
  }

  method GetGenreOfUnassigned(genre: seq<string>, rating: seq<string>) returns (r: Option<string>)
    requires ValidVocabulary(genre, rating)
    ensures r == Some("")
  {
    var c := new BooksCollector(genre, rating);
    var name := "Название книги";
    c.AddNewBook(name);
    r := c.GetBookGenre(name);
  }

  method GetGenreOfAssigned(genre: seq<string>, rating: seq<string>, g: string) returns (r: Option<string>)
    requires ValidVocabulary(genre, rating) && g in genre
    ensures r == Some(g)
  {
    var c := new BooksCollector(genre, rating);
    var name := "Название книги";
    c.AddNewBook(name);
    c.SetBookGenre(name, g);
    r := c.GetBookGenre(name);
  }

  method GetGenreOfUnknownBook(genre: seq<string>, rating: seq<string>) returns (r: Option<string>)
    requires ValidVocabulary(genre, rating)
    ensures r == None
  {
    var c := new BooksCollector(genre, rating);
    r := c.GetBookGenre("Неизвестная книга");
  }

  method SpecificGenreRelevantList(c: BooksCollector, k: nat, g: string) returns (books: seq<string>)
    requires c.Valid() && GeneratedBooks(c.booksGenre, c.genre, k, [])
    requires g in c.genre
    ensures forall i :: 0 <= i < |books| ==> books[i] in c.booksGenre && c.booksGenre[books[i]] == g
    ensures |books| == k
  {
    books := c.GetBooksWithSpecificGenre(g);
    ChildrenCount(c.genre, c.genreAgeRating, c.booksGenre, k);
  }

  method SpecificGenreWrongGenreEmpty(c: BooksCollector, k: nat) returns (books: seq<string>)
    requires c.Valid() && GeneratedBooks(c.booksGenre, c.genre, k, [])
    requires UnknownGenre !in c.genre
    ensures |books| == 0
  {
    books := c.GetBooksWithSpecificGenre(UnknownGenre);
  }

  method BooksGenreIsMapping(c: BooksCollector, k: nat) returns (books: map<string, string>)
    requires c.Valid() && GeneratedBooks(c.booksGenre, c.genre, k, [])
    ensures books == c.booksGenre
  {
    books := c.GetBooksGenre();
  }

  method ChildrenRelevantList(c: BooksCollector, k: nat) returns (books: seq<string>)
    requires c.Valid() && GeneratedBooks(c.booksGenre, c.genre, k, [])
    ensures forall i :: 0 <= i < |books| ==> books[i] in c.booksGenre && c.booksGenre[books[i]] !in c.genreAgeRating
    ensures |books| == k * (|c.genre| - |c.genreAgeRating|)
  {
    books := c.GetBooksForChildren();
    ChildrenCount(c.genre, c.genreAgeRating, c.booksGenre, k);
  }

  method ChildrenNoRelevantBooks(c: BooksCollector, k: nat, excluded: seq<string>) returns (books: seq<string>)
    requires c.Valid() && GeneratedBooks(c.booksGenre, c.genre, k, excluded)
    requires forall g :: g in excluded <==> g in c.genre && g !in c.genreAgeRating
    ensures |books| == 0
  {
    books := c.GetBooksForChildren();
    NoChildrenBooks(c.genre, c.genreAgeRating, c.booksGenre);
  }

  method FavoritesAddTwoBooks(genre: seq<string>, rating: seq<string>) returns (count: nat)
    requires ValidVocabulary(genre, rating)
    ensures count == 2
  {
    var c := new BooksCollector(genre, rating);
    var books := ["Любимая книга 1", "Любимая книга 2"];
    for i := 0 to |books|
      invariant c.Valid() && fresh(c)
      invariant c.favorites == books[..i]
    {
      c.AddNewBook(books[i]);
      c.AddBookInFavorites(books[i]);
    }
    count := |c.favorites|;
  }

  method FavoritesNotAddedTwice(genre: seq<string>, rating: seq<string>) returns (count: nat)
    requires ValidVocabulary(genre, rating)
    ensures count == 1
  {
    var c := new BooksCollector(genre, rating);
    var name := "Любимая книга";
    c.AddNewBook(name);
    c.AddBookInFavorites(name);
    c.AddBookInFavorites(name);
    count := |c.favorites|;
  }

  method FavoritesUnknownBookNotAdded(genre: seq<string>, rating: seq<string>) returns (count: nat)
    requires ValidVocabulary(genre, rating)
    ensures count == 0
  {
    var c := new BooksCollector(genre, rating);
    c.AddBookInFavorites("Любимая книга");
    count := |c.favorites|;
  }

  method FavoritesDeleteTwoBooks(genre: seq<string>, rating: seq<string>) returns (count: nat)
    requires ValidVocabulary(genre, rating)
    ensures count == 0
  {
    var c := new BooksCollector(genre, rating);
    var books := ["Любимая книга 1", "Любимая книга 2"];
    for i := 0 to |books|
      invariant c.Valid() && fresh(c)
      invariant c.favorites == books[..i]
    {
      c.AddNewBook(books[i]);
      c.AddBookInFavorites(books[i]);
    }
    for i := 0 to |books|
      invariant c.Valid() && fresh(c)
      invariant c.favorites == books[i..]
    {
      c.DeleteBookFromFavorites(books[i]);
    }
    count := |c.favorites|;
  }

  /** Marks every registered book as favourite, then lists the favourites. */
  method FavoritesListAll(c: BooksCollector) returns (favs: seq<string>)
    requires c.Valid() && c.favorites == []
    modifies c
    ensures c.Valid() && c.booksGenre == old(c.booksGenre)
    ensures Elements(favs) == c.booksGenre.Keys
    ensures |favs| == |c.booksGenre|
  {
    var rest := c.booksGenre.Keys;
    while rest != {}
      invariant c.Valid() && c.booksGenre == old(c.booksGenre)
      invariant rest <= c.booksGenre.Keys
      invariant Elements(c.favorites) == c.booksGenre.Keys - rest
      decreases rest
    {
      var n :| n in rest;
      c.AddBookInFavorites(n);
      rest := rest - {n};
    }
    favs := c.GetListOfFavoritesBooks();
    DistinctLength(favs);
  }
}
