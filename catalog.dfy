/**
  Value-level specification of the book catalog: the validity rules on names,
  genres and favourites, the effect of each mutating operation as a function
  (or, where the behaviour is left open, a relation) on the book-to-genre map
  and the favourites list, the derived views, and the lemmas that tie them
  together.
 */
module Catalog {

  /** Longest book name `add_new_book` accepts. */
  const MaxNameLength := 40

  /** A name `add_new_book` accepts: non-empty and at most 40 characters. */
  predicate ValidName(name: string) {
    0 < |name| <= MaxNameLength
  }

  predicate NoDuplicates(s: seq<string>) {
    forall i, j :: 0 <= i < j < |s| ==> s[i] != s[j]
  }

  function Elements(s: seq<string>): set<string> {
    set x | x in s
  }

  /** A sequence without repeats has as many elements as its set. */
  lemma {:induction false} DistinctLength(s: seq<string>)
    requires NoDuplicates(s)
    ensures |Elements(s)| == |s|
  {
    if s != [] {
      assert NoDuplicates(s[1..]);
      DistinctLength(s[1..]);
      assert Elements(s) == {s[0]} + Elements(s[1..]);
      assert s[0] !in Elements(s[1..]);
    }
  }

  // ----- the catalog's state and its invariants -----

  /** The vocabulary fixed at construction: distinct genres, none of them the
      empty "unassigned" marker, and a distinct age-restricted subset. */
  ghost predicate ValidVocabulary(genre: seq<string>, rating: seq<string>) {
    && NoDuplicates(genre)
    && "" !in genre
    && NoDuplicates(rating)
    && forall g :: g in rating ==> g in genre
  }

  /** Every registered name is valid and every stored genre is either the
      unassigned marker or a vocabulary genre. */
  ghost predicate ValidBooks(genre: seq<string>, books: map<string, string>) {
    forall n :: n in books ==> ValidName(n) && (books[n] == "" || books[n] in genre)
  }

  /** Favourites are registered books, each listed once. */
  ghost predicate ValidFavorites(books: map<string, string>, favs: seq<string>) {
    && NoDuplicates(favs)
    && forall i :: 0 <= i < |favs| ==> favs[i] in books
  }

  // ----- add_new_book -----

  /** The mapping after registering `name`: a valid name not yet present is
      added as unassigned; anything else leaves the mapping as it was. */
  function Register(books: map<string, string>, name: string): (r: map<string, string>)
    ensures r.Keys == if ValidName(name) then books.Keys + {name} else books.Keys
    ensures name in r && name !in books ==> r[name] == ""
    ensures forall n :: n in books ==> n in r && r[n] == books[n]
  {
    if ValidName(name) && name !in books then books[name := ""] else books
  }

  /** Registration adds exactly one entry when it accepts the name, and none
      when the name is empty, too long or already present. */
  lemma RegisterCount(books: map<string, string>, name: string)
    ensures |Register(books, name)| == |books| + (if ValidName(name) && name !in books then 1 else 0)
  {
  }

  /** Registering the same name a second time changes nothing. */
  lemma RegisterTwice(books: map<string, string>, name: string)
    ensures Register(Register(books, name), name) == Register(books, name)
  {
  }

  /** Registration keeps the catalog's invariants. */
  lemma RegisterKeepsValid(genre: seq<string>, books: map<string, string>, favs: seq<string>, name: string)
    requires ValidBooks(genre, books) && ValidFavorites(books, favs)
    ensures ValidBooks(genre, Register(books, name)) && ValidFavorites(Register(books, name), favs)
  {
  }

  // ----- set_book_genre -----

  /** The allowed effects of assigning genre `g` to `name`: nothing for an
      unregistered name; the genre itself when it is in the vocabulary;
      otherwise either the unassigned marker or the previous genre. */
  ghost predicate GenreUpdate(genre: seq<string>, before: map<string, string>,
                              after: map<string, string>, name: string, g: string): (ok: bool)
    ensures ok ==> after.Keys == before.Keys
    ensures ok ==> forall n :: n in before && n != name ==> after[n] == before[n]
    ensures ok && name in before ==> after[name] == g || after[name] == "" || after[name] == before[name]
    ensures ok && name in before && g in genre ==> after[name] == g
  {
    if name !in before then after == before
    else if g in genre then after == before[name := g]
    else after == before || after == before[name := ""]
  }

  /** Any allowed assignment keeps the set of books and the validity of every
      stored genre, and touches no other book. */
  lemma GenreUpdateKeepsValid(genre: seq<string>, before: map<string, string>,
                              after: map<string, string>, name: string, g: string)
    requires ValidBooks(genre, before) && GenreUpdate(genre, before, after, name, g)
    ensures after.Keys == before.Keys
    ensures ValidBooks(genre, after)
    ensures forall n :: n in before && n != name ==> after[n] == before[n]
  {
  }

  /** A second valid assignment overwrites the first. */
  lemma ReassignOverwrites(genre: seq<string>, m0: map<string, string>,
                           m1: map<string, string>, m2: map<string, string>,
                           name: string, g1: string, g2: string)
    requires name in m0 && g1 in genre && g2 in genre
    requires GenreUpdate(genre, m0, m1, name, g1) && GenreUpdate(genre, m1, m2, name, g2)
    ensures name in m2 && m2[name] == g2
    ensures m2 == m0[name := g2]
  {
  }

  /** An unknown genre given to a registered but unassigned book leaves it
      unassigned, whichever of the two allowed effects is taken. */
  lemma UnknownGenreOnUnassigned(genre: seq<string>, before: map<string, string>,
                                 after: map<string, string>, name: string, g: string)
    requires name in before && before[name] == "" && g !in genre
    requires GenreUpdate(genre, before, after, name, g)
    ensures after == before
  {
  }

  // ----- derived views -----

  /** The books whose stored genre is exactly `g`. */
  function Holders(books: map<string, string>, g: string): set<string> {
    set n | n in books && books[n] == g
  }

  /** What `get_books_with_specific_genre(g)` reports: the holders of a
      vocabulary genre; nothing for any other string. */
  function BooksWithGenre(books: map<string, string>, genre: seq<string>, g: string): (r: set<string>)
    ensures g !in genre ==> r == {}
    ensures forall n :: n in r <==> g in genre && n in books && books[n] == g
  {
    if g in genre then Holders(books, g) else {}
  }

  /** What `get_books_for_children()` reports: the books whose genre is a
      vocabulary genre outside the age-restricted subset. */
  function ChildrenBooks(books: map<string, string>, genre: seq<string>, rating: seq<string>): (r: set<string>)
    ensures r <= books.Keys
    ensures forall n :: n in r ==> books[n] in genre && books[n] !in rating
    ensures "" !in genre ==> forall n :: n in r ==> books[n] != ""
  {
    set n | n in books && books[n] in genre && books[n] !in rating
  }

  /** In a valid catalog a book is suitable for children exactly when its
      genre is assigned and not age-restricted: unassigned books never are. */
  lemma ChildrenBooksMeaning(genre: seq<string>, rating: seq<string>, books: map<string, string>, n: string)
    requires ValidBooks(genre, books) && "" !in genre
    ensures n in ChildrenBooks(books, genre, rating) <==> n in books && books[n] != "" && books[n] !in rating
  {
  }

  /** A valid assignment moves the book into the list of its new genre and
      out of every other list. */
  lemma AssignmentMovesBook(genre: seq<string>, before: map<string, string>,
                            after: map<string, string>, name: string, g: string, h: string)
    requires name in before && g in genre && GenreUpdate(genre, before, after, name, g)
    ensures BooksWithGenre(after, genre, g) == BooksWithGenre(before, genre, g) + {name}
    ensures h != g ==> BooksWithGenre(after, genre, h) == BooksWithGenre(before, genre, h) - {name}
  {
  }

  /** A newly registered book shows up in no genre list and not among the
      children's books, since it is unassigned. */
  lemma RegisterKeepsViews(genre: seq<string>, rating: seq<string>, books: map<string, string>, name: string, g: string)
    requires "" !in genre
    ensures BooksWithGenre(Register(books, name), genre, g) == BooksWithGenre(books, genre, g)
    ensures ChildrenBooks(Register(books, name), genre, rating) == ChildrenBooks(books, genre, rating)
  {
  }

  /** The books whose genre lies in `gs`. */
  function BooksInGenres(books: map<string, string>, gs: set<string>): set<string> {
    set n | n in books && books[n] in gs
  }

  /** With exactly `k` books in each genre of `gs`, there are `k * |gs|`
      books in those genres altogether. */
  lemma {:induction false} BooksInGenresCount(books: map<string, string>, gs: set<string>, k: nat)
    requires forall g :: g in gs ==> |Holders(books, g)| == k
    ensures |BooksInGenres(books, gs)| == k * |gs|
    decreases gs
  {
    if gs == {} {
      assert BooksInGenres(books, gs) == {};
    } else {
      var g :| g in gs;
      var rest := gs - {g};
      assert gs == rest + {g};
      BooksInGenresCount(books, rest, k);
      BooksInGenresSplit(books, rest, g);
      MulSucc(k, |rest|);
    }
  }

  lemma MulSucc(k: nat, m: nat)
    ensures k * (m + 1) == k * m + k
  {
  }

  /** Adding one genre to a set adds its holders, which lie outside the rest. */
  lemma BooksInGenresSplit(books: map<string, string>, rest: set<string>, g: string)
    requires g !in rest
    ensures |BooksInGenres(books, rest + {g})| == |Holders(books, g)| + |BooksInGenres(books, rest)|
  {
    assert BooksInGenres(books, rest + {g}) == Holders(books, g) + BooksInGenres(books, rest);
    assert Holders(books, g) !! BooksInGenres(books, rest);
  }

  /** The non-restricted genres number `|genre| - |rating|`. */
  lemma SafeGenreCount(genre: seq<string>, rating: seq<string>)
    requires ValidVocabulary(genre, rating)
    ensures |Elements(genre) - Elements(rating)| == |genre| - |rating|
  {
    DistinctLength(genre);
    DistinctLength(rating);
    assert Elements(rating) <= Elements(genre);
    assert Elements(genre) == (Elements(genre) - Elements(rating)) + Elements(rating);
  }

  /** The test fixture's catalog: `k` books in every genre (and `k`
      unassigned books) except the excluded genres, which hold none. */
  ghost predicate GeneratedBooks(books: map<string, string>, genre: seq<string>, k: nat, excluded: seq<string>): (ok: bool)
    ensures ok ==> forall g :: g in genre && g !in excluded ==> |BooksWithGenre(books, genre, g)| == k
    ensures ok ==> forall g :: g in excluded ==> BooksWithGenre(books, genre, g) == {}
  {
    && (forall n :: n in books ==> books[n] !in excluded)
    && (forall g :: g in genre && g !in excluded ==> |Holders(books, g)| == k)
    && ("" !in excluded ==> |Holders(books, "")| == k)
  }

  /** With `k` books in every genre, `k` books of each vocabulary genre are
      reported and `k * (|genre| - |rating|)` books are suitable for children. */
  lemma ChildrenCount(genre: seq<string>, rating: seq<string>, books: map<string, string>, k: nat)
    requires ValidVocabulary(genre, rating)
    requires GeneratedBooks(books, genre, k, [])
    ensures forall g :: g in genre ==> |BooksWithGenre(books, genre, g)| == k
    ensures |ChildrenBooks(books, genre, rating)| == k * (|genre| - |rating|)
  {
    var safe := Elements(genre) - Elements(rating);
    BooksInGenresCount(books, safe, k);
    assert ChildrenBooks(books, genre, rating) == BooksInGenres(books, safe);
    SafeGenreCount(genre, rating);
  }

  /** When every book is restricted or unassigned, nothing is suitable for
      children. */
  lemma NoChildrenBooks(genre: seq<string>, rating: seq<string>, books: map<string, string>)
    requires forall n :: n in books ==> books[n] == "" || books[n] in rating
    requires "" !in genre
    ensures ChildrenBooks(books, genre, rating) == {}
  {
  }

  // ----- favourites -----

  /** The favourites after `add_book_in_favorites(name)`: a registered name not
      yet listed is appended; otherwise nothing changes. */
  function AddFavorite(books: map<string, string>, favs: seq<string>, name: string): (r: seq<string>)
    ensures Elements(r) == if name in books then Elements(favs) + {name} else Elements(favs)
    ensures |r| == |favs| + (if name in books && name !in favs then 1 else 0)
    ensures ValidFavorites(books, favs) ==> ValidFavorites(books, r)
  {
    if name in books && name !in favs then favs + [name] else favs
  }

  /** The favourites after `delete_book_from_favorites(name)`: the first
      occurrence of `name` is removed, if there is one. */
  function RemoveFavorite(favs: seq<string>, name: string): (r: seq<string>)
    ensures name in favs ==> |r| == |favs| - 1
    ensures name !in favs ==> r == favs
    ensures Elements(r) <= Elements(favs)
    ensures NoDuplicates(favs) ==> NoDuplicates(r) && Elements(r) == Elements(favs) - {name}
  {
    if favs == [] then []
    else
      assert Elements(favs) == {favs[0]} + Elements(favs[1..]);
      assert NoDuplicates(favs) ==> NoDuplicates(favs[1..]) && favs[0] !in favs[1..];
      if favs[0] == name then favs[1..]
      else
        var rest := RemoveFavorite(favs[1..], name);
        assert Elements([favs[0]] + rest) == {favs[0]} + Elements(rest);
        [favs[0]] + rest
  }

  /** Removing a favourite keeps the favourites valid, whatever the mapping. */
  lemma RemoveFavoriteKeepsValid(books: map<string, string>, favs: seq<string>, name: string)
    requires ValidFavorites(books, favs)
    ensures ValidFavorites(books, RemoveFavorite(favs, name))
  {
  }

  /** Adding a favourite twice is the same as adding it once. */
  lemma AddFavoriteTwice(books: map<string, string>, favs: seq<string>, name: string)
    ensures AddFavorite(books, AddFavorite(books, favs, name), name) == AddFavorite(books, favs, name)
  {
  }

  /** Removing a name just appended gives back the list as it was. */
  lemma {:induction false} RemoveAppended(favs: seq<string>, name: string)
    requires name !in favs
    ensures RemoveFavorite(favs + [name], name) == favs
  {
    if favs != [] {
      assert (favs + [name])[1..] == favs[1..] + [name];
      RemoveAppended(favs[1..], name);
    }
  }

  /** Deleting a favourite just added restores the favourites. */
  lemma DeleteUndoesAdd(books: map<string, string>, favs: seq<string>, name: string)
    requires name in books && name !in favs
    ensures RemoveFavorite(AddFavorite(books, favs, name), name) == favs
  {
    RemoveAppended(favs, name);
  }

}
