/**
  The catalog object: a fixed genre vocabulary with its age-restricted subset,
  a book-to-genre mapping that registration and genre assignment update in
  place, and a favourites list that grows and shrinks.
 */
module Collector {
  import opened Wrappers
  import opened Catalog

  class BooksCollector {
    /** The genre vocabulary, fixed at construction. */
    const genre: seq<string>
    /** The genres not suitable for children, a subset of `genre`. */
    const genreAgeRating: seq<string>
    /** Book name to genre; "" marks a registered book without a genre. */
    var booksGenre: map<string, string>
    /** Favourite books, each a registered name listed once. */
    var favorites: seq<string>

    ghost predicate Valid()
      reads this
    {
      && ValidVocabulary(genre, genreAgeRating)
      && ValidBooks(genre, booksGenre)
      && ValidFavorites(booksGenre, favorites)
    }

    constructor (genre: seq<string>, genreAgeRating: seq<string>)
      requires ValidVocabulary(genre, genreAgeRating)
      ensures Valid()
      ensures this.genre == genre && this.genreAgeRating == genreAgeRating
      ensures booksGenre == map[] && favorites == []
    {
      this.genre := genre;
      this.genreAgeRating := genreAgeRating;
      booksGenre := map[];
      favorites := [];
    }

    /** Registers `name` as an unassigned book when it is 1 to 40 characters
        long and not yet registered; otherwise does nothing. */
    method AddNewBook(name: string)
      requires Valid()
      modifies this
      ensures Valid()
      ensures booksGenre == Register(old(booksGenre), name)
      ensures favorites == old(favorites)
    {
      RegisterKeepsValid(genre, booksGenre, favorites, name);
      if name !in booksGenre && 0 < |name| <= MaxNameLength {
        booksGenre := booksGenre[name := ""];
      }
    }

    /** Gives a registered book the vocabulary genre `g`. For a string outside
        the vocabulary the book either becomes unassigned or keeps its genre:
        both are allowed. Unregistered names are ignored. */
    method SetBookGenre(name: string, g: string)
      requires Valid()
      modifies this
      ensures Valid()
      ensures GenreUpdate(genre, old(booksGenre), booksGenre, name, g)
      ensures name in old(booksGenre) && g in genre ==> booksGenre == old(booksGenre)[name := g]
      ensures favorites == old(favorites)
    {
      ghost var before := booksGenre;
      if name in booksGenre {
        if g in genre {
          booksGenre := booksGenre[name := g];
        } else if * {
          booksGenre := booksGenre[name := ""];
        }
      }
      GenreUpdateKeepsValid(genre, before, booksGenre, name, g);
    }

    /** The genre of a registered book ("" while unassigned), or `None` for a
        name that was never registered. */
    function GetBookGenre(name: string): (r: Option<string>)
      reads this
      requires Valid()
      ensures r.None? <==> name !in booksGenre
      ensures r.Some? ==> r.value == "" || r.value in genre
      ensures r.Some? ==> name in Holders(booksGenre, r.value)
    {
      if name in booksGenre then Some(booksGenre[name]) else None
    }

    /** The whole mapping, agreeing book by book with `GetBookGenre`. */
    function GetBooksGenre(): (r: map<string, string>)
      reads this
      requires Valid()
      ensures forall n :: n in r <==> GetBookGenre(n).Some?
      ensures forall n :: n in r ==> GetBookGenre(n) == Some(r[n])
    {
      booksGenre
    }

    /** The books whose genre is `g`, each once; empty when `g` is not a
        vocabulary genre. */
    method GetBooksWithSpecificGenre(g: string) returns (r: seq<string>)
      requires Valid()
      ensures NoDuplicates(r)
      ensures Elements(r) == BooksWithGenre(booksGenre, genre, g)
      ensures forall i :: 0 <= i < |r| ==> r[i] in booksGenre && booksGenre[r[i]] == g
      ensures |r| == |BooksWithGenre(booksGenre, genre, g)|
    {
      r := [];
      if g in genre {
        var rest := booksGenre.Keys;
        while rest != {}
          invariant rest <= booksGenre.Keys
          invariant NoDuplicates(r)
          invariant forall n :: n in r <==> n in booksGenre && n !in rest && booksGenre[n] == g
          decreases rest
        {
          var n :| n in rest;
          if booksGenre[n] == g {
            r := r + [n];
          }
          rest := rest - {n};
        }
      }
      DistinctLength(r);
    }

    /** The books whose genre is assigned and not age-restricted, each once. */
    method GetBooksForChildren() returns (r: seq<string>)
      requires Valid()
      ensures NoDuplicates(r)
      ensures Elements(r) == ChildrenBooks(booksGenre, genre, genreAgeRating)
      ensures forall i :: 0 <= i < |r| ==> r[i] in booksGenre && booksGenre[r[i]] != "" && booksGenre[r[i]] !in genreAgeRating
      ensures |r| == |ChildrenBooks(booksGenre, genre, genreAgeRating)|
    {
      r := [];
      var rest := booksGenre.Keys;
      while rest != {}
        invariant rest <= booksGenre.Keys
        invariant NoDuplicates(r)
        invariant forall n :: n in r <==> n in booksGenre && n !in rest && n in ChildrenBooks(booksGenre, genre, genreAgeRating)
        decreases rest
      {
        var n :| n in rest;
        if booksGenre[n] in genre && booksGenre[n] !in genreAgeRating {
          r := r + [n];
        }
        rest := rest - {n};
      }
      forall i | 0 <= i < |r|
        ensures r[i] in booksGenre && booksGenre[r[i]] != "" && booksGenre[r[i]] !in genreAgeRating
      {
        ChildrenBooksMeaning(genre, genreAgeRating, booksGenre, r[i]);
      }
      DistinctLength(r);
    }

    /** Marks a registered book as favourite, once; other names are ignored. */
    method AddBookInFavorites(name: string)
      requires Valid()
      modifies this
      ensures Valid()
      ensures favorites == AddFavorite(booksGenre, old(favorites), name)
      ensures booksGenre == old(booksGenre)
    {
      if name in booksGenre && name !in favorites {
        favorites := favorites + [name];
      }
    }

    /** Removes `name` from the favourites if it is there. */
    method DeleteBookFromFavorites(name: string)
      requires Valid()
      modifies this
      ensures Valid()
      ensures favorites == RemoveFavorite(old(favorites), name)
      ensures booksGenre == old(booksGenre)
    {
      RemoveFavoriteKeepsValid(booksGenre, favorites, name);
      if name in favorites {
        favorites := RemoveFavorite(favorites, name);
      }
    }

    /** The favourites, exactly as accumulated: registered books, none listed twice. */
    function GetListOfFavoritesBooks(): (r: seq<string>)
      reads this
      requires Valid()
      ensures Elements(r) == Elements(favorites) && |r| == |favorites|
      ensures NoDuplicates(r) && |r| == |Elements(r)|
      ensures forall i :: 0 <= i < |r| ==> GetBookGenre(r[i]).Some?
    {
      DistinctLength(favorites);
      favorites
    }
  }
}
