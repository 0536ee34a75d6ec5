/**
 The dog-list screen: an ordered list of dog names (newest first), a set of
 favourite names, an input buffer with a duplicate-warning flag, and a search
 query with a visibility toggle. The event handlers of the screen are the
 methods of `DogListScreen`; the lists it displays are pure functions of its
 state, stated and proved about below.
 */
module DogListApp {
  import opened Lists
  import opened TextMatch

  // ---------------------------------------------------------------------------
  // The state invariant
  // ---------------------------------------------------------------------------

  /** No name twice, no empty name, and every favourite is on the list. */
  predicate Consistent(dogs: seq<string>, favorites: set<string>)
  {
    NoDuplicates(dogs) && "" !in dogs && forall f :: f in favorites ==> f in dogs
  }

  // ---------------------------------------------------------------------------
  // The state changes the handlers make, as functions of the old state
  // ---------------------------------------------------------------------------

  /** The guard of the add button: a non-empty name not already on the list (exact, case-sensitive). */
  predicate CanAdd(dogs: seq<string>, name: string)
  {
    name != "" && name !in dogs
  }

  /** Holds of every name except `name`. */
  function Differs(name: string): string -> bool
  {
    other => other != name
  }

  /** The list with `name` deleted (`Set.minus`): every other name stays, in its order. */
  function Without(dogs: seq<string>, name: string): (r: seq<string>)
    ensures name !in r
    ensures forall x :: x != name ==> (x in r <==> x in dogs)
  {
    Filter(dogs, Differs(name))
  }

  /** The favourites after the heart of `name` is tapped. */
  function Toggled(favorites: set<string>, name: string): (r: set<string>)
    ensures name in r <==> name !in favorites
    ensures forall x :: x != name ==> (x in r <==> x in favorites)
  {
    if name in favorites then favorites - {name} else favorites + {name}
  }

  /** Adding a name the guard admits keeps the invariant. */
  lemma AddKeepsConsistent(dogs: seq<string>, favorites: set<string>, name: string)
    requires Consistent(dogs, favorites) && CanAdd(dogs, name)
    ensures Consistent([name] + dogs, favorites)
  {
    ConsKeepsNoDuplicates(name, dogs);
  }

  /** Deleting a name, from the list and from the favourites, keeps the invariant. */
  lemma DeleteKeepsConsistent(dogs: seq<string>, favorites: set<string>, name: string)
    requires Consistent(dogs, favorites)
    ensures Consistent(Without(dogs, name), favorites - {name})
  {
    FilterKeepsNoDuplicates(dogs, Differs(name));
  }

  /** Toggling a listed name keeps the invariant. */
  lemma ToggleKeepsConsistent(dogs: seq<string>, favorites: set<string>, name: string)
    requires Consistent(dogs, favorites) && name in dogs
    ensures Consistent(dogs, Toggled(favorites, name))
  {
  }

  /** Tapping the heart twice restores the favourites. */
  lemma ToggleTwice(favorites: set<string>, name: string)
    ensures Toggled(Toggled(favorites, name), name) == favorites
  {
  }

  /** Deleting a name that is not on the list changes nothing. */
  lemma DeleteAbsent(dogs: seq<string>, name: string)
    requires name !in dogs
    ensures Without(dogs, name) == dogs
  {
    FilterKeepsAll(dogs, Differs(name));
  }

  /** Deleting twice is deleting once. */
  lemma DeleteIdempotent(dogs: seq<string>, name: string)
    ensures Without(Without(dogs, name), name) == Without(dogs, name)
  {
    DeleteAbsent(Without(dogs, name), name);
  }

  /** Deleting a listed name shortens the list by one and keeps the order of the others. */
  lemma DeleteShrinksByOne(dogs: seq<string>, name: string)
    requires NoDuplicates(dogs) && name in dogs
    ensures |Without(dogs, name)| == |dogs| - 1
    ensures IsSubsequence(Without(dogs, name), dogs)
  {
    FilterDropsOne(dogs, Differs(name), name);
    FilterIsSubsequence(dogs, Differs(name));
  }

  /** The heart counter never exceeds the dog counter, and counts exactly the favourites that are listed. */
  lemma FavoritesFitInList(dogs: seq<string>, favorites: set<string>)
    requires Consistent(dogs, favorites)
    ensures |favorites| <= |dogs|
    ensures favorites * Elements(dogs) == favorites
  {
    DistinctElements(dogs);
    SubsetNoLarger(favorites, Elements(dogs));
  }

  // ---------------------------------------------------------------------------
  // The displayed lists
  // ---------------------------------------------------------------------------

  /** Holds of the names that contain `query`, ignoring case. */
  function MatchesQuery(query: string): string -> bool
  {
    name => ContainsIgnoreCase(name, query)
  }

  /** Holds of the names in `favorites`. */
  function InFavorites(favorites: set<string>): string -> bool
  {
    name => name in favorites
  }

  /** The names shown for a search query: those containing it, ignoring case, in list order. */
  function MatchingDogs(dogs: seq<string>, query: string): (r: seq<string>)
    ensures forall x :: x in r <==> x in dogs && ContainsIgnoreCase(x, query)
  {
    Filter(dogs, MatchesQuery(query))
  }

  /** The favourites among `shown`, in its order. */
  function FavoritePart(shown: seq<string>, favorites: set<string>): (r: seq<string>)
    ensures forall x :: x in r <==> x in shown && x in favorites
  {
    Filter(shown, InFavorites(favorites))
  }

  /** The names of `shown` that are not favourites, in its order. */
  function NonFavoritePart(shown: seq<string>, favorites: set<string>): (r: seq<string>)
    ensures forall x :: x in r <==> x in shown && x !in favorites
  {
    Filter(shown, Not(InFavorites(favorites)))
  }

  /** With an empty query every dog is shown, in list order. */
  lemma EmptyQueryShowsAll(dogs: seq<string>)
    ensures MatchingDogs(dogs, "") == dogs
  {
    forall x | x in dogs ensures MatchesQuery("")(x) {
      EmptyQueryMatches(x);
    }
    FilterKeepsAll(dogs, MatchesQuery(""));
  }

  /** The shown names keep the list's order. */
  lemma MatchingDogsOrdered(dogs: seq<string>, query: string)
    ensures IsSubsequence(MatchingDogs(dogs, query), dogs)
  {
    FilterIsSubsequence(dogs, MatchesQuery(query));
  }

  /** A list without duplicates shows no name twice. */
  lemma MatchingDogsDistinct(dogs: seq<string>, query: string)
    requires NoDuplicates(dogs)
    ensures NoDuplicates(MatchingDogs(dogs, query))
  {
    FilterKeepsNoDuplicates(dogs, MatchesQuery(query));
  }

  /** Typing more into the search field never brings a hidden dog back. */
  lemma LongerQueryShowsFewer(dogs: seq<string>, query: string, more: string)
    ensures forall x :: x in MatchingDogs(dogs, query + more) ==> x in MatchingDogs(dogs, query)
  {
    forall x | x in MatchingDogs(dogs, query + more) ensures x in MatchingDogs(dogs, query) {
      SliceOfQueryMatches(x, query + more, 0, |query|);
      assert (query + more)[0..|query|] == query;
    }
  }

  /**
   The favourite and non-favourite sections split the shown names exactly:
   together they hold each shown name once, they share none, and each keeps the
   shown order.
   */
  lemma SectionsPartitionShown(shown: seq<string>, favorites: set<string>)
    ensures multiset(FavoritePart(shown, favorites)) + multiset(NonFavoritePart(shown, favorites)) == multiset(shown)
    ensures |FavoritePart(shown, favorites)| + |NonFavoritePart(shown, favorites)| == |shown|
    ensures forall x :: !(x in FavoritePart(shown, favorites) && x in NonFavoritePart(shown, favorites))
    ensures IsSubsequence(FavoritePart(shown, favorites), shown)
    ensures IsSubsequence(NonFavoritePart(shown, favorites), shown)
  {
    FilterPartition(shown, InFavorites(favorites));
    assert |multiset(FavoritePart(shown, favorites)) + multiset(NonFavoritePart(shown, favorites))| == |multiset(shown)|;
    FilterIsSubsequence(shown, InFavorites(favorites));
    FilterIsSubsequence(shown, Not(InFavorites(favorites)));
  }

  // ---------------------------------------------------------------------------
  // The rendered rows
  // ---------------------------------------------------------------------------

  /** One rendered row: the name and the `isFavorite` flag its section passes to it. */
  datatype Row = Row(name: string, isFavorite: bool)

  /** The heart icon of a row. */
  datatype Icon = Favorite | FavoriteBorder

  /** The tint of the heart icon. */
  datatype Tint = Red | Gray

  /** Rows for `names`, all carrying the same flag. */
  function RowsOf(names: seq<string>, isFavorite: bool): seq<Row>
  {
    seq(|names|, i requires 0 <= i < |names| => Row(names[i], isFavorite))
  }

  /**
   The rows of the list: the favourite section with the flag set, then the
   others with it cleared, each section in list order. There are as many rows
   as shown names, every row's name is shown, its flag says exactly whether the
   name is a favourite, and no favourite row comes after a non-favourite one.
   */
  function Rows(dogs: seq<string>, favorites: set<string>, query: string): (rows: seq<Row>)
    ensures |rows| == |MatchingDogs(dogs, query)|
    ensures forall i :: 0 <= i < |rows| ==>
      rows[i].name in MatchingDogs(dogs, query) && rows[i].isFavorite == (rows[i].name in favorites)
    ensures forall i, j :: 0 <= i < j < |rows| && rows[j].isFavorite ==> rows[i].isFavorite
    ensures var fav, rest := FavoritePart(MatchingDogs(dogs, query), favorites),
        NonFavoritePart(MatchingDogs(dogs, query), favorites);
      |rows| == |fav| + |rest| &&
      (forall i :: 0 <= i < |fav| ==> rows[i].name == fav[i]) &&
      (forall i :: 0 <= i < |rest| ==> rows[|fav| + i].name == rest[i])
  {
    var shown := MatchingDogs(dogs, query);
    var fav, rest := FavoritePart(shown, favorites), NonFavoritePart(shown, favorites);
    SectionsPartitionShown(shown, favorites);
    SectionRowsFlagged(fav, rest, shown, favorites);
    RowsOf(fav, true) + RowsOf(rest, false)
  }

  /** Flagging a favourite section and a non-favourite section and stacking them gives flags that match membership, favourites first. */
  lemma SectionRowsFlagged(fav: seq<string>, rest: seq<string>, shown: seq<string>, favorites: set<string>)
    requires forall x :: x in fav ==> x in shown && x in favorites
    requires forall x :: x in rest ==> x in shown && x !in favorites
    ensures var rows := RowsOf(fav, true) + RowsOf(rest, false);
      |rows| == |fav| + |rest| &&
      (forall i :: 0 <= i < |rows| ==> rows[i].name in shown && rows[i].isFavorite == (rows[i].name in favorites)) &&
      (forall i, j :: 0 <= i < j < |rows| && rows[j].isFavorite ==> rows[i].isFavorite) &&
      (forall i :: 0 <= i < |fav| ==> rows[i].name == fav[i]) &&
      (forall i :: 0 <= i < |rest| ==> rows[|fav| + i].name == rest[i])
  {
  }

  /** The heart a row draws: filled and red for a favourite, outlined and grey otherwise. */
  function Heart(isFavorite: bool): (Icon, Tint)
  {
    if isFavorite then (Favorite, Red) else (FavoriteBorder, Gray)
  }

  /** A row's heart is filled, and it is red, exactly when the row's name is a favourite. */
  lemma HeartShowsFavorite(dogs: seq<string>, favorites: set<string>, query: string, i: nat)
    requires i < |Rows(dogs, favorites, query)|
    ensures var row := Rows(dogs, favorites, query)[i];
      (Heart(row.isFavorite).0 == Favorite <==> row.name in favorites) &&
      (Heart(row.isFavorite).1 == Red <==> row.name in favorites)
  {
  }

  /** Every shown name gets a row. */
  lemma RowsCoverShown(dogs: seq<string>, favorites: set<string>, query: string)
    ensures forall x :: x in MatchingDogs(dogs, query) ==>
      exists i :: 0 <= i < |Rows(dogs, favorites, query)| && Rows(dogs, favorites, query)[i].name == x
  {
    var shown := MatchingDogs(dogs, query);
    var fav, rest := FavoritePart(shown, favorites), NonFavoritePart(shown, favorites);
    var rows := Rows(dogs, favorites, query);
    forall x | x in shown ensures exists i :: 0 <= i < |rows| && rows[i].name == x {
      if x in favorites {
        var k :| 0 <= k < |fav| && fav[k] == x;
        assert rows[k].name == x;
      } else {
        var k :| 0 <= k < |rest| && rest[k] == x;
        assert rows[|fav| + k].name == x;
      }
    }
  }

  // ---------------------------------------------------------------------------
  // The screen
  // ---------------------------------------------------------------------------

  /** The state of the dog-list screen and its event handlers, each one atomic transition. */
  class DogListScreen {
    var textFieldValue: string
    var dogs: seq<string>
    var favoriteDogs: set<string>
    var isDuplicate: bool
    var searchQuery: string
    var isSearchVisible: bool

    ghost predicate Valid()
      reads this
    {
      Consistent(dogs, favoriteDogs)
    }

    /** The screen as it is mounted: everything empty or off. */
    constructor ()
      ensures Valid()
      ensures textFieldValue == "" && dogs == [] && favoriteDogs == {}
      ensures !isDuplicate && searchQuery == "" && !isSearchVisible
    {
      textFieldValue := "";
      dogs := [];
      favoriteDogs := {};
      isDuplicate := false;
      searchQuery := "";
      isSearchVisible := false;
    }

    /** The dogs whose names match the search query, whether or not the search field is shown. */
    function FilteredDogs(): (r: seq<string>)
      reads this
      ensures forall x :: x in r <==> x in dogs && ContainsIgnoreCase(x, searchQuery)
    {
      MatchingDogs(dogs, searchQuery)
    }

    /** The favourite section: the listed favourites that match the query. */
    function FavoriteDogList(): (r: seq<string>)
      reads this
      ensures forall x :: x in r <==> x in dogs && ContainsIgnoreCase(x, searchQuery) && x in favoriteDogs
    {
      FavoritePart(FilteredDogs(), favoriteDogs)
    }

    /** The non-favourite section: the listed non-favourites that match the query. */
    function NonFavoriteDogList(): (r: seq<string>)
      reads this
      ensures forall x :: x in r <==> x in dogs && ContainsIgnoreCase(x, searchQuery) && x !in favoriteDogs
    {
      NonFavoritePart(FilteredDogs(), favoriteDogs)
    }

    /** The dog counter: the list's length, which is the number of distinct names while the invariant holds. */
    function DogCount(): (n: nat)
      reads this
      ensures Valid() ==> n == |Elements(dogs)|
    {
      assert Valid() ==> |dogs| == |Elements(dogs)| by {
        if Valid() {
          DistinctElements(dogs);
        }
      }
      |dogs|
    }

    /** The heart counter: never more than the dog counter while the invariant holds. */
    function FavoriteCount(): (n: nat)
      reads this
      ensures Valid() ==> n <= DogCount()
    {
      assert Valid() ==> |favoriteDogs| <= DogCount() by {
        if Valid() {
          FavoritesFitInList(dogs, favoriteDogs);
        }
      }
      |favoriteDogs|
    }

    /** Typing into the name field stores the text and clears the warning. */
    method EditInput(value: string)
      requires Valid()
      modifies this`textFieldValue, this`isDuplicate
      ensures Valid()
      ensures textFieldValue == value && !isDuplicate
    {
      textFieldValue := value;
      isDuplicate := false;
    }

    /**
     The add button: a non-empty name not yet on the list goes to the front and
     the field is cleared; otherwise only the warning is raised.
     */
    method Add()
      requires Valid()
      modifies this`dogs, this`textFieldValue, this`isDuplicate
      ensures Valid()
      ensures CanAdd(old(dogs), old(textFieldValue)) ==>
        dogs == [old(textFieldValue)] + old(dogs) && DogCount() == old(DogCount()) + 1 &&
        textFieldValue == "" && !isDuplicate
      ensures !CanAdd(old(dogs), old(textFieldValue)) ==>
        dogs == old(dogs) && textFieldValue == old(textFieldValue) && isDuplicate
    {
      if textFieldValue != "" && textFieldValue !in dogs {
        AddKeepsConsistent(dogs, favoriteDogs, textFieldValue);
        dogs := [textFieldValue] + dogs;
        textFieldValue := "";
        isDuplicate := false;
      } else {
        isDuplicate := true;
      }
    }

    /** The search button shows or hides the search field; the query, and so the list, stays. */
    method ToggleSearch()
      requires Valid()
      modifies this`isSearchVisible
      ensures Valid()
      ensures isSearchVisible == !old(isSearchVisible)
      ensures FilteredDogs() == old(FilteredDogs())
    {
      isSearchVisible := !isSearchVisible;
    }

    /** Typing into the search field stores the query. */
    method EditQuery(query: string)
      requires Valid()
      modifies this`searchQuery
      ensures Valid()
      ensures searchQuery == query
      ensures FilteredDogs() == MatchingDogs(dogs, query)
    {
      searchQuery := query;
    }

    /** The delete icon of a row: the name leaves the list and the favourites. */
    method Delete(name: string)
      requires Valid()
      modifies this`dogs, this`favoriteDogs
      ensures Valid()
      ensures dogs == Without(old(dogs), name)
      ensures favoriteDogs == old(favoriteDogs) - {name}
      ensures name in old(dogs) ==> DogCount() == old(DogCount()) - 1
      ensures name !in old(dogs) ==> dogs == old(dogs) && favoriteDogs == old(favoriteDogs)
    {
      DeleteKeepsConsistent(dogs, favoriteDogs, name);
      if name in dogs {
        DeleteShrinksByOne(dogs, name);
      } else {
        DeleteAbsent(dogs, name);
      }
      dogs := Without(dogs, name);
      if name in favoriteDogs {
        favoriteDogs := favoriteDogs - {name};
      }
    }

    /** The heart icon of a row: the name's favourite mark flips. Only a shown row has one. */
    method ToggleFavorite(name: string)
      requires Valid()
      requires name in FavoriteDogList() || name in NonFavoriteDogList()
      modifies this`favoriteDogs
      ensures Valid()
      ensures favoriteDogs == Toggled(old(favoriteDogs), name)
    {
      ToggleKeepsConsistent(dogs, favoriteDogs, name);
      if name in favoriteDogs {
        favoriteDogs := favoriteDogs - {name};
      } else {
        favoriteDogs := favoriteDogs + {name};
      }
    }
  }

  // ---------------------------------------------------------------------------
  // Worked examples
  // ---------------------------------------------------------------------------

  /** Searching "Re" among Rocky, Bella and Rex shows only Rex: "Rocky" holds no "re"; the empty query shows all three. */
  lemma SearchExample()
    ensures MatchingDogs(["Rocky", "Bella", "Rex"], "Re") == ["Rex"]
    ensures MatchingDogs(["Rocky", "Bella", "Rex"], "") == ["Rocky", "Bella", "Rex"]
  {
    var dogs := ["Rocky", "Bella", "Rex"];
    assert !ContainsIgnoreCase("Rocky", "Re") by {
      forall i | 0 <= i <= 3 ensures !MatchesAt("Rocky", "Re", i) {
        assert Fold("Rocky"[i + 1]) != Fold("Re"[1]);
      }
    }
    assert !ContainsIgnoreCase("Bella", "Re") by {
      forall i | 0 <= i <= 3 ensures !MatchesAt("Bella", "Re", i) {
        assert Fold("Bella"[i]) != Fold("Re"[0]);
      }
    }
    assert MatchesAt("Rex", "Re", 0);
    assert Filter(dogs, MatchesQuery("Re")) == Filter(dogs[1..], MatchesQuery("Re"));
    assert Filter(dogs[1..], MatchesQuery("Re")) == Filter(dogs[2..], MatchesQuery("Re"));
    assert Filter(dogs[2..], MatchesQuery("Re")) == ["Rex"] + Filter(dogs[3..], MatchesQuery("Re"));
    EmptyQueryShowsAll(dogs);
  }

  /** The lists the screen shows for Bella and Rex, Bella marked, under the query "e". */
  lemma ScenarioViews()
    ensures MatchingDogs(["Bella", "Rex"], "") == ["Bella", "Rex"]
    ensures MatchingDogs(["Bella", "Rex"], "e") == ["Bella", "Rex"]
    ensures FavoritePart(["Bella", "Rex"], {"Bella"}) == ["Bella"]
    ensures NonFavoritePart(["Bella", "Rex"], {"Bella"}) == ["Rex"]
    ensures CanAdd([], "Rex") && CanAdd(["Rex"], "Bella")
    ensures "Bella" in NonFavoritePart(MatchingDogs(["Bella", "Rex"], ""), {})
    ensures Toggled({}, "Bella") == {"Bella"}
    ensures |Elements(["Bella", "Rex"])| == 2 && |{"Bella"}| == 1
  {
    DistinctElements(["Bella", "Rex"]);
    EmptyQueryShowsAll(["Bella", "Rex"]);
    assert MatchesAt("Bella", "e", 1) && MatchesAt("Rex", "e", 1);
    var m := MatchesQuery("e");
    assert Filter(["Bella", "Rex"], m) == ["Bella"] + Filter(["Rex"], m);
    assert Filter(["Rex"], m) == ["Rex"] + Filter([], m);
    var f := InFavorites({"Bella"});
    assert Filter(["Bella", "Rex"], f) == ["Bella"] + Filter(["Rex"], f);
    assert Filter(["Rex"], f) == Filter([], f);
    var n := Not(InFavorites({"Bella"}));
    assert Filter(["Bella", "Rex"], n) == Filter(["Rex"], n);
    assert Filter(["Rex"], n) == ["Rex"] + Filter([], n);
  }

  /** A fresh screen where "Rex" and then "Bella" are typed and added: Bella heads the list, nothing is a favourite. */
  method AddRexThenBella() returns (screen: DogListScreen)
    ensures fresh(screen) && screen.Valid()
    ensures screen.dogs == ["Bella", "Rex"] && screen.favoriteDogs == {} && screen.searchQuery == ""
    ensures screen.textFieldValue == "" && !screen.isDuplicate
  {
    ScenarioViews();
    screen := new DogListScreen();
    screen.EditInput("Rex");
    screen.Add();
    screen.EditInput("Bella");
    screen.Add();
  }

  /**
   Starting empty, "Rex" then "Bella" are added, Bella's heart is tapped and "e"
   is typed as the query: Bella is the only favourite row, Rex the only other
   row, and the counters read 2 dogs and 1 favourite.
   */
  method Scenario() returns (favoriteRows: seq<string>, otherRows: seq<string>, dogCount: nat, heartCount: nat)
    ensures favoriteRows == ["Bella"] && otherRows == ["Rex"]
    ensures dogCount == 2 && heartCount == 1
  {
    ScenarioViews();
    var screen := AddRexThenBella();
    screen.ToggleFavorite("Bella");
    screen.EditQuery("e");
    favoriteRows, otherRows := screen.FavoriteDogList(), screen.NonFavoriteDogList();
    dogCount, heartCount := screen.DogCount(), screen.FavoriteCount();
  }
}
