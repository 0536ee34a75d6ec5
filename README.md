# Dog list screen — a Dafny model

This project models the single screen of the "Lista psów" Android app
(`DogListApp` in `MainActivity.kt`). The screen keeps six pieces of state:

- the text of the name field;
- the list of dog names, newest first, with no name twice;
- the set of favourite names;
- the duplicate-warning flag;
- the search query;
- whether the search field is shown.

Each tap or keystroke runs one event handler, and each handler replaces some of
that state. From the state the screen derives three lists:

- the dogs whose names contain the query, ignoring case;
- the favourites among them;
- the non-favourites among them.

The screen draws one row for each name in the last two lists. A favourite row
gets a filled red heart and any other row an outlined grey one. The screen also
shows two counters: how many dogs there are and how many are favourites.

Three modules, one per concern:

- `lists.dfy` (`Lists`) defines Kotlin's order-keeping `filter` as `Filter`. It
  proves the facts the screen relies on:
  - membership: a filter keeps exactly the elements that satisfy its predicate;
  - order: what is kept is a subsequence of the input;
  - a filter and its negation split the input exactly;
  - filtering keeps a list free of duplicates;
  - dropping a name that occurs once shortens the list by exactly one;
  - a duplicate-free list has as many distinct elements as positions.
- `text_match.dfy` (`TextMatch`) models `String.contains(query, ignoreCase = true)`.
  The name contains the query when, at some offset of the name, every query
  character equals the name's character once both are folded to one case.
- `dog_list.dfy` (`DogListApp`) holds:
  - the invariant: no duplicate names, no empty name, every favourite is listed;
  - the state changes as functions (`Without`, `Toggled`) and the lemmas about
    them;
  - the displayed lists and rows, and their partition and order properties;
  - the class `DogListScreen`. Its six fields are the six state variables, and
    one method models each event handler. Each method keeps the invariant and
    states the new state exactly; its `modifies` frame names the only fields it
    may change;
  - two worked examples.

Two points about the code that are easy to miss:

- "Rocky" contains no "re", so the query "Re" among Rocky, Bella and Rex shows
  only Rex. `SearchExample` proves it.
- The heart handler (MainActivity.kt:132-136) does not check that the name is
  listed: for an unlisted name it would add that name to the favourites. The
  handler only exists on a rendered row, so `DogListScreen.ToggleFavorite`
  requires the name to be on a shown row. Under that requirement every
  favourite stays listed.

## Model

| member | source | states |
|---|---|---|
| `Lists.Filter` | MainActivity.kt:42-44 | the result holds exactly the elements of the list that satisfy the predicate, and is no longer than the list |
| `Lists.FilterIsSubsequence` | MainActivity.kt:42-44 | a filtered list keeps the relative order of the elements it keeps |
| `Lists.FilterKeepsNoDuplicates` | MainActivity.kt:42 | filtering a duplicate-free list gives a duplicate-free list |
| `Lists.FilterKeepsAll` | MainActivity.kt:42 | when every element satisfies the predicate, the filter returns the list unchanged |
| `Lists.FilterPartition` | MainActivity.kt:43-44 | the elements a predicate keeps and those its negation keeps make up the list, counting repetitions |
| `Lists.FilterDropsOne` | MainActivity.kt:126 | removing the one listed element a predicate rejects from a duplicate-free list shortens it by exactly one |
| `Lists.ConsKeepsNoDuplicates` | MainActivity.kt:73 | putting a name that is not yet listed in front of a duplicate-free list keeps it duplicate-free |
| `Lists.DistinctElements` | MainActivity.kt:36 | a duplicate-free list has exactly as many distinct elements as positions |
| `TextMatch.FoldIdempotent` | MainActivity.kt:42 | folding a character twice gives the same result as folding it once |
| `TextMatch.Fold` | MainActivity.kt:42 | the character comparison behind `ignoreCase = true`: A–Z fold to a–z, every other character is left as it is |
| `TextMatch.FoldIgnoresCase` | MainActivity.kt:42 | two characters compare equal ignoring case exactly when they are equal or are the two cases of one ASCII letter (both directions) |
| `TextMatch.ContainsIgnoreCase` | MainActivity.kt:42 | `contains(query, ignoreCase = true)`: at some offset of the name, every query character equals the name's character up to case |
| `TextMatch.ContainsMeansFoldedSlice` | MainActivity.kt:42 | a name contains a query ignoring case exactly when the folded query is a slice of the folded name (both directions) |
| `TextMatch.NameCaseIrrelevant` | MainActivity.kt:42 | a name matches a query exactly when the name folded to lower case does (both directions) |
| `TextMatch.EmptyQueryMatches` | MainActivity.kt:42 | the empty query is contained in every name |
| `TextMatch.MatchesItself` | MainActivity.kt:42 | every name contains itself, ignoring case |
| `TextMatch.SliceOfQueryMatches` | MainActivity.kt:42 | a name that contains a query contains every slice of it |
| `TextMatch.QueryCaseIrrelevant` | MainActivity.kt:42 | a name contains a query exactly when it contains the query folded to lower case (both directions) |
| `DogListApp.Consistent` | MainActivity.kt:36-37 | the state invariant: no name twice (the list stands for a set), no empty name, every favourite listed |
| `DogListApp.CanAdd` | MainActivity.kt:72 | the add guard: the name is non-empty and not already listed, compared exactly and case-sensitively |
| `DogListApp.Without` | MainActivity.kt:126 | deleting a name removes it and keeps exactly every other listed name |
| `DogListApp.Toggled` | MainActivity.kt:132-136 | tapping the heart flips the membership of that name in the favourites and of no other name |
| `DogListApp.AddKeepsConsistent` | MainActivity.kt:72-73 | prepending a name the add guard admits keeps the list free of duplicates and of the empty name, and keeps every favourite listed |
| `DogListApp.DeleteKeepsConsistent` | MainActivity.kt:126-129 | deleting a name from the list and from the favourites keeps the invariant |
| `DogListApp.ToggleKeepsConsistent` | MainActivity.kt:131-137 | tapping the heart of a listed name keeps every favourite listed |
| `DogListApp.ToggleTwice` | MainActivity.kt:132-136 | tapping the same heart twice restores the favourites |
| `DogListApp.DeleteAbsent` | MainActivity.kt:126 | deleting a name that is not listed leaves the list unchanged |
| `DogListApp.DeleteIdempotent` | MainActivity.kt:126 | deleting the same name twice gives the same list as deleting it once |
| `DogListApp.DeleteShrinksByOne` | MainActivity.kt:126 | deleting a listed name shortens the list by exactly one and keeps the other names in their order |
| `DogListApp.FavoritesFitInList` | MainActivity.kt:112-117 | under the invariant the heart counter is at most the dog counter, and it counts only favourites that are listed |
| `DogListApp.MatchingDogs` | MainActivity.kt:42 | a dog is shown exactly when its name contains the query, ignoring case |
| `DogListApp.FavoritePart` | MainActivity.kt:43 | the favourite section holds exactly the shown names that are favourites |
| `DogListApp.NonFavoritePart` | MainActivity.kt:44 | the other section holds exactly the shown names that are not favourites |
| `DogListApp.EmptyQueryShowsAll` | MainActivity.kt:42 | with an empty query the shown list is the whole list, in its order |
| `DogListApp.MatchingDogsOrdered` | MainActivity.kt:42 | the shown names keep the list's order, for every list |
| `DogListApp.MatchingDogsDistinct` | MainActivity.kt:42 | a duplicate-free list shows no name twice |
| `DogListApp.LongerQueryShowsFewer` | MainActivity.kt:42 | extending the query never shows a dog that the shorter query hid |
| `DogListApp.SectionsPartitionShown` | MainActivity.kt:43-44 | the two sections share no name, together hold each shown name exactly once, and each keeps the shown order |
| `DogListApp.Rows` | MainActivity.kt:121-159 | one row per shown name: the favourite section's names, then the other section's, each in list order (row i is the i-th name of its section); every row's `isFavorite` flag is exactly membership in the favourites, and no favourite row comes after a non-favourite one |
| `DogListApp.RowsCoverShown` | MainActivity.kt:121-159 | every shown name has a row |
| `DogListApp.Heart` | MainActivity.kt:197-199 | the heart icon and tint a row draws for its `isFavorite` flag |
| `DogListApp.HeartShowsFavorite` | MainActivity.kt:197-199 | a row's heart is filled, and red, exactly when the row's name is a favourite |
| `DogListApp.SearchExample` | MainActivity.kt:42 | searching "Re" among Rocky, Bella and Rex shows only Rex; the empty query shows all three |
| `DogListApp.ScenarioViews` | MainActivity.kt:42-44 | with Bella and Rex listed and Bella a favourite, the query "e" shows Bella in the favourite section and Rex in the other one; both names may be added in turn, tapping Bella's heart makes her the only favourite, and the counters of that state read 2 and 1 |
| `DogListApp.DogListScreen.constructor` | MainActivity.kt:35-40 | the screen starts with an empty field, no dogs, no favourites, no warning, an empty query and the search field hidden |
| `DogListApp.DogListScreen.Valid` | MainActivity.kt:35-40 | the screen's fields satisfy the state invariant |
| `DogListApp.DogListScreen.FilteredDogs` | MainActivity.kt:42 | a dog is in the filtered list exactly when it is listed and its name contains the current query ignoring case, whether or not the search field is shown |
| `DogListApp.DogListScreen.FavoriteDogList` | MainActivity.kt:43 | the favourite section holds exactly the listed favourites whose names match the query |
| `DogListApp.DogListScreen.NonFavoriteDogList` | MainActivity.kt:44 | the other section holds exactly the listed non-favourites whose names match the query |
| `DogListApp.DogListScreen.DogCount` | MainActivity.kt:112 | the dog counter equals the number of distinct listed names, as `dogs.size` of a set does |
| `DogListApp.DogListScreen.FavoriteCount` | MainActivity.kt:117 | under the invariant the heart counter never exceeds the dog counter |
| `DogListApp.DogListScreen.EditInput` | MainActivity.kt:60-63 | typing a name stores it and clears the warning; no other field changes |
| `DogListApp.DogListScreen.Add` | MainActivity.kt:71-79 | a non-empty, unlisted name goes to the front, the count grows by one, and the field and warning are cleared; otherwise only the warning is raised; the invariant is kept |
| `DogListApp.DogListScreen.ToggleSearch` | MainActivity.kt:85 | the search field's visibility flips; the query and the shown list stay |
| `DogListApp.DogListScreen.EditQuery` | MainActivity.kt:95 | the query is stored and the shown list becomes the names matching it; nothing else changes |
| `DogListApp.DogListScreen.Delete` | MainActivity.kt:125-130 | the name leaves the list (count down by one if it was listed, nothing changes if not) and the favourites; the invariant is kept |
| `DogListApp.DogListScreen.ToggleFavorite` | MainActivity.kt:131-137 | for a name on a shown row, only that name's favourite mark flips; the invariant is kept |
| `DogListApp.AddRexThenBella` | MainActivity.kt:60-79 | typing and adding "Rex" and then "Bella" on a fresh screen lists Bella before Rex, with no favourites, an empty field and no warning |
| `DogListApp.Scenario` | MainActivity.kt:60-137 | adding Rex and Bella, marking Bella and searching "e" shows Bella as the only favourite row and Rex as the only other row, with counters 2 and 1 |

The delete and heart handlers of the non-favourite section
(MainActivity.kt:144-156) repeat those of the favourite section line for line.
`DogListScreen.Delete` and `DogListScreen.ToggleFavorite` model both copies.

## Left out

- Compose layout and styling: scaffold, rows, columns, the lazy list, padding, colours other than the heart's tint, fonts and emoji. None of it decides what is shown.
- The activity lifecycle (`onCreate`, edge-to-edge, the theme) and the preview function. This is framework plumbing.
- Compose's `remember`/`mutableStateOf` recomposition. Each handler is modelled as one atomic transition on a single-threaded object.
- The Polish display texts, including the duplicate warning's wording. The model keeps only the flag that shows the warning.
- `TextMatch.ContainsIgnoreCase` folds only the ASCII letters A–Z. Kotlin's `ignoreCase` also folds other Unicode letters through the platform's character tables, and those tables are not modelled.
- Strings are sequences of characters. Kotlin's UTF-16 code units and surrogate pairs are not distinguished.
- `DogListApp.Without` removes every occurrence of the name, but Kotlin's `Set.minus` removes only the first. The two agree because the list never holds a name twice: the invariant guarantees it.
- `DogListApp.DogListScreen.ToggleFavorite` requires the name to be on a shown row of the current state: the model assumes the screen is redrawn between taps. A tap on a stale row is not modelled (for instance a heart tapped in the same frame as its row's delete icon); there the code would add an unlisted name to the favourites, and the heart counter could then exceed the dog counter.
