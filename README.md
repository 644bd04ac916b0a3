# User directory data pipeline, modelled in Dafny

The page loads a list of user records `{id, name, friends}` and derives everything it shows
from them:

- `prepareData` builds `objectData`, a dictionary from id to `{name, friends}`. It also counts
  how often every id occurs across all friends lists, and turns the counter object into
  `friendsList`, one `{id, count, name}` per referenced id.
- `sortData` sorts that list in place: most references first, equal counts by name.
- `getTopUsers` takes the first three names.
- `getListNames` maps a list of ids to names.
- `getListNotFriends` draws random ids until it has three distinct users outside a friends
  list.

The model follows the code's own shape:

- **Pure functions.** `getListNames` and `getTopUsers` are functions.
- **Loops.** `prepareData` (its nested loops) and `getListNotFriends` (its `while` loop) are
  methods with loop invariants. Each is proved equal to a function that specifies it.
- **In-place sort.** `sortData` is a method that sorts an `array` in place. It is proved to
  leave the array holding `Sort` of its old contents. `Sort` is sorted, a permutation and
  stable, and any stable sorted permutation equals it.

Modules:

- **JsStrings** (`js_strings.dfy`): JavaScript strings are sequences of UTF-16 code units.
  `Less` is JavaScript's `<` on strings, proved equal to the textbook lexicographic order, and
  a strict total order.
- **Users** (`users.dfy`): the records and entries. `Result` is either a value or
  `UnknownId(id)`. `UnknownId(id)` is the TypeError thrown by reading `.name` of
  `objectData[id]` when `id` is not a key.
- **Sequences** (`sequences.dfy`): small generic facts about sequence slicing and
  concatenation that the proofs use.
- **Indexer** (`indexer.dfy`): `prepareData`.
  - The key order of the counter object follows `Object.keys`, as ECMAScript's
    OrdinaryOwnPropertyKeys defines it: array-index keys (0 to 2^32 - 2) ascending, then the
    other keys in creation order.
  - Creation order is the order of first reference.
- **Lookup** (`lookup.dfy`): `getListNames`.
- **Ranking** (`ranking.dfy`): the comparator of `sortData`, the sort and `getTopUsers`.
- **Scenarios** (`scenarios.dfy`): the three-user example and the name tie-break on concrete
  data.
- **Sampler** (`sampler.dfy`): `getListNotFriends`.
  - The successive values of `Math.round(Math.random() * (max - min)) + min` are a parameter
    `draws`. Each draw is assumed to lie between `min` and `max`.
  - When the draws run out before three ids are collected, the result is `Pending`: the
    program would go on drawing.

## Model

| member | source | states |
|---|---|---|
| JsStrings.LessIsLexicographic | js/script.js:128-133 | `a < b` on names holds exactly when `a` is a proper prefix of `b` or the first differing code unit of `a` is smaller (both directions) |
| JsStrings.LessTotal | js/script.js:128-134 | of two different names one is `<` the other, so the tie-break returns 0 only for equal names |
| JsStrings.LessTransitive | js/script.js:128-133 | the name order is transitive |
| JsStrings.LessAsymmetric | js/script.js:128-133 | `a < b` and `b < a` never both hold, so the two tests of the tie-break never both fire |
| JsStrings.LessIrreflexive | js/script.js:128-134 | no name is `<` itself |
| Indexer.Index | js/script.js:72-76 | the keys of `objectData` are exactly the record ids, and an id maps to `{name, friends}` of the last record carrying it (later records overwrite earlier ones) |
| Indexer.IndexKeyHasLastRecord | js/script.js:72-76 | every key of `objectData` comes from a record, the last one with that id |
| Indexer.CountStep | js/script.js:79-83 | one counting step: an unseen id gets a new property at 1 and joins the key order; a seen one is incremented and the order stays |
| Indexer.CountFriends | js/script.js:78-84 | after one friends list the counter holds every id seen so far with its number of occurrences, and its properties were created in first-occurrence order |
| Indexer.Dedup | js/script.js:79-80 | the creation order of counter properties holds every referenced id exactly once |
| Indexer.AscendingIndexKeys | js/script.js:87 | the array-index keys among the properties, strictly ascending |
| Indexer.NonIndexKeys | js/script.js:87 | the other keys, in their creation order, without repeats |
| Indexer.NonIndexKeysAppend | js/script.js:87 | picking the non-index keys distributes over concatenation |
| Indexer.ObjectKeys | js/script.js:87 | `Object.keys` of the counter yields each of its properties once, array-index keys first in ascending order, and the other keys in creation order |
| Indexer.Resolve | js/script.js:87-89 | mapping the keys succeeds exactly when every key is a record id; it then gives one `{id, count, name}` per key, in key order; otherwise it fails on the first key that is not a record id |
| Indexer.ResolveKeepsError | js/script.js:87-89 | once the map throws at a key, the keys after it do not change the outcome |
| Indexer.BuildFriendsList | js/script.js:87-89 | the `map` loop over the keys produces exactly `Resolve` of the keys |
| Indexer.PrepareData | js/script.js:67-95 | the nested loops and the final `map` return exactly `Prepare(records)`: the dictionary of the records and the resolved keys of the counter, or the failing id |
| Indexer.OccurrencesIsMultiplicity | js/script.js:78-84 | counting record by record, duplicates within one friends list included, gives the multiplicity of the id among all friend references |
| Indexer.FlattenElements | js/script.js:78 | the ids visited by the nested loops are exactly the ids occurring in some friends list |
| Indexer.FriendsListEntries | js/script.js:72-89 | after `prepareData`, `objectData` is the dictionary of the records; every entry's count is the number of occurrences of its id across all friends lists, at least 1, and its name is `objectData[id].name` |
| Indexer.FriendsListOnePerId | js/script.js:87-89 | `friendsList` has exactly one entry per distinct referenced id: no id twice, and every referenced id present |
| Indexer.FriendsListTotal | js/script.js:78-89 | the counts of `friendsList` add up to the total number of friend references |
| Indexer.PrepareFailsIff | js/script.js:88 | `prepareData` throws exactly when some friend id is not the id of any record, and the id it fails on is such an id |
| Indexer.FriendsListOrder | js/script.js:87 | before sorting, entries with array-index ids come first in ascending id order; the other ids follow in the order of their first reference |
| Lookup.ListNames | js/script.js:103-107 | succeeds exactly when every id is a key; then the result has the same length and its i-th name is `objectData[listName[i]].name`; otherwise it fails at the first id that is not a key |
| Lookup.StoredFriendsResolve | js/script.js:103-107 | after a successful `prepareData`, the friends list stored under any key of `objectData` maps to names without failing |
| Ranking.Compare | js/script.js:126-137 | the comparator is negative exactly when `a` has more references, or as many and a smaller name; positive in the mirror case; zero exactly when count and name agree |
| Ranking.CompareTransitive | js/script.js:126-137 | the comparator is a consistent total preorder ("no later than" and "strictly earlier" are transitive) |
| Ranking.Insert | js/script.js:126 | inserting one entry adds it and keeps everything else (multiset) |
| Ranking.Sort | js/script.js:126 | the sorted order has the same entries as the input, as a multiset |
| Ranking.InsertSorted | js/script.js:126-137 | inserting into a sorted list keeps it sorted |
| Ranking.InsertLast | js/script.js:126 | one in-place insertion step: the element at `i` moves down past every element that ranks after it to just behind one that does not; the rest shift right by one |
| Ranking.InsertLastSorts | js/script.js:126 | that step extends the sorted prefix by one element |
| Ranking.SortData | js/script.js:125-138 | `sortData` reorders the same array in place, returns it, and leaves it holding `Sort` of its old contents |
| Ranking.SortIsSorted | js/script.js:126-137 | the result is ordered by count non-increasing, and among equal counts by name ascending |
| Ranking.SortIsStable | js/script.js:126 | entries the comparator cannot tell apart keep their input order |
| Ranking.SortedStableUnique | js/script.js:126-137 | two sorted arrangements of the same entries that keep ties in the same order are equal |
| Ranking.StableSortIsSort | js/script.js:126-137 | any stable sort with this comparator produces `Sort`, whatever its algorithm |
| Ranking.SortIdempotent | js/script.js:125-138 | sorting the sorted list again changes nothing |
| Ranking.SortIgnoresInputOrder | js/script.js:126-137 | the input order matters only among entries with equal count and equal name: otherwise every arrangement sorts to the same list |
| Ranking.TopUsers | js/script.js:114-118 | the names of the first `min(3, n)` entries, in order, no padding |
| Ranking.TopUsersAreMostReferenced | js/script.js:114-137 | on the sorted list, the top names belong to entries that no left-out entry outranks |
| Sampler.FindIndex | js/script.js:155 | `findIndex(item => item === x)` is -1 exactly when `x` is absent, and otherwise the first position of `x` |
| Sampler.Draw | js/script.js:152-159 | the loop keeps distinct ids outside the friends list, each with its name from `objectData`; it keeps what it had, adds only drawn ids, stops exactly at three, and fails only on a drawn, eligible id that is not a key |
| Sampler.DrawOne | js/script.js:153-158 | one turn: an id already in the friends list or picked is skipped; an eligible id missing from `objectData` throws; any other is taken with its name |
| Sampler.ListNotFriends | js/script.js:148-162 | the `while` loop returns exactly what `NotFriends` specifies for the same draws |
| Sampler.SampledProperties | js/script.js:148-161 | when the loop returns, it holds exactly three pairwise distinct ids, drawn from the range, outside the friends list, each with `objectData[id].name` |
| Sampler.NeedsThreeEligible | js/script.js:152-159 | the loop can return only if the range holds at least three ids outside the friends list; with fewer it never returns its names (it can still end by the TypeError of line 157) |
| Sampler.UnknownIsEligible | js/script.js:155-157 | the only id the loop can throw on is an eligible id (in the range, outside the friends list) that is not a key of `objectData` |
| Sampler.NeverReturns | js/script.js:152-159 | with fewer than three eligible ids, all of them keys of `objectData`, no sequence of draws ends the loop: it is still drawing when the draws run out |
| Sampler.AcceptAll | js/script.js:152-159 | eligible, distinct, known draws that fill the list to three are all taken, in order |
| Sampler.CanFinish | js/script.js:152-159 | any three distinct eligible users can be the answer, including the user whose details are shown, since only the friends list is excluded |
| Scenarios.ThreeUsersKeys | js/script.js:78-87 | for users 1 "A" (friends 2, 3), 2 "B" (friend 1) and 3 "C" (friend 1), the counter gains its properties as 2, 3, 1, and `Object.keys` lists them as 1, 2, 3 |
| Scenarios.ThreeUsersPrepared | js/script.js:67-95 | on those users `prepareData` returns the three-entry dictionary and the entries (1, 2, "A"), (2, 1, "B"), (3, 1, "C") |
| Scenarios.ThreeUsersTop | js/script.js:114-137 | sorted and cut to three, their names are "A", "B", "C": "A" by count, "B" before "C" by name |
| Scenarios.AliceBeforeBob | js/script.js:127-134 | with equal counts, "Alice" sorts before "Bob" whichever comes first in the input |
| Scenarios.SortTwoSwapped | js/script.js:126-137 | two entries out of rank order are swapped by the sort |

## Left out

- `makeRequest` (the network fetch and JSON parsing) is not modelled: it is I/O. The records
  are a parameter.
- The rendering functions, `openToDetails`, `getElement`, `toggleDetails` and the `load`
  handler are not modelled: they are DOM and event code.
- `Math.random` and `Math.round` are floating point. The model takes the draws as a finite
  sequence of integers between `min` and `max`. It therefore says nothing about how likely an
  id is, nor whether the loop ends with probability one.
- A loop that never ends cannot be a result. Sampler.ListNotFriends returns `Pending` once the
  draws run out. Sampler.NeedsThreeEligible states that with fewer than three eligible ids the
  loop never returns its names; it can then end only by throwing on an eligible id that is not
  a key of `objectData`. Sampler.NeverReturns states the non-termination: when every eligible
  id is a key, no sequence of draws ends the loop.
- Sampler.ListNotFriends returns the chosen ids alongside the names. The source returns only
  `listNameNotFriends`, and the names are the `names` field.
- Ids are integers. JavaScript stores object keys as strings and `+item` converts them back;
  this is exact for the integer ids the data carries. Non-integer ids, negative zero and
  records whose `id` is a string are not modelled.
- The engine's own sorting algorithm is not modelled. `Array.prototype.sort` is required to be
  stable since ECMAScript 2019. Ranking.StableSortIsSort shows that every stable sort with
  this comparator yields `Sort`, so that choice does not change the result.
- The default parameters (`listName = []`, `array = []`) are not modelled: every caller passes
  an array.
- Names are assumed to be strings, and friends lists arrays of ids. A `friends` value that is
  not an array, or a missing `name`, is not modelled.
- The comparator's `b.count - a.count` is a floating-point subtraction. The model uses integer
  arithmetic: the counts are natural numbers well below 2^53, where that subtraction is exact.
