# 100-users directory: the query pipeline and its view state

This project models the logic of the 100-users directory, a browser page that
loads a batch of user records and lets the visitor search, filter, sort, page
through and favorite them. The directory keeps three pieces of state:

- the loaded records (`usersData`);
- the current page (`currentPage`);
- the set of favorite ids (`favorites`).

Every change of a control re-runs one derivation, in this order:

- **filter**: search text on a chosen field, gender, age range;
- **sort**: by name, age or country, always ascending;
- **paginate**: 12 records per page, with the page number clamped.

The model is written in Dafny:

- `Text`: lower-casing, substring search (`includes`), and the string
  order that stands in for `localeCompare`.
- `Records`: the user record and the values of the query controls.
- `Filter`: `getSearchMatch`, `getGenderMatch`, `getAgeMatch` and
  `filterUsers`, as functions.
- `Sorting`: `sortUsers`, as a stable insertion sort under the source's
  comparator.
- `Paging`: the page count, the clamp, and `Array.prototype.slice`,
  including how it reads negative bounds.
- `Controller`: the class `Directory`. It holds `usersData`, `currentPage`
  and `favorites`. Its methods are `displayUsers`, the previous/next page
  buttons and `toggleFavorite`. Each method is tied to the pure function
  `Derive`.
- `Dates`: `calculateAge` and `getZodiacSign`, on integer dates.
- `Stats`: the counts of `calculateStats`.

Pages are numbered from 1, but the code does not keep the page at 1 or
above. It does `currentPage = Math.min(currentPage, totalPages)`
(script.js:259). When nothing matches, `totalPages` is 0, so the page becomes
0. The slice `slice(-12, 0)` is then empty. The page stays 0 on later
displays, even after the query matches records again. Only the next-page
button moves it back to 1. The model follows the code here. `Derive`'s
contract and `Controller.PageZeroPersists` state this behaviour.

## Model

| member | source | states |
|---|---|---|
| `Text.Lower` | script.js:187 | lower-casing keeps the length and maps each character to its lower-case form, leaving no upper-case ASCII letter |
| `Text.LowerIdempotent` | script.js:187 | lower-casing an already lower-cased text changes nothing |
| `Text.Contains` | script.js:206-210 | `includes` is true exactly when the needle occurs at some offset of the text |
| `Text.LexCompare` | script.js:242 | the name/country comparison returns -1, 0 or 1, and 0 exactly when the strings are equal |
| `Text.LexCompareAntisymmetric` | script.js:246 | comparing in the other order negates the result |
| `Text.LexCompareTransitive` | script.js:246 | "sorts no later than" is transitive |
| `Filter.SearchMatch` | script.js:201-214 | empty text and unknown search types match every record; otherwise the text must occur in the lower-cased `first last`, `city country` or email |
| `Filter.GenderMatch` | script.js:216-218 | "all" passes every record; any other value passes exactly the records of that gender |
| `Filter.AgeMatch` | script.js:220-234 | "18-30", "31-50" and "51+" pass exactly the ages in their closed ranges; "all" and unknown values pass every record |
| `Filter.Matches` | script.js:192-198 | a record is kept exactly when it has the chosen gender (or "all"), lies in the chosen bracket, and, for non-empty text and a known type, contains the lower-cased text in the lower-cased field |
| `Filter.FilterUsers` | script.js:186-199 | the result is an order-preserving subsequence of the records; every kept record passes all three predicates; a matching record is kept as often as it occurs |
| `Filter.KeptUsersPassEveryControl` | script.js:192-198 | a kept record comes from the list, has the chosen gender, lies in the chosen age bracket and contains the search text in the chosen field |
| `Filter.FilterKeepsAllUnderNeutralQuery` | script.js:202 | empty search text with gender "all" and age range "all" keeps the whole list in order |
| `Filter.SearchIgnoresCase` | script.js:187 | texts that differ only in letter case select the same records |
| `Filter.AgeBrackets` | script.js:220-234 | a record of 18 or over lies in exactly one of the three brackets; a record under 18 passes only "all" and unknown values |
| `Filter.MiddleBracketExample` | script.js:227-228 | for ages 20, 40 and 60 under "31-50", only the 40-year-old is kept |
| `Sorting.Compare` | script.js:239-250 | by name or country the comparator is 0 exactly on equal strings; by age it is negative exactly when `a` is younger and 0 exactly on equal ages; an unknown key gives 0 |
| `Sorting.InOrderTotal` | script.js:239-250 | under every key, any two records are in order one way or the other |
| `Sorting.InOrderTransitive` | script.js:239-250 | the comparator's order is transitive under every key |
| `Sorting.SameKeyEquivalence` | script.js:239-250 | records the comparator ranks equal form an equivalence class: the relation is reflexive, symmetric and transitive |
| `Sorting.Insert` | script.js:239 | inserting one record into a sorted list keeps it sorted and adds exactly that record |
| `Sorting.SortUsers` | script.js:237-251 | the result is a permutation of the input, sorted under the comparator; the input list itself is a value and stays as it was |
| `Sorting.SortedPairwise` | script.js:239-250 | in the sorted output no record sorts after any record to its right |
| `Sorting.SortByAgeAscending` | script.js:243-244 | under key "age", ages never decrease between neighbours |
| `Sorting.SortUnknownKeyKeepsOrder` | script.js:247-248 | an unknown key (comparator 0) leaves the list unchanged |
| `Sorting.InsertSameKeyStep` | script.js:239 | a record that insertion passes over stays in front of the inserted one, and it never ranks equal to a record the inserted one ranks equal to, so the key class gains the inserted record at its head |
| `Sorting.InsertSameKey` | script.js:239 | insertion places a record ahead of every record it ranks equal to |
| `Sorting.SortIsStable` | script.js:239 | records the comparator ranks equal keep their relative order |
| `Paging.TotalPages` | script.js:258 | the page count is the least number of 12-record pages that hold n records, and 0 exactly when n is 0 |
| `Paging.ClampPage` | script.js:259 | the page is the smaller of the current page and the count: never above either, equal to one of them, and 0 when there are no pages |
| `Paging.SliceBound` | script.js:263 | a bound in [0, length] is kept; a negative bound counts back from the end and stops at 0; a bound past the end becomes the length |
| `Paging.JsSlice` | script.js:263 | for 0 <= start <= end it is the records from start to end, cut at the length; two negative bounds count from the end; an end of 0 or an end not after the start (same sign) gives nothing; every element comes from the list |
| `Paging.PageSlice` | script.js:261-263 | at most 12 records; page 0 is empty; page p is the records from (p-1)*12 to min(p*12, n); every page up to the count is non-empty |
| `Paging.PageWithinCount` | script.js:258-263 | a page between 1 and the count starts inside the list, is not empty, and holds the records from (p-1)*12 to min(p*12, n) |
| `Paging.PagesArePrefix` | script.js:261-263 | pages 1..k together are the first min(12k, n) records |
| `Paging.PagesCoverAll` | script.js:258-263 | pages 1..totalPages together reproduce the sorted list exactly once, in order |
| `Paging.HundredRecordsExample` | script.js:258-263 | 100 records fill 9 pages, and the last holds 4 |
| `Controller.Derive` | script.js:254-263 | the page count comes from the filtered count; the page is min(current, count); at most 12 records are shown, all from the list and all matching; no match or page 0 gives page 0 and an empty page; otherwise the page is that slice of the sorted records |
| `Controller.ShownRecordsMatch` | script.js:255-263 | every shown record is a record of the list that matches the query |
| `Controller.PageZeroPersists` | script.js:259-263 | once the page is 0, displaying keeps it 0 and shows nothing |
| `Controller.Toggled` | script.js:136-140 | toggling flips membership of the id and leaves every other id as it was |
| `Controller.ToggleTwiceRestores` | script.js:136-140 | toggling the same id twice restores the favorite set |
| `Controller.Directory.constructor` | script.js:3-7 | the initial state has no records, page 1 and the favorites read back from storage |
| `Controller.Directory.Loaded` | script.js:150-157 | the fetched records replace the list, and the view is displayed |
| `Controller.Directory.DisplayUsers` | script.js:254-271 | the result is `Derive` of the state, and the stored page becomes the clamped page, never above the count |
| `Controller.Directory.PrevPage` | script.js:395-401 | above page 1 it steps back one page and displays; otherwise nothing changes and nothing is displayed |
| `Controller.Directory.NextPage` | script.js:403-411 | below the filtered page count it steps forward exactly one page and displays; otherwise nothing changes |
| `Controller.Directory.ToggleFavorite` | script.js:135-143 | the favorite set becomes the toggled set, and the view is displayed again |
| `Dates.CalculateAge` | script.js:49-58 | the age is the number of whole years lived: the birthday that many years on has been reached, and the next one has not |
| `Dates.Covers` | script.js:81-84 | an entry spanning two consecutive months covers exactly the dates from its first day to its last; the entry running from December into January covers the dates from its first day in December or up to its last day in January |
| `Dates.SignFrom` | script.js:80-88 | scanning from an entry returns the first covering entry's name, or the fallback when none covers |
| `Dates.ZodiacSign` | script.js:60-89 | the result is the name of the first table entry that covers (month, day), or "Echki" when none does |
| `Dates.TableShape` | script.js:65-78 | each month 1..12 starts exactly one entry and ends exactly one other, and the ending entry stops the day before the starting one begins |
| `Dates.TableMonthsInRange` | script.js:65-78 | every entry's start and end month lies in 1..12 |
| `Dates.ZodiacPartitionsYear` | script.js:65-88 | for each month 1..12 and any day exactly one entry covers the date, the loop returns it, and the fallback line is never reached |
| `Dates.ZodiacOutOfRangeMonth` | script.js:80-88 | a month outside 1..12 gets the fallback "Echki" |
| `Stats.CountGender` | script.js:177-178 | a gender count never exceeds the number of records |
| `Stats.Countries` | script.js:179 | the set holds exactly the countries of the records: every record's country, and nothing that is no record's country |
| `Stats.CountriesAtMostUsers` | script.js:179 | there are no more countries than records, and at least one when there are records |
| `Stats.GenderCountsDisjoint` | script.js:177-178 | the male and female counts together never exceed the total |
| `Stats.CountGenderIsFilterSize` | script.js:177 | a gender count equals the length of the list filtered to that gender |
| `Stats.CalculateStats` | script.js:174-183 | total is the record count; male and female are the counts of those genders; countries is the number of distinct countries; male plus female is at most the total; countries lie between 1 and the total when there are records; favorites is the size of the set |

## Left out

- Network loading (script.js:146-163): the HTTP request, JSON decoding, the uuid-to-id mapping, the per-record `favorite` flag and the loader/error messages are not modelled. `Directory.Loaded` takes the decoded records as a parameter.
- Favorite persistence (script.js:7, 118-133): the local-storage reads and writes are not modelled. The constructor takes the stored ids, and `ToggleFavorite` does not save them.
- DOM rendering is not modelled: `createUserCard`, `showUserDetails`, the element writes of `updatePagination`, the grid/list view buttons, the modal handlers, the Escape key, `updateStats`' writes and `window.scrollTo`. `View` stands for what `displayUsers` would render.
- `debounce` (script.js:29-39, 373-375) is timer scheduling and is not modelled. Each search displays at once in the model.
- `generateRandomColor` (script.js:91-98) is not modelled: it uses a random source and nothing calls it.
- `copyToClipboard` and `showNotification` (script.js:100-115) are not modelled: they use the clipboard API and timers.
- `formatDate` (script.js:41-47) is not modelled: it does locale-dependent date formatting.
- `Dates.CalculateAge`, `Dates.ZodiacSign`: the source parses date strings with `new Date()` and reads the clock for today. The model takes year, month and day as integers and today as a parameter. Time zones and invalid dates are not modelled.
- `Stats.CalculateStats`: `averageAge` (script.js:180) is left out. It is a floating-point average with `Math.round`, and it divides by zero on an empty list.
- `Text.LexCompare`: `localeCompare` is modelled as code-unit lexicographic order, not locale collation.
- `Text.Lower`: `toLowerCase` is modelled on ASCII letters only, not full Unicode case mapping.
- `Sorting.SortUsers`: the model is one stable sort. The engine's own sorting algorithm is not modelled. Because the sort is stable, the output is the same for any correct stable algorithm.
