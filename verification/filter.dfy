/** The filter stage: a record is kept when it passes the search, gender
    and age-range predicates together. */
module Filter {
  import opened Text
  import opened Records

  /** The text the search is run against, for a known search type. */
  function SearchField(u: User, searchType: string): string
  {
    if searchType == "name" then FullName(u)
    else if searchType == "location" then Place(u)
    else u.email
  }

  /** getSearchMatch; `searchText` is already lower-cased by the caller. */
  function SearchMatch(u: User, searchText: string, searchType: string): (r: bool)
    ensures searchText == [] ==> r
    ensures searchType !in {"name", "location", "email"} ==> r
    ensures searchText != [] && searchType in {"name", "location", "email"} ==>
              (r <==> IsSubstring(searchText, Lower(SearchField(u, searchType))))
  {
    if searchText == [] then true
    else if searchType == "name" then Contains(Lower(u.first + " " + u.last), searchText)
    else if searchType == "location" then Contains(Lower(u.city + " " + u.country), searchText)
    else if searchType == "email" then Contains(Lower(u.email), searchText)
    else true
  }

  /** getGenderMatch */
  function GenderMatch(u: User, genderFilter: string): (r: bool)
    ensures genderFilter == "all" ==> r
    ensures genderFilter != "all" ==> (r <==> u.gender == genderFilter)
  {
    genderFilter == "all" || u.gender == genderFilter
  }

  /** getAgeMatch */
  function AgeMatch(u: User, ageRange: string): (r: bool)
    ensures ageRange == "18-30" ==> (r <==> 18 <= u.age <= 30)
    ensures ageRange == "31-50" ==> (r <==> 31 <= u.age <= 50)
    ensures ageRange == "51+" ==> (r <==> 51 <= u.age)
    ensures ageRange !in {"18-30", "31-50", "51+"} ==> r
  {
    if ageRange == "all" then true
    else if ageRange == "18-30" then 18 <= u.age && u.age <= 30
    else if ageRange == "31-50" then 31 <= u.age && u.age <= 50
    else if ageRange == "51+" then u.age >= 51
    else true
  }

  /** The predicate filterUsers applies to each record: the search text is
      lower-cased once, then all three matches must hold. */
  function Matches(u: User, q: Query): (r: bool)
    ensures r <==>
              (q.gender == "all" || u.gender == q.gender)
              && (q.ageRange == "18-30" ==> 18 <= u.age <= 30)
              && (q.ageRange == "31-50" ==> 31 <= u.age <= 50)
              && (q.ageRange == "51+" ==> 51 <= u.age)
              && (Lower(q.searchText) != [] && q.searchType in {"name", "location", "email"} ==>
                    IsSubstring(Lower(q.searchText), Lower(SearchField(u, q.searchType))))
  {
    SearchMatch(u, Lower(q.searchText), q.searchType)
    && GenderMatch(u, q.gender)
    && AgeMatch(u, q.ageRange)
  }

  /** `a` is `b` with some elements dropped and the rest in their order. */
  ghost predicate IsSubsequence<T>(a: seq<T>, b: seq<T>)
    decreases |b|
  {
    a == [] ||
    (b != [] && ((a[0] == b[0] && IsSubsequence(a[1..], b[1..])) || IsSubsequence(a, b[1..])))
  }

  /** filterUsers: the records of `users` that match `q`, in their order. */
  function FilterUsers(users: seq<User>, q: Query): (r: seq<User>)
    ensures IsSubsequence(r, users)
    ensures forall u :: u in r ==> Matches(u, q)
    ensures forall u :: multiset(r)[u] == if Matches(u, q) then multiset(users)[u] else 0
  {
    if users == [] then []
    else
      var rest := FilterUsers(users[1..], q);
      assert users == [users[0]] + users[1..];
      if Matches(users[0], q) then
        assert ([users[0]] + rest)[1..] == rest;
        [users[0]] + rest
      else
        rest
  }

  /** What each kept record satisfies, control by control. */
  lemma KeptUsersPassEveryControl(users: seq<User>, q: Query, u: User)
    requires u in FilterUsers(users, q)
    ensures u in users
    ensures q.gender != "all" ==> u.gender == q.gender
    ensures q.ageRange == "18-30" ==> 18 <= u.age <= 30
    ensures q.ageRange == "31-50" ==> 31 <= u.age <= 50
    ensures q.ageRange == "51+" ==> 51 <= u.age
    ensures Lower(q.searchText) != [] && q.searchType in {"name", "location", "email"} ==>
              IsSubstring(Lower(q.searchText), Lower(SearchField(u, q.searchType)))
  {
    assert multiset(FilterUsers(users, q))[u] > 0;
  }

  /** The empty search, gender "all" and age range "all" keep every record. */
  lemma {:induction false} FilterKeepsAllUnderNeutralQuery(users: seq<User>, q: Query)
    requires q.searchText == [] && q.gender == "all" && q.ageRange == "all"
    ensures FilterUsers(users, q) == users
  {
    if users != [] {
      FilterKeepsAllUnderNeutralQuery(users[1..], q);
      assert users == [users[0]] + users[1..];
    }
  }

  /** The search ignores the case of the typed text. */
  lemma SearchIgnoresCase(u: User, q: Query, text: string)
    requires Lower(text) == Lower(q.searchText)
    ensures Matches(u, q) <==> Matches(u, q.(searchText := text))
  {
  }

  /** The three brackets split the adult ages: a record of 18 or over lies
      in exactly one of them, and a record under 18 in none, so it passes
      only "all" and unknown values. */
  lemma AgeBrackets(u: User, ageRange: string)
    ensures u.age >= 18 ==>
              (AgeMatch(u, "18-30") && !AgeMatch(u, "31-50") && !AgeMatch(u, "51+"))
              || (!AgeMatch(u, "18-30") && AgeMatch(u, "31-50") && !AgeMatch(u, "51+"))
              || (!AgeMatch(u, "18-30") && !AgeMatch(u, "31-50") && AgeMatch(u, "51+"))
    ensures u.age < 18 ==> (AgeMatch(u, ageRange) <==> ageRange !in {"18-30", "31-50", "51+"})
  {
  }

  /** Three users aged 20, 40 and 60 under range "31-50": only the
      40-year-old is kept. */
  lemma MiddleBracketExample(a: User, b: User, c: User)
    requires a.age == 20 && b.age == 40 && c.age == 60
    ensures FilterUsers([a, b, c], Query("", "name", "all", "31-50", "name")) == [b]
  {
  }
}
