/** The integer counts of calculateStats. */
module Stats {
  import opened Records
  import opened Filter

  /** The counts shown in the header; the average age is not modelled. */
  datatype Counts = Counts(total: nat, male: nat, female: nat, countries: nat, favorites: nat)

  /** `users.filter(user => user.gender === g).length` */
  function CountGender(users: seq<User>, g: string): (n: nat)
    ensures n <= |users|
  {
    if users == [] then 0
    else (if users[0].gender == g then 1 else 0) + CountGender(users[1..], g)
  }

  /** `new Set(users.map(user => user.location.country))` */
  function Countries(users: seq<User>): (cs: set<string>)
    ensures forall u :: u in users ==> u.country in cs
    ensures forall c :: c in cs ==> exists u :: u in users && u.country == c
  {
    set u | u in users :: u.country
  }

  /** There are no more countries than records. */
  lemma {:induction false} CountriesAtMostUsers(users: seq<User>)
    ensures |Countries(users)| <= |users|
    ensures users != [] ==> |Countries(users)| >= 1
  {
    if users != [] {
      var rest := users[1..];
      CountriesAtMostUsers(rest);
      assert users == [users[0]] + rest;
      assert Countries(users) == Countries(rest) + {users[0].country};
    }
  }

  /** calculateStats without averageAge. */
  function CalculateStats(users: seq<User>, favorites: set<string>): (s: Counts)
    ensures s.total == |users|
    ensures s.male == CountGender(users, "male") && s.female == CountGender(users, "female")
    ensures s.countries == |Countries(users)|
    ensures s.male + s.female <= s.total
    ensures s.countries <= s.total
    ensures s.total > 0 ==> s.countries >= 1
    ensures s.favorites == |favorites|
  {
    GenderCountsDisjoint(users);
    CountriesAtMostUsers(users);
    Counts(|users|, CountGender(users, "male"), CountGender(users, "female"),
           |Countries(users)|, |favorites|)
  }

  /** No record is counted both as male and as female. */
  lemma {:induction false} GenderCountsDisjoint(users: seq<User>)
    ensures CountGender(users, "male") + CountGender(users, "female") <= |users|
  {
    if users != [] {
      GenderCountsDisjoint(users[1..]);
    }
  }

  /** The gender counts agree with the gender filter of the list. */
  lemma {:induction false} CountGenderIsFilterSize(users: seq<User>, g: string)
    requires g != "all"
    ensures CountGender(users, g) == |FilterUsers(users, Query("", "name", g, "all", "name"))|
  {
    if users != [] {
      CountGenderIsFilterSize(users[1..], g);
    }
  }
}
