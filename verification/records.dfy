/** The user records the directory shows and the values of its query controls. */
module Records {

  /** One user record, reduced to the fields the query pipeline reads:
      `login.uuid` as `id`, `name.first`/`name.last`, `gender`, `email`,
      `location.city`/`location.country` and `dob.age`. */
  datatype User = User(
    id: string,
    first: string,
    last: string,
    gender: string,
    email: string,
    city: string,
    country: string,
    age: int)

  /** Current values of the search box and the four selectors. The selectors
      are the raw option strings, so values the pipeline does not know are
      representable and fall into its default branches. */
  datatype Query = Query(
    searchText: string,
    searchType: string,
    gender: string,
    ageRange: string,
    sortBy: string)

  /** `${first} ${last}`: searched under "name" and sorted on under "name". */
  function FullName(u: User): string
  {
    u.first + " " + u.last
  }

  /** `${city} ${country}`: searched under "location". */
  function Place(u: User): string
  {
    u.city + " " + u.country
  }
}
