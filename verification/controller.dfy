/** The directory's view state and the handlers that change it: the module
    level `usersData`, `currentPage` and `favorites`, displayUsers, the
    previous/next page buttons and toggleFavorite. */
module Controller {
  import opened Records
  import opened Filter
  import opened Sorting
  import opened Paging

  datatype Option<T> = None | Some(value: T)

  /** What displayUsers renders: the records of the shown page and the
      two numbers of the pagination bar. */
  datatype View = View(page: seq<User>, currentPage: nat, totalPages: nat)

  /** filter, sort, count the pages, clamp the current page and slice it:
      the derivation displayUsers runs from the records, the controls and
      the current page. */
  function Derive(users: seq<User>, q: Query, current: nat): (v: View)
    ensures v.totalPages == TotalPages(|FilterUsers(users, q)|)
    ensures v.currentPage == Min(current, v.totalPages)
    ensures |v.page| <= PageSize
    ensures forall u :: u in v.page ==> u in users && Matches(u, q)
    ensures v.totalPages == 0 ==> v.currentPage == 0 && v.page == []
    ensures current == 0 ==> v.currentPage == 0 && v.page == []
    ensures v.currentPage >= 1 ==>
              var sorted := SortUsers(FilterUsers(users, q), q.sortBy);
              v.page != [] &&
              v.page == sorted[(v.currentPage - 1) * PageSize..Min(v.currentPage * PageSize, |sorted|)]
  {
    var sorted := SortUsers(FilterUsers(users, q), q.sortBy);
    var total := TotalPages(|sorted|);
    var page := ClampPage(current, total);
    ShownRecordsMatch(users, q, page);
    var shown := PageSlice(sorted, page);
    assert page >= 1 ==> shown != [] && shown == sorted[(page - 1) * PageSize..Min(page * PageSize, |sorted|)] by {
      if page >= 1 {
        PageWithinCount(sorted, page);
      }
    }
    View(shown, page, total)
  }

  /** Every record on a page is a record of `users` that matches `q`. */
  lemma ShownRecordsMatch(users: seq<User>, q: Query, page: nat)
    ensures forall u :: u in PageSlice(SortUsers(FilterUsers(users, q), q.sortBy), page) ==>
              u in users && Matches(u, q)
  {
    var filtered := FilterUsers(users, q);
    var sorted := SortUsers(filtered, q.sortBy);
    var shown := PageSlice(sorted, page);
    forall u | u in shown ensures u in users && Matches(u, q) {
      SliceMember(sorted, page, u);
      assert multiset(sorted)[u] > 0;
      assert multiset(filtered)[u] > 0;
    }
  }

  lemma SliceMember(s: seq<User>, page: nat, u: User)
    requires u in PageSlice(s, page)
    ensures u in s
  {
    var shown := PageSlice(s, page);
    var k :| 0 <= k < |shown| && shown[k] == u;
    assert u == s[Min((page - 1) * PageSize, |s|) + k];
  }

  /** The favorite set after toggling `id`. */
  function Toggled(favorites: set<string>, id: string): (r: set<string>)
    ensures id in r <==> id !in favorites
    ensures forall x :: x != id ==> (x in r <==> x in favorites)
  {
    if id in favorites then favorites - {id} else favorites + {id}
  }

  /** Toggling the same id twice restores the set. */
  lemma ToggleTwiceRestores(favorites: set<string>, id: string)
    ensures Toggled(Toggled(favorites, id), id) == favorites
  {
  }

  /** Once the current page is 0 (after a query that matched nothing),
      displaying again keeps it 0 and shows nothing, however many records
      match now; only the next-page button moves it. */
  lemma PageZeroPersists(users: seq<User>, q: Query)
    ensures Derive(users, q, 0).currentPage == 0
    ensures Derive(users, q, 0).page == []
  {
  }

  class Directory {
    var usersData: seq<User>
    var currentPage: nat
    var favorites: set<string>

    /** The state at page load: no records yet, page 1, and the favorite
        ids read back from storage. */
    constructor (saved: set<string>)
      ensures usersData == [] && currentPage == 1 && favorites == saved
    {
      usersData := [];
      currentPage := 1;
      favorites := saved;
    }

    /** The state change fetchUsers makes once the records have arrived:
        store them and display. */
    method Loaded(users: seq<User>, q: Query) returns (v: View)
      modifies this`usersData, this`currentPage
      ensures usersData == users
      ensures v == Derive(users, q, old(currentPage)) && currentPage == v.currentPage
    {
      usersData := users;
      v := DisplayUsers(q);
    }

    /** displayUsers: re-derives the view and stores the clamped page. */
    method DisplayUsers(q: Query) returns (v: View)
      modifies this`currentPage
      ensures v == Derive(usersData, q, old(currentPage))
      ensures currentPage == v.currentPage <= v.totalPages
    {
      var filtered := FilterUsers(usersData, q);
      var sorted := SortUsers(filtered, q.sortBy);
      var total := TotalPages(|sorted|);
      currentPage := ClampPage(currentPage, total);
      var shown := PageSlice(sorted, currentPage);
      v := View(shown, currentPage, total);
    }

    /** The previous-page button: steps back and displays only when the
        current page is above 1. */
    method PrevPage(q: Query) returns (v: Option<View>)
      modifies this`currentPage
      ensures old(currentPage) > 1 ==>
                v == Some(Derive(usersData, q, old(currentPage) - 1))
                && currentPage == v.value.currentPage < old(currentPage)
      ensures old(currentPage) <= 1 ==> v == None && currentPage == old(currentPage)
    {
      if currentPage > 1 {
        currentPage := currentPage - 1;
        var w := DisplayUsers(q);
        v := Some(w);
      } else {
        v := None;
      }
    }

    /** The next-page button: steps forward and displays only when the
        current page is below the page count of the filtered records. */
    method NextPage(q: Query) returns (v: Option<View>)
      modifies this`currentPage
      ensures old(currentPage) < TotalPages(|FilterUsers(usersData, q)|) ==>
                v == Some(Derive(usersData, q, old(currentPage) + 1))
                && currentPage == old(currentPage) + 1
      ensures old(currentPage) >= TotalPages(|FilterUsers(usersData, q)|) ==>
                v == None && currentPage == old(currentPage)
    {
      var filtered := FilterUsers(usersData, q);
      var total := TotalPages(|filtered|);
      if currentPage < total {
        currentPage := currentPage + 1;
        var w := DisplayUsers(q);
        assert w.currentPage == Min(old(currentPage) + 1, total);
        v := Some(w);
      } else {
        v := None;
      }
    }

    /** toggleFavorite: flips `id` in the favorite set and displays. */
    method ToggleFavorite(id: string, q: Query) returns (v: View)
      modifies this`favorites, this`currentPage
      ensures favorites == Toggled(old(favorites), id)
      ensures v == Derive(usersData, q, old(currentPage)) && currentPage == v.currentPage
    {
      favorites := Toggled(favorites, id);
      v := DisplayUsers(q);
    }
  }
}
