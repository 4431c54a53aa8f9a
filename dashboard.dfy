/**
 * The state of the `GitHubRepos` component: one field per `useState` cell,
 * and one method per event that changes them (typing a username,
 * submitting it, a request settling, typing a filter term, the page
 * buttons). The filter effect, which React runs whenever `repoList` or
 * `searchTerm` changes, is run explicitly by the methods that change them.
 */
module GitHubRepos {
  import opened Text
  import opened Repos
  import opened Pagination
  import opened Fetch

  /** `DEFAULT_USERNAME`. */
  const DefaultUsername: string := "google"

  class Dashboard {
    var username: string
    var currentSearch: string
    var repoList: seq<Repo>
    var filteredList: seq<Repo>
    var searchTerm: string
    var loading: bool
    var error: Notice
    var currentPage: int

    /**
     * Holds between events: the filtered list is derived from the full list
     * and the term, the full list holds no fork, and the page is within
     * `1..max(1, totalPages)`.
     */
    ghost predicate Valid()
      reads this
    {
      && filteredList == Filter(repoList, searchTerm)
      && (forall r :: r in repoList ==> !r.fork)
      && 1 <= currentPage <= Max(1, TotalPages(|filteredList|))
    }

    /** `totalPages`. */
    function PageCount(): nat
      reads this
    {
      TotalPages(|filteredList|)
    }

    /** `currentItems`: the filtered repositories shown on the current page. */
    function CurrentItems(): (items: seq<Repo>)
      reads this
      requires Valid()
      ensures |items| <= ItemsPerPage
      ensures items == filteredList[PageStart(currentPage)..Min(currentPage * ItemsPerPage, |filteredList|)]
      ensures filteredList != [] ==> items != []
    {
      PageSlice(filteredList, currentPage)
    }

    /** The initial values of the state cells. */
    constructor ()
      ensures Valid()
      ensures username == DefaultUsername && currentSearch == DefaultUsername
      ensures repoList == [] && filteredList == [] && searchTerm == ""
      ensures !loading && error == NoNotice && currentPage == 1
    {
      username := DefaultUsername;
      currentSearch := DefaultUsername;
      repoList := [];
      filteredList := [];
      searchTerm := "";
      loading := false;
      error := NoNotice;
      currentPage := 1;
    }

    /**
     * The filter effect: re-derive the filtered list from the full list and
     * the term, and go back to page 1.
     */
    method FilterEffect()
      modifies this
      requires forall r :: r in repoList ==> !r.fork
      ensures Valid()
      ensures filteredList == Filter(repoList, searchTerm) && currentPage == 1
      ensures username == old(username) && currentSearch == old(currentSearch)
      ensures repoList == old(repoList) && searchTerm == old(searchTerm)
      ensures loading == old(loading) && error == old(error)
    {
      filteredList := Filter(repoList, searchTerm);
      currentPage := 1;
    }

    /** Typing in the username field, which is disabled while loading. */
    method SetUsername(s: string)
      modifies this
      requires Valid() && !loading
      ensures Valid()
      ensures username == s
      ensures currentSearch == old(currentSearch) && repoList == old(repoList)
      ensures filteredList == old(filteredList) && searchTerm == old(searchTerm)
      ensures loading == old(loading) && error == old(error) && currentPage == old(currentPage)
    {
      username := s;
    }

    /**
     * The start of `fetchRepos(user)`. An empty name only sets the error and
     * issues no request; otherwise loading starts, the error and both lists
     * are cleared and the page goes back to 1.
     */
    method BeginFetch(user: string) returns (requested: bool)
      modifies this
      requires Valid()
      ensures Valid()
      ensures requested <==> user != ""
      ensures !requested ==>
                && error == EmptyUsername
                && loading == old(loading) && repoList == old(repoList)
                && filteredList == old(filteredList) && currentPage == old(currentPage)
      ensures requested ==>
                && loading && error == NoNotice
                && repoList == [] && filteredList == [] && currentPage == 1
      ensures username == old(username) && currentSearch == old(currentSearch)
      ensures searchTerm == old(searchTerm)
    {
      if user == "" {
        error := EmptyUsername;
        return false;
      }
      loading := true;
      error := NoNotice;
      repoList := [];
      filteredList := [];
      currentPage := 1;
      FilterEffect();
      return true;
    }

    /**
     * The settling of the request for `user`. On success the full list
     * becomes the non-fork repositories, `currentSearch` becomes `user`, an
     * empty result sets the informational notice, and the filter effect
     * re-derives the filtered list with the current term. On failure only
     * the error changes. Loading ends in every outcome.
     */
    method CompleteFetch(user: string, response: Response)
      modifies this
      requires Valid()
      ensures Valid()
      ensures !loading
      ensures Classify(user, response).Loaded? ==>
                && repoList == NonForks(response.data)
                && filteredList == Filter(repoList, searchTerm)
                && currentSearch == user && currentPage == 1
                && error == (if repoList == [] then NoOriginalRepos(user) else old(error))
      ensures Classify(user, response).Failed? ==>
                && error == Classify(user, response).notice
                && repoList == old(repoList) && filteredList == old(filteredList)
                && currentSearch == old(currentSearch) && currentPage == old(currentPage)
      ensures username == old(username) && searchTerm == old(searchTerm)
    {
      var outcome := Classify(user, response);
      match outcome
      case Loaded(repos) =>
        repoList := repos;
        filteredList := repos;
        currentSearch := user;
        if |repos| == 0 {
          error := NoOriginalRepos(user);
        }
        loading := false;
        FilterEffect();
      case Failed(notice) =>
        error := notice;
        loading := false;
    }

    /**
     * `fetchRepos(user)` run to completion with no other event in between:
     * returns whether a request was issued, which happens exactly when
     * `user` is non-empty.
     */
    method FetchRepos(user: string, response: Response) returns (requested: bool)
      modifies this
      requires Valid()
      ensures Valid()
      ensures requested <==> user != ""
      ensures !requested ==>
                && error == EmptyUsername && loading == old(loading)
                && repoList == old(repoList) && filteredList == old(filteredList)
                && currentSearch == old(currentSearch) && currentPage == old(currentPage)
      ensures requested ==> !loading && currentPage == 1
      ensures requested && Classify(user, response).Loaded? ==>
                && repoList == NonForks(response.data)
                && filteredList == Filter(repoList, searchTerm)
                && currentSearch == user
                && error == (if repoList == [] then NoOriginalRepos(user) else NoNotice)
      ensures requested && Classify(user, response).Failed? ==>
                && error == Classify(user, response).notice
                && repoList == [] && filteredList == [] && currentSearch == old(currentSearch)
      ensures username == old(username) && searchTerm == old(searchTerm)
    {
      requested := BeginFetch(user);
      if requested {
        CompleteFetch(user, response);
      }
    }

    /** `handleUserSearch`: fetch the trimmed username; the form is disabled while loading. */
    method SubmitSearch(response: Response) returns (requested: bool)
      modifies this
      requires Valid() && !loading
      ensures Valid()
      ensures requested <==> Trim(old(username)) != ""
      ensures !requested ==>
                && error == EmptyUsername && !loading
                && repoList == old(repoList) && filteredList == old(filteredList)
                && currentSearch == old(currentSearch) && currentPage == old(currentPage)
      ensures requested ==> !loading && currentPage == 1
      ensures requested && Classify(Trim(old(username)), response).Loaded? ==>
                && repoList == NonForks(response.data)
                && filteredList == Filter(repoList, searchTerm)
                && currentSearch == Trim(old(username))
                && error == (if repoList == [] then NoOriginalRepos(Trim(old(username))) else NoNotice)
      ensures requested && Classify(Trim(old(username)), response).Failed? ==>
                && error == Classify(Trim(old(username)), response).notice
                && repoList == [] && filteredList == [] && currentSearch == old(currentSearch)
      ensures username == old(username) && searchTerm == old(searchTerm)
    {
      requested := FetchRepos(Trim(username), response);
    }

    /**
     * Typing in the filter field, which is only rendered once the full list
     * is non-empty. React skips the update when the term is unchanged, so the
     * effect and its page reset run only for a new term.
     */
    method SetSearchTerm(term: string)
      modifies this
      requires Valid() && repoList != []
      ensures Valid()
      ensures searchTerm == term
      ensures filteredList == Filter(repoList, term)
      ensures currentPage == if term == old(searchTerm) then old(currentPage) else 1
      ensures username == old(username) && currentSearch == old(currentSearch)
      ensures repoList == old(repoList) && loading == old(loading) && error == old(error)
    {
      if term != searchTerm {
        searchTerm := term;
        FilterEffect();
      }
    }

    /** The "previous page" button. */
    method Previous()
      modifies this
      requires Valid()
      ensures Valid()
      ensures currentPage == PreviousPage(old(currentPage))
      ensures username == old(username) && currentSearch == old(currentSearch)
      ensures repoList == old(repoList) && filteredList == old(filteredList)
      ensures searchTerm == old(searchTerm) && loading == old(loading) && error == old(error)
    {
      currentPage := PreviousPage(currentPage);
    }

    /** The "next page" button. */
    method Next()
      modifies this
      requires Valid()
      ensures Valid()
      ensures currentPage == NextPage(old(currentPage), PageCount())
      ensures username == old(username) && currentSearch == old(currentSearch)
      ensures repoList == old(repoList) && filteredList == old(filteredList)
      ensures searchTerm == old(searchTerm) && loading == old(loading) && error == old(error)
    {
      currentPage := NextPage(currentPage, PageCount());
    }
  }

  /** Mounting the component: the initial state, then `fetchRepos(DEFAULT_USERNAME)`. */
  method Mount(response: Response) returns (d: Dashboard)
    ensures fresh(d) && d.Valid()
    ensures d.username == DefaultUsername && d.searchTerm == "" && !d.loading && d.currentPage == 1
    ensures d.currentSearch == DefaultUsername
    ensures Classify(DefaultUsername, response).Loaded? ==>
              && d.repoList == NonForks(response.data) && d.filteredList == d.repoList
              && d.error == (if d.repoList == [] then NoOriginalRepos(DefaultUsername) else NoNotice)
    ensures Classify(DefaultUsername, response).Failed? ==>
              d.error == Classify(DefaultUsername, response).notice && d.repoList == []
  {
    d := new Dashboard();
    var _ := d.FetchRepos(d.username, response);
    FilterEmptyTerm(d.repoList);
  }
}
