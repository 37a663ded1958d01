/**
 * The page's view session: the favourites list, the page cursor and the
 * in-flight flag that the fetch gate, the scroll handler, the search handler
 * and the favourite toggle update step by step. Network requests are recorded
 * in the order they are issued; a page fetch's completion is an explicit event.
 */
module Session {
  import opened Favorites
  import Text

  datatype Option<T> = None | Some(value: T)

  /** A request sent to the character API: a page of the listing, a name search, or one record. */
  datatype Request = PageRequest(page: int) | SearchRequest(name: string) | CharacterRequest(id: int)

  /** The request of each favourite id, issued in list order by the favourites view. */
  function CharacterRequests(favorites: seq<int>): (r: seq<Request>)
    ensures |r| == |favorites|
    ensures forall i :: 0 <= i < |favorites| ==> r[i] == CharacterRequest(favorites[i])
  {
    if |favorites| == 0 then [] else [CharacterRequest(favorites[0])] + CharacterRequests(favorites[1..])
  }

  /** The pages requested so far never decrease and never pass the cursor. */
  ghost predicate PagesInOrder(requests: seq<Request>, cursor: int) {
    (forall i, j :: 0 <= i < j < |requests| && requests[i].PageRequest? && requests[j].PageRequest?
       ==> requests[i].page <= requests[j].page) &&
    (forall i :: 0 <= i < |requests| && requests[i].PageRequest? ==> 1 <= requests[i].page <= cursor)
  }

  class ViewSession {
    var favorites: seq<int>
    var currentPage: int
    var isLoading: bool
    var requests: seq<Request>

    /** The cursor starts at 1 and only moves forward, so the requested pages follow it. */
    ghost predicate Valid()
      reads this
    {
      1 <= currentPage && PagesInOrder(requests, currentPage)
    }

    /** `favorites.includes(id)`: it agrees with the toggle's `indexOf` test. */
    function IsFavorite(id: int): (r: bool)
      reads this
      ensures r <==> IndexOf(favorites, id) > -1
    {
      id in favorites
    }

    /** Page load: the favourites come from storage, the cursor starts at 1, and the first page is
        fetched. `None` stands for a stored entry whose parse is falsy (no entry at all, or a
        stored `null`, `false`, `0` or `""`), which `|| []` turns into the empty list. */
    constructor (stored: Option<seq<int>>)
      ensures Valid()
      ensures favorites == (if stored.Some? then stored.value else [])
      ensures currentPage == 1 && isLoading
      ensures requests == [PageRequest(1)]
    {
      favorites := if stored.Some? then stored.value else [];
      currentPage := 1;
      isLoading := false;
      requests := [];
      new;
      FetchCharacters(currentPage);
    }

    /** The fetch gate: a no-op while a page fetch is in flight; otherwise it raises the flag
        and requests the page. Every caller passes the current cursor. */
    method FetchCharacters(page: int)
      requires Valid() && page == currentPage
      modifies this`isLoading, this`requests
      ensures Valid()
      ensures old(isLoading) ==> isLoading && requests == old(requests)
      ensures !old(isLoading) ==> isLoading && requests == old(requests) + [PageRequest(page)]
    {
      if isLoading {
        return;
      }
      isLoading := true;
      requests := requests + [PageRequest(page)];
    }

    /** The page fetch completes: on success (`.then`) its cards are appended, on failure
        (`.catch`) the error is logged; both paths lower the flag, so `success` changes nothing here. */
    method FinishFetch(success: bool)
      requires Valid()
      modifies this`isLoading
      ensures Valid()
      ensures !isLoading
    {
      isLoading := false;
    }

    /** Toggle a favourite, then re-render the paged view at the current cursor. */
    method Toggle(id: int)
      requires Valid()
      modifies this
      ensures Valid()
      ensures favorites == Toggled(old(favorites), id)
      ensures NoDup(old(favorites)) ==> NoDup(favorites) && IsFavorite(id) == !old(IsFavorite(id))
      ensures forall x :: x != id ==> (IsFavorite(x) <==> old(IsFavorite(x)))
      ensures currentPage == old(currentPage) && isLoading
      ensures requests == old(requests) + (if old(isLoading) then [] else [PageRequest(currentPage)])
    {
      var index := IndexOf(favorites, id);
      if index > -1 {
        favorites := favorites[..index] + favorites[index + 1..];
      } else {
        favorites := favorites + [id];
      }
      FetchCharacters(currentPage);
      forall x | x != id ensures x in favorites <==> x in old(favorites) {
        ToggleMembership(old(favorites), id, x);
      }
      if NoDup(old(favorites)) {
        ToggleKeepsNoDup(old(favorites), id);
        ToggleMembership(old(favorites), id, id);
      }
    }

    /** The scroll handler: near the bottom and with no fetch in flight, advance the cursor by
        one and fetch that page; otherwise nothing changes. */
    method OnScroll(nearBottom: bool)
      requires Valid()
      modifies this
      ensures Valid()
      ensures favorites == old(favorites)
      ensures nearBottom && !old(isLoading) ==>
        currentPage == old(currentPage) + 1 && isLoading &&
        requests == old(requests) + [PageRequest(currentPage)]
      ensures !(nearBottom && !old(isLoading)) ==>
        currentPage == old(currentPage) && isLoading == old(isLoading) && requests == old(requests)
    {
      if nearBottom && !isLoading {
        currentPage := currentPage + 1;
        FetchCharacters(currentPage);
      }
    }

    /** The search handler: a non-empty trimmed query is searched by name; an empty one goes
        back to the paged view at the current cursor, through the fetch gate. The cursor never moves. */
    method OnSearchInput(query: string)
      requires Valid()
      modifies this
      ensures Valid()
      ensures favorites == old(favorites) && currentPage == old(currentPage)
      ensures |Text.Trim(query)| > 0 ==>
        isLoading == old(isLoading) && requests == old(requests) + [SearchRequest(Text.Trim(query))]
      ensures |Text.Trim(query)| == 0 ==>
        isLoading && requests == old(requests) + (if old(isLoading) then [] else [PageRequest(currentPage)])
    {
      var q := Text.Trim(query);
      if |q| > 0 {
        requests := requests + [SearchRequest(q)];
      } else {
        FetchCharacters(currentPage);
      }
    }

    /** The favourites-filter button: one record request per favourite id, issued in list order;
        neither the cursor nor the in-flight flag is touched. */
    method OnFavoriteFilter()
      requires Valid()
      modifies this`requests
      ensures Valid()
      ensures requests == old(requests) + CharacterRequests(favorites)
    {
      requests := requests + CharacterRequests(favorites);
    }
  }

  /** A session loaded with favourites [1, 2]: 2 is a favourite and 3 is not; a scroll while the
      first page is in flight changes nothing, and one after it completes requests page 2. */
  method ScrollScenario() {
    var session := new ViewSession(Some([1, 2]));
    assert session.IsFavorite(2) && !session.IsFavorite(3);
    session.OnScroll(true);
    assert session.currentPage == 1 && session.requests == [PageRequest(1)];
    session.FinishFetch(true);
    session.OnScroll(true);
    assert session.currentPage == 2 && session.requests == [PageRequest(1), PageRequest(2)];
    session.OnScroll(true);
    assert session.currentPage == 2;
  }
}
