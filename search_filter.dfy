/**
 * The search and sport filter above the event list. It reads its start values
 * from the current URL, debounces the free-text search by 500 ms on a discrete
 * clock, and turns either input into a navigation to the dashboard with new query
 * parameters. A navigation is returned as the parameter list it goes to.
 */
module SearchFilter {
  import opened Wrappers
  import opened UrlParams

  const DebounceMs: nat := 500

  /** `searchParams.get("search") || ""`: an absent parameter reads as "". */
  function UrlSearch(url: Params): (s: string)
    ensures Get(url, "search").Some? ==> s == Get(url, "search").value
    ensures Get(url, "search").None? ==> s == ""
  {
    Get(url, "search").GetOr("")
  }

  /**
   * `createQueryString(name, value)`: a copy of the current parameters with `name`
   * set to `value`, or deleted when `value` is "" or "all"; the pairs of every
   * other name are kept, in order.
   */
  function CreateQueryString(url: Params, name: string, value: string): (r: Params)
    ensures Get(r, name) == if value == "" || value == "all" then None else Some(value)
    ensures forall other :: other != name ==> Get(r, other) == Get(url, other)
    ensures Delete(r, name) == Delete(url, name)
  {
    if value != "" && value != "all" then
      SetStoresValue(url, name, value);
      SetKeepsOtherPairs(url, name, value);
      forall other | other != name
        ensures Get(Set(url, name, value), other) == Get(url, other)
      {
        SetKeepsOthers(url, name, value, other);
      }
      Set(url, name, value)
    else
      DeleteRemovesName(url, name);
      DeleteIdempotent(url, name);
      forall other | other != name
        ensures Get(Delete(url, name), other) == Get(url, other)
      {
        DeleteKeepsOthers(url, name, other);
      }
      Delete(url, name)
  }

  /** The navigation guard: navigate only when the debounced text differs from the URL's. */
  predicate ShouldNavigate(debounced: string, url: Params)
    ensures Get(url, "search").None? ==> (ShouldNavigate(debounced, url) <==> debounced != "")
  {
    debounced != UrlSearch(url)
  }

  /** The navigation effect: where it goes, if anywhere. */
  function SearchNavigation(debounced: string, url: Params): (nav: Option<Params>)
    ensures nav.Some? <==> ShouldNavigate(debounced, url)
    ensures nav.Some? ==> UrlSearch(nav.value) == (if debounced == "all" then "" else debounced)
  {
    if ShouldNavigate(debounced, url) then Some(CreateQueryString(url, "search", debounced)) else None
  }

  /**
   * Typing "all" into the search box does not search for "all": the navigation
   * drops the parameter, and the guard still sees a difference afterwards.
   */
  lemma SearchForAllKeepsDiffering(url: Params)
    requires UrlSearch(url) != "all"
    ensures ShouldNavigate("all", url)
    ensures var next := CreateQueryString(url, "search", "all");
      Get(next, "search") == None && ShouldNavigate("all", next)
  {
  }

  /** The component's state, with the time of the clock it runs on. */
  class FilterController {
    var url: Params
    var search: string
    var debouncedSearch: string
    /** When the pending debounce timer fires, if one is pending. */
    var timerDue: Option<nat>
    var now: nat
    /** When `search` last changed (the mount counts as a change at time 0). */
    ghost var lastChange: nat

    /**
     * A pending timer fires 500 ms after the last change and is still in the future;
     * with no timer pending, the debounced text has caught up with the search text.
     */
    ghost predicate Valid()
      reads this
    {
      && lastChange <= now
      && (timerDue.Some? ==> timerDue.value == lastChange + DebounceMs && now < timerDue.value)
      && (timerDue.None? ==> debouncedSearch == search)
    }

    /** Mounting: both texts start from the URL, and the debounce effect arms its first timer. */
    constructor (url: Params)
      ensures Valid()
      ensures this.url == url && now == 0
      ensures search == UrlSearch(url) && debouncedSearch == search
      ensures timerDue == Some(DebounceMs)
    {
      this.url := url;
      search := UrlSearch(url);
      debouncedSearch := UrlSearch(url);
      timerDue := Some(DebounceMs);
      now := 0;
      lastChange := 0;
    }

    /**
     * `handleSearchChange`: a new text cancels the pending timer and arms a new one;
     * the same text again changes nothing.
     */
    method SearchChanged(value: string)
      requires Valid()
      modifies this
      ensures Valid()
      ensures url == old(url) && now == old(now) && debouncedSearch == old(debouncedSearch)
      ensures value != old(search) ==> search == value && timerDue == Some(now + DebounceMs) && lastChange == now
      ensures value == old(search) ==> search == old(search) && timerDue == old(timerDue) && lastChange == old(lastChange)
    {
      if value != search {
        search := value;
        timerDue := Some(now + DebounceMs);
        lastChange := now;
      }
    }

    /**
     * The clock moves to `t`. A timer due by then fires and copies the search text
     * into the debounced text; when that changes the debounced text, the navigation
     * effect runs.
     */
    method AdvanceTo(t: nat) returns (nav: Option<Params>)
      requires Valid() && now <= t
      modifies this
      ensures Valid()
      ensures now == t && url == old(url) && search == old(search) && lastChange == old(lastChange)
      ensures old(timerDue).Some? && old(timerDue).value <= t ==>
        && timerDue.None? && debouncedSearch == search
        && nav == if old(debouncedSearch) != search then SearchNavigation(search, url) else None
      ensures !(old(timerDue).Some? && old(timerDue).value <= t) ==>
        timerDue == old(timerDue) && debouncedSearch == old(debouncedSearch) && nav.None?
      ensures debouncedSearch != old(debouncedSearch) ==> t >= lastChange + DebounceMs
    {
      now := t;
      nav := None;
      if timerDue.Some? && timerDue.value <= t {
        timerDue := None;
        if debouncedSearch != search {
          debouncedSearch := search;
          nav := SearchNavigation(debouncedSearch, url);
        }
      }
    }

    /** The URL's parameters changed: the navigation effect runs again with them. */
    method UrlChanged(newUrl: Params) returns (nav: Option<Params>)
      requires Valid()
      modifies this
      ensures Valid()
      ensures url == newUrl && now == old(now) && search == old(search)
      ensures debouncedSearch == old(debouncedSearch) && timerDue == old(timerDue)
      ensures nav == SearchNavigation(debouncedSearch, newUrl)
    {
      url := newUrl;
      nav := SearchNavigation(debouncedSearch, url);
    }

    /** `handleSportChange`: navigates at once, with no debounce and no change of state. */
    method SportChanged(value: string) returns (target: Params)
      requires Valid()
      ensures Get(target, "sport_type") == if value == "" || value == "all" then None else Some(value)
      ensures forall other :: other != "sport_type" ==> Get(target, other) == Get(url, other)
    {
      target := CreateQueryString(url, "sport_type", value);
    }
  }

  /**
   * Keystrokes at 0, 100 and 200 ms on a page without a search: nothing is
   * navigated before 700 ms, exactly one navigation happens at 700 ms, and none
   * follows while nobody types.
   */
  method ThreeKeystrokes() returns (before: Option<Params>, at: Option<Params>, after: Option<Params>)
    ensures before.None?
    ensures at == Some([("search", "abc")])
    ensures after.None?
  {
    var f := new FilterController([]);
    f.SearchChanged("a");
    var ignored := f.AdvanceTo(100);
    f.SearchChanged("ab");
    ignored := f.AdvanceTo(200);
    f.SearchChanged("abc");
    before := f.AdvanceTo(699);
    at := f.AdvanceTo(700);
    after := f.AdvanceTo(5000);
  }
}
