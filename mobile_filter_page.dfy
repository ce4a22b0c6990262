/**
 * The search, filter and page-size controller of the mobile filter page.
 * The module store's fields and the page's React state are the fields of
 * one object; each event handler is a method.  Timers and calls of
 * `getModules` are discrete events: a timer is scheduled, cleared or fired,
 * and a fetch is issued and later completes.
 */
module MobileFilter {
  import opened Wrappers
  import opened TagSearch

  /** `ModuleSearchFilter`: the four radio options. */
  datatype SearchFilter = All | Trusted | User | Flagged

  /** A module record as the store holds it; its contents play no part here. */
  datatype Module = Module(id: nat)

  /** The handler that called `getModules`. */
  datatype FetchCause = Debounced | FilterChange | PageSizeGrowth

  /** One call of `getModules`, with the store as it stood when the call was made. */
  datatype Fetch = Fetch(cause: FetchCause, search: string, filter: SearchFilter, modulesPerPage: nat)

  /** A timer created by `setTimeout`, with its delay in milliseconds. */
  datatype Timer = Timer(id: nat, delay: nat)

  /** The quiet period after the last keystroke before the search is sent. */
  const SearchDelay: nat := 1500

  const BackspaceKey: string := "Backspace"

  /** `xs.slice(0, n)` for a non-negative `n`. */
  function SliceTo<T>(xs: seq<T>, n: nat): (r: seq<T>)
    ensures |r| == if n < |xs| then n else |xs|
    ensures forall k :: 0 <= k < |r| ==> r[k] == xs[k]
  {
    if n < |xs| then xs[..n] else xs
  }

  /** How many calls in the log had the given cause. */
  function CountCause(fs: seq<Fetch>, c: FetchCause): nat {
    if fs == [] then 0
    else CountCause(fs[..|fs| - 1], c) + (if fs[|fs| - 1].cause == c then 1 else 0)
  }

  /** A log in which some call had the given cause holds such a call. */
  lemma {:induction false} CountCausePositive(fs: seq<Fetch>, c: FetchCause)
    requires 0 < CountCause(fs, c)
    ensures exists k :: 0 <= k < |fs| && fs[k].cause == c
  {
    var init := fs[..|fs| - 1];
    if fs[|fs| - 1].cause != c {
      CountCausePositive(init, c);
      var k :| 0 <= k < |init| && init[k].cause == c;
      assert fs[k] == init[k];
    }
  }

  /** A prefix of a prefix is a prefix. */
  lemma {:induction false} PrefixTrans<T>(a: seq<T>, b: seq<T>, c: seq<T>)
    requires a <= b && b <= c
    ensures a <= c
  {
    assert c[..|a|] == b[..|a|];
  }

  lemma {:induction false} CountCauseAppend(fs: seq<Fetch>, f: Fetch, c: FetchCause)
    ensures CountCause(fs + [f], c) == CountCause(fs, c) + (if f.cause == c then 1 else 0)
  {
    assert (fs + [f])[..|fs|] == fs;
  }

  class MobileFilterPage {
    // the fields of `modulesStore` this page reads and writes
    var search: string
    var searchFilter: SearchFilter
    var modulesPerPage: nat
    var modules: seq<Module>

    // the page's React state
    var searching: bool
    var searchTimeout: Option<Timer>

    // the environment: timers not yet fired or cleared, and the calls of getModules
    var pendingTimers: set<Timer>
    var nextTimerId: nat
    var fetches: seq<Fetch>
    /** Timer callbacks suspended at `await getModules()`. */
    var awaitedFetches: nat

    /**
     * At most one timer is pending, and it is the one `searchTimeout` holds;
     * a callback can only be awaiting a fetch it issued, and `searching` is
     * only ever set by a callback that issued one.
     */
    ghost predicate Valid()
      reads this
    {
      && (forall t :: t in pendingTimers ==> searchTimeout == Some(t))
      && (searchTimeout.Some? ==> searchTimeout.value.id < nextTimerId)
      && awaitedFetches <= CountCause(fetches, Debounced)
      && (searching ==> 0 < CountCause(fetches, Debounced))
    }

    /** The page mounts over the store as it is; its own state starts empty. */
    constructor (search: string, filter: SearchFilter, modulesPerPage: nat, modules: seq<Module>)
      ensures Valid()
      ensures this.search == search && searchFilter == filter
      ensures this.modulesPerPage == modulesPerPage && this.modules == modules
      ensures !searching && searchTimeout == None && pendingTimers == {}
      ensures fetches == [] && awaitedFetches == 0
    {
      this.search := search;
      this.searchFilter := filter;
      this.modulesPerPage := modulesPerPage;
      this.modules := modules;
      searching := false;
      searchTimeout := None;
      pendingTimers := {};
      nextTimerId := 0;
      fetches := [];
      awaitedFetches := 0;
    }

    lemma {:induction false} AtMostOnePendingTimer()
      requires Valid()
      ensures |pendingTimers| <= 1
    {
      if searchTimeout.Some? {
        assert pendingTimers <= {searchTimeout.value};
        assert pendingTimers == {} || pendingTimers == {searchTimeout.value};
      } else {
        assert pendingTimers == {};
      }
    }

    /** `searching` is only ever true after a timer callback has issued a fetch. */
    lemma {:induction false} SearchingAfterDebouncedFetch()
      requires Valid() && searching
      ensures exists k :: 0 <= k < |fetches| && fetches[k].cause == Debounced
    {
      CountCausePositive(fetches, Debounced);
    }

    /** A callback awaiting its fetch means some timer callback issued one. */
    lemma {:induction false} AwaitingAfterDebouncedFetch()
      requires Valid() && 0 < awaitedFetches
      ensures exists k :: 0 <= k < |fetches| && fetches[k].cause == Debounced
    {
      CountCausePositive(fetches, Debounced);
    }

    /**
     * `onSearchChange`: the store's search becomes the chips joined by
     * spaces followed by the typed text, the pending timer is cleared and a
     * new one is scheduled.  The chips survive, and tokens completed in the
     * typed text join them.
     */
    method OnSearchChange(value: string)
      requires Valid()
      modifies this`search, this`searchTimeout, this`pendingTimers, this`nextTimerId
      ensures Valid()
      ensures search == TypedSearch(old(search), value)
      ensures Tags(search) == Tags(old(search)) + Tags(value)
      ensures Tags(old(search)) <= Tags(search)
      ensures old(searchTimeout).Some? ==> searchTimeout != old(searchTimeout)
      ensures searchTimeout == Some(Timer(old(nextTimerId), SearchDelay))
      ensures pendingTimers == {searchTimeout.value}
      ensures nextTimerId == old(nextTimerId) + 1
    {
      TypedSearchKeepsTags(search, value);
      assert (Tags(search) + Tags(value))[..|Tags(search)|] == Tags(search);
      search := TypedSearch(search, value);
      if searchTimeout.Some? {
        pendingTimers := pendingTimers - {searchTimeout.value};
      }
      var timer := Timer(nextTimerId, SearchDelay);
      nextTimerId := nextTimerId + 1;
      pendingTimers := pendingTimers + {timer};
      searchTimeout := Some(timer);
    }

    /**
     * `onSearchKeyDown`: Backspace in an empty text box with chips deletes
     * the last character of the store's raw search; nothing else changes,
     * and no timer is scheduled.
     */
    method OnSearchKeyDown(key: string)
      requires Valid()
      modifies this`search
      ensures Valid()
      ensures search == if key == BackspaceKey && FreeText(old(search)) == [] && Tags(old(search)) != []
        then old(search)[..|old(search)| - 1]
        else old(search)
    {
      var shown := DisplayedSearch(search);
      var tags := Tags(search);
      if key == BackspaceKey && shown == [] && tags != [] {
        search := search[..|search| - 1];
      }
    }

    /** `onFilterChange`: a new filter is stored and fetched at once; the current one does nothing. */
    method OnFilterChange(filter: SearchFilter)
      requires Valid()
      modifies this`searchFilter, this`fetches
      ensures Valid()
      ensures filter == old(searchFilter) ==> searchFilter == old(searchFilter) && fetches == old(fetches)
      ensures filter != old(searchFilter) ==>
        (searchFilter == filter && fetches == old(fetches) + [Fetch(FilterChange, search, filter, modulesPerPage)])
    {
      if filter != searchFilter {
        searchFilter := filter;
        CountCauseAppend(fetches, Fetch(FilterChange, search, filter, modulesPerPage), Debounced);
        fetches := fetches + [Fetch(FilterChange, search, filter, modulesPerPage)];
      }
    }

    /**
     * `onChangeModulesPerPage`: a smaller page keeps the first `n` modules
     * without a fetch; a larger one fetches, issued while the store still
     * holds the old size; either way the size is then stored.
     */
    method OnChangeModulesPerPage(n: nat)
      requires Valid()
      modifies this`modules, this`modulesPerPage, this`fetches
      ensures Valid()
      ensures n == old(modulesPerPage) ==> modules == old(modules) && modulesPerPage == old(modulesPerPage) && fetches == old(fetches)
      ensures n != old(modulesPerPage) ==> modulesPerPage == n
      ensures n < old(modulesPerPage) ==> modules == SliceTo(old(modules), n) && fetches == old(fetches)
      ensures n > old(modulesPerPage) ==>
        (modules == old(modules) && fetches == old(fetches) + [Fetch(PageSizeGrowth, search, searchFilter, old(modulesPerPage))])
    {
      if n != modulesPerPage {
        if n < modulesPerPage {
          modules := SliceTo(modules, n);
        } else {
          CountCauseAppend(fetches, Fetch(PageSizeGrowth, search, searchFilter, modulesPerPage), Debounced);
          fetches := fetches + [Fetch(PageSizeGrowth, search, searchFilter, modulesPerPage)];
        }
        modulesPerPage := n;
      }
    }

    /**
     * The pending timer fires: its callback sets `searching`, calls
     * `getModules` with the store as it is now and suspends awaiting it.
     * `searchTimeout` keeps the spent timer.
     */
    method FireSearchTimer(t: Timer)
      requires Valid() && t in pendingTimers
      modifies this`searching, this`pendingTimers, this`fetches, this`awaitedFetches
      ensures Valid()
      ensures searching && pendingTimers == {}
      ensures fetches == old(fetches) + [Fetch(Debounced, search, searchFilter, modulesPerPage)]
      ensures awaitedFetches == old(awaitedFetches) + 1
    {
      searching := true;
      pendingTimers := pendingTimers - {t};
      CountCauseAppend(fetches, Fetch(Debounced, search, searchFilter, modulesPerPage), Debounced);
      fetches := fetches + [Fetch(Debounced, search, searchFilter, modulesPerPage)];
      awaitedFetches := awaitedFetches + 1;
    }

    /**
     * A fetch issued by a timer callback settles.  When it resolves the
     * callback clears `searching`, whichever callback it is; when it
     * rejects, the callback stops at the `await` and `searching` stays.
     */
    method CompleteSearchFetch(resolved: bool)
      requires Valid() && 0 < awaitedFetches
      modifies this`searching, this`awaitedFetches
      ensures Valid()
      ensures awaitedFetches == old(awaitedFetches) - 1
      ensures searching == (old(searching) && !resolved)
    {
      if resolved {
        searching := false;
      }
      awaitedFetches := awaitedFetches - 1;
    }
  }

  /**
   * Debouncing: a burst of text changes with no timer firing in between
   * issues no fetch and leaves exactly one timer pending; when it fires,
   * exactly one fetch is made and no timer is left to make another.  The
   * fetched search is what the last change made of the search before it
   * (`before`): it ends with the last typed text and keeps the earlier tags.
   */
  method TypeThenWait(page: MobileFilterPage, values: seq<string>) returns (before: string)
    requires page.Valid() && |values| > 0
    modifies page
    ensures page.Valid()
    ensures page.fetches == old(page.fetches) + [Fetch(Debounced, page.search, page.searchFilter, page.modulesPerPage)]
    ensures page.searchFilter == old(page.searchFilter) && page.modulesPerPage == old(page.modulesPerPage)
    ensures page.modules == old(page.modules)
    ensures page.pendingTimers == {} && page.searching
    ensures |values| == 1 ==> before == old(page.search)
    ensures Tags(old(page.search)) <= Tags(before) && Tags(before) <= Tags(page.search)
    ensures page.search == TypedSearch(before, values[|values| - 1])
    ensures Tags(page.search) == Tags(before) + Tags(values[|values| - 1])
    ensures var last := values[|values| - 1];
      |last| <= |page.search| && page.search[|page.search| - |last|..] == last
  {
    TypeBurst(page, values[..|values| - 1]);
    before := page.search;
    page.OnSearchChange(values[|values| - 1]);
    page.FireSearchTimer(page.searchTimeout.value);
  }

  /** Text changes one after another, with no timer firing: no fetch, and only the search and the timers change. */
  method TypeBurst(page: MobileFilterPage, values: seq<string>)
    requires page.Valid()
    modifies page
    ensures page.Valid()
    ensures page.fetches == old(page.fetches) && page.modules == old(page.modules)
    ensures page.searchFilter == old(page.searchFilter) && page.modulesPerPage == old(page.modulesPerPage)
    ensures values == [] ==> page.search == old(page.search)
    ensures page.awaitedFetches == old(page.awaitedFetches) && page.searching == old(page.searching)
    ensures Tags(old(page.search)) <= Tags(page.search)
  {
    ghost var start := Tags(page.search);
    var i := 0;
    while i < |values|
      invariant 0 <= i <= |values| && page.Valid()
      invariant page.fetches == old(page.fetches) && page.modules == old(page.modules)
      invariant page.searchFilter == old(page.searchFilter) && page.modulesPerPage == old(page.modulesPerPage)
      invariant page.awaitedFetches == old(page.awaitedFetches) && page.searching == old(page.searching)
      invariant i == 0 ==> page.search == old(page.search)
      invariant start <= Tags(page.search)
    {
      ghost var prev := Tags(page.search);
      page.OnSearchChange(values[i]);
      PrefixTrans(start, prev, Tags(page.search));
      i := i + 1;
    }
  }
}
