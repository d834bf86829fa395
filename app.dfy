/**
 * The page component: the current topic and the search state, changed by the
 * mount effect, by a submitted search and by the outcome of each fetch. Each
 * fetch is modelled as running to completion before the next event.
 */
module App {
  import opened Wrappers
  import opened Types
  import opened GeminiService

  /** The topic shown and fetched when the page first mounts. */
  const InitialTopic: string := "Trending Technology"

  /** The one message shown for every failed fetch. */
  const FetchErrorMessage: string := "Oops! The AI got a bit confused searching for that. Try again?"

  /** Not loading, no error, nothing fetched yet. */
  const IdleState: SearchState := SearchState(false, None, None)

  /** The state invariant: an error is never shown beside data. */
  predicate Coherent(st: SearchState) {
    st.error.Some? ==> st.data.None?
  }

  /** The state a fetch settles in, given what the service returned or threw. */
  function Settled(outcome: Result<NewsResponse, ProviderError>): (st: SearchState)
    ensures Coherent(st) && !st.isLoading
    ensures st.data.Some? <==> outcome.Success?
    ensures st.error.Some? <==> outcome.Failure?
  {
    match outcome
    case Success(result) => SearchState(false, None, Some(result))
    case Failure(_) => SearchState(false, Some(FetchErrorMessage), None)
  }

  // ---------------------------------------------------------------------------
  // `String.prototype.trim`: white space and line terminators as ECMAScript
  // defines them.
  // ---------------------------------------------------------------------------

  predicate IsTrimmable(c: char) {
    var n := c as int;
    || n == 0x09 || n == 0x0A || n == 0x0B || n == 0x0C || n == 0x0D || n == 0x20
    || n == 0xA0 || n == 0x1680 || (0x2000 <= n <= 0x200A) || n == 0x2028 || n == 0x2029
    || n == 0x202F || n == 0x205F || n == 0x3000 || n == 0xFEFF
  }

  /** `s` with its longest all-white-space prefix removed. */
  function TrimStart(s: string): (r: string)
    ensures |r| <= |s| && r == s[|s| - |r|..]
    ensures r == [] || !IsTrimmable(r[0])
    ensures forall i :: 0 <= i < |s| - |r| ==> IsTrimmable(s[i])
  {
    if s != [] && IsTrimmable(s[0]) then TrimStart(s[1..]) else s
  }

  /** `s` with its longest all-white-space suffix removed. */
  function TrimEnd(s: string): (r: string)
    ensures |r| <= |s| && r == s[..|r|]
    ensures r == [] || !IsTrimmable(r[|r| - 1])
    ensures forall i :: |r| <= i < |s| ==> IsTrimmable(s[i])
  {
    if s != [] && IsTrimmable(s[|s| - 1]) then TrimEnd(s[..|s| - 1]) else s
  }

  function Trim(s: string): string {
    TrimEnd(TrimStart(s))
  }

  /** The trimmed input is empty exactly when every character is white space. */
  lemma TrimEmptyIffBlank(s: string)
    ensures Trim(s) == [] <==> forall i :: 0 <= i < |s| ==> IsTrimmable(s[i])
  {
    var t := TrimStart(s);
    assert t != [] ==> t[0] == s[|s| - |t|];
  }

  // ---------------------------------------------------------------------------
  // What the page renders from the state.
  // ---------------------------------------------------------------------------

  /** The spinner. */
  predicate ShowsLoading(st: SearchState) {
    st.isLoading
  }

  /** The error banner: shown for a non-empty error string. */
  predicate ShowsError(st: SearchState) {
    st.error.Some? && st.error.value != ""
  }

  /** The story grid and source list. */
  predicate ShowsContent(st: SearchState) {
    !st.isLoading && st.data.Some?
  }

  /** The "no specific news found" notice inside the content area. */
  predicate ShowsNoResults(st: SearchState) {
    ShowsContent(st) && |st.data.value.items| == 0
  }

  /** The submit button is disabled while a fetch is loading. */
  predicate SubmitDisabled(st: SearchState) {
    st.isLoading
  }

  /** The submit button's label. */
  function SubmitLabel(st: SearchState): (caption: string)
    ensures caption == "Digging..." <==> SubmitDisabled(st)
    ensures !SubmitDisabled(st) ==> caption == "Explore"
  {
    if st.isLoading then "Digging..." else "Explore"
  }

  /** In a coherent state the error banner and the content area are never shown together. */
  lemma ErrorExcludesContent(st: SearchState)
    requires Coherent(st)
    ensures ShowsError(st) ==> !ShowsContent(st) && !ShowsNoResults(st)
  {
  }

  /** A fetch that settles with zero stories shows the notice, not an error or a spinner. */
  lemma EmptySuccessShowsNotice(result: NewsResponse)
    requires result.items == []
    ensures ShowsNoResults(Settled(Success(result)))
    ensures !ShowsError(Settled(Success(result))) && !ShowsLoading(Settled(Success(result)))
  {
  }

  /** A failed fetch shows the banner and hides the content. */
  lemma FailureShowsBanner(e: ProviderError)
    ensures ShowsError(Settled(Failure(e))) && !ShowsContent(Settled(Failure(e)))
    ensures Settled(Failure(e)).error == Some(FetchErrorMessage)
  {
  }

  class Page {
    var topic: string
    var state: SearchState

    ghost predicate Valid()
      reads this
    {
      Coherent(state)
    }

    /** The initial render: the default topic and the idle state. */
    constructor ()
      ensures Valid()
      ensures topic == InitialTopic && state == IdleState
    {
      topic := InitialTopic;
      state := IdleState;
    }

    /** `setState(prev => ({ ...prev, isLoading: true, error: null }))`: previous data is kept. */
    method StartFetch()
      requires Valid()
      modifies this
      ensures Valid()
      ensures topic == old(topic)
      ensures state == SearchState(true, None, old(state).data)
      ensures ShowsLoading(state) && SubmitDisabled(state) && !ShowsContent(state) && !ShowsError(state)
    {
      state := state.(isLoading := true, error := None);
    }

    /** The fetch resolved with `result`. */
    method FetchSucceeded(result: NewsResponse)
      requires Valid()
      modifies this
      ensures Valid()
      ensures topic == old(topic)
      ensures state == SearchState(false, None, Some(result))
    {
      state := SearchState(false, None, Some(result));
    }

    /** The fetch threw: the fixed message, and the data is cleared. */
    method FetchFailed()
      requires Valid()
      modifies this
      ensures Valid()
      ensures topic == old(topic)
      ensures state == SearchState(false, Some(FetchErrorMessage), None)
    {
      state := SearchState(false, Some(FetchErrorMessage), None);
    }

    /** `handleFetch(queryTopic)`: start, call the service, settle on its outcome. */
    method HandleFetch(
      queryTopic: string,
      generate: string -> Result<ModelResponse, ProviderError>,
      parse: string -> Option<seq<NewsItem>>
    )
      requires Valid()
      modifies this
      ensures Valid()
      ensures topic == old(topic)
      ensures generate(queryTopic).Failure? ==> state == Settled(Failure(generate(queryTopic).error))
      ensures generate(queryTopic).Success? ==> state == Settled(Success(ExtractNews(generate(queryTopic).value, parse)))
    {
      StartFetch();
      var outcome := FetchTrendingNews(queryTopic, generate, parse);
      match outcome
      case Success(result) =>
        FetchSucceeded(result);
      case Failure(_) =>
        FetchFailed();
    }

    /** The mount effect: one fetch for the current topic. */
    method Mount(
      generate: string -> Result<ModelResponse, ProviderError>,
      parse: string -> Option<seq<NewsItem>>
    )
      requires Valid()
      modifies this
      ensures Valid()
      ensures topic == old(topic)
      ensures generate(old(topic)).Failure? ==> state == Settled(Failure(generate(old(topic)).error))
      ensures generate(old(topic)).Success? ==> state == Settled(Success(ExtractNews(generate(old(topic)).value, parse)))
    {
      HandleFetch(topic, generate, parse);
    }

    /**
     * `handleSearch`: blank input changes nothing; otherwise the input, as
     * typed and untrimmed, becomes the topic and is what gets fetched.
     */
    method HandleSearch(
      searchInput: string,
      generate: string -> Result<ModelResponse, ProviderError>,
      parse: string -> Option<seq<NewsItem>>
    )
      requires Valid()
      modifies this
      ensures Valid()
      ensures Trim(searchInput) == [] ==> topic == old(topic) && state == old(state)
      ensures Trim(searchInput) != [] ==> topic == searchInput
      ensures Trim(searchInput) != [] && generate(searchInput).Failure? ==>
                state == Settled(Failure(generate(searchInput).error))
      ensures Trim(searchInput) != [] && generate(searchInput).Success? ==>
                state == Settled(Success(ExtractNews(generate(searchInput).value, parse)))
    {
      if Trim(searchInput) == [] {
        return;
      }
      topic := searchInput;
      HandleFetch(searchInput, generate, parse);
    }
  }

  /** The page as first shown and after its mount fetch: the default topic is the one fetched. */
  method MountedPage(
    generate: string -> Result<ModelResponse, ProviderError>,
    parse: string -> Option<seq<NewsItem>>
  ) returns (page: Page)
    ensures fresh(page) && page.Valid()
    ensures page.topic == InitialTopic
    ensures generate(InitialTopic).Failure? ==> page.state == Settled(Failure(generate(InitialTopic).error))
    ensures generate(InitialTopic).Success? ==> page.state == Settled(Success(ExtractNews(generate(InitialTopic).value, parse)))
  {
    page := new Page();
    page.Mount(generate, parse);
  }
}
