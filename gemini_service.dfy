/**
 * The query service: one call to the hosted model, then extraction of the
 * stories and citations from its reply. The remote call and `JSON.parse` are
 * parameters: `generate` answers a topic with a reply or a provider error,
 * `parse` answers a string with a list of stories or `None` where
 * `JSON.parse` would throw.
 */
module GeminiService {
  import opened Wrappers
  import opened Types
  import opened Fences
  import opened Sources

  datatype GroundingMetadata = GroundingMetadata(groundingChunks: Option<seq<GroundingChunk>>)

  datatype Candidate = Candidate(groundingMetadata: Option<GroundingMetadata>)

  /** The part of the provider's reply the service reads. */
  datatype ModelResponse = ModelResponse(text: Option<string>, candidates: Option<seq<Candidate>>)

  /** Whatever the remote call threw: network, provider or credential failure. */
  datatype ProviderError = ProviderError(detail: string)

  /** `response.text || ""`. */
  function ResponseText(response: ModelResponse): string {
    response.text.GetOr("")
  }

  /** `response.candidates?.[0]?.groundingMetadata?.groundingChunks`. */
  function GroundingChunksOf(response: ModelResponse): Option<seq<GroundingChunk>> {
    if response.candidates.None? || |response.candidates.value| == 0 then None
    else
      match response.candidates.value[0].groundingMetadata
      case None => None
      case Some(metadata) => metadata.groundingChunks
  }

  /** The stories: what `parse` makes of the chosen string, or none when it fails. */
  function ParsedItems(text: string, parse: string -> Option<seq<NewsItem>>): seq<NewsItem> {
    parse(ParserInput(text)).GetOr([])
  }

  /** The response assembled from a reply. */
  function ExtractNews(response: ModelResponse, parse: string -> Option<seq<NewsItem>>): NewsResponse {
    NewsResponse(ParsedItems(ResponseText(response), parse), Dedup(CollectedSources(GroundingChunksOf(response))))
  }

  /**
   * The item extraction as the service runs it: the json-labelled pattern,
   * else the generic one; a non-empty capture is parsed, otherwise the text
   * with its fences removed; a parse failure leaves the list empty.
   */
  method ExtractItems(text: string, parse: string -> Option<seq<NewsItem>>) returns (items: seq<NewsItem>)
    ensures items == ParsedItems(text, parse)
    ensures parse(ParserInput(text)).None? ==> items == []
  {
    var jsonMatch := JsonFenceMatch(text);
    if jsonMatch.None? {
      jsonMatch := GenericFenceMatch(text);
    }
    items := [];
    if jsonMatch.Some? && jsonMatch.value != "" {
      var parsed := parse(jsonMatch.value);
      if parsed.Some? {
        items := parsed.value;
      }
    } else {
      var cleanText := StripFences(text);
      var parsed := parse(cleanText);
      if parsed.Some? {
        items := parsed.value;
      }
    }
  }

  /**
   * `fetchTrendingNews(topic)`: a failed remote call is rethrown with no
   * partial response; otherwise the reply is extracted, and the sources are
   * distinct by uri and no more numerous than the chunks.
   */
  method FetchTrendingNews(
    topic: string,
    generate: string -> Result<ModelResponse, ProviderError>,
    parse: string -> Option<seq<NewsItem>>
  ) returns (r: Result<NewsResponse, ProviderError>)
    ensures generate(topic).Failure? ==> r == Failure(generate(topic).error)
    ensures generate(topic).Success? ==> r == Success(ExtractNews(generate(topic).value, parse))
    ensures r.Success? ==> UrisDistinct(r.value.sources)
    ensures r.Success? ==> |r.value.sources| <= WebCount(GroundingChunksOf(generate(topic).value).GetOr([]))
  {
    var reply := generate(topic);
    match reply
    case Failure(e) =>
      r := Failure(e);
    case Success(response) =>
      var items := ExtractItems(ResponseText(response), parse);
      var sources := CollectSources(GroundingChunksOf(response));
      DedupDistinct(sources);
      DedupNoLonger(sources);
      SourcesOfOnePerWebChunk(GroundingChunksOf(response).GetOr([]));
      r := Success(NewsResponse(items, Dedup(sources)));
  }

  /** A missing reply text hands the empty string to the parser, so a failing parse of it gives no stories. */
  lemma MissingTextParsesEmpty(response: ModelResponse, parse: string -> Option<seq<NewsItem>>)
    requires response.text.None?
    ensures ParserInput(ResponseText(response)) == ""
    ensures parse("").None? ==> ExtractNews(response, parse).items == []
  {
  }

  /**
   * With a json-labelled block the stories are whatever `parse` makes of its
   * content; when that fails there are none, and the raw text is not tried.
   */
  lemma JsonFenceItems(text: string, i: nat, j: nat, parse: string -> Option<seq<NewsItem>>)
    requires IsLeftmostLazy(text, JsonOpen, JsonClose, i, j)
    requires i + |JsonOpen| < j
    ensures ParsedItems(text, parse) == parse(text[i + |JsonOpen|..j]).GetOr([])
    ensures parse(text[i + |JsonOpen|..j]).None? ==> ParsedItems(text, parse) == []
  {
    JsonFenceWins(text, i, j);
  }

  /**
   * The reply the prompt asks for: a json-labelled block at the start whose
   * content holds no newline-fence. Its content is exactly what is parsed,
   * whatever follows the block.
   */
  lemma WellFencedReplyItems(json: string, trailer: string, parse: string -> Option<seq<NewsItem>>)
    requires json != ""
    requires forall p: nat :: !OccursAt(json, JsonClose, p)
    ensures ParsedItems(JsonOpen + json + JsonClose + trailer, parse) == parse(json).GetOr([])
  {
    var text := JsonOpen + json + JsonClose + trailer;
    var j := |JsonOpen| + |json|;
    assert text[..|JsonOpen|] == JsonOpen;
    assert text[|JsonOpen|..j] == json;
    assert text[j..j + |JsonClose|] == JsonClose;
    assert IsMatch(text, JsonOpen, JsonClose, 0, j);
    forall j': nat | j' < j ensures !IsMatch(text, JsonOpen, JsonClose, 0, j') {
      CloseAt(text, j');
      if |JsonOpen| <= j' && j' + 4 <= j {
        CloseAt(json, j' - |JsonOpen|);
        assert text[j'..j' + 4] == json[j' - |JsonOpen|..j' - |JsonOpen| + 4];
      } else if |JsonOpen| <= j' {
        assert text[j] == '\n';
      }
    }
    assert IsLeftmostLazy(text, JsonOpen, JsonClose, 0, j);
    JsonFenceItems(text, 0, j, parse);
  }
}
