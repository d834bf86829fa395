/**
 * The citation list of a reply: one source per grounding chunk that carries a
 * web page, then collapsed by uri through a JavaScript `Map`.
 */
module Sources {
  import opened Wrappers
  import opened Types

  /** The `web` part of a grounding chunk; the title may be missing. */
  datatype Web = Web(title: Option<string>, uri: string)

  /** One grounding chunk; chunks of other kinds have no `web`. */
  datatype GroundingChunk = GroundingChunk(web: Option<Web>)

  /** The title shown for a page whose title is missing or empty. */
  const DefaultTitle: string := "Source Link"

  // ---------------------------------------------------------------------------
  // Collection.
  // ---------------------------------------------------------------------------

  /** `{ title: web.title || "Source Link", uri: web.uri }`. */
  function SourceOf(web: Web): (g: GroundingSource)
    ensures g.uri == web.uri
    ensures g.title != ""
    ensures g.title == web.title.GetOr("") || (g.title == DefaultTitle && web.title.GetOr("") == "")
  {
    GroundingSource(if web.title.Some? && web.title.value != "" then web.title.value else DefaultTitle, web.uri)
  }

  /** How many chunks carry a web page. */
  function WebCount(chunks: seq<GroundingChunk>): nat {
    if chunks == [] then 0
    else WebCount(chunks[..|chunks| - 1]) + (if chunks[|chunks| - 1].web.Some? then 1 else 0)
  }

  /** The sources pushed by the `forEach` over `chunks`, in chunk order. */
  function SourcesOf(chunks: seq<GroundingChunk>): seq<GroundingSource> {
    if chunks == [] then []
    else
      var last := chunks[|chunks| - 1];
      SourcesOf(chunks[..|chunks| - 1]) + (if last.web.Some? then [SourceOf(last.web.value)] else [])
  }

  /** The sources pushed for the chunks, or none when the reply has no chunks. */
  function CollectedSources(groundingChunks: Option<seq<GroundingChunk>>): seq<GroundingSource> {
    if groundingChunks.None? then [] else SourcesOf(groundingChunks.value)
  }

  /** The loop of the service: walk the chunks, pushing a source for each one with a web page. */
  method CollectSources(groundingChunks: Option<seq<GroundingChunk>>) returns (sources: seq<GroundingSource>)
    ensures sources == CollectedSources(groundingChunks)
  {
    sources := [];
    if groundingChunks.Some? {
      var chunks := groundingChunks.value;
      var i := 0;
      while i < |chunks|
        invariant 0 <= i <= |chunks|
        invariant sources == SourcesOf(chunks[..i])
      {
        var chunk := chunks[i];
        assert chunks[..i + 1][..i] == chunks[..i];
        if chunk.web.Some? {
          sources := sources + [SourceOf(chunk.web.value)];
        }
        i := i + 1;
      }
      assert chunks[..|chunks|] == chunks;
    }
  }

  /**
   * Exactly one source per chunk with a web page: the chunk at `k` gives the
   * source at the number of web chunks before it.
   */
  lemma {:induction false} SourcesOfOnePerWebChunk(chunks: seq<GroundingChunk>)
    ensures |SourcesOf(chunks)| == WebCount(chunks)
    ensures forall k :: 0 <= k < |chunks| && chunks[k].web.Some? ==>
              WebCount(chunks[..k]) < |SourcesOf(chunks)|
              && SourcesOf(chunks)[WebCount(chunks[..k])] == SourceOf(chunks[k].web.value)
  {
    if chunks != [] {
      var last := |chunks| - 1;
      var init := chunks[..last];
      SourcesOfOnePerWebChunk(init);
      forall k | 0 <= k < |chunks| && chunks[k].web.Some?
        ensures WebCount(chunks[..k]) < |SourcesOf(chunks)|
        ensures SourcesOf(chunks)[WebCount(chunks[..k])] == SourceOf(chunks[k].web.value)
      {
        if k < last {
          assert chunks[..k] == init[..k];
          assert init[k] == chunks[k];
        } else {
          assert chunks[..k] == init;
        }
      }
    }
  }

  /** Sources keep the order of their chunks: a later web chunk has more web chunks before it. */
  lemma {:induction false} WebCountOrdersChunks(chunks: seq<GroundingChunk>)
    ensures forall k1, k2 :: 0 <= k1 < k2 <= |chunks| && chunks[k1].web.Some? ==>
              WebCount(chunks[..k1]) < WebCount(chunks[..k2])
  {
    if chunks != [] {
      var last := |chunks| - 1;
      var init := chunks[..last];
      WebCountOrdersChunks(init);
      forall k1, k2 | 0 <= k1 < k2 <= |chunks| && chunks[k1].web.Some?
        ensures WebCount(chunks[..k1]) < WebCount(chunks[..k2])
      {
        assert chunks[..k2] == if k2 <= last then init[..k2] else chunks;
        if k1 < last {
          assert chunks[..k1] == init[..k1];
          assert init[k1] == chunks[k1];
          assert init[..last] == init;
        } else {
          assert chunks[..k1] == init;
        }
      }
    }
  }

  /** No source ever has an empty title. */
  lemma {:induction false} SourcesOfTitlesNonEmpty(chunks: seq<GroundingChunk>)
    ensures forall g :: g in SourcesOf(chunks) ==> g.title != ""
  {
    if chunks != [] {
      SourcesOfTitlesNonEmpty(chunks[..|chunks| - 1]);
    }
  }

  // ---------------------------------------------------------------------------
  // `Array.from(new Map(sources.map(s => [s.uri, s])).values())`.
  // ---------------------------------------------------------------------------

  /** The uris occurring in `entries`. */
  function UriSet(entries: seq<GroundingSource>): set<string> {
    set k | 0 <= k < |entries| :: entries[k].uri
  }

  /** No uri occurs twice. */
  predicate UrisDistinct(entries: seq<GroundingSource>) {
    forall i, j :: 0 <= i < j < |entries| ==> entries[i].uri != entries[j].uri
  }

  /** The position of the first entry with `uri`, or `|entries|` when there is none. */
  function IndexOfUri(entries: seq<GroundingSource>, uri: string): (r: nat)
    ensures r <= |entries|
    ensures r < |entries| ==> entries[r].uri == uri
    ensures forall k :: 0 <= k < r ==> entries[k].uri != uri
  {
    if entries == [] then 0
    else if entries[0].uri == uri then 0
    else 1 + IndexOfUri(entries[1..], uri)
  }

  /** `Map.prototype.set` keyed by uri: a present key keeps its place and takes the new value; a new key goes last. */
  function MapSet(entries: seq<GroundingSource>, s: GroundingSource): seq<GroundingSource> {
    var k := IndexOfUri(entries, s.uri);
    if k < |entries| then entries[k := s] else entries + [s]
  }

  /** The map's values in insertion order after setting every source in turn. */
  function Dedup(sources: seq<GroundingSource>): seq<GroundingSource> {
    if sources == [] then []
    else MapSet(Dedup(sources[..|sources| - 1]), sources[|sources| - 1])
  }

  /** The position of the last source with `uri`. */
  function LastIndex(sources: seq<GroundingSource>, uri: string): (r: nat)
    requires uri in UriSet(sources)
    ensures r < |sources| && sources[r].uri == uri
    ensures forall q :: r < q < |sources| ==> sources[q].uri != uri
  {
    var last := |sources| - 1;
    if sources[last].uri == uri then last
    else
      var k :| 0 <= k < |sources| && sources[k].uri == uri;
      assert sources[..last][k].uri == uri;
      LastIndex(sources[..last], uri)
  }

  lemma MapSetUris(entries: seq<GroundingSource>, s: GroundingSource)
    ensures UriSet(MapSet(entries, s)) == UriSet(entries) + {s.uri}
  {
    var k := IndexOfUri(entries, s.uri);
    var m := MapSet(entries, s);
    if k < |entries| {
      forall u | u in UriSet(entries) ensures u in UriSet(m) {
        var q :| 0 <= q < |entries| && entries[q].uri == u;
        assert m[q].uri == u;
      }
    } else {
      assert m[|entries|].uri == s.uri;
      forall u | u in UriSet(entries) ensures u in UriSet(m) {
        var q :| 0 <= q < |entries| && entries[q].uri == u;
        assert m[q].uri == u;
      }
    }
  }

  lemma MapSetDistinct(entries: seq<GroundingSource>, s: GroundingSource)
    requires UrisDistinct(entries)
    ensures UrisDistinct(MapSet(entries, s))
  {
  }

  /** The map holds exactly the uris of the input. */
  lemma {:induction false} DedupSameUris(sources: seq<GroundingSource>)
    ensures UriSet(Dedup(sources)) == UriSet(sources)
  {
    if sources != [] {
      var init := sources[..|sources| - 1];
      var last := sources[|sources| - 1];
      DedupSameUris(init);
      MapSetUris(Dedup(init), last);
      assert sources == init + [last];
      forall u | u in UriSet(sources) ensures u in UriSet(init) + {last.uri} {
        var q :| 0 <= q < |sources| && sources[q].uri == u;
        if q < |init| {
          assert init[q].uri == u;
        }
      }
      forall u | u in UriSet(init) ensures u in UriSet(sources) {
        var q :| 0 <= q < |init| && init[q].uri == u;
        assert sources[q].uri == u;
      }
      assert sources[|sources| - 1].uri == last.uri;
    }
  }

  /** Each uri appears once in the map's values. */
  lemma {:induction false} DedupDistinct(sources: seq<GroundingSource>)
    ensures UrisDistinct(Dedup(sources))
  {
    if sources != [] {
      DedupDistinct(sources[..|sources| - 1]);
      MapSetDistinct(Dedup(sources[..|sources| - 1]), sources[|sources| - 1]);
    }
  }

  /** Collapsing never lengthens the list. */
  lemma {:induction false} DedupNoLonger(sources: seq<GroundingSource>)
    ensures |Dedup(sources)| <= |sources|
  {
    if sources != [] {
      DedupNoLonger(sources[..|sources| - 1]);
    }
  }

  /** Appending a source leaves the first position of a uri seen before unchanged. */
  lemma IndexOfUriAppendSeen(init: seq<GroundingSource>, x: GroundingSource, u: string)
    requires u in UriSet(init)
    ensures IndexOfUri(init + [x], u) == IndexOfUri(init, u) < |init|
  {
    var q :| 0 <= q < |init| && init[q].uri == u;
    var r1, r2 := IndexOfUri(init, u), IndexOfUri(init + [x], u);
    assert (init + [x])[q].uri == u;
    assert r2 <= q;
    assert (init + [x])[r1] == init[r1] && (init + [x])[r2] == init[r2];
  }

  /** A uri first seen in the appended source is first found there. */
  lemma IndexOfUriAppendNew(init: seq<GroundingSource>, x: GroundingSource)
    requires x.uri !in UriSet(init)
    ensures IndexOfUri(init + [x], x.uri) == |init|
  {
    forall q | 0 <= q < |init| ensures (init + [x])[q].uri != x.uri {
      assert init[q].uri in UriSet(init);
    }
    assert (init + [x])[|init|].uri == x.uri;
  }

  /** Entries come in the order in which their uris first occur in the input. */
  lemma {:induction false} DedupFirstOccurrenceOrder(sources: seq<GroundingSource>)
    ensures forall i, j :: 0 <= i < j < |Dedup(sources)| ==>
              IndexOfUri(sources, Dedup(sources)[i].uri) < IndexOfUri(sources, Dedup(sources)[j].uri)
  {
    if sources != [] {
      var init := sources[..|sources| - 1];
      var last := sources[|sources| - 1];
      var prev := Dedup(init);
      var out := Dedup(sources);
      DedupFirstOccurrenceOrder(init);
      DedupSameUris(init);
      assert sources == init + [last];
      forall i | 0 <= i < |prev|
        ensures prev[i].uri in UriSet(init)
        ensures IndexOfUri(sources, prev[i].uri) == IndexOfUri(init, prev[i].uri) < |init|
      {
        assert prev[i].uri in UriSet(prev);
        IndexOfUriAppendSeen(init, last, prev[i].uri);
      }
      var k := IndexOfUri(prev, last.uri);
      if k < |prev| {
        assert out == prev[k := last];
        forall i | 0 <= i < |out| ensures out[i].uri == prev[i].uri {
        }
      } else {
        assert out == prev + [last];
        assert forall q :: 0 <= q < |prev| ==> prev[q].uri != last.uri;
        assert last.uri !in UriSet(prev);
        IndexOfUriAppendNew(init, last);
      }
    }
  }

  /** Each entry is the last input source with its uri, so the last title wins. */
  lemma {:induction false} DedupLastWins(sources: seq<GroundingSource>)
    ensures forall g :: g in Dedup(sources) ==> g.uri in UriSet(sources)
    ensures forall k :: 0 <= k < |Dedup(sources)| ==>
              Dedup(sources)[k] == sources[LastIndex(sources, Dedup(sources)[k].uri)]
  {
    DedupSameUris(sources);
    var out := Dedup(sources);
    forall g | g in out ensures g.uri in UriSet(sources) {
      var q :| 0 <= q < |out| && out[q] == g;
      assert out[q].uri in UriSet(out);
    }
    if sources != [] {
      var init := sources[..|sources| - 1];
      var last := sources[|sources| - 1];
      var prev := Dedup(init);
      DedupLastWins(init);
      DedupDistinct(init);
      assert sources == init + [last];
      forall k | 0 <= k < |out| ensures out[k] == sources[LastIndex(sources, out[k].uri)] {
        if out[k].uri == last.uri {
          assert LastIndex(sources, out[k].uri) == |init|;
          var j := IndexOfUri(prev, last.uri);
          if j < |prev| {
            assert k == j;
          }
        } else {
          assert out[k] == prev[k];
          assert prev[k] in prev;
          LastIndexBeforeLast(sources, out[k].uri);
        }
      }
    }
  }

  /** A uri other than the last source's has the same last position in the shorter list. */
  lemma LastIndexBeforeLast(sources: seq<GroundingSource>, uri: string)
    requires sources != [] && uri in UriSet(sources[..|sources| - 1])
    requires sources[|sources| - 1].uri != uri
    ensures uri in UriSet(sources)
    ensures LastIndex(sources, uri) == LastIndex(sources[..|sources| - 1], uri)
    ensures sources[LastIndex(sources, uri)] == sources[..|sources| - 1][LastIndex(sources, uri)]
  {
    var q :| 0 <= q < |sources| - 1 && sources[..|sources| - 1][q].uri == uri;
    assert sources[q].uri == uri;
  }

  /** A list whose uris are already distinct comes back unchanged. */
  lemma {:induction false} DedupKeepsDistinct(sources: seq<GroundingSource>)
    requires UrisDistinct(sources)
    ensures Dedup(sources) == sources
  {
    if sources != [] {
      var init := sources[..|sources| - 1];
      var last := sources[|sources| - 1];
      DedupKeepsDistinct(init);
      forall q | 0 <= q < |init| ensures init[q].uri != last.uri {
        assert sources[q] == init[q];
      }
      assert IndexOfUri(init, last.uri) == |init|;
      assert sources == init + [last];
    }
  }
}
