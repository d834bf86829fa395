/**
 * Locating the JSON text inside the model's reply: the two lazy regular
 * expressions tried in turn, and the global removal of triple backticks used
 * when neither finds a non-empty block.
 */
module Fences {
  import opened Wrappers

  /** A bare markdown fence. */
  const Fence: string := "```"
  /** The opening of a block labelled json, up to and including its newline. */
  const JsonOpen: string := "```json\n"
  /** The closing of a block labelled json: a newline, then a fence. */
  const JsonClose: string := "\n```"

  /** `pat` occurs in `s` starting at position `i`. */
  predicate OccursAt(s: string, pat: string, i: nat) {
    i + |pat| <= |s| && s[i..i + |pat|] == pat
  }

  /** `s` contains no triple backtick anywhere. */
  predicate NoFence(s: string) {
    forall i: nat | i < |s| :: !OccursAt(s, Fence, i)
  }

  // ---------------------------------------------------------------------------
  // The meaning of a pattern `open([\s\S]*?)close` under JavaScript's
  // backtracking matcher: start positions are tried from the left, and at the
  // first start that can match, the shortest content is taken.
  // ---------------------------------------------------------------------------

  /** The opening token at `i` and the closing token at `j`, not overlapping it. */
  ghost predicate IsMatch(s: string, open: string, close: string, i: nat, j: nat) {
    OccursAt(s, open, i) && i + |open| <= j && OccursAt(s, close, j)
  }

  /** The match `String.prototype.match` reports: leftmost start, then lazy content. */
  ghost predicate IsLeftmostLazy(s: string, open: string, close: string, i: nat, j: nat) {
    && IsMatch(s, open, close, i, j)
    && (forall i': nat, j': nat :: i' < i ==> !IsMatch(s, open, close, i', j'))
    && (forall j': nat :: j' < j ==> !IsMatch(s, open, close, i, j'))
  }

  /** The text of capture group 1 for the match found at (`i`, `j`). */
  function Captured(s: string, open: string, i: nat, j: nat): string
    requires i + |open| <= j <= |s|
  {
    s[i + |open|..j]
  }

  // ---------------------------------------------------------------------------
  // The same search written as two substring scans.
  // ---------------------------------------------------------------------------

  /** The first position at or after `from` where `pat` occurs. */
  function IndexOf(s: string, pat: string, from: nat): (r: Option<nat>)
    ensures r.Some? ==> from <= r.value && OccursAt(s, pat, r.value)
    ensures r.Some? ==> forall k: nat :: from <= k < r.value ==> !OccursAt(s, pat, k)
    ensures r.None? ==> forall k: nat :: from <= k ==> !OccursAt(s, pat, k)
    decreases |s| - from
  {
    if |s| < from + |pat| then None
    else if OccursAt(s, pat, from) then Some(from)
    else IndexOf(s, pat, from + 1)
  }

  /** The first `open`, then the first `close` at or after its end; the text between. */
  function FirstFenced(s: string, open: string, close: string): (r: Option<string>)
    ensures r.Some? ==> |open| + |r.value| + |close| <= |s|
  {
    match IndexOf(s, open, 0)
    case None => None
    case Some(i) =>
      match IndexOf(s, close, i + |open|)
      case None => None
      case Some(j) => Some(s[i + |open|..j])
  }

  /**
   * The scan finds exactly the regular expression's match: nothing when the
   * pattern matches nowhere, otherwise the capture of the leftmost-lazy match.
   */
  lemma FirstFencedIsRegexMatch(s: string, open: string, close: string)
    ensures FirstFenced(s, open, close).None? <==> forall i: nat, j: nat :: !IsMatch(s, open, close, i, j)
    ensures FirstFenced(s, open, close).Some? ==>
              exists i: nat, j: nat :: IsLeftmostLazy(s, open, close, i, j)
                                       && FirstFenced(s, open, close).value == Captured(s, open, i, j)
  {
    match IndexOf(s, open, 0)
    case None =>
    case Some(i) =>
      match IndexOf(s, close, i + |open|)
      case None =>
        forall i': nat, j': nat ensures !IsMatch(s, open, close, i', j') {
          if OccursAt(s, open, i') && i' + |open| <= j' {
            assert i + |open| <= j';
          }
        }
      case Some(j) =>
        assert IsMatch(s, open, close, i, j);
        assert IsLeftmostLazy(s, open, close, i, j);
  }

  /** The leftmost-lazy match is unique, so "the" match is well defined. */
  lemma LeftmostLazyUnique(s: string, open: string, close: string, i: nat, j: nat, i': nat, j': nat)
    requires IsLeftmostLazy(s, open, close, i, j)
    requires IsLeftmostLazy(s, open, close, i', j')
    ensures i == i' && j == j'
  {
  }

  /** `text.match(/```json\n([\s\S]*?)\n```/)`, as its capture group. */
  function JsonFenceMatch(text: string): (m: Option<string>)
    ensures m.None? <==> forall a: nat, b: nat :: !IsMatch(text, JsonOpen, JsonClose, a, b)
    ensures m.Some? ==> exists i: nat, j: nat :: IsLeftmostLazy(text, JsonOpen, JsonClose, i, j)
                                                 && m.value == Captured(text, JsonOpen, i, j)
  {
    FirstFencedIsRegexMatch(text, JsonOpen, JsonClose);
    FirstFenced(text, JsonOpen, JsonClose)
  }

  /** `text.match(/```([\s\S]*?)```/)`, as its capture group. */
  function GenericFenceMatch(text: string): (m: Option<string>)
    ensures m.None? <==> forall a: nat, b: nat :: !IsMatch(text, Fence, Fence, a, b)
    ensures m.Some? ==> exists i: nat, j: nat :: IsLeftmostLazy(text, Fence, Fence, i, j)
                                                 && m.value == Captured(text, Fence, i, j)
  {
    FirstFencedIsRegexMatch(text, Fence, Fence);
    FirstFenced(text, Fence, Fence)
  }

  /** The two patterns joined by `||`: the generic one only when the json one has no match at all. */
  function FenceMatch(text: string): (m: Option<string>)
    ensures m.None? <==> (forall a: nat, b: nat :: !IsMatch(text, JsonOpen, JsonClose, a, b))
                         && (forall a: nat, b: nat :: !IsMatch(text, Fence, Fence, a, b))
    ensures (exists a: nat, b: nat :: IsMatch(text, JsonOpen, JsonClose, a, b)) ==> m == JsonFenceMatch(text)
    ensures (forall a: nat, b: nat :: !IsMatch(text, JsonOpen, JsonClose, a, b)) ==> m == GenericFenceMatch(text)
  {
    match JsonFenceMatch(text)
    case Some(c) => Some(c)
    case None => GenericFenceMatch(text)
  }

  // ---------------------------------------------------------------------------
  // `text.replace(/```/g, '')`: occurrences removed left to right, each scan
  // resuming after the one just removed.
  // ---------------------------------------------------------------------------

  function StripFences(s: string): (r: string)
    ensures |r| <= |s|
  {
    if s == [] then []
    else if OccursAt(s, Fence, 0) then StripFences(s[|Fence|..])
    else [s[0]] + StripFences(s[1..])
  }

  /** A fence at `i` is three backticks there. */
  lemma FenceAt(s: string, i: nat)
    ensures OccursAt(s, Fence, i) <==> i + 3 <= |s| && s[i] == '`' && s[i + 1] == '`' && s[i + 2] == '`'
  {
    if i + 3 <= |s| {
      assert s[i..i + 3] == [s[i], s[i + 1], s[i + 2]];
    }
  }

  /** A `"\n```"` at `j` is a newline followed by three backticks. */
  lemma CloseAt(s: string, j: nat)
    ensures OccursAt(s, JsonClose, j) <==>
              j + 4 <= |s| && s[j] == '\n' && s[j + 1] == '`' && s[j + 2] == '`' && s[j + 3] == '`'
  {
    if j + 4 <= |s| {
      assert s[j..j + 4] == [s[j], s[j + 1], s[j + 2], s[j + 3]];
    }
  }

  /** A backtick at the head of the stripped text was a backtick at the head of the input. */
  lemma StripFencesHead(s: string)
    requires StripFences(s) != [] && StripFences(s)[0] == '`'
    ensures s != [] && s[0] == '`'
  {
    FenceAt(s, 0);
  }

  /** Two backticks at the head of the stripped text were two at the head of the input. */
  lemma StripFencesHeadPair(s: string)
    requires |StripFences(s)| >= 2 && StripFences(s)[0] == '`' && StripFences(s)[1] == '`'
    ensures |s| >= 2 && s[0] == '`' && s[1] == '`'
  {
    FenceAt(s, 0);
    if !OccursAt(s, Fence, 0) {
      assert StripFences(s) == [s[0]] + StripFences(s[1..]);
      StripFencesHead(s[1..]);
    }
  }

  /** No triple backtick survives the global replacement, even where removals join backticks up. */
  lemma {:induction false} StripFencesRemovesAll(s: string)
    ensures NoFence(StripFences(s))
  {
    if s == [] {
    } else if OccursAt(s, Fence, 0) {
      StripFencesRemovesAll(s[|Fence|..]);
    } else {
      var rest := StripFences(s[1..]);
      StripFencesRemovesAll(s[1..]);
      var r := [s[0]] + rest;
      assert StripFences(s) == r;
      FenceAt(s, 0);
      forall i: nat | i < |r| ensures !OccursAt(r, Fence, i) {
        FenceAt(r, i);
        if i == 0 {
          if |rest| >= 2 && rest[0] == '`' && rest[1] == '`' {
            StripFencesHeadPair(s[1..]);
          }
        } else {
          FenceAt(rest, i - 1);
        }
      }
    }
  }

  /** Text without a triple backtick, in particular text with no backtick, is passed on unchanged. */
  lemma {:induction false} StripFencesKeepsFenceFree(s: string)
    requires NoFence(s)
    ensures StripFences(s) == s
  {
    if s != [] {
      assert !OccursAt(s, Fence, 0);
      forall i: nat | i < |s[1..]| ensures !OccursAt(s[1..], Fence, i) {
        FenceAt(s, i + 1);
        FenceAt(s[1..], i);
      }
      StripFencesKeepsFenceFree(s[1..]);
    }
  }

  /** The characters of `s` other than backticks, in order. */
  function NonTicks(s: string): string {
    if s == [] then [] else (if s[0] == '`' then [] else [s[0]]) + NonTicks(s[1..])
  }

  /** Only backticks are removed: every other character survives, in order. */
  lemma {:induction false} StripFencesKeepsNonTicks(s: string)
    ensures NonTicks(StripFences(s)) == NonTicks(s)
  {
    if s == [] {
    } else if OccursAt(s, Fence, 0) {
      StripFencesKeepsNonTicks(s[3..]);
      FenceAt(s, 0);
      assert s[1..][1..][1..] == s[3..];
      assert NonTicks(s) == NonTicks(s[1..]);
      assert NonTicks(s[1..]) == NonTicks(s[1..][1..]);
      assert NonTicks(s[1..][1..]) == NonTicks(s[3..]);
    } else {
      StripFencesKeepsNonTicks(s[1..]);
      var r := [s[0]] + StripFences(s[1..]);
      assert r[1..] == StripFences(s[1..]);
    }
  }

  /** A character other than a backtick splits the replacement: each side is stripped on its own. */
  lemma {:induction false} StripFencesSplit(a: string, c: char, b: string)
    requires c != '`'
    ensures StripFences(a + [c] + b) == StripFences(a) + [c] + StripFences(b)
  {
    var s := a + [c] + b;
    FenceAt(s, 0);
    FenceAt(a, 0);
    if a == [] {
      assert s[1..] == b;
    } else if OccursAt(a, Fence, 0) {
      assert s[..3] == a[..3];
      assert s[3..] == a[3..] + [c] + b;
      StripFencesSplit(a[3..], c, b);
    } else {
      assert s[|a|] == c;
      assert s[1..] == a[1..] + [c] + b;
      StripFencesSplit(a[1..], c, b);
    }
  }

  /** A run of `n` backticks loses three at a time from the left: `n % 3` of them remain. */
  lemma {:induction false} StripFencesTickRun(n: nat)
    ensures StripFences(seq(n, _ => '`')) == seq(n % 3, _ => '`')
  {
    var t: string := seq(n, _ => '`');
    if n >= 3 {
      assert t[..3] == Fence;
      assert t[3..] == seq(n - 3, _ => '`');
      StripFencesTickRun(n - 3);
    } else if n > 0 {
      assert t[1..] == seq(n - 1, _ => '`');
      StripFencesTickRun(n - 1);
      assert [t[0]] + seq(n - 1, _ => '`') == seq(n, _ => '`');
    }
  }

  /** Replacing a second time changes nothing. */
  lemma StripFencesIdempotent(s: string)
    ensures StripFences(StripFences(s)) == StripFences(s)
  {
    StripFencesRemovesAll(s);
    StripFencesKeepsFenceFree(StripFences(s));
  }

  // ---------------------------------------------------------------------------
  // The string handed to JSON.parse.
  // ---------------------------------------------------------------------------

  /** The capture when a pattern matched with non-empty content, otherwise the stripped text. */
  function ParserInput(text: string): (r: string)
    ensures |r| <= |text|
    ensures NoFence(r) || (FenceMatch(text).Some? && r == FenceMatch(text).value != "")
  {
    StripFencesRemovesAll(text);
    var m := FenceMatch(text);
    if m.Some? && m.value != "" then m.value else StripFences(text)
  }

  /**
   * A json-labelled block decides: the parser receives exactly the content of
   * the leftmost-lazy match, whatever generic fences the text also holds.
   */
  lemma JsonFenceWins(text: string, i: nat, j: nat)
    requires IsLeftmostLazy(text, JsonOpen, JsonClose, i, j)
    requires i + |JsonOpen| < j
    ensures ParserInput(text) == text[i + |JsonOpen|..j]
  {
    FirstFencedIsRegexMatch(text, JsonOpen, JsonClose);
    var i', j' :| IsLeftmostLazy(text, JsonOpen, JsonClose, i', j')
                 && JsonFenceMatch(text).value == Captured(text, JsonOpen, i', j');
    LeftmostLazyUnique(text, JsonOpen, JsonClose, i, j, i', j');
  }

  /**
   * Only when the json-labelled pattern matches nowhere is the generic pattern
   * used; its capture keeps any language tag after the opening fence.
   */
  lemma GenericFenceFallback(text: string, i: nat, j: nat)
    requires forall a: nat, b: nat :: !IsMatch(text, JsonOpen, JsonClose, a, b)
    requires IsLeftmostLazy(text, Fence, Fence, i, j)
    requires i + |Fence| < j
    ensures ParserInput(text) == text[i + |Fence|..j]
  {
    FirstFencedIsRegexMatch(text, JsonOpen, JsonClose);
    FirstFencedIsRegexMatch(text, Fence, Fence);
    var i', j' :| IsLeftmostLazy(text, Fence, Fence, i', j')
                 && GenericFenceMatch(text).value == Captured(text, Fence, i', j');
    LeftmostLazyUnique(text, Fence, Fence, i, j, i', j');
  }

  /** With neither pattern matching, the parser receives the text with every fence removed. */
  lemma RawTextFallback(text: string)
    requires forall a: nat, b: nat :: !IsMatch(text, JsonOpen, JsonClose, a, b)
    requires forall a: nat, b: nat :: !IsMatch(text, Fence, Fence, a, b)
    ensures ParserInput(text) == StripFences(text)
    ensures NoFence(ParserInput(text))
  {
    FirstFencedIsRegexMatch(text, JsonOpen, JsonClose);
    FirstFencedIsRegexMatch(text, Fence, Fence);
    StripFencesRemovesAll(text);
  }

  /**
   * An empty json-labelled block is falsy: the raw-text branch is taken, and
   * the generic pattern is never consulted even if it would match.
   */
  lemma EmptyJsonFenceUsesRawText(text: string, i: nat)
    requires IsLeftmostLazy(text, JsonOpen, JsonClose, i, i + |JsonOpen|)
    ensures ParserInput(text) == StripFences(text)
  {
    FirstFencedIsRegexMatch(text, JsonOpen, JsonClose);
    var i', j' :| IsLeftmostLazy(text, JsonOpen, JsonClose, i', j')
                 && JsonFenceMatch(text).value == Captured(text, JsonOpen, i', j');
    LeftmostLazyUnique(text, JsonOpen, JsonClose, i, i + |JsonOpen|, i', j');
  }

  /**
   * An empty generic block (the json-labelled pattern matching nowhere) is
   * falsy too: the parser receives the stripped text.
   */
  lemma EmptyGenericFenceUsesRawText(text: string, i: nat)
    requires forall a: nat, b: nat :: !IsMatch(text, JsonOpen, JsonClose, a, b)
    requires IsLeftmostLazy(text, Fence, Fence, i, i + |Fence|)
    ensures ParserInput(text) == StripFences(text)
  {
    FirstFencedIsRegexMatch(text, JsonOpen, JsonClose);
    FirstFencedIsRegexMatch(text, Fence, Fence);
    var i', j' :| IsLeftmostLazy(text, Fence, Fence, i', j')
                 && GenericFenceMatch(text).value == Captured(text, Fence, i', j');
    LeftmostLazyUnique(text, Fence, Fence, i, i + |Fence|, i', j');
  }

  /** A text with no backtick at all reaches the parser verbatim. */
  lemma BacktickFreeTextVerbatim(text: string)
    requires forall k :: 0 <= k < |text| ==> text[k] != '`'
    ensures ParserInput(text) == text
  {
    assert NoFence(text) by {
      forall i: nat | i < |text| ensures !OccursAt(text, Fence, i) {
        FenceAt(text, i);
      }
    }
    forall a: nat, b: nat ensures !IsMatch(text, JsonOpen, JsonClose, a, b) {
      if a + |JsonOpen| <= |text| {
        assert text[a..a + |JsonOpen|][0] == text[a];
      }
    }
    RawTextFallback(text);
    StripFencesKeepsFenceFree(text);
  }

  /** No json-labelled match is possible in a text without a newline. */
  lemma NoNewlineNoJsonMatch(text: string)
    requires forall k :: 0 <= k < |text| ==> text[k] != '\n'
    ensures forall a: nat, b: nat :: !IsMatch(text, JsonOpen, JsonClose, a, b)
  {
    forall a: nat, b: nat ensures !IsMatch(text, JsonOpen, JsonClose, a, b) {
      if a + |JsonOpen| <= |text| {
        assert text[a..a + |JsonOpen|][7] == text[a + 7];
      }
    }
  }

  /**
   * The generic pattern does not exclude a language tag: a one-line block
   * such as "```json [..]```" hands the parser its content, tag included.
   */
  lemma GenericFenceKeepsLanguageTag(content: string)
    requires content != ""
    requires forall k :: 0 <= k < |content| ==> content[k] != '`' && content[k] != '\n'
    ensures ParserInput(Fence + content + Fence) == content
  {
    var text := Fence + content + Fence;
    var j := |Fence| + |content|;
    assert text[..3] == Fence && text[j..j + 3] == Fence;
    assert text[3..j] == content;
    forall k | 0 <= k < |text| ensures text[k] != '\n' {
      if 3 <= k < j {
        assert text[k] == content[k - 3];
      }
    }
    NoNewlineNoJsonMatch(text);
    forall j': nat | j' < j ensures !IsMatch(text, Fence, Fence, 0, j') {
      FenceAt(text, j');
      if 3 <= j' {
        assert text[j'] == content[j' - 3];
      }
    }
    assert IsLeftmostLazy(text, Fence, Fence, 0, j);
    GenericFenceFallback(text, 0, j);
  }

  /** The instance from the source's own prompt format, written on one line. */
  lemma TaggedOneLineBlock()
    ensures ParserInput("```json [1]```") == "json [1]"
  {
    var content := "json [1]";
    assert "```json [1]```" == Fence + content + Fence;
    GenericFenceKeepsLanguageTag(content);
  }
}
