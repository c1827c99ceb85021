/**
 * The text helpers of the note card (frontend/components/AdvancedNoteCard.js):
 * the 200-character preview and the word count shown on each card.
 */
module NoteCard {
  import JsString
  import Chars

  const PREVIEW_LENGTH: nat := 200

  /** `content.substring(0, 200) + (content.length > 200 ? '...' : '')`. */
  function GetPreview(content: string): (r: string)
    ensures |content| <= PREVIEW_LENGTH ==> r == content
    ensures |content| > PREVIEW_LENGTH ==> |r| == PREVIEW_LENGTH + 3 && r == content[..PREVIEW_LENGTH] + "..."
    ensures |content| <= PREVIEW_LENGTH ==> content <= r
    ensures |content| > PREVIEW_LENGTH ==> content[..PREVIEW_LENGTH] <= r
  {
    var cut := if |content| < PREVIEW_LENGTH then |content| else PREVIEW_LENGTH;
    content[..cut] + (if |content| > PREVIEW_LENGTH then "..." else "")
  }

  /** A preview is its own preview. */
  lemma PreviewIdempotent(content: string)
    ensures GetPreview(GetPreview(content)) == GetPreview(content)
  {
    var p := GetPreview(content);
    if |content| > PREVIEW_LENGTH {
      assert p[..PREVIEW_LENGTH] == content[..PREVIEW_LENGTH];
    }
  }

  /** Length of the leading run of characters that are not whitespace. */
  function WordPrefix(s: string): (k: nat)
    ensures k <= |s|
    ensures forall i :: 0 <= i < k ==> !JsString.IsJsWhitespace(s[i])
    ensures k < |s| ==> JsString.IsJsWhitespace(s[k])
  {
    if s == [] || JsString.IsJsWhitespace(s[0]) then 0 else 1 + WordPrefix(s[1..])
  }

  /** Length of the leading run of whitespace. */
  function SpacePrefix(s: string): (k: nat)
    ensures k <= |s|
    ensures forall i :: 0 <= i < k ==> JsString.IsJsWhitespace(s[i])
    ensures k < |s| ==> !JsString.IsJsWhitespace(s[k])
    ensures s != [] && JsString.IsJsWhitespace(s[0]) ==> k >= 1
  {
    if s == [] || !JsString.IsJsWhitespace(s[0]) then 0 else 1 + SpacePrefix(s[1..])
  }

  /**
   * `t.split(/\s+/)`: the pieces between maximal runs of whitespace, with an
   * empty piece before a leading run and after a trailing one; the empty
   * string splits into one empty piece.
   */
  function SplitWs(t: string): (pieces: seq<string>)
    ensures |pieces| >= 1
    decreases |t|
  {
    var k := WordPrefix(t);
    if k == |t| then [t]
    else
      var rest := t[k..];
      [t[..k]] + SplitWs(rest[SpacePrefix(rest)..])
  }

  /** `content.trim().split(/\s+/).length`. */
  function GetWordCount(content: string): (n: nat)
    ensures n >= 1
  {
    |SplitWs(JsString.Trim(content))|
  }

  /** The number of words: maximal runs of characters that are not whitespace. */
  function CountWords(s: string): nat
    decreases |s|
  {
    if s == [] then 0
    else if JsString.IsJsWhitespace(s[0]) then CountWords(s[1..])
    else 1 + CountWords(s[WordPrefix(s)..])
  }

  lemma {:induction false} CountWordsSkipSpace(s: string, w: nat)
    requires w <= |s| && forall i :: 0 <= i < w ==> JsString.IsJsWhitespace(s[i])
    ensures CountWords(s) == CountWords(s[w..])
  {
    if w > 0 {
      CountWordsSkipSpace(s[1..], w - 1);
      assert s[1..][w - 1..] == s[w..];
    }
  }

  lemma {:induction false} CountWordsTrailingSpace(t: string, w: string)
    requires forall i :: 0 <= i < |w| ==> JsString.IsJsWhitespace(w[i])
    ensures CountWords(t + w) == CountWords(t)
    decreases |t|
  {
    if t == [] {
      assert t + w == w;
      CountWordsSkipSpace(w, |w|);
    } else if JsString.IsJsWhitespace(t[0]) {
      assert (t + w)[1..] == t[1..] + w;
      CountWordsTrailingSpace(t[1..], w);
    } else {
      var k := WordPrefix(t);
      assert WordPrefix(t + w) == k by {
        WordPrefixExtend(t, w);
      }
      assert (t + w)[k..] == t[k..] + w;
      CountWordsTrailingSpace(t[k..], w);
    }
  }

  lemma {:induction false} WordPrefixExtend(t: string, w: string)
    requires w == [] || JsString.IsJsWhitespace(w[0])
    ensures WordPrefix(t + w) == WordPrefix(t)
    decreases |t|
  {
    if t == [] {
      assert t + w == w;
    } else if !JsString.IsJsWhitespace(t[0]) {
      assert (t + w)[1..] == t[1..] + w;
      WordPrefixExtend(t[1..], w);
    }
  }

  /** On text that begins and ends with a word, splitting gives one piece per word. */
  lemma {:induction false} SplitCountsWords(t: string)
    requires t != [] && !JsString.IsJsWhitespace(t[0]) && !JsString.IsJsWhitespace(t[|t| - 1])
    ensures |SplitWs(t)| == CountWords(t)
    decreases |t|
  {
    var k := WordPrefix(t);
    if k == |t| {
      assert t[k..] == [];
    } else {
      var rest := t[k..];
      var w := SpacePrefix(rest);
      var u := rest[w..];
      assert rest[|rest| - 1] == t[|t| - 1];
      assert u[|u| - 1] == t[|t| - 1];
      CountWordsSkipSpace(rest, w);
      SplitCountsWords(u);
    }
  }

  /** Whitespace around the text does not change the number of words. */
  lemma CountWordsTrim(s: string)
    ensures CountWords(JsString.Trim(s)) == CountWords(s)
  {
    CountWordsAround(s, Chars.StripStart(s, JsString.IsJsWhitespace), JsString.Trim(s));
  }

  /** Text between two runs of whitespace has the words of the whole. */
  lemma CountWordsAround(s: string, a: nat, r: string)
    requires a + |r| <= |s| && r == s[a..a + |r|]
    requires forall i :: 0 <= i < a ==> JsString.IsJsWhitespace(s[i])
    requires forall i :: a + |r| <= i < |s| ==> JsString.IsJsWhitespace(s[i])
    ensures CountWords(r) == CountWords(s)
  {
    CountWordsSkipSpace(s, a);
    var tail := s[a + |r|..];
    assert s[a..] == r + tail;
    forall i | 0 <= i < |tail|
      ensures JsString.IsJsWhitespace(tail[i])
    {
      assert tail[i] == s[a + |r| + i];
    }
    CountWordsTrailingSpace(r, tail);
  }

  /** For content with at least one word, the card shows the number of words. */
  lemma WordCountCountsWords(content: string)
    requires exists i :: 0 <= i < |content| && !JsString.IsJsWhitespace(content[i])
    ensures GetWordCount(content) == CountWords(content)
  {
    var t := JsString.Trim(content);
    CountWordsTrim(content);
    SplitCountsWords(t);
  }

  /** Blank content, which has no words, is shown as one word. */
  lemma BlankWordCount(content: string)
    requires forall i :: 0 <= i < |content| ==> JsString.IsJsWhitespace(content[i])
    ensures CountWords(content) == 0
    ensures GetWordCount(content) == 1
  {
    CountWordsSkipSpace(content, |content|);
  }
}
