/**
 * `_extract_html`: the generated page is the body of the first fenced
 * block tagged `html`, found with the pattern ```` ```html(.*?)``` ````
 * under `re.DOTALL | re.IGNORECASE`; without such a block the whole
 * text is the page. Either way the result is stripped.
 */
module HtmlFence {
  import opened PyStrings
  import opened Chat

  const Closer: string := "```"

  /** Length of the opening fence "```html". */
  const OpenerLength: nat := 7

  /** An opening fence at `i`: three backticks and the tag `html` in any letter case. */
  predicate OpenerAt(text: string, i: nat) {
    && i + OpenerLength <= |text|
    && text[i] == '`' && text[i + 1] == '`' && text[i + 2] == '`'
    && (text[i + 3] == 'h' || text[i + 3] == 'H')
    && (text[i + 4] == 't' || text[i + 4] == 'T')
    && (text[i + 5] == 'm' || text[i + 5] == 'M')
    && (text[i + 6] == 'l' || text[i + 6] == 'L')
  }

  /** Three backticks at `j`. */
  predicate CloserAt(text: string, j: nat) {
    OccursAt(text, Closer, j)
  }

  /** The first closing fence at or after `from`, where the lazy group stops. */
  function FirstCloser(text: string, from: nat): (r: Option<nat>)
    ensures r.Some? ==> from <= r.value && CloserAt(text, r.value)
    ensures forall k :: from <= k && (r.None? || k < r.value) ==> !CloserAt(text, k)
    decreases |text| - from
  {
    if from + |Closer| > |text| then None
    else if CloserAt(text, from) then Some(from)
    else FirstCloser(text, from + 1)
  }

  /** The pattern matches when the search tries position `p`. */
  predicate MatchAt(text: string, p: nat) {
    OpenerAt(text, p) && FirstCloser(text, p + OpenerLength).Some?
  }

  /** Where the match lies: the opener's index and the closer's index. */
  datatype Fence = Fence(open: nat, close: nat)

  /** `re.search`: tries every start position from `from` on, leftmost first. */
  function FindFence(text: string, from: nat): (r: Option<Fence>)
    ensures r.Some? ==> from <= r.value.open && MatchAt(text, r.value.open)
    ensures r.Some? ==> FirstCloser(text, r.value.open + OpenerLength) == Some(r.value.close)
    ensures forall p :: from <= p && (r.None? || p < r.value.open) ==> !MatchAt(text, p)
    decreases |text| - from
  {
    if from + OpenerLength > |text| then None
    else if MatchAt(text, from) then Some(Fence(from, FirstCloser(text, from + OpenerLength).value))
    else FindFence(text, from + 1)
  }

  /**
   * `_extract_html(text)`: the stripped body of the match, or the stripped
   * text when there is none. It never fails, and its result has no white
   * space at either end.
   */
  function ExtractHtml(text: string): (r: string)
    ensures |r| > 0 ==> !IsSpace(r[0]) && !IsSpace(r[|r| - 1])
  {
    match FindFence(text, 0)
    case Some(f) => Strip(text[f.open + OpenerLength..f.close])
    case None => Strip(text)
  }

  // ---------------------------------------------------------------------
  // The same behaviour described without the search functions.

  /** Some opener is followed, anywhere later, by three backticks. */
  ghost predicate HasFence(text: string) {
    exists p: nat, q: nat :: p + OpenerLength <= q && OpenerAt(text, p) && CloserAt(text, q)
  }

  /**
   * `i` is the leftmost opener that has a closer after it, and `j` is the
   * first closer after that opener.
   */
  ghost predicate IsLeftmostFence(text: string, i: nat, j: nat) {
    && OpenerAt(text, i)
    && i + OpenerLength <= j
    && CloserAt(text, j)
    && (forall k :: i + OpenerLength <= k < j ==> !CloserAt(text, k))
    && (forall p: nat, q: nat :: p < i && p + OpenerLength <= q && OpenerAt(text, p) ==> !CloserAt(text, q))
  }

  lemma FirstCloserIs(text: string, from: nat, j: nat)
    requires from <= j && CloserAt(text, j)
    requires forall k :: from <= k < j ==> !CloserAt(text, k)
    ensures FirstCloser(text, from) == Some(j)
  {
  }

  /** The search finds exactly the leftmost fence. */
  lemma FindFenceIsLeftmost(text: string, i: nat, j: nat)
    ensures FindFence(text, 0) == Some(Fence(i, j)) <==> IsLeftmostFence(text, i, j)
  {
    if FindFence(text, 0) == Some(Fence(i, j)) {
      forall p: nat, q: nat | p < i && p + OpenerLength <= q && OpenerAt(text, p)
        ensures !CloserAt(text, q)
      {
        assert !MatchAt(text, p);
      }
    }
    if IsLeftmostFence(text, i, j) {
      FirstCloserIs(text, i + OpenerLength, j);
      assert MatchAt(text, i);
      var f := FindFence(text, 0).value;
      var c := FirstCloser(text, f.open + OpenerLength).value;
      assert OpenerAt(text, f.open) && CloserAt(text, c) && f.open + OpenerLength <= c;
      assert f.open == i;
    }
  }

  /** With a fence, the page is the stripped text between the leftmost opener and the first closer after it. */
  lemma ExtractFenced(text: string, i: nat, j: nat)
    requires IsLeftmostFence(text, i, j)
    ensures ExtractHtml(text) == Strip(text[i + OpenerLength..j])
  {
    FindFenceIsLeftmost(text, i, j);
  }

  /** Without a fence, the page is the whole stripped text. */
  lemma ExtractFallback(text: string)
    requires !HasFence(text)
    ensures ExtractHtml(text) == Strip(text)
  {
    if FindFence(text, 0).Some? {
      assert false;
    }
  }

  /** A text with a fence has a leftmost one. */
  lemma LeftmostFenceExists(text: string) returns (i: nat, j: nat)
    requires HasFence(text)
    ensures IsLeftmostFence(text, i, j)
  {
    var p: nat, q: nat :| p + OpenerLength <= q && OpenerAt(text, p) && CloserAt(text, q);
    assert MatchAt(text, p);
    var f := FindFence(text, 0).value;
    i, j := f.open, f.close;
    FindFenceIsLeftmost(text, i, j);
  }

  /** Between the leftmost opener and its closer there are no three backticks. */
  lemma InnerHasNoCloser(text: string, i: nat, j: nat)
    requires IsLeftmostFence(text, i, j)
    ensures !Contains(text[i + OpenerLength..j], Closer)
  {
    var inner := text[i + OpenerLength..j];
    forall k: nat | k + |Closer| <= |inner|
      ensures !OccursAt(inner, Closer, k)
    {
      SliceOfSlice(text, i + OpenerLength, j, k, k + |Closer|);
      assert !CloserAt(text, i + OpenerLength + k);
    }
  }

  /**
   * A page taken out of a fence never contains three backticks: the lazy
   * group ends at the first closer.
   */
  lemma FencedHasNoCloser(text: string)
    requires HasFence(text)
    ensures !Contains(ExtractHtml(text), Closer)
  {
    var i, j := LeftmostFenceExists(text);
    ExtractFenced(text, i, j);
    InnerHasNoCloser(text, i, j);
    var inner := text[i + OpenerLength..j];
    if Contains(Strip(inner), Closer) {
      ContainsInSlice(inner, StripStart(inner), StripEnd(inner), Closer);
      assert false;
    }
  }
}
