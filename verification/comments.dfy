/** The comment record the dashboard keeps, and how it is built from the
    analysis backend's response (`processBackendResponse`) and changed by
    the flag toggle of the comments table. */
module Comments {
  import opened Wrappers
  import opened Strings

  /** Characters of the comment kept in its summary. */
  const SummaryLength: nat := 75
  const Ellipsis: string := "..."
  /** Number of word-cloud keywords attached to every comment. */
  const KeywordLimit: nat := 5
  /** The backend sends no provision, so every comment gets this one. */
  const PlaceholderProvision: string := "General Comment"

  datatype Comment = Comment(
    id: nat,
    text: string,
    sentiment: string,
    summary: string,
    keywords: seq<string>,
    provision: string,
    flagged: bool)

  /** One entry of the backend's `individual_results`. */
  datatype ResultItem = ResultItem(comment: string, sentiment: string)

  /** One entry of the backend's `wordcloud_data`, in the order in which
      `Object.keys` enumerates the object. */
  datatype WordCount = WordCount(keyword: string, count: int)

  /** The parsed JSON body of a successful `/analyze` call; a missing or
      null field is `None`. `overallDistribution` holds the backend's own
      sentiment counts, which the dashboard only displays; what matters
      here is whether it is there at all. */
  datatype BackendResponse = BackendResponse(
    individualResults: Option<seq<ResultItem>>,
    wordcloud: Option<seq<WordCount>>,
    overallDistribution: Option<map<string, int>>)

  /** `x || []`: a missing list reads as the empty one. */
  function OrEmpty<T>(xs: Option<seq<T>>): seq<T>
  {
    if xs.Some? then xs.value else []
  }

  /** The table's one-line summary: the first 75 characters of the comment,
      followed by an ellipsis only when something was cut off. */
  function Summarize(text: string): (r: string)
    ensures |r| <= SummaryLength + |Ellipsis|
    ensures |text| <= SummaryLength ==> r == text
    ensures |text| > SummaryLength ==>
      |r| == SummaryLength + |Ellipsis| && r[..SummaryLength] == text[..SummaryLength]
      && r[SummaryLength..] == Ellipsis
  {
    Substring(text, 0, SummaryLength) + (if |text| > SummaryLength then Ellipsis else "")
  }

  /** The summary is the text itself exactly when nothing was cut, or when
      the cut-off tail happens to be the ellipsis. */
  lemma SummaryIsTextIff(text: string)
    ensures Summarize(text) == text <==>
      |text| <= SummaryLength
      || (|text| == SummaryLength + |Ellipsis| && text[SummaryLength..] == Ellipsis)
  {
    if |text| > SummaryLength && Summarize(text) == text {
      assert |text| == |Summarize(text)|;
    }
    if |text| == SummaryLength + |Ellipsis| && text[SummaryLength..] == Ellipsis {
      assert text == text[..SummaryLength] + text[SummaryLength..];
    }
  }

  /** `Object.keys(data.wordcloud_data || {}).slice(0, 5)`. */
  function TopKeywords(wordcloud: Option<seq<WordCount>>): (r: seq<string>)
    ensures |r| == Min(KeywordLimit, |OrEmpty(wordcloud)|)
    ensures forall i :: 0 <= i < |r| ==> r[i] == OrEmpty(wordcloud)[i].keyword
  {
    var entries := OrEmpty(wordcloud);
    var keys := seq(|entries|, i requires 0 <= i < |entries| => entries[i].keyword);
    keys[..Min(KeywordLimit, |keys|)]
  }

  /** The comment built from the `index`-th backend result. */
  function ToComment(item: ResultItem, index: nat, keywords: seq<string>): Comment
  {
    Comment(
      id := index + 1,
      text := item.comment,
      sentiment := Lower(item.sentiment),
      summary := Summarize(item.comment),
      keywords := keywords,
      provision := PlaceholderProvision,
      flagged := false)
  }

  /** The new comment list made from a backend response: one comment per
      result, in order, numbered from 1, unflagged, all sharing the top
      keywords and the placeholder provision. */
  function ProcessBackendResponse(data: BackendResponse): (r: seq<Comment>)
    ensures |r| == |OrEmpty(data.individualResults)|
    ensures forall i :: 0 <= i < |r| ==>
      var item := OrEmpty(data.individualResults)[i];
      && r[i].id == i + 1
      && r[i].text == item.comment
      && r[i].sentiment == Lower(item.sentiment)
      && r[i].summary == Summarize(item.comment)
      && r[i].keywords == TopKeywords(data.wordcloud)
      && r[i].provision == PlaceholderProvision
      && !r[i].flagged
  {
    var items := OrEmpty(data.individualResults);
    var keywords := TopKeywords(data.wordcloud);
    seq(|items|, i requires 0 <= i < |items| => ToComment(items[i], i, keywords))
  }

  /** No two comments share an id. */
  predicate IdsDistinct(cs: seq<Comment>)
  {
    forall i, j :: 0 <= i < j < |cs| ==> cs[i].id != cs[j].id
  }

  /** The shape every comment of a processed response has. */
  predicate WellFormed(c: Comment)
  {
    && c.id >= 1
    && c.summary == Summarize(c.text)
    && IsLower(c.sentiment)
    && |c.keywords| <= KeywordLimit
    && c.provision == PlaceholderProvision
  }

  /** A processed response has distinct ids and well-formed comments. */
  lemma ProcessedIsWellFormed(data: BackendResponse)
    ensures IdsDistinct(ProcessBackendResponse(data))
    ensures forall c :: c in ProcessBackendResponse(data) ==> WellFormed(c)
  {
  }

  /** `cs.find(c => c.id === id)`, as a position. */
  function FindById(cs: seq<Comment>, id: nat): (r: Option<nat>)
    ensures r.Some? ==> r.value < |cs| && cs[r.value].id == id
    ensures r.Some? ==> forall k :: 0 <= k < r.value ==> cs[k].id != id
    ensures r.None? ==> forall k :: 0 <= k < |cs| ==> cs[k].id != id
  {
    if |cs| == 0 then None
    else if cs[0].id == id then Some(0)
    else match FindById(cs[1..], id)
      case None => None
      case Some(k) => Some(k + 1)
  }

  /** Position `j` holds the first comment with this id. */
  predicate FirstWithId(cs: seq<Comment>, id: nat, j: int)
  {
    0 <= j < |cs| && cs[j].id == id && forall k :: 0 <= k < j ==> cs[k].id != id
  }

  function Flip(c: Comment): Comment
  {
    c.(flagged := !c.flagged)
  }

  /** Clicking a row's flag button: `find` the first comment carrying the
      row's id and invert its flag. When no comment carries it the handler
      fails on `undefined` before changing anything. */
  function ToggleFlag(cs: seq<Comment>, id: nat): (r: seq<Comment>)
    ensures |r| == |cs|
    ensures forall j :: 0 <= j < |cs| ==> r[j].(flagged := cs[j].flagged) == cs[j]
    ensures forall j :: 0 <= j < |cs| ==> (r[j].flagged != cs[j].flagged <==> FirstWithId(cs, id, j))
  {
    match FindById(cs, id)
    case None => cs
    case Some(j) => cs[j := Flip(cs[j])]
  }

  /** Toggling an id no comment carries changes nothing. */
  lemma ToggleAbsent(cs: seq<Comment>, id: nat)
    requires forall c :: c in cs ==> c.id != id
    ensures ToggleFlag(cs, id) == cs
  {
  }

  /** Toggling a list with a known head. */
  lemma ToggleCons(c: Comment, cs: seq<Comment>, id: nat)
    ensures ToggleFlag([c] + cs, id) == if c.id == id then [Flip(c)] + cs else [c] + ToggleFlag(cs, id)
  {
    var l := [c] + cs;
    assert l[1..] == cs;
    forall j | 0 < j < |l|
      ensures FirstWithId(l, id, j) <==> c.id != id && FirstWithId(cs, id, j - 1)
    {
      assert l[j] == cs[j - 1];
      if FirstWithId(l, id, j) {
        assert l[0] == c;
        forall k | 0 <= k < j - 1
          ensures cs[k].id != id
        {
          assert l[k + 1] == cs[k];
        }
      }
      if c.id != id && FirstWithId(cs, id, j - 1) {
        forall k | 0 < k < j
          ensures l[k].id != id
        {
          assert l[k] == cs[k - 1];
        }
      }
    }
  }

  /** Toggling the same comment twice restores the list. */
  lemma ToggleTwice(cs: seq<Comment>, id: nat)
    ensures ToggleFlag(ToggleFlag(cs, id), id) == cs
  {
    var once := ToggleFlag(cs, id);
    var twice := ToggleFlag(once, id);
    forall j | 0 <= j < |cs|
      ensures twice[j] == cs[j]
    {
      assert FirstWithId(once, id, j) <==> FirstWithId(cs, id, j);
    }
  }

  /** In a processed response, toggling id `k` flips exactly comment `k`
      (the one at position `k - 1`), and an id outside `1..n` changes
      nothing. */
  lemma ToggleProcessed(data: BackendResponse, k: nat)
    ensures var cs := ProcessBackendResponse(data);
      forall j :: 0 <= j < |cs| ==> (ToggleFlag(cs, k)[j].flagged <==> j == k - 1)
  {
  }
}
