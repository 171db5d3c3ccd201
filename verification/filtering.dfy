/** The search box and sentiment drop-down of the comments table
    (`handleFilterAndSearch`): which comments the table shows. */
module Filtering {
  import opened Strings
  import opened Comments

  /** The drop-down value that lets every sentiment through. */
  const AllSentiments: string := "all"

  /** The comment mentions the (already lower-cased) search text in its text,
      summary, provision or one of its keywords, ignoring case. An empty
      search matches everything. */
  predicate MatchesSearch(c: Comment, searchText: string)
  {
    || searchText == ""
    || Contains(Lower(c.text), searchText)
    || Contains(Lower(c.summary), searchText)
    || Contains(Lower(c.provision), searchText)
    || exists k :: k in c.keywords && Contains(Lower(k), searchText)
  }

  /** The drop-down is `all` or names the comment's sentiment exactly. */
  predicate MatchesSentiment(c: Comment, sentimentValue: string)
  {
    sentimentValue == AllSentiments || c.sentiment == sentimentValue
  }

  /** The per-comment test of the filter; the search box's value is
      lower-cased once, the drop-down's value is compared as it is. */
  predicate Keep(c: Comment, search: string, sentimentValue: string)
  {
    MatchesSearch(c, Lower(search)) && MatchesSentiment(c, sentimentValue)
  }

  /** `a` is `b` with some elements left out, the rest in their order. */
  predicate IsSubsequence<T(==)>(a: seq<T>, b: seq<T>)
    decreases |b|
  {
    if |a| == 0 then true
    else if |b| == 0 then false
    else (a[0] == b[0] && IsSubsequence(a[1..], b[1..])) || IsSubsequence(a, b[1..])
  }

  /** `allComments.filter(...)`: the comments passing the test, in their
      original order, each as often as it occurs there. */
  function FilterComments(cs: seq<Comment>, search: string, sentimentValue: string): (r: seq<Comment>)
    ensures IsSubsequence(r, cs)
    ensures forall c :: c in r ==> c in cs && Keep(c, search, sentimentValue)
    ensures forall c :: c in cs && Keep(c, search, sentimentValue) ==> c in r
    ensures forall c :: multiset(r)[c] == if Keep(c, search, sentimentValue) then multiset(cs)[c] else 0
  {
    if |cs| == 0 then []
    else
      var rest := FilterComments(cs[1..], search, sentimentValue);
      assert cs == [cs[0]] + cs[1..];
      if Keep(cs[0], search, sentimentValue) then [cs[0]] + rest else rest
  }

  /** The filter leaves a list alone exactly when every comment passes. */
  lemma {:induction false} FilterIdentityIff(cs: seq<Comment>, search: string, sentimentValue: string)
    ensures FilterComments(cs, search, sentimentValue) == cs
      <==> forall c :: c in cs ==> Keep(c, search, sentimentValue)
  {
    if |cs| > 0 && forall c :: c in cs ==> Keep(c, search, sentimentValue) {
      var tail := cs[1..];
      assert forall c :: c in tail ==> c in cs;
      FilterIdentityIff(tail, search, sentimentValue);
      assert Keep(cs[0], search, sentimentValue);
      assert FilterComments(cs, search, sentimentValue) == [cs[0]] + FilterComments(tail, search, sentimentValue);
      assert cs == [cs[0]] + tail;
    }
  }

  /** Filtering again with the same search and drop-down changes nothing. */
  lemma FilterIdempotent(cs: seq<Comment>, search: string, sentimentValue: string)
    ensures var once := FilterComments(cs, search, sentimentValue);
      FilterComments(once, search, sentimentValue) == once
  {
    FilterIdentityIff(FilterComments(cs, search, sentimentValue), search, sentimentValue);
  }

  /** An empty search with `all` selected shows every comment. */
  lemma ShowAllWhenUnfiltered(cs: seq<Comment>)
    ensures FilterComments(cs, "", AllSentiments) == cs
  {
    FilterIdentityIff(cs, "", AllSentiments);
  }

  lemma FilterCons(c: Comment, cs: seq<Comment>, search: string, sentimentValue: string)
    ensures FilterComments([c] + cs, search, sentimentValue)
      == (if Keep(c, search, sentimentValue) then [c] else []) + FilterComments(cs, search, sentimentValue)
  {
    assert ([c] + cs)[1..] == cs;
  }


  /** The toggled comment heads the list: it is flipped in the filtered
      list when the filter keeps it, and nothing else changes. */
  lemma ToggleFilterHead(c: Comment, rest: seq<Comment>, id: nat, search: string, sentimentValue: string)
    requires c.id == id
    requires forall x :: x in rest ==> x.id != id
    ensures ToggleFlag(FilterComments([c] + rest, search, sentimentValue), id)
      == FilterComments(ToggleFlag([c] + rest, id), search, sentimentValue)
  {
    var fr := FilterComments(rest, search, sentimentValue);
    FilterCons(c, rest, search, sentimentValue);
    ToggleCons(c, rest, id);
    FilterCons(Flip(c), rest, search, sentimentValue);
    if Keep(c, search, sentimentValue) {
      ToggleCons(c, fr, id);
    } else {
      ToggleAbsent(fr, id);
    }
  }

  /** The head of the list is another comment: it passes through both
      sides unchanged. */
  lemma ToggleFilterPast(c: Comment, rest: seq<Comment>, id: nat, search: string, sentimentValue: string)
    requires c.id != id
    requires ToggleFlag(FilterComments(rest, search, sentimentValue), id)
      == FilterComments(ToggleFlag(rest, id), search, sentimentValue)
    ensures ToggleFlag(FilterComments([c] + rest, search, sentimentValue), id)
      == FilterComments(ToggleFlag([c] + rest, id), search, sentimentValue)
  {
    var fr := FilterComments(rest, search, sentimentValue);
    FilterCons(c, rest, search, sentimentValue);
    ToggleCons(c, rest, id);
    FilterCons(c, ToggleFlag(rest, id), search, sentimentValue);
    if Keep(c, search, sentimentValue) {
      ToggleCons(c, fr, id);
    }
  }

  /** The flag plays no part in the filter, so toggling a comment in the
      full list and toggling it in the filtered list agree: the filtered
      list keeps being the filter of the full list. Ids must be distinct,
      since the source's filtered list shares its comment objects with the
      full list and the toggle finds the comment by id. */
  lemma {:induction false} ToggleCommutesWithFilter(cs: seq<Comment>, id: nat, search: string, sentimentValue: string)
    requires IdsDistinct(cs)
    ensures ToggleFlag(FilterComments(cs, search, sentimentValue), id)
      == FilterComments(ToggleFlag(cs, id), search, sentimentValue)
  {
    if |cs| > 0 {
      var c, rest := cs[0], cs[1..];
      assert cs == [c] + rest;
      if c.id == id {
        forall x | x in rest
          ensures x.id != id
        {
          var k :| 0 <= k < |rest| && rest[k] == x;
          assert cs[k + 1] == x;
        }
        ToggleFilterHead(c, rest, id, search, sentimentValue);
      } else {
        assert IdsDistinct(rest);
        ToggleCommutesWithFilter(rest, id, search, sentimentValue);
        ToggleFilterPast(c, rest, id, search, sentimentValue);
      }
    }
  }
}
