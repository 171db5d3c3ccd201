/** The counting reductions behind the charts: sentiment counts over the
    filtered comments (`updateAllVisuals`) and sentiment counts per
    provision over all comments (`renderProvisionChart`). */
module Aggregation {
  import opened Wrappers
  import opened Strings
  import opened Comments
  import opened Filtering

  /** The three sentiments the backend reports, lower-cased. */
  predicate IsKnownSentiment(s: string)
  {
    s == "positive" || s == "negative" || s == "neutral"
  }

  /** The reduction's starting accumulator. */
  const InitialTally: map<string, nat> := map["Positive" := 0, "Negative" := 0, "Neutral" := 0]

  /** The accumulator key a comment increments: its capitalised sentiment. */
  function TallyKey(c: Comment): string
  {
    Capitalize(c.sentiment)
  }

  /** `acc[k] = (acc[k] || 0) + 1`. */
  function Bump(m: map<string, nat>, k: string): map<string, nat>
  {
    m[k := (if k in m then m[k] else 0) + 1]
  }

  /** `filteredComments.reduce(...)`, folding from the first comment to the
      last. */
  function SentimentTally(cs: seq<Comment>): (r: map<string, nat>)
    ensures "Positive" in r && "Negative" in r && "Neutral" in r
  {
    if |cs| == 0 then InitialTally
    else Bump(SentimentTally(cs[..|cs| - 1]), TallyKey(cs[|cs| - 1]))
  }

  /** Number of comments whose accumulator key is `k`. */
  function CountKey(cs: seq<Comment>, k: string): nat
  {
    if |cs| == 0 then 0 else (if TallyKey(cs[0]) == k then 1 else 0) + CountKey(cs[1..], k)
  }

  lemma {:induction false} CountKeyAppend(cs: seq<Comment>, c: Comment, k: string)
    ensures CountKey(cs + [c], k) == CountKey(cs, k) + (if TallyKey(c) == k then 1 else 0)
  {
    if |cs| > 0 {
      assert (cs + [c])[1..] == cs[1..] + [c];
      CountKeyAppend(cs[1..], c, k);
    }
  }

  /** The tally has the three fixed keys plus one per capitalised sentiment
      that occurs, and each key holds the number of comments with it (a key
      that is absent stands for zero). */
  lemma {:induction false} TallyCounts(cs: seq<Comment>)
    ensures forall k :: k in SentimentTally(cs) <==> k in InitialTally || exists c :: c in cs && TallyKey(c) == k
    ensures forall k :: CountKey(cs, k) == if k in SentimentTally(cs) then SentimentTally(cs)[k] else 0
  {
    if |cs| > 0 {
      var init, last := cs[..|cs| - 1], cs[|cs| - 1];
      assert cs == init + [last];
      TallyCounts(init);
      forall k
        ensures CountKey(cs, k) == CountKey(init, k) + (if TallyKey(last) == k then 1 else 0)
      {
        CountKeyAppend(init, last, k);
      }
      forall k | k in InitialTally
        ensures k in SentimentTally(init)
      {
      }
    }
  }

  /** The capitalised keys of the three known sentiments are the three
      initial keys, and they differ. */
  lemma KnownKeys()
    ensures Capitalize("positive") == "Positive"
    ensures Capitalize("negative") == "Negative"
    ensures Capitalize("neutral") == "Neutral"
  {
    assert Capitalize("positive") == [UpperChar('p')] + "ositive";
    assert Capitalize("negative") == [UpperChar('n')] + "egative";
    assert Capitalize("neutral") == [UpperChar('n')] + "eutral";
  }

  lemma {:induction false} CountKnownSentiments(cs: seq<Comment>)
    requires forall c :: c in cs ==> IsKnownSentiment(c.sentiment)
    ensures CountKey(cs, "Positive") + CountKey(cs, "Negative") + CountKey(cs, "Neutral") == |cs|
  {
    if |cs| > 0 {
      assert cs[0] in cs;
      KnownKeys();
      assert "Positive" != "Negative" && "Positive" != "Neutral" && "Negative" != "Neutral" by {
        assert "Positive"[0] != "Negative"[0] && "Positive"[0] != "Neutral"[0];
        assert "Negative"[2] != "Neutral"[2];
      }
      assert forall c :: c in cs[1..] ==> c in cs;
      CountKnownSentiments(cs[1..]);
    }
  }

  /** When every sentiment is one of the three, the three counts add up to
      the number of filtered comments: each comment is counted once. */
  lemma TallyConserves(cs: seq<Comment>)
    requires forall c :: c in cs ==> IsKnownSentiment(c.sentiment)
    ensures var t := SentimentTally(cs);
      t["Positive"] + t["Negative"] + t["Neutral"] == |cs|
  {
    TallyCounts(cs);
    CountKnownSentiments(cs);
  }

  /** The count under a sentiment's capitalised key equals the number of
      rows the table shows when that sentiment is picked in the drop-down
      with an empty search, provided sentiments are lower-case as the
      backend mapping leaves them. */
  lemma {:induction false} TallyMatchesFilter(cs: seq<Comment>, s: string)
    requires forall c :: c in cs ==> IsLower(c.sentiment)
    requires IsLower(s) && s != AllSentiments
    ensures CountKey(cs, Capitalize(s)) == |FilterComments(cs, "", s)|
  {
    if |cs| > 0 {
      assert cs[0] in cs;
      if TallyKey(cs[0]) == Capitalize(s) {
        CapitalizeInjective(cs[0].sentiment, s);
      }
      assert Lower("") == "";
      assert forall c :: c in cs[1..] ==> c in cs;
      TallyMatchesFilter(cs[1..], s);
    }
  }

  /** One bar of the provision chart: the provision and its three sentiment
      counts. */
  datatype ProvisionRow = ProvisionRow(provision: string, positive: nat, negative: nat, neutral: nat)

  /** `acc[p][sentiment]++`. A sentiment other than the three creates an
      entry (holding NaN) that the chart never reads, so it leaves the row
      as it was. */
  function AddSentiment(row: ProvisionRow, sentiment: string): ProvisionRow
  {
    if sentiment == "positive" then row.(positive := row.positive + 1)
    else if sentiment == "negative" then row.(negative := row.negative + 1)
    else if sentiment == "neutral" then row.(neutral := row.neutral + 1)
    else row
  }

  /** Position of the row for provision `p`. */
  function RowIndex(table: seq<ProvisionRow>, p: string): (r: Option<nat>)
    ensures r.Some? ==> r.value < |table| && table[r.value].provision == p
    ensures r.None? ==> forall i :: 0 <= i < |table| ==> table[i].provision != p
  {
    if |table| == 0 then None
    else if table[0].provision == p then Some(0)
    else match RowIndex(table[1..], p)
      case None => None
      case Some(i) => Some(i + 1)
  }

  /** One step of the reduction: create the provision's row with zero
      counts when it is new, then count the comment's sentiment in it. */
  function AddComment(table: seq<ProvisionRow>, c: Comment): seq<ProvisionRow>
  {
    match RowIndex(table, c.provision)
    case Some(i) => table[i := AddSentiment(table[i], c.sentiment)]
    case None => table + [AddSentiment(ProvisionRow(c.provision, 0, 0, 0), c.sentiment)]
  }

  /** `allComments.reduce(...)` into per-provision counts; the rows are in
      the order in which the provisions first occur. That is the order of
      the chart's labels, except that `Object.keys` lists integer-like
      provisions first. */
  function ProvisionTable(cs: seq<Comment>): seq<ProvisionRow>
  {
    if |cs| == 0 then []
    else AddComment(ProvisionTable(cs[..|cs| - 1]), cs[|cs| - 1])
  }

  /** Number of comments with provision `p` and sentiment `s`. */
  function CountWith(cs: seq<Comment>, p: string, s: string): nat
  {
    if |cs| == 0 then 0
    else (if cs[0].provision == p && cs[0].sentiment == s then 1 else 0) + CountWith(cs[1..], p, s)
  }

  /** Number of comments with provision `p`. */
  function CountProvision(cs: seq<Comment>, p: string): nat
  {
    if |cs| == 0 then 0
    else (if cs[0].provision == p then 1 else 0) + CountProvision(cs[1..], p)
  }

  lemma {:induction false} CountWithAppend(cs: seq<Comment>, c: Comment, p: string, s: string)
    ensures CountWith(cs + [c], p, s)
      == CountWith(cs, p, s) + (if c.provision == p && c.sentiment == s then 1 else 0)
  {
    if |cs| > 0 {
      assert (cs + [c])[1..] == cs[1..] + [c];
      CountWithAppend(cs[1..], c, p, s);
    }
  }

  predicate HasRow(table: seq<ProvisionRow>, p: string)
  {
    exists i :: 0 <= i < |table| && table[i].provision == p
  }

  /** No provision has two rows. */
  predicate LabelsDistinct(table: seq<ProvisionRow>)
  {
    forall i, j :: 0 <= i < j < |table| ==> table[i].provision != table[j].provision
  }

  /** There is a row for a provision exactly when some comment has it. */
  ghost predicate CoversProvisions(table: seq<ProvisionRow>, cs: seq<Comment>)
  {
    forall p :: HasRow(table, p) <==> exists c :: c in cs && c.provision == p
  }

  /** Every row holds its provision's three sentiment counts. */
  predicate CountsMatch(table: seq<ProvisionRow>, cs: seq<Comment>)
  {
    forall i :: 0 <= i < |table| ==>
      && table[i].positive == CountWith(cs, table[i].provision, "positive")
      && table[i].negative == CountWith(cs, table[i].provision, "negative")
      && table[i].neutral == CountWith(cs, table[i].provision, "neutral")
  }

  /** `table` is the chart data for `cs`: one row per provision that occurs,
      none twice, each holding that provision's sentiment counts. */
  ghost predicate Describes(table: seq<ProvisionRow>, cs: seq<Comment>)
  {
    LabelsDistinct(table) && CoversProvisions(table, cs) && CountsMatch(table, cs)
  }

  lemma {:induction false} CountWithAbsent(cs: seq<Comment>, p: string, s: string)
    requires forall x :: x in cs ==> x.provision != p
    ensures CountWith(cs, p, s) == 0
  {
    if |cs| > 0 {
      assert cs[0] in cs;
      assert forall x :: x in cs[1..] ==> x in cs;
      CountWithAbsent(cs[1..], p, s);
    }
  }

  lemma AddCommentKeepsDistinct(table: seq<ProvisionRow>, c: Comment)
    requires LabelsDistinct(table)
    ensures LabelsDistinct(AddComment(table, c))
  {
  }

  lemma AddCommentCovers(table: seq<ProvisionRow>, cs: seq<Comment>, c: Comment)
    requires CoversProvisions(table, cs)
    ensures CoversProvisions(AddComment(table, c), cs + [c])
  {
    var t' := AddComment(table, c);
    var cs' := cs + [c];
    forall p
      ensures HasRow(t', p) <==> exists x :: x in cs' && x.provision == p
    {
      if HasRow(t', p) {
        var i :| 0 <= i < |t'| && t'[i].provision == p;
        if p != c.provision {
          assert table[i].provision == p;
          assert HasRow(table, p);
          var x :| x in cs && x.provision == p;
          assert x in cs';
        } else {
          assert c in cs';
        }
      }
      if exists x :: x in cs' && x.provision == p {
        var x :| x in cs' && x.provision == p;
        if p != c.provision {
          assert x in cs;
          assert HasRow(table, p);
          var i :| 0 <= i < |table| && table[i].provision == p;
          assert t'[i].provision == p;
        } else {
          match RowIndex(table, c.provision) {
          case Some(i) => assert t'[i].provision == p;
          case None => assert t'[|table|].provision == p;
          }
        }
      }
    }
  }

  lemma AddCommentCounts(table: seq<ProvisionRow>, cs: seq<Comment>, c: Comment)
    requires LabelsDistinct(table) && CoversProvisions(table, cs) && CountsMatch(table, cs)
    ensures CountsMatch(AddComment(table, c), cs + [c])
  {
    var t' := AddComment(table, c);
    var cs' := cs + [c];
    forall p, s
      ensures CountWith(cs', p, s) == CountWith(cs, p, s) + (if c.provision == p && c.sentiment == s then 1 else 0)
    {
      CountWithAppend(cs, c, p, s);
    }
    match RowIndex(table, c.provision) {
    case Some(i) =>
      assert t' == table[i := AddSentiment(table[i], c.sentiment)];
    case None =>
      assert t' == table + [AddSentiment(ProvisionRow(c.provision, 0, 0, 0), c.sentiment)];
      assert !HasRow(table, c.provision);
      forall s
        ensures CountWith(cs, c.provision, s) == 0
      {
        CountWithAbsent(cs, c.provision, s);
      }
    }
  }

  /** Counting one more comment keeps the table describing the list. */
  lemma AddCommentPreserves(table: seq<ProvisionRow>, cs: seq<Comment>, c: Comment)
    requires Describes(table, cs)
    ensures Describes(AddComment(table, c), cs + [c])
  {
    AddCommentKeepsDistinct(table, c);
    AddCommentCovers(table, cs, c);
    AddCommentCounts(table, cs, c);
  }

  /** The reduction yields exactly the chart data of the comment list. */
  lemma {:induction false} ProvisionTableDescribes(cs: seq<Comment>)
    ensures Describes(ProvisionTable(cs), cs)
  {
    if |cs| > 0 {
      var init, last := cs[..|cs| - 1], cs[|cs| - 1];
      assert cs == init + [last];
      ProvisionTableDescribes(init);
      AddCommentPreserves(ProvisionTable(init), init, last);
    }
  }

  lemma {:induction false} CountProvisionSplits(cs: seq<Comment>, p: string)
    requires forall c :: c in cs ==> IsKnownSentiment(c.sentiment)
    ensures CountWith(cs, p, "positive") + CountWith(cs, p, "negative") + CountWith(cs, p, "neutral")
      == CountProvision(cs, p)
  {
    if |cs| > 0 {
      assert cs[0] in cs;
      assert forall c :: c in cs[1..] ==> c in cs;
      CountProvisionSplits(cs[1..], p);
    }
  }

  /** When every sentiment is one of the three, each bar's stacked height is
      the number of comments with that provision. */
  lemma ProvisionConserves(cs: seq<Comment>, i: nat)
    requires forall c :: c in cs ==> IsKnownSentiment(c.sentiment)
    requires i < |ProvisionTable(cs)|
    ensures var row := ProvisionTable(cs)[i];
      row.positive + row.negative + row.neutral == CountProvision(cs, row.provision)
  {
    ProvisionTableDescribes(cs);
    CountProvisionSplits(cs, ProvisionTable(cs)[i].provision);
  }
}
