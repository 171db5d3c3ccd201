/** The dashboard's state (`allComments`, `filteredComments`,
    `currentPage`, the search box and the sentiment drop-down) and the
    event handlers that change it, as pure functions from state to state. */
module Dashboard {
  import opened Wrappers
  import opened Strings
  import opened Comments
  import opened Filtering
  import opened Pagination
  import opened Upload

  /** `shared` says that the filtered list holds the full list's own
      comment objects, as it does after every refilter; an upload that
      fails half-way replaces the full list and leaves the filtered list
      holding the old objects. */
  datatype View = View(
    all: seq<Comment>,
    filtered: seq<Comment>,
    currentPage: int,
    search: string,
    sentimentValue: string,
    shared: bool)

  /** The state after a refilter: the filtered list is the filter of the
      full list under the current controls and shares its objects, the
      page cursor lies in range, and ids are distinct. */
  predicate Consistent(v: View)
  {
    && v.shared
    && v.filtered == FilterComments(v.all, v.search, v.sentimentValue)
    && PageInRange(|v.filtered|, v.currentPage)
    && IdsDistinct(v.all)
  }

  /** What holds in every reachable state, including after an upload that
      failed half-way: the cursor lies in range of the table's list, ids
      are distinct, and a filtered list that shares the full list's
      objects is its filter. */
  predicate Coherent(v: View)
  {
    && PageInRange(|v.filtered|, v.currentPage)
    && IdsDistinct(v.all)
    && (v.shared ==> v.filtered == FilterComments(v.all, v.search, v.sentimentValue))
  }

  /** A consistent state is exactly a coherent one whose lists share their
      objects. */
  lemma ConsistentIff(v: View)
    ensures Consistent(v) <==> Coherent(v) && v.shared
  {
  }

  /** `handleFilterAndSearch`: recompute the filtered list from the full
      list and go back to the first page. */
  function Refilter(v: View): (r: View)
    ensures r.currentPage == 1
    ensures r.all == v.all && r.search == v.search && r.sentimentValue == v.sentimentValue
    ensures r.filtered == FilterComments(v.all, v.search, v.sentimentValue) && r.shared
    ensures IsSubsequence(r.filtered, v.all)
    ensures IdsDistinct(v.all) ==> Consistent(r)
  {
    v.(filtered := FilterComments(v.all, v.search, v.sentimentValue), currentPage := 1, shared := true)
  }

  /** `initialize`: no comments yet, filtered under the controls' values. */
  function Initialize(search: string, sentimentValue: string): (r: View)
    ensures Consistent(r)
    ensures r.all == [] && r.filtered == [] && r.currentPage == 1
    ensures r.search == search && r.sentimentValue == sentimentValue
  {
    Refilter(View([], [], 1, search, sentimentValue, true))
  }

  /** Typing in the search box. */
  function Search(v: View, text: string): (r: View)
    ensures r.search == text && r.currentPage == 1
    ensures r.all == v.all && r.sentimentValue == v.sentimentValue
    ensures r.filtered == FilterComments(v.all, text, v.sentimentValue)
    ensures Coherent(v) ==> Consistent(r)
  {
    Refilter(v.(search := text))
  }

  /** Picking a value in the sentiment drop-down. */
  function SelectSentiment(v: View, value: string): (r: View)
    ensures r.sentimentValue == value && r.currentPage == 1
    ensures r.all == v.all && r.search == v.search
    ensures r.filtered == FilterComments(v.all, v.search, value)
    ensures Coherent(v) ==> Consistent(r)
  {
    Refilter(v.(sentimentValue := value))
  }

  /** The rows the table shows. */
  function ShownRows(v: View): seq<Comment>
  {
    PageSlice(v.filtered, v.currentPage)
  }

  /** The previous-page button; a disabled button does nothing. */
  function PrevPage(v: View): (r: View)
    ensures r.currentPage == if v.currentPage == 1 then 1 else v.currentPage - 1
    ensures r.(currentPage := v.currentPage) == v
  {
    if PrevDisabled(v.currentPage) then v else v.(currentPage := v.currentPage - 1)
  }

  /** The next-page button; a disabled button does nothing. */
  function NextPage(v: View): (r: View)
    ensures var total := TotalPages(|v.filtered|);
      r.currentPage == if v.currentPage == total || total == 0 then v.currentPage else v.currentPage + 1
    ensures r.(currentPage := v.currentPage) == v
  {
    if NextDisabled(v.currentPage, TotalPages(|v.filtered|)) then v
    else v.(currentPage := v.currentPage + 1)
  }

  /** A numbered page button; there is one for each page from 1 to the
      number of pages, and clicking another number is impossible. */
  function GoToPage(v: View, i: int): (r: View)
    ensures 1 <= i <= TotalPages(|v.filtered|) ==> r.currentPage == i
    ensures r.(currentPage := v.currentPage) == v
  {
    if 1 <= i <= TotalPages(|v.filtered|) then v.(currentPage := i) else v
  }

  /** Paging keeps the state consistent: the cursor never leaves the
      range of pages, since the buttons that would take it out are
      disabled. */
  lemma PagingPreservesConsistent(v: View, i: int)
    requires Consistent(v)
    ensures Consistent(PrevPage(v))
    ensures Consistent(NextPage(v))
    ensures Consistent(GoToPage(v, i))
  {
  }

  lemma PagingPreservesCoherent(v: View, i: int)
    requires Coherent(v)
    ensures Coherent(PrevPage(v))
    ensures Coherent(NextPage(v))
    ensures Coherent(GoToPage(v, i))
  {
  }

  /** The flag button of a row: the comment is looked up in the full list.
      When the filtered list shares its objects the flip shows in both;
      otherwise the table's rows are other objects and keep their flags. */
  function Flag(v: View, id: nat): (r: View)
    ensures |r.all| == |v.all| && |r.filtered| == |v.filtered|
    ensures r.currentPage == v.currentPage && r.search == v.search && r.sentimentValue == v.sentimentValue
    ensures r.shared == v.shared
    ensures forall j :: 0 <= j < |v.all| ==>
      && r.all[j].(flagged := v.all[j].flagged) == v.all[j]
      && (r.all[j].flagged != v.all[j].flagged <==> FirstWithId(v.all, id, j))
    ensures v.shared ==> r.filtered == ToggleFlag(v.filtered, id)
    ensures !v.shared ==> r.filtered == v.filtered
  {
    v.(all := ToggleFlag(v.all, id), filtered := if v.shared then ToggleFlag(v.filtered, id) else v.filtered)
  }

  lemma FlagPreservesConsistent(v: View, id: nat)
    requires Consistent(v)
    ensures Consistent(Flag(v, id))
  {
    ToggleCommutesWithFilter(v.all, id, v.search, v.sentimentValue);
    var all' := ToggleFlag(v.all, id);
    forall i, j | 0 <= i < j < |all'|
      ensures all'[i].id != all'[j].id
    {
      assert all'[i].id == v.all[i].id;
      assert all'[j].id == v.all[j].id;
    }
  }

  lemma FlagPreservesCoherent(v: View, id: nat)
    requires Coherent(v)
    ensures Coherent(Flag(v, id))
  {
    var all' := ToggleFlag(v.all, id);
    forall i, j | 0 <= i < j < |all'|
      ensures all'[i].id != all'[j].id
    {
      assert all'[i].id == v.all[i].id;
      assert all'[j].id == v.all[j].id;
    }
    if v.shared {
      ToggleCommutesWithFilter(v.all, id, v.search, v.sentimentValue);
    }
  }

  /** Flagging the same row twice restores the state. */
  lemma FlagTwice(v: View, id: nat)
    ensures Flag(Flag(v, id), id) == v
  {
    ToggleTwice(v.all, id);
    ToggleTwice(v.filtered, id);
  }

  /** In a consistent state the table shows the "No Comments to Display"
      placeholder exactly when the filtered list is empty, and otherwise
      between one and five rows. */
  lemma EmptyStateIff(v: View)
    requires Coherent(v)
    ensures |ShownRows(v)| == 0 <==> |v.filtered| == 0
    ensures |ShownRows(v)| <= ItemsPerPage
  {
  }

  // ---- Uploading a file ----

  datatype Level = Success | Failure | Info

  /** A toast notification. */
  datatype Notice = Notice(message: string, level: Level)

  /** The body of the `/analyze` reply: parsed JSON (with its `error`
      field, if any) or text that is not JSON. */
  datatype Body = Json(data: BackendResponse, error: Option<string>) | NotJson(parseError: string)

  /** What the `fetch` call produced: a response with its `ok` flag, or a
      transport failure. */
  datatype Reply = Response(ok: bool, body: Body) | NetworkError(message: string)

  const UnknownErrorMessage: string := "An unknown error occurred."
  /** The TypeError `updateDashboardStats` raises on `counts.Positive` when
      the reply has no `overall_distribution`, in V8's wording. */
  const MissingDistributionError: string := "Cannot read properties of undefined (reading 'Positive')"
  const CompleteMessage: string := "Analysis complete!"

  function ProcessingNotice(name: string): Notice
  {
    Notice("Processing \"" + name + "\"...", Info)
  }

  /** `data.error || 'An unknown error occurred.'`: a missing or empty
      error text falls back to the generic one. */
  function ServerError(error: Option<string>): (r: string)
    ensures r != ""
    ensures error.Some? && error.value != "" ==> r == error.value
    ensures error.None? || error.value == "" ==> r == UnknownErrorMessage
  {
    if error.Some? && error.value != "" then error.value else UnknownErrorMessage
  }

  /** The message the catch block shows for a failed analysis, or `None`
      when the reply is a successful analysis. */
  function FailureOf(reply: Reply): Option<string>
  {
    match reply
    case NetworkError(m) => Some(m)
    case Response(_, NotJson(m)) => Some(m)
    case Response(ok, Json(_, error)) => if ok then None else Some(ServerError(error))
  }

  /** A good reply without `overall_distribution`: `processBackendResponse`
      has replaced the comments when the dashboard statistics throw, so the
      refilter never happens. */
  predicate HalfFinished(file: Option<string>, reply: Reply)
  {
    && file.Some? && IsAllowed(file.value)
    && FailureOf(reply).None?
    && reply.body.data.overallDistribution.None?
  }

  /** `handleFileUpload`, with `v` the state when the reply arrives: nothing
      without a file; a refused extension is reported without contacting
      the backend; a failed reply is reported and leaves the state as it
      was; a good reply replaces the comments and, when the dashboard
      statistics can be drawn, refilters and reports completion, and
      otherwise reports the TypeError with the filtered list, the page and
      the table left as they were. `reply` stands for the outcome of the
      network call. */
  function HandleFileUpload(v: View, file: Option<string>, reply: Reply): (r: (View, seq<Notice>))
    ensures file.None? ==> r == (v, [])
    ensures file.Some? && !IsAllowed(file.value) ==> r == (v, [Notice(InvalidTypeMessage, Failure)])
    ensures file.Some? && IsAllowed(file.value) ==>
      && |r.1| == 2 && r.1[0] == ProcessingNotice(file.value)
      && (FailureOf(reply).Some? ==> r.0 == v && r.1[1] == Notice("Error: " + FailureOf(reply).value, Failure))
      && (FailureOf(reply).None? ==> r.0.all == ProcessBackendResponse(reply.body.data))
    ensures file.Some? && IsAllowed(file.value) && FailureOf(reply).None? ==>
      if reply.body.data.overallDistribution.None? then
        && r.0 == v.(all := ProcessBackendResponse(reply.body.data), shared := false)
        && r.1[1] == Notice("Error: " + MissingDistributionError, Failure)
      else
        && r.0.currentPage == 1
        && r.0.search == v.search && r.0.sentimentValue == v.sentimentValue
        && r.0.filtered == FilterComments(r.0.all, v.search, v.sentimentValue)
        && r.0.shared
        && r.1[1] == Notice(CompleteMessage, Success)
  {
    if file.None? then (v, [])
    else if !IsAllowed(file.value) then (v, [Notice(InvalidTypeMessage, Failure)])
    else
      var processing := ProcessingNotice(file.value);
      match FailureOf(reply)
      case Some(m) => (v, [processing, Notice("Error: " + m, Failure)])
      case None =>
        var data := reply.body.data;
        var loaded := v.(all := ProcessBackendResponse(data));
        if data.overallDistribution.None? then
          (loaded.(shared := false), [processing, Notice("Error: " + MissingDistributionError, Failure)])
        else
          (Refilter(loaded), [processing, Notice(CompleteMessage, Success)])
  }

  /** Every upload but a half-finished one leaves a consistent state
      consistent. */
  lemma UploadPreservesConsistent(v: View, file: Option<string>, reply: Reply)
    requires Consistent(v)
    ensures !HalfFinished(file, reply) ==> Consistent(HandleFileUpload(v, file, reply).0)
  {
    if file.Some? && IsAllowed(file.value) && FailureOf(reply).None? {
      ProcessedIsWellFormed(reply.body.data);
    }
  }

  /** A complete upload (a good reply with `overall_distribution`) leaves
      a consistent state whatever the state before it was, so it also
      repairs the state a half-finished upload left behind. */
  lemma CompleteUploadRepairs(v: View, file: Option<string>, reply: Reply)
    ensures file.Some? && IsAllowed(file.value) && FailureOf(reply).None?
            && reply.body.data.overallDistribution.Some?
            ==> Consistent(HandleFileUpload(v, file, reply).0)
  {
    if file.Some? && IsAllowed(file.value) && FailureOf(reply).None? {
      ProcessedIsWellFormed(reply.body.data);
    }
  }

  /** Whatever the backend replies, an upload leaves a coherent state
      coherent. */
  lemma UploadPreservesCoherent(v: View, file: Option<string>, reply: Reply)
    requires Coherent(v)
    ensures Coherent(HandleFileUpload(v, file, reply).0)
  {
    if file.Some? && IsAllowed(file.value) && FailureOf(reply).None? {
      ProcessedIsWellFormed(reply.body.data);
    }
  }

  /** A good upload of comment "a", then a half-finished upload of comment
      "b": the table still shows "a" as comment 1, which is not the filter
      of the new list. Clicking its flag flips the new comment 1, whose
      flag the button then shows, while the comment object the table holds
      keeps its flag, so the next render of the page shows it unflagged. */
  lemma HalfFinishedUploadDiverges()
    ensures var v0 := Initialize("", AllSentiments);
      var good := BackendResponse(Some([ResultItem("a", "Positive")]), None, Some(map[]));
      var half := BackendResponse(Some([ResultItem("b", "Positive")]), None, None);
      var v1 := HandleFileUpload(v0, Some("a.csv"), Response(true, Json(good, None))).0;
      var v2 := HandleFileUpload(v1, Some("a.csv"), Response(true, Json(half, None))).0;
      var v3 := Flag(v2, 1);
      && |ShownRows(v2)| == 1 && ShownRows(v2)[0].id == 1 && ShownRows(v2)[0].text == "a"
      && v2.filtered != FilterComments(v2.all, v2.search, v2.sentimentValue)
      && v3.all[0].flagged
      && |ShownRows(v3)| == 1 && !ShownRows(v3)[0].flagged
  {
    var v0 := Initialize("", AllSentiments);
    var good := BackendResponse(Some([ResultItem("a", "Positive")]), None, Some(map[]));
    var half := BackendResponse(Some([ResultItem("b", "Positive")]), None, None);
    assert Extension("a.csv") == "csv" by {
      assert LastSegment("a.csv") == "csv" by { LastSegmentAfterDot("a.csv", 1); }
    }
    var v1 := HandleFileUpload(v0, Some("a.csv"), Response(true, Json(good, None))).0;
    ShowAllWhenUnfiltered(v1.all);
    assert v1.filtered == v1.all && |v1.all| == 1 && v1.all[0].text == "a";
    var v2 := HandleFileUpload(v1, Some("a.csv"), Response(true, Json(half, None))).0;
    assert v2.filtered == v1.filtered && v2.currentPage == 1;
    assert |v2.all| == 1 && v2.all[0].text == "b";
    ShowAllWhenUnfiltered(v2.all);
    assert FilterComments(v2.all, v2.search, v2.sentimentValue)[0].text == "b";
    assert ShownRows(v2) == v2.filtered;
    var v3 := Flag(v2, 1);
    assert ShownRows(v3) == v3.filtered;
  }
}
