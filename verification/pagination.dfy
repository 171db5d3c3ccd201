/** The comments table's paging (`renderTable` and `renderPagination`):
    which five comments are shown, the page buttons, and the
    "Showing a-b of n results" line. */
module Pagination {
  import opened Strings

  const ItemsPerPage: nat := 5

  /** An index argument of `Array.prototype.slice` made absolute: a negative
      one counts from the end, and both are clamped into `[0, len]`. */
  function RelativeIndex(k: int, len: nat): (r: nat)
    ensures r <= len
  {
    if k < 0 then (if len + k < 0 then 0 else len + k)
    else if k > len then len
    else k
  }

  /** `xs.slice(start, end)`. */
  function JsSlice<T>(xs: seq<T>, start: int, end: int): seq<T>
  {
    var a, b := RelativeIndex(start, |xs|), RelativeIndex(end, |xs|);
    if a < b then xs[a..b] else []
  }

  /** The comments the table shows on page `page`. For any page from 1 on
      it is the run of at most five comments beginning at that page's first
      index, and it is empty exactly when that index lies past the list. */
  function PageSlice<T>(filtered: seq<T>, page: int): (r: seq<T>)
    ensures page >= 1 ==> |r| <= ItemsPerPage
    ensures page >= 1 ==> (|r| == 0 <==> (page - 1) * ItemsPerPage >= |filtered|)
    ensures page >= 1 && (page - 1) * ItemsPerPage < |filtered| ==>
      r == filtered[(page - 1) * ItemsPerPage .. Min(page * ItemsPerPage, |filtered|)]
  {
    JsSlice(filtered, (page - 1) * ItemsPerPage, page * ItemsPerPage)
  }

  /** `Math.ceil(n / 5)`: the fewest pages of five that hold `n` comments. */
  function TotalPages(n: nat): (r: nat)
    ensures n <= r * ItemsPerPage
    ensures r == 0 || (r - 1) * ItemsPerPage < n
    ensures r == 0 <==> n == 0
  {
    (n + ItemsPerPage - 1) / ItemsPerPage
  }

  /** The previous-page button is disabled on page 1 only. */
  predicate PrevDisabled(page: int)
  {
    page == 1
  }

  /** The next-page button is disabled on the last page and when there are
      no pages at all. */
  predicate NextDisabled(page: int, totalPages: nat)
  {
    page == totalPages || totalPages == 0
  }

  datatype Label = Prev | PageNumber(n: nat) | Next

  /** A pagination button; `current` marks the highlighted page number. */
  datatype Button = Button(kind: Label, disabled: bool, current: bool)

  /** The buttons `renderPagination` creates, left to right: previous, one
      per page numbered from 1, next. Number buttons are never disabled. */
  function Controls(n: nat, page: int): (r: seq<Button>)
    ensures |r| == TotalPages(n) + 2
    ensures r[0] == Button(Prev, page == 1, false)
    ensures r[|r| - 1] == Button(Next, page == TotalPages(n) || TotalPages(n) == 0, false)
    ensures forall i :: 1 <= i <= TotalPages(n) ==> r[i] == Button(PageNumber(i), false, page == i)
  {
    var total := TotalPages(n);
    [Button(Prev, PrevDisabled(page), false)]
      + seq(total, i requires 0 <= i < total => Button(PageNumber(i + 1), false, page == i + 1))
      + [Button(Next, NextDisabled(page, total), false)]
  }

  function CountCurrent(bs: seq<Button>): nat
  {
    if |bs| == 0 then 0 else (if bs[0].current then 1 else 0) + CountCurrent(bs[1..])
  }

  /** Exactly one button is highlighted when the page lies in
      `1..totalPages`, and none otherwise. */
  lemma {:induction false} OneCurrentButton(n: nat, page: int)
    ensures CountCurrent(Controls(n, page)) == if 1 <= page <= TotalPages(n) then 1 else 0
  {
    var bs := Controls(n, page);
    var total := TotalPages(n);
    CountCurrentIs(bs, page, 0);
  }

  /** Counting from position `from`: one highlighted button when the page's
      button lies at or after it. */
  lemma {:induction false} CountCurrentIs(bs: seq<Button>, page: int, from: nat)
    requires from <= |bs|
    requires forall i :: 0 <= i < |bs| ==> (bs[i].current <==> i == page && 1 <= i < |bs| - 1)
    ensures CountCurrent(bs[from..]) == if from <= page && 1 <= page < |bs| - 1 then 1 else 0
    decreases |bs| - from
  {
    if from < |bs| {
      CountCurrentIs(bs, page, from + 1);
      assert bs[from..][1..] == bs[from + 1..];
    }
  }

  /** The two numbers of "Showing a-b of n results". */
  datatype Showing = Showing(first: int, last: int, total: nat)

  function PaginationInfo(n: nat, page: int): Showing
  {
    Showing(
      if n > 0 then (page - 1) * ItemsPerPage + 1 else 0,
      Min(page * ItemsPerPage, n),
      n)
  }

  /** The page lies in `1..totalPages`, or is 1 when there are no pages. */
  predicate PageInRange(n: nat, page: int)
  {
    1 <= page && (page <= TotalPages(n) || (n == 0 && page == 1))
  }

  /** With the page in range, the info line names exactly the comments the
      table shows: positions `first..last` (1-based) of the filtered list,
      or 0-0 for an empty list. */
  lemma InfoMatchesPage<T>(filtered: seq<T>, page: int)
    requires PageInRange(|filtered|, page)
    ensures var info := PaginationInfo(|filtered|, page);
      && info.last <= info.total == |filtered|
      && (|filtered| == 0 ==> info.first == 0 && info.last == 0)
      && (|filtered| > 0 ==>
            1 <= info.first <= info.last
            && PageSlice(filtered, page) == filtered[info.first - 1 .. info.last])
  {
  }
}
