/** Client-side paging of the fetched records: the page count, the visible
    slice, the `updatePage` transition and the state of the paging buttons. */
module Pagination {
  import opened Wrappers
  import opened Text
  import opened Numerals

  /** `Math.ceil(n / d)` for a non-negative `n` and a positive `d`. */
  function CeilDiv(n: nat, d: nat): (q: nat)
    requires d > 0
    ensures (q - 1) * d < n <= q * d
  {
    var q := (n + d - 1) / d;
    var r := (n + d - 1) % d;
    assert n + d - 1 == q * d + r && 0 <= r < d;
    assert (q - 1) * d == q * d - d;
    q
  }

  /** `Math.max(1, Math.ceil(records.length / pageSize))`: the number of pages,
      never less than one. */
  function TotalPages(n: nat, pageSize: nat): (tp: nat)
    requires pageSize > 0
    ensures tp >= 1
    ensures n <= tp * pageSize
    ensures tp == 1 <==> n <= pageSize
    ensures tp > 1 ==> (tp - 1) * pageSize < n
  {
    var q := CeilDiv(n, pageSize);
    if q <= 1 then 1 else MulMono(1, q - 1, pageSize); q
  }

  /** The `updatePage` transition: `"prev"` and `"next"` step by one within
      the page range; any other value is read with `parseInt` and clamped into
      the range; a value that is not a number changes nothing. */
  function UpdatePage(current: int, n: nat, pageSize: nat, value: string): (r: int)
    requires pageSize > 0
    ensures 0 <= current < TotalPages(n, pageSize) ==> 0 <= r < TotalPages(n, pageSize)
    ensures value != "prev" && value != "next" && ParseInt(value).Some? ==> 0 <= r < TotalPages(n, pageSize)
  {
    var tp := TotalPages(n, pageSize);
    if value == "prev" then Max(0, current - 1)
    else if value == "next" then Min(tp - 1, current + 1)
    else match ParseInt(value)
      case None => current
      case Some(index) => Min(Max(index, 0), tp - 1)
  }

  function Max(a: int, b: int): int {
    if a < b then b else a
  }

  function Min(a: int, b: int): int {
    if a < b then a else b
  }

  /** "prev" on the first page and "next" on the last page leave the page as it is. */
  lemma StepsStopAtTheEnds(n: nat, pageSize: nat)
    requires pageSize > 0
    ensures UpdatePage(0, n, pageSize, "prev") == 0
    ensures UpdatePage(TotalPages(n, pageSize) - 1, n, pageSize, "next") == TotalPages(n, pageSize) - 1
  {
  }

  /** Away from the ends, "prev" and "next" move exactly one page. */
  lemma StepsMoveOnePage(current: int, n: nat, pageSize: nat)
    requires pageSize > 0
    requires 0 <= current < TotalPages(n, pageSize)
    ensures current > 0 ==> UpdatePage(current, n, pageSize, "prev") == current - 1
    ensures current < TotalPages(n, pageSize) - 1 ==> UpdatePage(current, n, pageSize, "next") == current + 1
  {
  }

  /** A value that `parseInt` rejects (and that is neither "prev" nor "next")
      leaves the page unchanged. */
  lemma UnreadableValueIsNoOp(current: int, n: nat, pageSize: nat, value: string)
    requires pageSize > 0
    requires value != "prev" && value != "next"
    requires LeadingDigits(Unsigned(TrimStart(value))) == []
    ensures UpdatePage(current, n, pageSize, value) == current
  {
  }

  /** The value an index button carries, `String(i)`, selects page `i`. */
  lemma IndexValueSelectsPage(current: int, n: nat, pageSize: nat, i: int)
    requires pageSize > 0
    requires 0 <= i < TotalPages(n, pageSize)
    ensures UpdatePage(current, n, pageSize, IntToString(i)) == i
  {
    ParseIntOfIntToString(i);
    NotAStep(i);
  }

  /** Out-of-range indices are clamped to the first or the last page. */
  lemma IndexValueIsClamped(current: int, n: nat, pageSize: nat, i: int)
    requires pageSize > 0
    ensures i < 0 ==> UpdatePage(current, n, pageSize, IntToString(i)) == 0
    ensures i >= TotalPages(n, pageSize) ==>
              UpdatePage(current, n, pageSize, IntToString(i)) == TotalPages(n, pageSize) - 1
  {
    ParseIntOfIntToString(i);
    NotAStep(i);
  }

  /** No number prints as "prev" or "next". */
  lemma NotAStep(i: int)
    ensures IntToString(i) != "prev" && IntToString(i) != "next"
  {
    var p: string := "prev";
    var x: string := "next";
    assert p[0] == 'p' && x[0] == 'n';
  }

  /** `records.slice(start, start + pageSize)` with `start = pageIndex * pageSize`:
      `slice` stops at the end of the array and is empty past it. */
  function PageSlice<T>(records: seq<T>, pageIndex: nat, pageSize: nat): (page: seq<T>)
    ensures |page| <= pageSize
    ensures pageIndex * pageSize < |records| ==> |page| == Min(pageSize, |records| - pageIndex * pageSize)
    ensures pageIndex * pageSize >= |records| ==> page == []
    ensures forall k :: 0 <= k < |page| ==> page[k] == records[pageIndex * pageSize + k]
  {
    var start := pageIndex * pageSize;
    var end := start + pageSize;
    if start >= |records| then [] else records[start..if end < |records| then end else |records|]
  }

  lemma MulMono(a: nat, b: nat, c: nat)
    requires a <= b
    ensures a * c <= b * c
  {
  }

  /** The concatenation of a sequence of pages. */
  function Flatten<T>(pages: seq<seq<T>>): seq<T>
    decreases |pages|
  {
    if pages == [] then [] else Flatten(pages[..|pages| - 1]) + pages[|pages| - 1]
  }

  /** The slices of pages `0 .. count - 1`. */
  function Slices<T>(records: seq<T>, pageSize: nat, count: nat): (pages: seq<seq<T>>)
    ensures |pages| == count
    ensures forall i :: 0 <= i < count ==> pages[i] == PageSlice(records, i, pageSize)
  {
    seq(count, i requires 0 <= i => PageSlice(records, i, pageSize))
  }

  /** A page as a slice between two clamped offsets. */
  lemma PageSliceBetween<T>(records: seq<T>, pageIndex: nat, pageSize: nat, start: nat)
    requires start == pageIndex * pageSize
    ensures PageSlice(records, pageIndex, pageSize) ==
              records[Min(start, |records|)..Min(start + pageSize, |records|)]
  {
  }

  /** Adding page `count - 1` to the first `count - 1` pages. */
  lemma FlattenSlicesStep<T>(records: seq<T>, pageSize: nat, count: nat)
    requires count > 0
    ensures Flatten(Slices(records, pageSize, count)) ==
              Flatten(Slices(records, pageSize, count - 1)) + PageSlice(records, count - 1, pageSize)
  {
    var pages := Slices(records, pageSize, count);
    assert pages[..count - 1] == Slices(records, pageSize, count - 1);
  }

  lemma MulPred(count: nat, pageSize: nat)
    requires count > 0
    ensures (count - 1) * pageSize + pageSize == count * pageSize
    ensures (count - 1) * pageSize >= 0
  {
  }

  lemma PrefixSplit<T>(s: seq<T>, a: nat, b: nat)
    requires a <= b <= |s|
    ensures s[..a] + s[a..b] == s[..b]
  {
  }

  /** The first `count` pages hold exactly the first `count * pageSize` records. */
  lemma {:induction false} SlicesPrefix<T>(records: seq<T>, pageSize: nat, count: nat, end: nat)
    requires end == count * pageSize
    ensures Flatten(Slices(records, pageSize, count)) == records[..Min(end, |records|)]
  {
    if count > 0 {
      MulPred(count, pageSize);
      var start: nat := (count - 1) * pageSize;
      FlattenSlicesStep(records, pageSize, count);
      SlicesPrefix(records, pageSize, count - 1, start);
      PageSliceBetween(records, count - 1, pageSize, start);
      PrefixSplit(records, Min(start, |records|), Min(end, |records|));
    }
  }

  /** Paging loses and repeats nothing: the pages `0 .. totalPages - 1`, in
      order, concatenate back to the records. */
  lemma PagesCoverRecords<T>(records: seq<T>, pageSize: nat)
    requires pageSize > 0
    ensures Flatten(Slices(records, pageSize, TotalPages(|records|, pageSize))) == records
  {
    var tp := TotalPages(|records|, pageSize);
    SlicesPrefix(records, pageSize, tp, tp * pageSize);
  }

  /** Record `j` is shown on page `j / pageSize`, at position `j % pageSize`. */
  lemma RecordOnPage<T>(records: seq<T>, pageSize: nat, j: nat)
    requires pageSize > 0
    requires j < |records|
    ensures j / pageSize < TotalPages(|records|, pageSize)
    ensures j % pageSize < |PageSlice(records, j / pageSize, pageSize)|
    ensures PageSlice(records, j / pageSize, pageSize)[j % pageSize] == records[j]
  {
    var p := j / pageSize;
    var k := j % pageSize;
    assert j == p * pageSize + k && 0 <= k < pageSize;
    var tp := TotalPages(|records|, pageSize);
    assert p < tp by {
      if p >= tp {
        MulMono(tp, p, pageSize);
      }
    }
  }

  /** A paging button: its `data-inkline-page` value and whether it carries
      `data-inkline-active` and is disabled. */
  datatype Button = Button(page: string, active: bool, disabled: bool)

  /** The buttons `renderPagination` builds: none for a single page; otherwise
      "prev", one button per page valued `String(i)` and "next". The first
      index button is marked active whatever `currentPage` is. */
  function RenderControls(n: nat, pageSize: nat, currentPage: int): (bs: seq<Button>)
    requires pageSize > 0
    ensures TotalPages(n, pageSize) <= 1 <==> bs == []
    ensures bs != [] ==> |bs| == TotalPages(n, pageSize) + 2
  {
    var tp := TotalPages(n, pageSize);
    if tp <= 1 then []
    else
      [Button("prev", false, currentPage <= 0)]
      + seq(tp, i requires 0 <= i => Button(IntToString(i), i == 0, false))
      + [Button("next", false, currentPage >= tp - 1)]
  }

  /** The button update at the end of `updatePage`: a button is active exactly
      when its value is `String(currentPage)`; "prev" and "next" are disabled
      at the first and the last page; index buttons keep their state. */
  function RefreshControls(bs: seq<Button>, n: nat, pageSize: nat, currentPage: int): (r: seq<Button>)
    requires pageSize > 0
    ensures |r| == |bs|
    ensures forall k :: 0 <= k < |r| ==> r[k].page == bs[k].page
    ensures forall k :: 0 <= k < |r| ==> (r[k].active <==> bs[k].page == IntToString(currentPage))
  {
    var tp := TotalPages(n, pageSize);
    seq(|bs|, k requires 0 <= k < |bs| =>
      Button(bs[k].page, bs[k].page == IntToString(currentPage),
             if bs[k].page == "prev" then currentPage <= 0
             else if bs[k].page == "next" then currentPage >= tp - 1
             else bs[k].disabled))
  }

  /** The buttons as they should look on page `current`: the reference every
      render and refresh is measured against. */
  function Controls(n: nat, pageSize: nat, current: int): (bs: seq<Button>)
    requires pageSize > 0
  {
    var tp := TotalPages(n, pageSize);
    if tp <= 1 then []
    else
      [Button("prev", false, current <= 0)]
      + seq(tp, i requires 0 <= i => Button(IntToString(i), i == current, false))
      + [Button("next", false, current >= tp - 1)]
  }

  /** On page `current` of several, "prev" comes first and is disabled iff
      `current <= 0`, "next" comes last and is disabled iff `current` is the
      last page, and exactly the button for page `current` is active. */
  lemma ControlsShape(n: nat, pageSize: nat, current: int)
    requires pageSize > 0
    requires TotalPages(n, pageSize) > 1
    requires 0 <= current < TotalPages(n, pageSize)
    ensures var bs := Controls(n, pageSize, current);
            var tp := TotalPages(n, pageSize);
            && |bs| == tp + 2
            && bs[0].page == "prev" && (bs[0].disabled <==> current <= 0)
            && bs[tp + 1].page == "next" && (bs[tp + 1].disabled <==> current >= tp - 1)
            && (forall i :: 0 <= i < tp ==> bs[i + 1].page == IntToString(i) && !bs[i + 1].disabled)
            && (forall k :: 0 <= k < |bs| ==> (bs[k].active <==> k == current + 1))
  {
    var bs := Controls(n, pageSize, current);
    var tp := TotalPages(n, pageSize);
    forall k | 0 <= k < |bs|
      ensures bs[k].active <==> k == current + 1
    {
      if 1 <= k <= tp {
        assert bs[k] == Button(IntToString(k - 1), k - 1 == current, false);
      }
    }
  }

  /** The initial render, made on page 0, shows the buttons of page 0. */
  lemma InitialRenderIsPageZero(n: nat, pageSize: nat)
    requires pageSize > 0
    ensures RenderControls(n, pageSize, 0) == Controls(n, pageSize, 0)
  {
  }

  /** Refreshing any rendering of the buttons onto page `current` yields the
      buttons of page `current`. */
  lemma RefreshShowsPage(n: nat, pageSize: nat, before: int, current: int)
    requires pageSize > 0
    requires 0 <= current < TotalPages(n, pageSize)
    ensures RefreshControls(Controls(n, pageSize, before), n, pageSize, current) == Controls(n, pageSize, current)
  {
    var tp := TotalPages(n, pageSize);
    if tp > 1 {
      var shown := Controls(n, pageSize, before);
      var r := RefreshControls(shown, n, pageSize, current);
      var want := Controls(n, pageSize, current);
      NotAStep(current);
      forall k | 0 <= k < |r|
        ensures r[k] == want[k]
      {
        if 1 <= k <= tp {
          var i := k - 1;
          assert shown[k].page == IntToString(i);
          NotAStep(i);
          if IntToString(i) == IntToString(current) {
            IntToStringInjective(i, current);
          }
        }
      }
    }
  }
}
