/** The listing grid after the records are loaded: the rendered items of the
    visible page and the page/button state driven by clicks (`initListing`'s
    `updatePage` closure, `renderTemplateList`, `renderPagination`). */
module Listing {
  import opened Text
  import opened Json
  import opened Template
  import opened Pagination
  import opened Wrappers
  import opened Filtering

  /** `buildTemplateHtml(record, template)` as a function of the record. */
  function Renderer(template: string, fmt: Value -> string): Value -> string {
    record => Render(record, template, fmt)
  }

  /** The output of a record is blank: it is skipped. */
  predicate Blank(record: Value, render: Value -> string) {
    Trim(render(record)) == []
  }

  /** What an item looks like: non-empty, no surrounding white space. */
  predicate Shown(html: string) {
    html != [] && Trimmed(html)
  }

  /** One iteration of the item loop: the record's rendered output, trimmed,
      or nothing when it is blank. */
  function ItemOf(record: Value, render: Value -> string): (r: Option<string>)
    ensures r.None? <==> Blank(record, render)
    ensures r.Some? ==> Shown(r.value)
  {
    var html := Trim(render(record));
    if html == [] then None else Some(html)
  }

  /** The per-record step, as a function value. */
  function Itemizer(render: Value -> string): Value -> Option<string> {
    record => ItemOf(record, render)
  }

  /** The rendered items of one page, blank outputs dropped. */
  function PageItems(page: seq<Value>, render: Value -> string): (items: seq<string>)
    ensures |items| <= |page|
    ensures forall i :: 0 <= i < |items| ==> Shown(items[i])
  {
    var items := FilterMap(page, Itemizer(render));
    ItemsAreShown(page, render, items);
    items
  }

  /** Every item is the non-blank output of some record. */
  lemma ItemsAreShown(page: seq<Value>, render: Value -> string, items: seq<string>)
    requires items == FilterMap(page, Itemizer(render))
    ensures forall k :: 0 <= k < |items| ==> Shown(items[k])
  {
    var f := Itemizer(render);
    FilterMapMembers(page, f);
    forall k | 0 <= k < |items|
      ensures Shown(items[k])
    {
      assert items[k] in items;
      var i :| 0 <= i < |page| && f(page[i]) == Some(items[k]);
      assert ItemOf(page[i], render) == Some(items[k]);
    }
  }

  /** Exactly the non-blank records are shown: every item is the trimmed
      output of some record that is not blank, and every such output is an
      item. */
  lemma PageItemsMembers(page: seq<Value>, render: Value -> string)
    ensures forall html :: html in PageItems(page, render) <==>
              exists i :: 0 <= i < |page| && !Blank(page[i], render) && Trim(render(page[i])) == html
  {
    var f := Itemizer(render);
    FilterMapMembers(page, f);
    assert forall i :: 0 <= i < |page| ==> f(page[i]) == ItemOf(page[i], render);
  }

  /** Items keep record order: the items of two consecutive runs of records
      follow each other. */
  lemma PageItemsAppend(a: seq<Value>, b: seq<Value>, render: Value -> string)
    ensures PageItems(a + b, render) == PageItems(a, render) + PageItems(b, render)
  {
    FilterMapAppend(a, b, Itemizer(render));
  }

  /** When no record renders blank, the page shows one item per record, in
      record order. */
  lemma PageItemsOnePerRecord(page: seq<Value>, render: Value -> string)
    requires forall i :: 0 <= i < |page| ==> !Blank(page[i], render)
    ensures |PageItems(page, render)| == |page|
    ensures forall i :: 0 <= i < |page| ==> PageItems(page, render)[i] == Trim(render(page[i]))
  {
    var f := Itemizer(render);
    assert forall i :: 0 <= i < |page| ==> f(page[i]) == ItemOf(page[i], render);
    FilterMapKeepsAll(page, f);
  }

  /** When every record renders blank, the page shows nothing. */
  lemma PageItemsAllBlank(page: seq<Value>, render: Value -> string)
    requires forall i :: 0 <= i < |page| ==> Blank(page[i], render)
    ensures PageItems(page, render) == []
  {
    var f := Itemizer(render);
    assert forall i :: 0 <= i < |page| ==> f(page[i]) == ItemOf(page[i], render);
    FilterMapDropsAll(page, f);
  }

  /** The items `renderTemplateList` shows for page `pageIndex`: the
      template rendered over the slice of that page. */
  function ShownItems(records: seq<Value>, template: string, fmt: Value -> string, pageSize: nat, pageIndex: nat)
    : (items: seq<string>)
    ensures |items| <= pageSize
  {
    PageItems(PageSlice(records, pageIndex, pageSize), Renderer(template, fmt))
  }

  /** What the widget shows besides the items: the current page and the buttons. */
  datatype View = View(current: int, controls: seq<Button>)

  /** The page state after the first render: page 0 and the buttons
      `renderPagination` builds for it. */
  function Start(n: nat, pageSize: nat): (v: View)
    requires pageSize > 0
    ensures Consistent(v, n, pageSize)
  {
    InitialRenderIsPageZero(n, pageSize);
    View(0, RenderControls(n, pageSize, 0))
  }

  /** The page is in range and the buttons are exactly those of that page. */
  predicate Consistent(v: View, n: nat, pageSize: nat)
    requires pageSize > 0
  {
    0 <= v.current < TotalPages(n, pageSize) && v.controls == Controls(n, pageSize, v.current)
  }

  /** `updatePage(value)`: the transition, then the button refresh. A
      consistent view stays consistent. */
  function Navigate(v: View, n: nat, pageSize: nat, value: string): (r: View)
    requires pageSize > 0
    ensures r.current == UpdatePage(v.current, n, pageSize, value)
    ensures Consistent(v, n, pageSize) ==> Consistent(r, n, pageSize)
  {
    var c := UpdatePage(v.current, n, pageSize, value);
    var controls := RefreshControls(v.controls, n, pageSize, c);
    if Consistent(v, n, pageSize) then RefreshShowsPage(n, pageSize, v.current, c); View(c, controls)
    else View(c, controls)
  }

  /** A click on button `k`: a disabled button is ignored, any other passes
      its `data-inkline-page` value to `updatePage`. */
  function Click(v: View, n: nat, pageSize: nat, k: nat): (r: View)
    requires pageSize > 0
    requires k < |v.controls|
    ensures Consistent(v, n, pageSize) ==> Consistent(r, n, pageSize)
  {
    if v.controls[k].disabled then v else Navigate(v, n, pageSize, v.controls[k].page)
  }

  /** Clicking the button of page `i` shows page `i`. */
  lemma ClickIndexButton(v: View, n: nat, pageSize: nat, i: nat)
    requires pageSize > 0
    requires Consistent(v, n, pageSize) && TotalPages(n, pageSize) > 1
    requires i < TotalPages(n, pageSize)
    ensures Click(v, n, pageSize, i + 1).current == i
  {
    ControlsShape(n, pageSize, v.current);
    IndexValueSelectsPage(v.current, n, pageSize, i);
  }

  /** Clicking "prev" on the first page or "next" on the last changes nothing. */
  lemma ClickStepAtEnds(v: View, n: nat, pageSize: nat)
    requires pageSize > 0
    requires Consistent(v, n, pageSize) && TotalPages(n, pageSize) > 1
    ensures v.current == 0 ==> Click(v, n, pageSize, 0) == v
    ensures v.current == TotalPages(n, pageSize) - 1 ==> Click(v, n, pageSize, TotalPages(n, pageSize) + 1) == v
  {
    ControlsShape(n, pageSize, v.current);
  }
}
