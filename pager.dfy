/** The log browser of the front end: the number of pages, the window of at
    most five page buttons around the current page, the first/last shortcuts
    and their ellipses, the previous/next buttons, and the handlers that
    move the page, change the filter and receive the server's answer. */
module Pager {
  import opened Base
  import LogQuery
  import Text

  // ---------------------------------------------------------------------
  // Page arithmetic

  /** `Math.ceil(total / limit)` for a positive `limit`: the fewest pages of
      `limit` rows that hold `total` rows. */
  function CeilDiv(total: int, limit: int): (c: int)
    requires limit >= 1
    ensures (c - 1) * limit < total <= c * limit
  {
    var q := (-total) / limit;
    var r := (-total) % limit;
    assert -total == q * limit + r;
    assert (-q) * limit == -(q * limit);
    assert (-q - 1) * limit == (-q) * limit - limit;
    -q
  }

  /** `Math.max(1, Math.ceil(total / limit))`. */
  function TotalPages(total: nat, limit: int): (n: int)
    requires limit >= 1
    ensures n >= 1
    ensures total <= n * limit
    ensures total > 0 ==> (n - 1) * limit < total
    ensures total == 0 ==> n == 1
  {
    var c := CeilDiv(total, limit);
    if c < 1 then
      assert total == 0 by {
        if total > 0 {
          MulNonPositive(c, limit);
        }
      }
      1
    else c
  }

  lemma MulNonPositive(c: int, limit: int)
    requires c <= 0 && limit >= 1
    ensures c * limit <= 0
  {
  }

  /** The first button of the window: two pages back, but not before page 1. */
  function Start(page: int): int {
    if page - 2 < 1 then 1 else page - 2
  }

  /** The last button of the window: two pages on, but not after the last page. */
  function End(page: int, totalPages: int): int {
    if page + 2 < totalPages then page + 2 else totalPages
  }

  /** The integers `lo..hi` in ascending order. */
  function Range(lo: int, hi: int): (r: seq<int>)
    ensures |r| == if hi < lo then 0 else hi - lo + 1
    ensures forall k :: 0 <= k < |r| ==> r[k] == lo + k
    decreases hi - lo
  {
    if hi < lo then [] else Range(lo, hi - 1) + [hi]
  }

  /** The `for` loop that builds `pageNumbers`. */
  method PageNumbers(page: int, totalPages: int) returns (r: seq<int>)
    ensures r == Range(Start(page), End(page, totalPages))
  {
    var start := Start(page);
    var end := End(page, totalPages);
    r := [];
    var i := start;
    while i <= end
      invariant start <= i <= if end >= start then end + 1 else start
      invariant r == Range(start, i - 1)
      decreases end - i
    {
      r := r + [i];
      i := i + 1;
    }
    if end < start {
      assert Range(start, end) == [];
    }
  }

  /** The window holds at most five ascending pages, all within
      `1..totalPages` when the page is positive, and it holds the current page
      exactly when that page exists. */
  lemma WindowBounds(page: int, totalPages: int)
    requires totalPages >= 1
    ensures var w := Range(Start(page), End(page, totalPages));
            && |w| <= 5
            && (forall i, j :: 0 <= i < j < |w| ==> w[i] < w[j])
            && (page >= 1 ==> forall k :: 0 <= k < |w| ==> 1 <= w[k] <= totalPages)
            && (page in w <==> 1 <= page <= totalPages)
  {
    var w := Range(Start(page), End(page, totalPages));
    if 1 <= page <= totalPages {
      assert w[page - Start(page)] == page;
    }
  }

  // ---------------------------------------------------------------------
  // Shortcuts

  /** The "1" button before the window. */
  predicate ShowsFirst(page: int) {
    Start(page) > 1
  }

  /** The ellipsis after the "1" button. */
  predicate ShowsLeadingEllipsis(page: int) {
    Start(page) > 2
  }

  /** The ellipsis before the last-page button. */
  predicate ShowsTrailingEllipsis(page: int, totalPages: int) {
    End(page, totalPages) < totalPages - 1
  }

  /** The last-page button after the window. */
  predicate ShowsLast(page: int, totalPages: int) {
    End(page, totalPages) < totalPages
  }

  /** The page numbers of every button the pager draws, left to right. */
  function Buttons(page: int, totalPages: int): seq<int> {
    (if ShowsFirst(page) then [1] else [])
    + Range(Start(page), End(page, totalPages))
    + (if ShowsLast(page, totalPages) then [totalPages] else [])
  }

  /** For an existing page, the buttons run from page 1 to the last page in
      ascending order; pages are skipped only right after the first button
      and right before the last, and an ellipsis is drawn exactly where a
      page is skipped. */
  lemma {:induction false} ButtonsLayout(page: int, totalPages: int)
    requires 1 <= page <= totalPages
    ensures var b := Buttons(page, totalPages);
            && |b| >= 1 && b[0] == 1 && b[|b| - 1] == totalPages
            && (forall i, j :: 0 <= i < j < |b| ==> b[i] < b[j])
            && (forall i :: 1 <= i < |b| - 2 ==> b[i + 1] == b[i] + 1)
            && (|b| >= 2 ==> (ShowsLeadingEllipsis(page) <==> b[1] > b[0] + 1))
            && (|b| >= 2 ==> (ShowsTrailingEllipsis(page, totalPages) <==> b[|b| - 1] > b[|b| - 2] + 1))
  {
    var s, e := Start(page), End(page, totalPages);
    var w := Range(s, e);
    var pre: seq<int> := if ShowsFirst(page) then [1] else [];
    var post: seq<int> := if ShowsLast(page, totalPages) then [totalPages] else [];
    var b := pre + w + post;
    assert |w| >= 1 && w[0] == s && w[|w| - 1] == e;
    assert forall k :: 0 <= k < |pre| ==> b[k] == 1;
    assert forall k :: |pre| <= k < |pre| + |w| ==> b[k] == s + (k - |pre|);
    assert forall k :: |pre| + |w| <= k < |b| ==> b[k] == totalPages;
    assert b[0] == 1;
    assert b[|b| - 1] == totalPages;
  }

  // ---------------------------------------------------------------------
  // Previous and next

  function Prev(page: int): int {
    if page - 1 < 1 then 1 else page - 1
  }

  function Next(page: int, totalPages: int): int {
    if page + 1 < totalPages then page + 1 else totalPages
  }

  /** Previous and next keep an existing page within `1..totalPages`, and each
      is disabled exactly when pressing it would not move the page. */
  lemma PrevNextClamp(page: int, totalPages: int)
    requires 1 <= page <= totalPages
    ensures 1 <= Prev(page) <= totalPages && 1 <= Next(page, totalPages) <= totalPages
    ensures (page <= 1) <==> Prev(page) == page
    ensures (page >= totalPages) <==> Next(page, totalPages) == page
    ensures page > 1 ==> Prev(page) == page - 1
    ensures page < totalPages ==> Next(page, totalPages) == page + 1
  {
  }

  // ---------------------------------------------------------------------
  // The component state

  /** The searchable columns offered by the field selector, first one the default. */
  const DefaultField := "source_ip"
  const DefaultOp := "contains"

  class LogBrowser {
    var field: string
    var op: string
    var value: string
    var page: int
    var limit: int
    var total: nat
    var rows: seq<LogQuery.LogRow>
    var error: Option<string>

    ghost predicate Valid()
      reads this
    {
      page >= 1 && limit in {5, 10, 25}
    }

    function TotalPagesNow(): int
      reads this
      requires Valid()
    {
      TotalPages(total, limit)
    }

    constructor ()
      ensures Valid()
      ensures field == DefaultField && op == DefaultOp && value == ""
      ensures page == 1 && limit == 10 && total == 0 && rows == [] && error == None
    {
      field, op, value := DefaultField, DefaultOp, "";
      page, limit, total := 1, 10, 0;
      rows, error := [], None;
    }

    /** Search: back to the first page. */
    method Search()
      requires Valid()
      modifies this
      ensures Valid()
      ensures page == 1
      ensures field == old(field) && op == old(op) && value == old(value) && limit == old(limit)
      ensures total == old(total) && rows == old(rows) && error == old(error)
    {
      page := 1;
    }

    /** Clear: the default field and operator, an empty value, the first page. */
    method Clear()
      requires Valid()
      modifies this
      ensures Valid()
      ensures field == DefaultField && op == DefaultOp && value == "" && page == 1
      ensures limit == old(limit) && total == old(total) && rows == old(rows) && error == old(error)
    {
      value, field, op, page := "", DefaultField, DefaultOp, 1;
    }

    /** The column select: a new field, the page kept. The fetch that
        follows may then find the page past the last one. */
    method ChangeField(newField: string)
      requires Valid()
      modifies this
      ensures Valid()
      ensures field == newField && op == old(op) && value == old(value)
      ensures page == old(page) && limit == old(limit) && total == old(total) && rows == old(rows) && error == old(error)
    {
      field := newField;
    }

    /** The operator select: a new operator, the page kept. */
    method ChangeOp(newOp: string)
      requires Valid()
      modifies this
      ensures Valid()
      ensures op == newOp && field == old(field) && value == old(value)
      ensures page == old(page) && limit == old(limit) && total == old(total) && rows == old(rows) && error == old(error)
    {
      op := newOp;
    }

    /** The value input: a new value, the page kept. */
    method ChangeValue(newValue: string)
      requires Valid()
      modifies this
      ensures Valid()
      ensures value == newValue && field == old(field) && op == old(op)
      ensures page == old(page) && limit == old(limit) && total == old(total) && rows == old(rows) && error == old(error)
    {
      value := newValue;
    }

    /** Rows per page: one of the three offered sizes, back to the first page. */
    method ChangeLimit(n: int)
      requires Valid() && n in {5, 10, 25}
      modifies this
      ensures Valid()
      ensures limit == n && page == 1
      ensures field == old(field) && op == old(op) && value == old(value)
      ensures total == old(total) && rows == old(rows) && error == old(error)
    {
      limit, page := n, 1;
    }

    /** A failed fetch: the error is shown, no rows and a total of 0. */
    method FetchFailed(message: string)
      requires Valid()
      modifies this
      ensures Valid()
      ensures error == Some(message) && rows == [] && total == 0 && TotalPagesNow() == 1
      ensures field == old(field) && op == old(op) && value == old(value)
      ensures page == old(page) && limit == old(limit)
    {
      error, rows, total := Some(message), [], 0;
    }

    /** A successful fetch: `payload.rows || []` and `Number(payload.total || 0)`. */
    method FetchSucceeded(payloadRows: Option<seq<LogQuery.LogRow>>, payloadTotal: Option<nat>)
      requires Valid()
      modifies this
      ensures Valid()
      ensures rows == payloadRows.GetOr([]) && total == payloadTotal.GetOr(0) && error == None
      ensures field == old(field) && op == old(op) && value == old(value)
      ensures page == old(page) && limit == old(limit)
    {
      rows := payloadRows.GetOr([]);
      total := payloadTotal.GetOr(0);
      error := None;
    }

    /** The previous-page button, drawn while there is no error. */
    method PrevPage()
      requires Valid() && error.None?
      modifies this
      ensures Valid()
      ensures page == Prev(old(page))
      ensures old(page) <= TotalPagesNow() + 1 ==> page <= TotalPagesNow()
      ensures field == old(field) && op == old(op) && value == old(value) && limit == old(limit)
      ensures total == old(total) && rows == old(rows) && error == old(error)
    {
      page := Prev(page);
    }

    /** The next-page button, drawn while there is no error and enabled
        while the page is before the last. */
    method NextPage()
      requires Valid() && error.None? && page < TotalPagesNow()
      modifies this
      ensures Valid()
      ensures page == Next(old(page), TotalPagesNow()) == old(page) + 1
      ensures 1 <= page <= TotalPagesNow()
      ensures field == old(field) && op == old(op) && value == old(value) && limit == old(limit)
      ensures total == old(total) && rows == old(rows) && error == old(error)
    {
      page := Next(page, TotalPages(total, limit));
    }

    /** A page button, one of the buttons drawn while there is no error. */
    method GoTo(n: int)
      requires Valid() && error.None? && n in Buttons(page, TotalPagesNow())
      modifies this
      ensures Valid()
      ensures page == n && 1 <= page <= TotalPagesNow()
      ensures field == old(field) && op == old(op) && value == old(value) && limit == old(limit)
      ensures total == old(total) && rows == old(rows) && error == old(error)
    {
      var tp := TotalPages(total, limit);
      WindowBounds(page, tp);
      page := n;
    }

    /** The request the browser sends for its state: the page and the limit
        are rendered in decimal into the query string and read back by
        `parseInt` on the server, which therefore returns rows
        `(page - 1) * limit` onwards. */
    lemma RequestKeepsWindow()
      requires Valid()
      ensures var p, l := Text.Decimal(page), Text.Decimal(limit);
              LogQuery.PageWindow(Some(Text.DigitsValue(p)), Some(Text.DigitsValue(l)))
                == LogQuery.Window(page, limit, (page - 1) * limit)
    {
      LogQuery.PagesAreAdjacent(page, limit);
    }
  }
}
