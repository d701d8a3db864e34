/**
 * The home page's local state and the rules that reconcile it with the
 * server's answers: the rows of the page on display, the form's initial
 * state, whether the form's modal is open, the current page and the page
 * count. Each network answer enters as its HTTP status (and payload).
 */
module HomePage {
  import opened Json
  import opened RecordList
  import Server

  /** Rows the table shows per page, as the client assumes it. */
  const RowsPerPage := 5

  class Home {
    /** The rows of the page on display. */
    var astronauts: seq<Record>
    /** The record the form starts from when the modal opens. */
    var formInitialState: Record
    var modalIsOpen: bool
    var page: int
    var maxPages: int
    /** The blank form (its birthdate is today's date, supplied from outside). */
    const blankForm: Record

    constructor (blank: Record)
      ensures astronauts == [] && formInitialState == blank && blankForm == blank
      ensures !modalIsOpen && page == 1 && maxPages == 1
    {
      astronauts := [];
      formInitialState := blank;
      blankForm := blank;
      modalIsOpen := false;
      page := 1;
      maxPages := 1;
    }

    /** `fetchData` once GET /astronauts/<page> has answered with `status`,
        `data` and `totalPages`: only a 200 answer is taken over. */
    method Fetched(status: int, data: seq<Record>, totalPages: int)
      modifies this
      ensures status == 200 ==> astronauts == data && maxPages == totalPages
      ensures status != 200 ==> astronauts == old(astronauts) && maxPages == old(maxPages)
      ensures page == old(page) && formInitialState == old(formInitialState)
      ensures modalIsOpen == old(modalIsOpen)
    {
      if status == 200 {
        astronauts := data;
        maxPages := totalPages;
      }
    }

    /** `addAstronaut`, after a create succeeded: the new record is shown
        only on a last page that still has room, and a full page makes the
        page count grow by one. The page itself never changes. */
    method AddAstronaut(a: Record)
      modifies this
      ensures astronauts == if old(page) == old(maxPages) && |old(astronauts)| < RowsPerPage
                            then old(astronauts) + [a] else old(astronauts)
      ensures maxPages == if |old(astronauts)| == RowsPerPage then old(maxPages) + 1 else old(maxPages)
      ensures page == old(page) && formInitialState == old(formInitialState)
      ensures modalIsOpen == old(modalIsOpen)
    {
      var shown := astronauts;
      if page == maxPages && |shown| < RowsPerPage {
        astronauts := astronauts + [a];
      }
      if |shown| == RowsPerPage {
        maxPages := maxPages + 1;
      }
    }

    /** `editAstronaut`: with an id, load the first row with that id (or the
        blank form when no row has it) and open the modal; without an id,
        do nothing. */
    method EditAstronaut(id: Option<int>)
      modifies this
      ensures id.None? ==> formInitialState == old(formInitialState) && modalIsOpen == old(modalIsOpen)
      ensures id.Some? ==> modalIsOpen
      ensures id.Some? && !Contains(astronauts, id.value) ==> formInitialState == blankForm
      ensures id.Some? && Contains(astronauts, id.value) ==>
                exists k :: 0 <= k < |astronauts| && formInitialState == astronauts[k]
                  && HasId(astronauts[k], id.value)
                  && forall j :: 0 <= j < k ==> !HasId(astronauts[j], id.value)
      ensures astronauts == old(astronauts) && page == old(page) && maxPages == old(maxPages)
    {
      if id.Some? {
        var found := FindById(astronauts, id.value);
        formInitialState := if found.Some? then found.value else blankForm;
        modalIsOpen := true;
      }
    }

    /** `updateAstronaut`, with the record the server echoed after a
        successful update: rows with its id are dropped and it goes last. */
    method UpdateAstronaut(a: Record)
      requires IdOf(a).Some?
      modifies this
      ensures astronauts == ReplaceById(old(astronauts), IdOf(a).value, a)
      ensures |astronauts| >= 1 && astronauts[|astronauts| - 1] == a
      ensures forall i :: 0 <= i < |astronauts| ==> (HasId(astronauts[i], IdOf(a).value) <==> i == |astronauts| - 1)
      ensures page == old(page) && maxPages == old(maxPages)
      ensures formInitialState == old(formInitialState) && modalIsOpen == old(modalIsOpen)
    {
      var rows := Without(astronauts, IdOf(a).value);
      rows := rows + [a];
      astronauts := rows;
    }

    method OpenModal()
      modifies this
      ensures formInitialState == blankForm && modalIsOpen
      ensures astronauts == old(astronauts) && page == old(page) && maxPages == old(maxPages)
    {
      formInitialState := blankForm;
      modalIsOpen := true;
    }

    method CloseModal()
      modifies this
      ensures !modalIsOpen
      ensures formInitialState == old(formInitialState)
      ensures astronauts == old(astronauts) && page == old(page) && maxPages == old(maxPages)
    {
      modalIsOpen := false;
    }

    /** `removeAstronaut`: with an id, a DELETE is sent (`requested`) and its
        answer has status `status`; only 200 changes anything. The rows with
        that id are dropped; if the page held a single row, page 1 is shown
        instead: by asking for it again (`refetch`) when already on page 1,
        or by moving to page 1 from a later page. */
    method RemoveAstronaut(id: Option<int>, status: int) returns (requested: bool, refetch: bool)
      modifies this
      ensures requested <==> id.Some?
      ensures id.None? || status != 200 ==>
                !refetch && astronauts == old(astronauts) && page == old(page)
      ensures id.Some? && status == 200 ==>
                && astronauts == Without(old(astronauts), id.value)
                && refetch == (|old(astronauts)| == 1 && old(page) == 1)
                && page == (if |old(astronauts)| == 1 && old(page) > 1 then 1 else old(page))
      ensures maxPages == old(maxPages) && formInitialState == old(formInitialState)
      ensures modalIsOpen == old(modalIsOpen)
    {
      requested, refetch := false, false;
      if id.None? {
        return;
      }
      requested := true;
      if status == 200 {
        var before := astronauts;
        astronauts := Without(before, id.value);
        if |before| == 1 {
          if page == 1 {
            refetch := true;
          } else if page > 1 {
            page := 1;
          }
        }
      }
    }
  }

  /** Why `addAstronaut` is right on the last page: take any store, the page
      count the server reports for it, and the rows of its last page. After
      the server appends one record, the last page shows those rows plus the
      new record when it had room, and otherwise that page keeps its rows
      and the record opens one new page of its own. */
  lemma {:induction false} AddAgreesWithServer(s: seq<Record>, rec: Record)
    ensures var total := Server.ListPage(s, None).payload.totalPages;
            var shown := Server.PageData(s, total);
            var total' := Server.ListPage(s + [rec], None).payload.totalPages;
            && |shown| <= RowsPerPage
            && (|shown| < RowsPerPage ==>
                  total' == total && Server.PageData(s + [rec], total) == shown + [rec])
            && (|shown| == RowsPerPage ==>
                  && total' == total + 1
                  && Server.PageData(s + [rec], total) == shown
                  && Server.PageData(s + [rec], total + 1) == [rec])
  {
    var n := |s|;
    var s' := s + [rec];
    if n == 0 {
      assert Server.TotalPages(1) == 1;
      assert Server.PageData(s', 1) == [rec];
    } else {
      var total := Server.TotalPages(n);
      var lo := (total - 1) * Server.PerPage;
      assert Server.ListPage(s, None).payload.totalPages == total;
      assert Server.PageData(s, total) == s[lo..n];
      if n - lo < RowsPerPage {
        assert Server.TotalPages(n + 1) == total;
        assert Server.PageData(s', total) == s'[lo..n + 1];
        assert s'[lo..n + 1] == s[lo..n] + [rec];
      } else {
        assert n == total * Server.PerPage;
        assert Server.TotalPages(n + 1) == total + 1;
        assert Server.PageData(s', total) == s'[lo..n];
        assert s'[lo..n] == s[lo..n];
        assert Server.PageData(s', total + 1) == s'[n..n + 1];
        assert s'[n..n + 1] == [rec];
      }
    }
  }
}
