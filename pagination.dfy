/**
 * The pagination control: one button per page, labelled 1..n where n is the
 * item count divided by the page size and rounded up; the button whose label
 * equals the current page is marked active, and clicking a button selects
 * its page. The control holds no state of its own.
 */
module Pagination {

  /** Math.ceil(length / itemsPerPage), written as integer ceiling division. */
  function PageCount(length: nat, itemsPerPage: nat): (n: nat)
    requires itemsPerPage > 0
    ensures n == 0 <==> length == 0
    ensures length > 0 ==> (n - 1) * itemsPerPage < length <= n * itemsPerPage
  {
    var n := (length + itemsPerPage - 1) / itemsPerPage;
    var r := (length + itemsPerPage - 1) % itemsPerPage;
    assert n * itemsPerPage + r == length + itemsPerPage - 1;
    assert (n - 1) * itemsPerPage == n * itemsPerPage - itemsPerPage;
    n
  }

  /** One rendered button: its label and whether it carries the active style. */
  datatype PageButton = PageButton(number: nat, active: bool)

  /** The buttons the control renders, from left to right. */
  function PageButtons(length: nat, itemsPerPage: nat, currentPage: int): (buttons: seq<PageButton>)
    requires itemsPerPage > 0
    ensures |buttons| == PageCount(length, itemsPerPage)
  {
    seq(PageCount(length, itemsPerPage), index requires 0 <= index => PageButton(index + 1, currentPage == index + 1))
  }

  /** The page a click on the button at `index` selects (`setCurrentPage(index + 1)`). */
  function ClickedPage(buttons: seq<PageButton>, index: nat): (page: nat)
    requires index < |buttons|
  {
    buttons[index].number
  }

  /** There are exactly ceil(length / itemsPerPage) buttons, labelled 1..n in increasing order. */
  lemma ButtonLabels(length: nat, itemsPerPage: nat, currentPage: int)
    requires itemsPerPage > 0
    ensures |PageButtons(length, itemsPerPage, currentPage)| == PageCount(length, itemsPerPage)
    ensures forall i :: 0 <= i < |PageButtons(length, itemsPerPage, currentPage)| ==>
              PageButtons(length, itemsPerPage, currentPage)[i].number == i + 1
    ensures forall i, j :: 0 <= i < j < |PageButtons(length, itemsPerPage, currentPage)| ==>
              PageButtons(length, itemsPerPage, currentPage)[i].number < PageButtons(length, itemsPerPage, currentPage)[j].number
  {
  }

  /** Twenty items at nine per page give three buttons; no items give none. */
  lemma PageCountExamples()
    ensures PageCount(20, 9) == 3
    ensures PageCount(0, 9) == 0
    ensures PageCount(18, 9) == 2 && PageCount(19, 9) == 3
  {
  }

  /**
   * A button is active iff its label is the current page, so at most one is
   * active, and one is active exactly when the current page lies in 1..n.
   */
  lemma ActiveButton(length: nat, itemsPerPage: nat, currentPage: int)
    requires itemsPerPage > 0
    ensures forall i :: 0 <= i < |PageButtons(length, itemsPerPage, currentPage)| ==>
              (PageButtons(length, itemsPerPage, currentPage)[i].active <==>
               PageButtons(length, itemsPerPage, currentPage)[i].number == currentPage)
    ensures forall i, j :: (&& 0 <= i < |PageButtons(length, itemsPerPage, currentPage)|
                            && 0 <= j < |PageButtons(length, itemsPerPage, currentPage)|
                            && PageButtons(length, itemsPerPage, currentPage)[i].active
                            && PageButtons(length, itemsPerPage, currentPage)[j].active) ==> i == j
    ensures (exists i :: 0 <= i < |PageButtons(length, itemsPerPage, currentPage)| &&
                         PageButtons(length, itemsPerPage, currentPage)[i].active)
            <==> 1 <= currentPage <= PageCount(length, itemsPerPage)
  {
    var buttons := PageButtons(length, itemsPerPage, currentPage);
    if 1 <= currentPage <= PageCount(length, itemsPerPage) {
      assert buttons[currentPage - 1].active;
    }
  }

  /** A click always selects a page in 1..n, and every such page holds at least one item. */
  lemma ClickSelectsOfferedPage(length: nat, itemsPerPage: nat, currentPage: int, index: nat)
    requires itemsPerPage > 0
    requires index < |PageButtons(length, itemsPerPage, currentPage)|
    ensures 1 <= ClickedPage(PageButtons(length, itemsPerPage, currentPage), index) <= PageCount(length, itemsPerPage)
    ensures (ClickedPage(PageButtons(length, itemsPerPage, currentPage), index) - 1) * itemsPerPage < length
  {
    var n := PageCount(length, itemsPerPage);
    var page := index + 1;
    assert (page - 1) * itemsPerPage <= (n - 1) * itemsPerPage by {
      MulMonotone(page - 1, n - 1, itemsPerPage);
    }
  }

  lemma MulMonotone(a: nat, b: nat, k: nat)
    requires a <= b
    ensures a * k <= b * k
  {
  }
}
