/** The pager (src/components/common/Pagination.tsx): how many page buttons
    there are, how they are numbered and which one is highlighted. */
module Pagination {

  /** `Math.ceil(x)` on a real. */
  function Ceil(x: real): (c: int)
    ensures (c - 1) as real < x <= c as real
  {
    -((-x).Floor)
  }

  /** `Math.ceil(total / perPage)`: the number of page buttons. */
  function PageCount(total: nat, perPage: nat): (pages: nat)
    requires perPage > 0
    ensures pages == 0 <==> total == 0
    ensures (pages - 1) * perPage < total <= pages * perPage || total == pages == 0
  {
    var q := total as real / perPage as real;
    assert q * perPage as real == total as real;
    var c := Ceil(q);
    CeilBounds(q, perPage as real, total as real, c);
    c
  }

  /** From `c - 1 < t / p <= c` with `p > 0`: `(c - 1) * p < t <= c * p`. */
  lemma CeilBounds(q: real, p: real, t: real, c: int)
    requires p > 0.0 && t >= 0.0 && q * p == t
    requires (c - 1) as real < q <= c as real
    ensures c >= 0
    ensures (c - 1) as real * p < t <= c as real * p
  {
  }

  /** One rendered page button: its number is also the page its click selects. */
  datatype Button = Button(number: int, highlighted: bool)

  /** `Array.from({ length: pages }, (_, i) => …)`: buttons numbered `i + 1`,
      highlighted when the number is the current page. */
  function Buttons(pages: nat, current: int): (bs: seq<Button>)
    ensures |bs| == pages
    ensures forall i :: 0 <= i < pages ==> bs[i] == Button(i + 1, current == i + 1)
  {
    seq(pages, i => Button(i + 1, current == i + 1))
  }

  /** The numbers run 1..pages in strictly increasing order, so clicking any
      button selects a page in 1..pages. */
  lemma ButtonNumbers(pages: nat, current: int)
    ensures forall i :: 0 <= i < pages ==> 1 <= Buttons(pages, current)[i].number <= pages
    ensures forall i, j :: 0 <= i < j < pages ==>
              Buttons(pages, current)[i].number < Buttons(pages, current)[j].number
  {
  }

  /** Exactly one button is highlighted when the current page is in range, and
      none otherwise; a highlighted button's number is the current page. */
  lemma OneHighlighted(pages: nat, current: int)
    ensures forall i :: 0 <= i < pages && Buttons(pages, current)[i].highlighted ==>
              Buttons(pages, current)[i].number == current
    ensures forall i, j :: 0 <= i < j < pages ==>
              !(Buttons(pages, current)[i].highlighted && Buttons(pages, current)[j].highlighted)
    ensures (exists i :: 0 <= i < pages && Buttons(pages, current)[i].highlighted) <==> 1 <= current <= pages
  {
    if 1 <= current <= pages {
      assert Buttons(pages, current)[current - 1].highlighted;
    }
  }
}
