/**
 * `display_data`: show the selection five rows at a time for as long as the
 * user answers "yes".
 */
module Pager {
  import opened Text
  import opened Dataset

  const PAGE_SIZE: nat := 5

  /** `rows.iloc[lo:hi]` for 0 <= lo <= hi: bounds past the end are cut to the end. */
  function Slice(rows: seq<Trip>, lo: nat, hi: nat): seq<Trip>
    requires lo <= hi
  {
    var n := |rows|;
    rows[if lo <= n then lo else n..if hi <= n then hi else n]
  }

  /** A slice holds the rows from `lo` on, as many as lie below both `hi` and the end. */
  lemma SliceShape(rows: seq<Trip>, lo: nat, hi: nat)
    requires lo <= hi
    ensures |Slice(rows, lo, hi)| == (if hi <= |rows| then hi - lo else if lo <= |rows| then |rows| - lo else 0)
    ensures forall k :: 0 <= k < |Slice(rows, lo, hi)| ==> Slice(rows, lo, hi)[k] == rows[lo + k]
  {
  }

  /** The window shown after the `i`-th "yes": rows 5i up to 5i + 5. */
  function Page(rows: seq<Trip>, i: nat): seq<Trip>
  {
    Slice(rows, PAGE_SIZE * i, PAGE_SIZE * i + PAGE_SIZE)
  }

  /** The first `k` windows, in order. */
  function Pages(rows: seq<Trip>, k: nat): (pages: seq<seq<Trip>>)
  {
    if k == 0 then [] else Pages(rows, k - 1) + [Page(rows, k - 1)]
  }

  /** The i-th of the first k windows is window i. */
  lemma {:induction false} PagesAt(rows: seq<Trip>, k: nat)
    ensures |Pages(rows, k)| == k
    ensures forall i :: 0 <= i < k ==> Pages(rows, k)[i] == Page(rows, i)
  {
    if k > 0 {
      PagesAt(rows, k - 1);
    }
  }

  function Concat(pages: seq<seq<Trip>>): seq<Trip>
  {
    if pages == [] then [] else Concat(pages[..|pages| - 1]) + pages[|pages| - 1]
  }

  /** An answer that continues the pager (and the session): "yes" in any case. */
  predicate IsYes(answer: string)
  {
    |answer| == 3 && ToLowerChar(answer[0]) == 'y' && ToLowerChar(answer[1]) == 'e' && ToLowerChar(answer[2]) == 's'
  }

  /** An answer is "yes" in any case exactly when its lower-cased form is "yes". */
  lemma YesIsLowerYes(answer: string)
    ensures IsYes(answer) <==> Lower(answer) == "yes"
  {
    LowerCases(answer);
    if IsYes(answer) {
      assert Lower(answer) == "yes" by {
        assert forall i :: 0 <= i < 3 ==> Lower(answer)[i] == ToLowerChar(answer[i]);
      }
    }
  }

  /** The number of answers from `pos` on that are "yes" once lower-cased, up to the first that is not. */
  function LeadingYes(inputs: seq<string>, pos: nat): (k: nat)
    requires pos <= |inputs|
    ensures pos + k <= |inputs|
    decreases |inputs| - pos
  {
    if pos == |inputs| || !IsYes(inputs[pos]) then 0 else 1 + LeadingYes(inputs, pos + 1)
  }

  /** Every answer counted by `LeadingYes` is "yes", and the answer after them, if any, is not. */
  lemma {:induction false} LeadingYesStops(inputs: seq<string>, pos: nat)
    requires pos <= |inputs|
    ensures forall i :: pos <= i < pos + LeadingYes(inputs, pos) ==> IsYes(inputs[i])
    ensures pos + LeadingYes(inputs, pos) < |inputs| ==> !IsYes(inputs[pos + LeadingYes(inputs, pos)])
    decreases |inputs| - pos
  {
    if pos < |inputs| && IsYes(inputs[pos]) {
      LeadingYesStops(inputs, pos + 1);
    }
  }

  /** The count of leading "yes" answers is determined by where the first other answer is. */
  lemma {:induction false} LeadingYesIs(inputs: seq<string>, pos: nat, k: nat)
    requires pos + k <= |inputs|
    requires forall i :: pos <= i < pos + k ==> IsYes(inputs[i])
    requires pos + k < |inputs| ==> !IsYes(inputs[pos + k])
    ensures LeadingYes(inputs, pos) == k
    decreases k
  {
    if k > 0 {
      LeadingYesIs(inputs, pos + 1, k - 1);
    }
  }

  /**
   * The pager loop. After k "yes" answers the windows shown are the first k
   * pages and `startLoc` is 5k. A first answer that is not "yes" stops it;
   * `ok` is false when the input ran out before such an answer (input() raises).
   */
  method DisplayData(rows: seq<Trip>, inputs: seq<string>, pos: nat)
    returns (shown: seq<seq<Trip>>, startLoc: nat, next: nat, ok: bool)
    requires pos <= |inputs|
    ensures shown == Pages(rows, LeadingYes(inputs, pos))
    ensures startLoc == PAGE_SIZE * LeadingYes(inputs, pos)
    ensures ok <==> pos + LeadingYes(inputs, pos) < |inputs|
    ensures next == if ok then pos + LeadingYes(inputs, pos) + 1 else |inputs|
  {
    shown, startLoc := [], 0;
    if pos == |inputs| {
      return shown, startLoc, pos, false;
    }
    var viewData := Lower(inputs[pos]);
    next := pos + 1;
    while viewData == "yes"
      invariant pos < next <= |inputs|
      invariant viewData == Lower(inputs[next - 1])
      invariant forall i :: pos <= i < next - 1 ==> IsYes(inputs[i])
      invariant startLoc == PAGE_SIZE * (next - 1 - pos)
      invariant shown == Pages(rows, next - 1 - pos)
      decreases |inputs| - next
    {
      YesIsLowerYes(inputs[next - 1]);
      shown := shown + [Slice(rows, startLoc, startLoc + PAGE_SIZE)];
      startLoc := startLoc + PAGE_SIZE;
      assert shown == Pages(rows, next - pos);
      if next == |inputs| {
        LeadingYesIs(inputs, pos, next - pos);
        return shown, startLoc, next, false;
      }
      viewData := Lower(inputs[next]);
      next := next + 1;
    }
    YesIsLowerYes(inputs[next - 1]);
    LeadingYesIs(inputs, pos, next - 1 - pos);
    ok := true;
  }

  /** The first k windows together are exactly the first min(5k, n) rows: nothing skipped, nothing repeated. */
  lemma {:induction false} PagesCover(rows: seq<Trip>, k: nat)
    ensures Concat(Pages(rows, k)) == Prefix(rows, PAGE_SIZE * k)
  {
    if k > 0 {
      PagesCover(rows, k - 1);
      ConcatSnoc(Pages(rows, k - 1), Page(rows, k - 1));
      PageExtends(rows, k - 1);
    }
  }

  /** `rows[:end]`. */
  function Prefix(rows: seq<Trip>, end: nat): seq<Trip>
  {
    rows[..if end <= |rows| then end else |rows|]
  }

  lemma ConcatSnoc(pages: seq<seq<Trip>>, page: seq<Trip>)
    ensures Concat(pages + [page]) == Concat(pages) + page
  {
    assert (pages + [page])[..|pages|] == pages;
  }

  /** Window i continues the rows shown before it. */
  lemma PageExtends(rows: seq<Trip>, i: nat)
    ensures Prefix(rows, PAGE_SIZE * i) + Page(rows, i) == Prefix(rows, PAGE_SIZE * (i + 1))
  {
    var n := |rows|;
    var lo := PAGE_SIZE * i;
    var hi := lo + PAGE_SIZE;
    assert PAGE_SIZE * (i + 1) == hi;
    if lo < n {
      var m := if hi <= n then hi else n;
      assert Page(rows, i) == rows[lo..m];
      assert rows[..lo] + rows[lo..m] == rows[..m];
    } else {
      assert Page(rows, i) == [];
    }
  }

  /** Windows that start past the last row are empty rather than an error. */
  lemma PagePastEnd(rows: seq<Trip>, i: nat)
    requires PAGE_SIZE * i >= |rows|
    ensures Page(rows, i) == []
  {
  }

  /** Twelve rows and three "yes" answers show rows 0-4, 5-9 and 10-11. */
  lemma TwelveRows(rows: seq<Trip>)
    requires |rows| == 12
    ensures Pages(rows, 3) == [rows[0..5], rows[5..10], rows[10..12]]
  {
    PagesAt(rows, 3);
  }
}
