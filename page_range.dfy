/**
  The PDF reader's page selection (`parse_page_range`): a text such as
  `"1, 3-5"` of 1-based page numbers and ranges becomes the sorted,
  duplicate-free list of 0-based page indices inside the document.
  Numbers and ranges that fall outside the document are dropped; a part that
  is not a number or a range makes the whole selection fall back to every
  page.
 */
module PageRange {
  import opened Wrappers
  import opened Text
  import opened PyInt
  import opened Json

  /** `range(max_pages)`: every page, in order. */
  function AllPages(maxPages: nat): (r: seq<int>)
    ensures |r| == maxPages && forall i :: 0 <= i < maxPages ==> r[i] == i
    ensures forall x :: x in r <==> 0 <= x < maxPages
  {
    var r := seq(maxPages, i requires 0 <= i < maxPages => i);
    assert forall x :: 0 <= x < maxPages ==> x in r by {
      forall x | 0 <= x < maxPages ensures x in r {
        assert r[x] == x;
      }
    }
    r
  }

  /** The indices `lo` to `hi`, both included. */
  function Interval(lo: int, hi: int): (r: set<int>)
    ensures forall x :: x in r <==> lo <= x <= hi
    decreases hi - lo
  {
    if lo > hi then {} else {lo} + Interval(lo + 1, hi)
  }

  /** What one comma-separated part contributes, or `Malformed` where the loop raises. */
  datatype PartResult = Pages(pages: set<int>) | Malformed

  /**
    One part of the selection (pdf_reader.py lines 19-31). A part holding `-` must split
    into exactly two integers; it contributes the 0-based range when that
    range is non-empty and inside the document, and nothing otherwise. Any
    other part must be one integer, contributing its 0-based index when that
    is inside the document.
   */
  function PartPages(part: string, maxPages: nat): (r: PartResult)
    ensures r.Pages? ==> forall x :: x in r.pages ==> 0 <= x < maxPages
  {
    var p := Strip(part);
    if '-' in p then
      var pieces := Split(p, '-');
      if |pieces| != 2 then Malformed
      else
        match (ParseInt(Strip(pieces[0])), ParseInt(Strip(pieces[1])))
        case (Some(start), Some(end)) => Pages(RangePages(start, end, maxPages))
        case _ => Malformed
    else
      match ParseInt(Strip(p))
      case None => Malformed
      case Some(n) => Pages(SinglePage(n, maxPages))
  }

  /** Pages `start` to `end` (1-based): all of them when inside the document and not reversed, else none. */
  function RangePages(start: int, end: int, maxPages: nat): (r: set<int>)
    ensures forall x :: x in r <==> 1 <= start <= end <= maxPages && start - 1 <= x <= end - 1
  {
    var startIdx := start - 1;
    var endIdx := end - 1;
    if startIdx < 0 || endIdx >= maxPages || startIdx > endIdx then {}
    else Interval(startIdx, endIdx)
  }

  /** Page `n` (1-based) when inside the document, else none. */
  function SinglePage(n: int, maxPages: nat): (r: set<int>)
    ensures forall x :: x in r <==> 1 <= n <= maxPages && x == n - 1
  {
    if 0 <= n - 1 < maxPages then {n - 1} else {}
  }

  /** What each part contributes, in order. */
  function PartResults(parts: seq<string>, maxPages: nat): (r: seq<PartResult>)
    ensures |r| == |parts|
    ensures forall k {:trigger PartPages(parts[k], maxPages)} :: 0 <= k < |parts| ==> r[k] == PartPages(parts[k], maxPages)
  {
    seq(|parts|, k requires 0 <= k < |parts| => PartPages(parts[k], maxPages))
  }

  /**
    The indices collected part by part, or `None` as soon as one part is
    malformed: then the indices collected so far are discarded.
   */
  function Collect(results: seq<PartResult>): Option<set<int>> {
    if results == [] then Some({})
    else
      match Collect(results[..|results| - 1])
      case None => None
      case Some(indices) =>
        var last := results[|results| - 1];
        if last.Malformed? then None else Some(indices + last.pages)
  }

  /**
    Collecting fails exactly when some part is malformed, and otherwise
    yields exactly the union of what the parts contribute.
   */
  lemma {:induction false} CollectMeaning(results: seq<PartResult>)
    ensures Collect(results).None? <==> exists k :: 0 <= k < |results| && results[k].Malformed?
    ensures Collect(results).Some? ==> forall x :: x in Collect(results).value <==>
      exists k :: 0 <= k < |results| && x in results[k].pages
  {
    if results != [] {
      var init := results[..|results| - 1];
      CollectMeaning(init);
      assert forall k :: 0 <= k < |init| ==> init[k] == results[k];
    }
  }

  /** The indices the text selects, or `None` when it selects every page. */
  function Selection(pageInput: Value, maxPages: nat, repr: Value -> string): Option<set<int>> {
    if !Truthy(pageInput) then None
    else Collect(PartResults(Split(PyStr(pageInput, repr), ','), maxPages))
  }

  /** `x` is a page the input selects. */
  predicate Selected(pageInput: Value, maxPages: nat, repr: Value -> string, x: int) {
    match Selection(pageInput, maxPages, repr)
    case None => 0 <= x < maxPages
    case Some(indices) => x in indices
  }

  predicate StrictlyAscending(s: seq<int>) {
    forall i, j :: 0 <= i < j < |s| ==> s[i] < s[j]
  }

  /** `str(n)` as a part: the page `n` when it is inside the document, nothing otherwise. */
  lemma NumberPart(n: nat, maxPages: nat)
    ensures PartPages(NatToDecimal(n), maxPages) == Pages(SinglePage(n, maxPages))
  {
    var s := NatToDecimal(n);
    DigitsHaveNoDash(s);
    DigitsStripped(s);
    IntRoundTrip(n);
  }

  /** A number's digits have no whitespace at either end, so `strip` leaves them alone. */
  lemma DigitsStripped(s: string)
    requires s != [] && forall i :: 0 <= i < |s| ==> IsDigit(s[i])
    ensures Strip(s) == s
  {
    assert IsDigit(s[0]) && IsDigit(s[|s| - 1]);
    StripNoOp(s);
  }

  /** Two digit strings around a dash: `strip` keeps the text and `split('-')` yields the two. */
  lemma DashedDigits(sa: string, sb: string)
    requires sa != [] && forall i :: 0 <= i < |sa| ==> IsDigit(sa[i])
    requires sb != [] && forall i :: 0 <= i < |sb| ==> IsDigit(sb[i])
    ensures Strip(sa + "-" + sb) == sa + "-" + sb
    ensures Split(sa + "-" + sb, '-') == [sa, sb]
  {
    var s := sa + "-" + sb;
    DigitsHaveNoDash(sa);
    DigitsHaveNoDash(sb);
    assert IsDigit(s[0]) && IsDigit(s[|s| - 1]);
    StripNoOp(s);
    SplitFirst(sa, '-', sb);
    SplitNoSeparator(sb, '-');
  }

  /**
    `str(a) + "-" + str(b)` as a part: pages `a` to `b` when `1 <= a <= b`
    and `b` is inside the document; nothing for a reversed or out-of-bounds
    range.
   */
  lemma RangePart(a: nat, b: nat, maxPages: nat)
    ensures PartPages(NatToDecimal(a) + "-" + NatToDecimal(b), maxPages) == Pages(RangePages(a, b, maxPages))
  {
    var sa := NatToDecimal(a);
    var sb := NatToDecimal(b);
    DashedDigits(sa, sb);
    assert (sa + "-" + sb)[|sa|] == '-';
    DigitsStripped(sa);
    DigitsStripped(sb);
    IntRoundTrip(a);
    IntRoundTrip(b);
  }

  /**
    A negative number such as `-3` is read as a range with an empty start,
    so it is malformed rather than dropped, and the selection falls back to
    every page.
   */
  lemma NegativeNumberPart(n: nat, maxPages: nat)
    ensures PartPages("-" + NatToDecimal(n), maxPages) == Malformed
  {
    var sn := NatToDecimal(n);
    var s := "-" + sn;
    DigitsHaveNoDash(sn);
    assert !IsSpace(s[0]) && !IsSpace(s[|s| - 1]);
    StripNoOp(s);
    assert s == [] + ['-'] + sn;
    SplitFirst([], '-', sn);
    SplitNoSeparator(sn, '-');
    assert Split(s, '-') == ["", sn];
  }

  /** An empty or all-whitespace part, as in `"1,,2"`, is malformed. */
  lemma BlankPart(part: string, maxPages: nat)
    requires forall k :: 0 <= k < |part| ==> IsSpace(part[k])
    ensures PartPages(part, maxPages) == Malformed
  {
    StripTrims(part);
  }

  /** A part with two or more dashes, as in `"1-2-3"`, is malformed. */
  lemma ManyDashesPart(part: string, maxPages: nat)
    requires Count(Strip(part), '-') >= 2
    ensures PartPages(part, maxPages) == Malformed
  {
  }

  /** The decimal digits of a number hold no dash. */
  lemma DigitsHaveNoDash(s: string)
    requires forall i :: 0 <= i < |s| ==> IsDigit(s[i])
    ensures '-' !in s
  {
    forall i | 0 <= i < |s| ensures s[i] != '-' {
      assert IsDigit(s[i]);
    }
  }

  /** Collecting one more well-formed part adds what it contributes. */
  lemma CollectStep(results: seq<PartResult>, k: nat)
    requires k < |results| && Collect(results[..k]).Some? && results[k].Pages?
    ensures Collect(results[..k + 1]) == Some(Collect(results[..k]).value + results[k].pages)
  {
    assert results[..k + 1][..k] == results[..k];
  }

  /** One malformed part makes the whole collection fail. */
  lemma CollectMalformed(results: seq<PartResult>, k: nat)
    requires k < |results| && results[k].Malformed?
    ensures Collect(results) == None
  {
    CollectMeaning(results);
  }

  lemma IntervalExtend(lo: int, hi: int)
    requires lo <= hi
    ensures Interval(lo, hi) == Interval(lo, hi - 1) + {hi}
  {
  }

  /**
    The body of the loop of pdf_reader.py lines 17-31 for one part: the indices collected
    so far plus what the part contributes, or `None` where the part raises.
    An invalid range adds nothing (the `continue` of pdf_reader.py line 25).
   */
  method AddPart(indices: set<int>, rawPart: string, maxPages: nat) returns (r: Option<set<int>>)
    ensures r == match PartPages(rawPart, maxPages)
      case Malformed => None
      case Pages(pages) => Some(indices + pages)
  {
    var part := Strip(rawPart);
    if '-' in part {
      var pieces := Split(part, '-');
      if |pieces| != 2 {
        return None;
      }
      var start := ParseInt(Strip(pieces[0]));
      var end := ParseInt(Strip(pieces[1]));
      if start.None? || end.None? {
        return None;
      }
      assert PartPages(rawPart, maxPages) == Pages(RangePages(start.value, end.value, maxPages));
      var startIdx := start.value - 1;
      var endIdx := end.value - 1;
      if startIdx < 0 || endIdx >= maxPages || startIdx > endIdx {
        assert indices + RangePages(start.value, end.value, maxPages) == indices;
        return Some(indices);
      }
      var collected := indices;
      assert Interval(startIdx, startIdx - 1) == {};
      for i := startIdx to endIdx + 1
        invariant collected == indices + Interval(startIdx, i - 1)
      {
        IntervalExtend(startIdx, i);
        collected := collected + {i};
      }
      assert RangePages(start.value, end.value, maxPages) == Interval(startIdx, endIdx);
      return Some(collected);
    } else {
      var idx := ParseInt(Strip(part));
      if idx.None? {
        return None;
      }
      assert PartPages(rawPart, maxPages) == Pages(SinglePage(idx.value, maxPages));
      if 0 <= idx.value - 1 < maxPages {
        return Some(indices + {idx.value - 1});
      }
      assert indices + SinglePage(idx.value, maxPages) == indices;
      return Some(indices);
    }
  }

  /**
    The loop of pdf_reader.py lines 17-31 over the comma-separated parts: the indices
    collected, or `None` where a malformed part ends it.
   */
  method CollectIndices(parts: seq<string>, maxPages: nat) returns (r: Option<set<int>>)
    ensures r == Collect(PartResults(parts, maxPages))
    ensures r.Some? ==> forall x :: x in r.value ==> 0 <= x < maxPages
  {
    ghost var results := PartResults(parts, maxPages);
    var indices: set<int> := {};
    for k := 0 to |parts|
      invariant Collect(results[..k]) == Some(indices)
      invariant forall x :: x in indices ==> 0 <= x < maxPages
    {
      assert results[k] == PartPages(parts[k], maxPages);
      var next := AddPart(indices, parts[k], maxPages);
      if next.None? {
        CollectMalformed(results, k);
        return None;
      }
      CollectStep(results, k);
      indices := next.value;
    }
    assert results[..|parts|] == results;
    return Some(indices);
  }

  /** `sorted(list(indices))` for indices inside the document. */
  method SortIndices(indices: set<int>, maxPages: nat) returns (pages: seq<int>)
    requires forall x :: x in indices ==> 0 <= x < maxPages
    ensures StrictlyAscending(pages)
    ensures forall x :: x in pages <==> x in indices
    ensures forall k :: 0 <= k < |pages| ==> 0 <= pages[k] < maxPages
  {
    pages := [];
    for i := 0 to maxPages
      invariant StrictlyAscending(pages)
      invariant forall k :: 0 <= k < |pages| ==> 0 <= pages[k] < i
      invariant forall x :: x in pages <==> x in indices && x < i
    {
      if i in indices {
        pages := pages + [i];
      }
    }
  }

  /**
    `parse_page_range(page_input, max_pages)`: the selected indices,
    strictly ascending (so without duplicates) and inside the document; a
    falsy input, or a malformed part, selects every page in order.
   */
  method ParsePageRange(pageInput: Value, maxPages: nat, repr: Value -> string) returns (pages: seq<int>)
    ensures StrictlyAscending(pages)
    ensures forall x :: x in pages <==> Selected(pageInput, maxPages, repr, x)
    ensures forall k :: 0 <= k < |pages| ==> 0 <= pages[k] < maxPages
    ensures Selection(pageInput, maxPages, repr).None? ==> pages == AllPages(maxPages)
  {
    if !Truthy(pageInput) {
      return AllPages(maxPages);
    }
    var parts := Split(PyStr(pageInput, repr), ',');
    var indices := CollectIndices(parts, maxPages);
    assert Selection(pageInput, maxPages, repr) == indices;
    if indices.None? {
      return AllPages(maxPages);
    }
    pages := SortIndices(indices.value, maxPages);
  }
}
