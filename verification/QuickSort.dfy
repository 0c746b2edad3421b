/** The quicksort on a plain array, its pending ranges on one explicit stack. */
module QuickSort {
  import opened QuickSortRun
  import opened QuickSortSpec

  method Swap(arr: array<int>, a: int, b: int)
    requires 0 <= a < arr.Length && 0 <= b < arr.Length
    modifies arr
    ensures arr[a] == old(arr[b]) && arr[b] == old(arr[a])
    ensures forall k: nat :: k < arr.Length && k != a && k != b ==> arr[k] == old(arr[k])
    ensures arr[..] == Swapped(old(arr[..]), a, b)
  {
    var temp := arr[a];
    arr[a] := arr[b];
    arr[b] := temp;
  }

  method Partition(arr: array<int>, begin: int, end: int) returns (p: int)
    requires 0 <= begin <= end < arr.Length
    modifies arr
    ensures Partitioned(old(arr[..]), arr[..], begin, end, p)
    ensures (arr[..], p) == Split(old(arr[..]), begin, end)
  {
    hide Swapped, Scan, Split;
    var res := begin - 1;
    var pivot := arr[end];
    var i := begin;
    while i <= end - 1
      invariant Splitting(old(arr[..]), arr[..], begin, end, res, i) && pivot == arr[end]
      invariant Scan(arr[..], end, res, i) == Scan(old(arr[..]), end, begin - 1, begin)
    {
      ScanStep(arr[..], end, res, i);
      SplitStep(old(arr[..]), arr[..], begin, end, res, i);
      if arr[i] < pivot {
        res := res + 1;
        Swap(arr, i, res);
      }
      i := i + 1;
    }
    SplitEnd(old(arr[..]), arr[..], begin, end, res);
    SplitIs(old(arr[..]), begin, end, arr[..], res);
    Swap(arr, res + 1, end);
    p := res + 1;
  }

  /**
   * Sorts begin..end and leaves the rest of the array alone; highUse is the highest stack index in use after
   * any partition, and the stack never needs more than StackWords.
   */
  method Sort(arr: array<int>, stack: array<int>, begin: int, end: int) returns (highUse: int)
    requires arr != stack && 0 <= begin <= end < arr.Length
    requires StackWords(end - begin + 1) <= stack.Length
    modifies arr, stack
    ensures IsSortOf(old(arr[..]), arr[..], begin, end)
    ensures highUse + 1 <= StackWords(end - begin + 1)
    ensures highUse == HighUse(old(arr[..]), [Span(begin, end)], -1)
  {
    hide Sorting, OnStack, Pushed, Partitioned, IsSortOf, Size, HighUse, Split, StackWords;
    ghost var before := arr[..];
    ghost var spans := [Span(begin, end)];
    var lo, hi := begin, end;
    var top := -1;
    highUse := -1;
    SortStart(before, begin, end);
    StackWordsAtLeastTwo(end - begin + 1);
    top := PushFirst(stack, top, begin, end);
    while top >= 0
      invariant OnStack(stack[..], top, spans)
      invariant Sorting(before, arr[..], spans, begin, end)
      invariant highUse + 1 <= StackWords(end - begin + 1)
      invariant Inside(spans, arr.Length) && HighUse(arr[..], spans, highUse) == HighUse(before, [Span(begin, end)], -1)
      decreases Size(spans), top + 1
    {
      StackTop(stack[..], top, spans);
      ghost var rest, span := spans[..|spans| - 1], spans[|spans| - 1];
      hi := stack[top];
      top := top - 1;
      lo := stack[top];
      top := top - 1;
      ghost var s := arr[..];
      SpanInside(before, s, rest, span, begin, end);
      HighUseStep(s, rest, span, highUse);
      var p := Partition(arr, lo, hi);
      SortStep(before, s, arr[..], rest, span, p, begin, end);
      spans := Pushed(rest, lo, hi, p);
      top := PushSpans(stack, top, lo, hi, p, rest);
      if top > highUse {
        highUse := top;
      }
    }
    OnEmptyStack(stack[..], top, spans);
    HighUseEnd(arr[..], highUse);
    SortDone(before, arr[..], begin, end);
  }

  method PushFirst(stack: array<int>, top: int, begin: int, end: int) returns (top': int)
    requires top == -1 && stack.Length >= 2
    modifies stack
    ensures OnStack(stack[..], top', [Span(begin, end)])
  {
    top' := top + 1;
    stack[top'] := begin;
    top' := top' + 1;
    stack[top'] := end;
  }

  /** The two conditional pushes. */
  method PushSpans(stack: array<int>, top: int, begin: int, end: int, p: int, ghost rest: seq<Span>) returns (top': int)
    requires OnStack(stack[..], top, rest) && 2 * |Pushed(rest, begin, end, p)| <= stack.Length
    modifies stack
    ensures OnStack(stack[..], top', Pushed(rest, begin, end, p))
    ensures top' + 1 == 2 * |Pushed(rest, begin, end, p)|
  {
    top' := top;
    if p - 1 > begin {
      top' := top' + 1;
      stack[top'] := begin;
      top' := top' + 1;
      stack[top'] := p - 1;
    }
    if p + 1 < end {
      top' := top' + 1;
      stack[top'] := p + 1;
      top' := top' + 1;
      stack[top'] := end;
    }
  }
}
