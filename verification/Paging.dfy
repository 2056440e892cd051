/** Byte-budgeted pages over a sequence and the walk that follows their cursors
    (shared/record_views.py). */
module Paging {
  import opened Foundations
  import opened Binary64
  import opened Cursor

  const MAX_STRUCTURED_RESPONSE_BYTES: nat := 256 * 1024

  datatype PageInfo = PageInfo(start: nat, returned: nat, nextCursor: Option<Text>, complete: bool)

  /** INVALID_TOOL_REQUEST on the limit, on the cursor, from the cursor encoder, and
      RESULT_LIMIT_EXCEEDED with the measured size. */
  datatype Failure = InvalidLimit | InvalidCursor | CursorRefused | ResultLimitExceeded(actual: nat)

  /** What stays fixed while one view is paged: its cursor encoder and decoder, and the size of
      the serialized response that `build` makes of some items and a page descriptor. */
  datatype View<!T> = View(encode: nat -> Option<Text>, decode: Text -> Option<nat>,
                           size: (seq<T>, PageInfo) -> nat)

  predicate ValidLimit(value: int, maximum: nat) {
    1 <= value <= maximum
  }

  function ValidateLimit(value: int, maximum: nat): Result<nat, Failure> {
    if ValidLimit(value, maximum) then Ok(value) else Err(InvalidLimit)
  }

  /** The descriptor of the page that starts at `start` and holds n items. */
  function Describe<T>(v: View<T>, values: seq<T>, start: nat, n: nat): Result<PageInfo, Failure> {
    if start + n == |values| then Ok(PageInfo(start, n, None, true))
    else
      match v.encode(start + n)
      case Some(token) => Ok(PageInfo(start, n, Some(token), false))
      case None => Err(CursorRefused)
  }

  /** The size of the page of n items, when its cursor can be made. */
  function Measure<T>(v: View<T>, values: seq<T>, start: nat, n: nat): Result<nat, Failure>
    requires start + n <= |values|
  {
    match Describe(v, values, start, n)
    case Ok(info) => Ok(v.size(values[start..start + n], info))
    case Err(e) => Err(e)
  }

  predicate Fits<T>(v: View<T>, values: seq<T>, start: nat, n: nat)
    requires start + n <= |values|
  {
    Measure(v, values, start, n).Ok? && Measure(v, values, start, n).value <= MAX_STRUCTURED_RESPONSE_BYTES
  }

  /** How many items the page takes, given that the first n fit. */
  function Grow<T>(v: View<T>, values: seq<T>, start: nat, limit: nat, n: nat): Result<nat, Failure>
    requires start + n <= |values| && n <= limit
    decreases limit - n
  {
    if start + n == |values| || n == limit then Ok(n)
    else if Measure(v, values, start, n + 1).Err? then Err(Measure(v, values, start, n + 1).error)
    else if Fits(v, values, start, n + 1) then Grow(v, values, start, limit, n + 1)
    else if n == 0 then Err(ResultLimitExceeded(Measure(v, values, start, 1).value))
    else Ok(n)
  }

  /** The page of n items. */
  function PageWith<T>(v: View<T>, values: seq<T>, start: nat, n: nat): Result<(seq<T>, PageInfo), Failure>
    requires start + n <= |values|
  {
    match Describe(v, values, start, n)
    case Err(e) => Err(e)
    case Ok(info) =>
      var actual := v.size(values[start..start + n], info);
      if actual > MAX_STRUCTURED_RESPONSE_BYTES then Err(ResultLimitExceeded(actual))
      else Ok((values[start..start + n], info))
  }

  /** The page of the items that `Grow` takes, given that the first n fit. */
  function PageFrom<T>(v: View<T>, values: seq<T>, start: nat, limit: nat, n: nat)
    : Result<(seq<T>, PageInfo), Failure>
    requires start + n <= |values| && n <= limit
  {
    match Grow(v, values, start, limit, n)
    case Err(e) => Err(e)
    case Ok(m) => if start + m > |values| then Err(InvalidCursor) else PageWith(v, values, start, m)
  }

  function PageOf<T>(v: View<T>, values: seq<T>, start: nat, limit: nat): Result<(seq<T>, PageInfo), Failure> {
    if start > |values| then Err(InvalidCursor) else PageFrom(v, values, start, limit, 0)
  }

  /** One round of the loop of `_page`. */
  lemma {:induction false} PageRound<T>(v: View<T>, values: seq<T>, start: nat, limit: nat, index: nat)
    requires start <= index < |values| && index - start < limit
    ensures values[start..index + 1] == values[start..index] + [values[index]]
    ensures PageFrom(v, values, start, limit, index - start) ==
      match Describe(v, values, start, index + 1 - start)
      case Err(e) => Err(e)
      case Ok(info) =>
        var actual := v.size(values[start..index + 1], info);
        if actual <= MAX_STRUCTURED_RESPONSE_BYTES then PageFrom(v, values, start, limit, index + 1 - start)
        else if index == start then Err(ResultLimitExceeded(actual))
        else PageWith(v, values, start, index - start)
  {
  }

  /** The code after the loop. */
  method FinishPage<T>(v: View<T>, values: seq<T>, start: nat, selected: seq<T>)
    returns (page: Result<(seq<T>, PageInfo), Failure>)
    requires start + |selected| <= |values| && selected == values[start..start + |selected|]
    ensures page == PageWith(v, values, start, |selected|)
  {
    var info := Describe(v, values, start, |selected|);
    if info.Err? {
      return Err(info.error);
    }
    var actual := v.size(selected, info.value);
    if actual > MAX_STRUCTURED_RESPONSE_BYTES {
      return Err(ResultLimitExceeded(actual));
    }
    return Ok((selected, info.value));
  }

  /** `_page`. */
  method Page<T>(v: View<T>, values: seq<T>, start: nat, limit: nat)
    returns (page: Result<(seq<T>, PageInfo), Failure>)
    ensures page == PageOf(v, values, start, limit)
  {
    if start > |values| {
      return Err(InvalidCursor);
    }
    var selected: seq<T> := [];
    var maximumEnd := if |values| < start + limit then |values| else start + limit;
    for index := start to maximumEnd
      invariant |selected| == index - start && selected == values[start..index]
      invariant PageOf(v, values, start, limit) == PageFrom(v, values, start, limit, index - start)
    {
      var candidate := selected + [values[index]];
      PageRound(v, values, start, limit, index);
      var info := Describe(v, values, start, |candidate|);
      if info.Err? {
        return Err(info.error);
      }
      var actual := v.size(candidate, info.value);
      if actual > MAX_STRUCTURED_RESPONSE_BYTES {
        if selected == [] {
          return Err(ResultLimitExceeded(actual));
        }
        page := FinishPage(v, values, start, selected);
        return;
      }
      selected := candidate;
    }
    page := FinishPage(v, values, start, selected);
  }

  // ----- what a page is -----

  lemma {:induction false} GrowIsGreatestFit<T>(v: View<T>, values: seq<T>, start: nat, limit: nat, n: nat)
    requires start + n <= |values| && n <= limit
    requires Grow(v, values, start, limit, n).Ok?
    ensures var m := Grow(v, values, start, limit, n).value;
      && n <= m <= limit && start + m <= |values|
      && (forall k :: n < k <= m ==> Fits(v, values, start, k))
      && (start + m == |values| || m == limit || !Fits(v, values, start, m + 1))
      && (n == 0 && limit > 0 && start < |values| ==> m > 0)
    decreases limit - n
  {
    if start + n < |values| && n < limit && Fits(v, values, start, n + 1) {
      GrowIsGreatestFit(v, values, start, limit, n + 1);
    }
  }

  /** A page is the longest run of items from its start that stays within the limit and the byte
      budget at every step; it is empty only at the end, fits the budget, and carries a cursor to
      the next item exactly when items are left. */
  lemma {:induction false} PageIsGreatestFit<T>(v: View<T>, values: seq<T>, start: nat, limit: nat)
    requires limit > 0 && PageOf(v, values, start, limit).Ok?
    ensures var (items, info) := PageOf(v, values, start, limit).value;
      && start + |items| <= |values| && items == values[start..start + |items|] && |items| <= limit
      && info.start == start && info.returned == |items|
      && v.size(items, info) <= MAX_STRUCTURED_RESPONSE_BYTES
      && (forall k :: 0 < k <= |items| ==> Fits(v, values, start, k))
      && (info.complete <==> start + |items| == |values|)
      && (info.complete <==> info.nextCursor == None)
      && (info.nextCursor.Some? ==>
            info.nextCursor == v.encode(start + |items|))
      && (start < |values| ==> items != [])
      && (start + |items| == |values| || |items| == limit || !Fits(v, values, start, |items| + 1))
  {
    GrowIsGreatestFit(v, values, start, limit, 0);
  }

  /** Every index has a cursor, and the cursor leads back to the index. */
  ghost predicate Served<T>(v: View<T>, values: seq<T>) {
    forall i: nat :: i <= |values| ==> v.encode(i).Some? && v.decode(v.encode(i).value) == Some(i)
  }

  /** The smallest page that can start at index i fits: one item, or the empty page at the end. */
  predicate SmallestFits<T>(v: View<T>, values: seq<T>, i: nat)
    requires i <= |values|
  {
    Fits(v, values, i, if i < |values| then 1 else 0)
  }

  lemma {:induction false} GrowNeedsOneFit<T>(v: View<T>, values: seq<T>, start: nat, limit: nat, n: nat)
    requires Served(v, values) && start + n <= |values| && n <= limit
    requires n > 0 ==> Fits(v, values, start, n)
    ensures var r := Grow(v, values, start, limit, n);
      if r.Err? then
        r.error.ResultLimitExceeded? && n == 0 && start < |values| && !Fits(v, values, start, 1)
      else
        && start + r.value <= |values|
        && (r.value > 0 ==> Fits(v, values, start, r.value))
        && (r.value == 0 ==> n == 0 && (start == |values| || limit == 0))
    decreases limit - n
  {
    if start + n < |values| && n < limit && Fits(v, values, start, n + 1) {
      GrowNeedsOneFit(v, values, start, limit, n + 1);
    }
  }

  /** A served page is refused exactly when the smallest page at its start does not fit. */
  lemma {:induction false} RefusedIffSmallestDoesNotFit<T>(v: View<T>, values: seq<T>, start: nat, limit: nat)
    requires Served(v, values) && start <= |values| && limit > 0
    ensures PageOf(v, values, start, limit).Err? <==> !SmallestFits(v, values, start)
    ensures PageOf(v, values, start, limit).Err? ==> PageOf(v, values, start, limit).error.ResultLimitExceeded?
  {
    GrowNeedsOneFit(v, values, start, limit, 0);
    if Grow(v, values, start, limit, 0).Ok? {
      GrowIsGreatestFit(v, values, start, limit, 0);
    }
  }

  // ----- following the cursors -----

  /** `_start`. */
  function Resume<T>(v: View<T>, cursor: Option<Text>): Option<nat> {
    match cursor
    case None => Some(0)
    case Some(token) => v.decode(token)
  }

  /** One request of a paged view: the limit, then the cursor, then the page. */
  function Serve<T>(v: View<T>, values: seq<T>, maximum: nat, cursor: Option<Text>, limit: int)
    : Result<(seq<T>, PageInfo), Failure>
  {
    match ValidateLimit(limit, maximum)
    case Err(e) => Err(e)
    case Ok(pageLimit) =>
      match Resume(v, cursor)
      case None => Err(InvalidCursor)
      case Some(start) => PageOf(v, values, start, pageLimit)
  }

  /** What a request is refused for: the limit is looked at first, then the cursor, then where it leads;
      what is served starts where the cursor leads and returns no more than was asked for. */
  lemma {:induction false} ServedRequest<T>(v: View<T>, values: seq<T>, maximum: nat, cursor: Option<Text>,
                                            limit: int)
    ensures var r := Serve(v, values, maximum, cursor, limit);
      var start := if cursor.None? then Some(0) else v.decode(cursor.value);
      && (r == Err(InvalidLimit) <==> !(1 <= limit <= maximum))
      && (r == Err(InvalidCursor) <==>
            1 <= limit <= maximum && (start.None? || start.value > |values|))
      && (r == Err(CursorRefused) ==> exists i: nat :: i <= |values| && v.encode(i).None?)
      && (r.Ok? ==> r.value.1.start == start.value && r.value.1.returned == |r.value.0| <= limit)
  {
    var start := if cursor.None? then Some(0) else v.decode(cursor.value);
    if 1 <= limit <= maximum && start.Some? && start.value <= |values| {
      if PageOf(v, values, start.value, limit).Ok? {
        PageIsGreatestFit(v, values, start.value, limit);
      } else {
        PageFailure(v, values, start.value, limit);
      }
    }
  }

  lemma {:induction false} GrowFailure<T>(v: View<T>, values: seq<T>, start: nat, limit: nat, n: nat)
    requires start + n <= |values| && n <= limit && Grow(v, values, start, limit, n).Err?
    ensures var e := Grow(v, values, start, limit, n).error;
      e.ResultLimitExceeded? || (e.CursorRefused? && exists i: nat :: i <= |values| && v.encode(i).None?)
    decreases limit - n
  {
    if Measure(v, values, start, n + 1).Ok? && Fits(v, values, start, n + 1) {
      GrowFailure(v, values, start, limit, n + 1);
    }
  }

  lemma {:induction false} PageFailure<T>(v: View<T>, values: seq<T>, start: nat, limit: nat)
    requires start <= |values| && limit > 0 && PageOf(v, values, start, limit).Err?
    ensures var e := PageOf(v, values, start, limit).error;
      e.ResultLimitExceeded? || (e.CursorRefused? && exists i: nat :: i <= |values| && v.encode(i).None?)
  {
    if Grow(v, values, start, limit, 0).Err? {
      GrowFailure(v, values, start, limit, 0);
    } else {
      GrowIsGreatestFit(v, values, start, limit, 0);
    }
  }

  datatype WalkResult<T> = Finished(items: seq<T>, pages: nat) | Refused(failure: Failure) | Unfinished

  /** One request per limit: every request after the first sends the cursor it was given. */
  function Walk<T>(v: View<T>, values: seq<T>, maximum: nat, cursor: Option<Text>, limits: seq<int>): WalkResult<T>
    decreases |limits|
  {
    if limits == [] then Unfinished
    else
      match Serve(v, values, maximum, cursor, limits[0])
      case Err(e) => Refused(e)
      case Ok((items, info)) =>
        if info.complete then Finished(items, 1)
        else
          match Walk(v, values, maximum, info.nextCursor, limits[1..])
          case Finished(rest, pages) => Finished(items + rest, pages + 1)
          case other => other
  }

  /** Why a walk may stop early: a limit out of range, or an index where the smallest page does
      not fit. */
  ghost predicate Explained<T>(v: View<T>, values: seq<T>, maximum: nat, limits: seq<int>, failure: Failure) {
    match failure
    case InvalidLimit => exists k :: 0 <= k < |limits| && !(1 <= limits[k] <= maximum)
    case ResultLimitExceeded(_) => exists i: nat :: i <= |values| && !SmallestFits(v, values, i)
    case _ => false
  }

  lemma {:induction false} ExplainedByMore<T>(v: View<T>, values: seq<T>, maximum: nat, limits: seq<int>,
                                              failure: Failure)
    requires limits != [] && Explained(v, values, maximum, limits[1..], failure)
    ensures Explained(v, values, maximum, limits, failure)
  {
    if failure.InvalidLimit? {
      var k :| 0 <= k < |limits[1..]| && !(1 <= limits[1..][k] <= maximum);
      assert !(1 <= limits[k + 1] <= maximum);
    }
  }

  /** From the item a cursor stands for, the pages concatenate to exactly the rest of the
      sequence, in at most one page per remaining item. */
  lemma {:induction false} WalkFrom<T>(v: View<T>, values: seq<T>, maximum: nat, cursor: Option<Text>, start: nat,
                                       limits: seq<int>)
    requires Served(v, values) && start <= |values| && Resume(v, cursor) == Some(start)
    requires |limits| > 0 && |limits| >= |values| - start
    ensures var w := Walk(v, values, maximum, cursor, limits);
      && !w.Unfinished?
      && (w.Finished? ==> w.items == values[start..])
      && (w.Finished? ==> w.pages <= if start < |values| then |values| - start else 1)
      && (w.Refused? ==> Explained(v, values, maximum, limits, w.failure))
    decreases |limits|, 0
  {
    if ValidLimit(limits[0], maximum) {
      RefusedIffSmallestDoesNotFit(v, values, start, limits[0]);
      if PageOf(v, values, start, limits[0]).Ok? {
        PageIsGreatestFit(v, values, start, limits[0]);
        var (items, info) := PageOf(v, values, start, limits[0]).value;
        if info.complete {
          assert values[start..] == items;
        } else {
          WalkStep(v, values, maximum, start, items, info, limits);
        }
      }
    }
  }

  lemma {:induction false} WalkStep<T>(v: View<T>, values: seq<T>, maximum: nat, start: nat, items: seq<T>,
                                       info: PageInfo, limits: seq<int>)
    requires Served(v, values) && items != [] && start + |items| < |values|
    requires items == values[start..start + |items|] && info.nextCursor == v.encode(start + |items|)
    requires limits != [] && |limits| >= |values| - start
    ensures var w := Walk(v, values, maximum, info.nextCursor, limits[1..]);
      && !w.Unfinished?
      && (w.Finished? ==> items + w.items == values[start..] && w.pages + 1 <= |values| - start)
      && (w.Refused? ==> Explained(v, values, maximum, limits, w.failure))
    decreases |limits[1..]|, 1
  {
    var next := start + |items|;
    assert v.encode(next).Some?;
    WalkFrom(v, values, maximum, info.nextCursor, next, limits[1..]);
    assert values[start..] == values[start..next] + values[next..];
    var w := Walk(v, values, maximum, info.nextCursor, limits[1..]);
    if w.Refused? {
      ExplainedByMore(v, values, maximum, limits, w.failure);
    }
  }

  /** Paging is complete: whatever limits are asked for, following the cursors from the start
      returns the whole sequence, in order, with no gap and no repeat, unless a limit is out of
      range or some item cannot fit on a page of its own. */
  lemma {:induction false} WalkIsComplete<T>(v: View<T>, values: seq<T>, maximum: nat, limits: seq<int>)
    requires Served(v, values)
    requires |limits| > 0 && |limits| >= |values|
    ensures var w := Walk(v, values, maximum, None, limits);
      && (w.Finished? || w.Refused?)
      && (w.Finished? ==> w.items == values)
      && (w.Refused? ==> Explained(v, values, maximum, limits, w.failure))
  {
    WalkFrom(v, values, maximum, None, 0, limits);
  }

  // ----- the views of a session -----

  function SessionView<T>(session: Session, reference: Text, view: Text, selector: Option<Text>,
                          size: (seq<T>, PageInfo) -> nat): View<T> {
    View(n => EncodeToken(session, reference, view, selector, n),
         token => DecodeToken(session, token, reference, view, selector),
         size)
  }

  /** The session's cursors serve every sequence of a view with a plain name. */
  lemma {:induction false} SessionViewsAreServed<T>(session: Session, reference: Text, view: Text,
                                                    selector: Option<Text>,
                                                    size: (seq<T>, PageInfo) -> nat, values: seq<T>)
    requires SessionOk(session) && DigestsAreHex(session)
    requires ReferenceShaped(reference) && Plain(view) && 1 <= |view| <= 64 && ValidSelector(selector)
    requires |values| <= MAX_SAFE_INTEGER
    ensures Served(SessionView(session, reference, view, selector, size), values)
  {
    var v := SessionView(session, reference, view, selector, size);
    forall i: nat | i <= |values|
      ensures v.encode(i).Some? && v.decode(v.encode(i).value) == Some(i)
    {
      CursorsFit(session, reference, view, selector, i);
      CursorBindsItsArguments(session, EncodeToken(session, reference, view, selector, i).value, i,
                              reference, view, selector, reference, view, selector);
    }
  }
}
