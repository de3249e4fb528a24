// The cgroup CPU and memory lists: "0-3,8,10-12" to identifiers and back.
module Cpuset {
  import opened Wrappers
  import opened AsciiText

  const COMMA: U8 := 44
  const DASH: U8 := 45

  /* Sets of identifiers as ascending lists. */

  ghost predicate Ascending(s: seq<U32>) {
    forall i, j :: 0 <= i < j < |s| ==> s[i] < s[j]
  }

  ghost predicate SameIds(s: seq<U32>, t: seq<U32>) {
    forall y :: y in s <==> y in t
  }

  lemma AppendIds(s: seq<U32>, x: U32)
    ensures forall y :: y in s + [x] <==> y in s || y == x
    ensures Ascending(s) && (forall y :: y in s ==> y < x) ==> Ascending(s + [x])
  {
    assert forall i :: 0 <= i < |s| ==> s[i] in s;
  }

  lemma LastId(s: seq<U32>)
    requires s != []
    ensures forall y :: y in s <==> y in s[..|s| - 1] || y == s[|s| - 1]
  {
    AppendIds(s[..|s| - 1], s[|s| - 1]);
    assert s == s[..|s| - 1] + [s[|s| - 1]];
  }

  function InsertSorted(s: seq<U32>, x: U32): (r: seq<U32>)
    requires Ascending(s)
    ensures Ascending(r) && forall y :: y in r <==> y in s || y == x
  {
    if s == [] then [x]
    else
      LastId(s);
      var front, last := s[..|s| - 1], s[|s| - 1];
      if last < x then s + [x]
      else if last == x then s
      else
        var r := InsertSorted(front, x);
        AppendIds(r, last);
        assert forall y :: y in front ==> y < last;
        r + [last]
  }

  // `sort_unstable` then `dedup`
  function SortDedup(s: seq<U32>): (r: seq<U32>)
    ensures Ascending(r) && SameIds(r, s)
  {
    if s == [] then []
    else
      LastId(s);
      InsertSorted(SortDedup(s[..|s| - 1]), s[|s| - 1])
  }

  lemma TailIds(s: seq<U32>)
    requires Ascending(s) && s != []
    ensures forall y :: y in s[1..] <==> y in s && y != s[0]
  {
    assert s == [s[0]] + s[1..];
  }

  lemma {:induction false} AscendingIsUnique(s: seq<U32>, t: seq<U32>)
    requires Ascending(s) && Ascending(t) && SameIds(s, t)
    ensures s == t
  {
    assert t != [] ==> t[0] in t;
    if s != [] {
      assert s[0] in t;
      assert t[0] in s;
      TailIds(s);
      TailIds(t);
      AscendingIsUnique(s[1..], t[1..]);
    }
  }

  lemma SortDedupOfAscending(s: seq<U32>)
    requires Ascending(s)
    ensures SortDedup(s) == s
  {
    AscendingIsUnique(SortDedup(s), s);
  }

  /* Parsing. */

  function Split(s: Text, c: U8): seq<Text> {
    var i := IndexOf(s, c);
    if i == |s| then [s] else [s[..i]] + Split(s[i + 1..], c)
  }

  // `start..=end`: empty when end < start
  function Between(lo: U32, hi: int): (r: seq<U32>)
    requires hi <= MAX_U32
    ensures Ascending(r) && forall y :: y in r <==> lo <= y <= hi
  {
    if hi < lo then []
    else
      var r := seq(hi - lo + 1, i requires 0 <= i <= hi - lo => lo + i);
      assert forall y: U32 | lo <= y <= hi :: y in r by {
        forall y: U32 | lo <= y <= hi ensures y in r {
          assert r[y - lo] == y;
        }
      }
      r
  }

  function Id(s: Text): Result<U32> {
    match Parse(s, MAX_U32) case Some(n) => Ok(n) case None => Err
  }

  // The ends of one trimmed, non-empty part.
  function Ends(part: Text): Result<(U32, U32)> {
    var i := IndexOf(part, DASH);
    if i < |part| then
      match (Id(Trim(part[..i])), Id(Trim(part[i + 1..])))
      case (Ok(lo), Ok(hi)) => Ok((lo, hi))
      case _ => Err
    else
      match Id(part) case Ok(n) => Ok((n, n)) case Err => Err
  }

  // What the parts push, in order.
  function Pushed(parts: seq<Text>): Result<seq<U32>> {
    if parts == [] then Ok([])
    else
      var part := Trim(parts[|parts| - 1]);
      match Pushed(parts[..|parts| - 1])
      case Err => Err
      case Ok(before) =>
        if part == [] then Ok(before)
        else
          match Ends(part) case Err => Err case Ok(e) => Ok(before + Between(e.0, e.1))
  }

  function Listed(content: Text): Result<seq<U32>> {
    match Pushed(Split(Trim(content), COMMA)) case Err => Err case Ok(ids) => Ok(SortDedup(ids))
  }

  lemma {:induction false} FirstErrorStays(parts: seq<Text>, n: nat)
    requires n <= |parts| && Pushed(parts[..n]).Err?
    ensures Pushed(parts).Err?
    decreases |parts| - n
  {
    if n == |parts| {
      assert parts[..n] == parts;
    } else {
      assert parts[..n + 1][..n] == parts[..n];
      FirstErrorStays(parts, n + 1);
    }
  }

  /* The direct reading of a list. */

  ghost predicate BadPart(part: Text) {
    Trim(part) != [] && Ends(Trim(part)).Err?
  }

  ghost predicate PartNames(part: Text, x: U32) {
    Trim(part) != [] && match Ends(Trim(part)) case Ok(e) => e.0 <= x <= e.1 case Err => false
  }

  lemma {:induction false} PushedMeans(parts: seq<Text>)
    ensures Pushed(parts).Err? <==> exists p :: p in parts && BadPart(p)
    ensures Pushed(parts).Ok? ==>
              forall x: U32 :: x in Pushed(parts).value <==> exists p :: p in parts && PartNames(p, x)
  {
    if parts != [] {
      var front, last := parts[..|parts| - 1], parts[|parts| - 1];
      PushedMeans(front);
      PartsOfOneMore(front, last);
      assert parts == front + [last];
      LastPart(parts);
    }
  }

  lemma PartsOfOneMore(front: seq<Text>, last: Text)
    ensures forall p :: p in front + [last] <==> p in front || p == last
  {
  }

  // The last part adds what it names, or its error.
  lemma LastPart(parts: seq<Text>)
    requires parts != []
    ensures var front, last := parts[..|parts| - 1], parts[|parts| - 1];
            && (Pushed(parts).Err? <==> Pushed(front).Err? || BadPart(last))
            && (Pushed(parts).Ok? ==>
                  forall x: U32 :: x in Pushed(parts).value <==> x in Pushed(front).value || PartNames(last, x))
  {
  }

  // A list is malformed iff one of its parts is, blank parts aside; otherwise it stands for
  // exactly the identifiers some part names, in ascending order.
  lemma ListedMeans(content: Text)
    ensures var parts := Split(Trim(content), 44);
            && (Listed(content).Err? <==> exists p :: p in parts && BadPart(p))
            && (Listed(content).Ok? ==>
                  && Ascending(Listed(content).value)
                  && forall x: U32 :: x in Listed(content).value <==> exists p :: p in parts && PartNames(p, x))
  {
    PushedMeans(Split(Trim(content), COMMA));
  }

  method ParseSet(content: Text) returns (r: Result<seq<U32>>)
    ensures r == Listed(content)
  {
    var trimmed := Trim(content);
    if trimmed == [] {
      ghost var only := Split(trimmed, COMMA);
      assert only == [trimmed] && only[..0] == [];
      assert Pushed(only) == Ok([]);
      return Ok([]);
    }
    var parts := Split(trimmed, COMMA);
    var result: seq<U32> := [];
    for k := 0 to |parts|
      invariant Pushed(parts[..k]) == Ok(result)
    {
      assert parts[..k + 1][..k] == parts[..k];
      var part := Trim(parts[k]);
      if part == [] {
        continue;
      }
      match Ends(part) {
        case Err =>
          FirstErrorStays(parts, k + 1);
          return Err;
        case Ok(e) =>
          result := PushRange(result, e.0, e.1);
      }
    }
    assert parts[..|parts|] == parts;
    r := Ok(SortDedup(result));
  }

  // `for id in start..=end { result.push(id) }`
  method PushRange(before: seq<U32>, lo: U32, hi: U32) returns (result: seq<U32>)
    ensures result == before + Between(lo, hi)
  {
    result := before;
    var id: int := lo;
    while id <= hi
      invariant lo <= id && (id <= hi as int + 1 || id == lo)
      invariant result == before + Between(lo, id - 1)
    {
      assert Between(lo, id) == Between(lo, id - 1) + [id];
      result := result + [id];
      id := id + 1;
    }
  }

  /* Formatting. */

  type Range = (U32, U32)

  // Ranges that meet nowhere, not even at their ends.
  ghost predicate Maximal(ranges: seq<Range>) {
    && (forall i :: 0 <= i < |ranges| ==> ranges[i].0 <= ranges[i].1)
    && (forall i, j :: 0 <= i < j < |ranges| ==> ranges[i].1 as int + 1 < ranges[j].0)
  }

  function Flatten(ranges: seq<Range>): seq<U32> {
    if ranges == [] then []
    else Flatten(ranges[..|ranges| - 1]) + Between(ranges[|ranges| - 1].0, ranges[|ranges| - 1].1)
  }

  // The text of the ranges, and their separators.
  function FormatRange(r: Range): Text {
    if r.0 == r.1 then ToText(r.0) else ToText(r.0) + [DASH] + ToText(r.1)
  }

  // A single identifier is written as one number, more as two.
  lemma DashIffSeveral(r: Range)
    requires r.0 <= r.1
    ensures 45 in FormatRange(r) <==> r.0 < r.1
  {
    TextIsDigits(r.0);
    assert forall i :: 0 <= i < |ToText(r.0)| ==> IsDigit(ToText(r.0)[i]);
  }

  function FormatAll(ranges: seq<Range>): seq<Text> {
    seq(|ranges|, i requires 0 <= i < |ranges| => FormatRange(ranges[i]))
  }

  function Joined(pieces: seq<Text>): Text {
    if pieces == [] then []
    else if |pieces| == 1 then pieces[0]
    else pieces[0] + [COMMA] + Joined(pieces[1..])
  }

  // The parts are what lies between the commas.
  lemma {:induction false} PartsLieBetweenCommas(s: Text)
    ensures Joined(Split(s, 44)) == s && forall part :: part in Split(s, 44) ==> 44 !in part
  {
    var i := IndexOf(s, 44);
    if i == |s| {
      assert s[..i] == s;
    } else {
      PartsLieBetweenCommas(s[i + 1..]);
      assert s == s[..i] + [44] + s[i + 1..];
    }
  }

  lemma OneMoreRange(ranges: seq<Range>, r: Range)
    ensures Flatten(ranges + [r]) == Flatten(ranges) + Between(r.0, r.1)
    ensures FormatAll(ranges + [r]) == FormatAll(ranges) + [FormatRange(r)]
  {
    assert (ranges + [r])[..|ranges|] == ranges;
  }

  // `done` is split into closed ranges and the open one from `start` to `end`.
  ghost predicate Grouped(ranges: seq<Range>, start: U32, end: U32, done: seq<U32>) {
    && start <= end
    && Maximal(ranges)
    && (forall i :: 0 <= i < |ranges| ==> ranges[i].1 as int + 1 < start)
    && Flatten(ranges) + Between(start, end) == done
  }

  lemma FirstRange(sorted: seq<U32>)
    requires sorted != []
    ensures Grouped([], sorted[0], sorted[0], sorted[..1])
  {
    assert Between(sorted[0], sorted[0]) == [sorted[0]];
  }

  lemma GrowRange(ranges: seq<Range>, start: U32, end: U32, done: seq<U32>, id: U32)
    requires Grouped(ranges, start, end, done) && id == end + 1
    ensures Grouped(ranges, start, id, done + [id])
  {
    assert Between(start, id) == Between(start, end) + [id];
    assert done + [id] == Flatten(ranges) + (Between(start, end) + [id]);
  }

  lemma CloseRange(ranges: seq<Range>, start: U32, end: U32, done: seq<U32>)
    requires Grouped(ranges, start, end, done)
    ensures Maximal(ranges + [(start, end)]) && Flatten(ranges + [(start, end)]) == done
    ensures FormatAll(ranges + [(start, end)]) == FormatAll(ranges) + [FormatRange((start, end))]
  {
    OneMoreRange(ranges, (start, end));
  }

  lemma OpenRange(ranges: seq<Range>, start: U32, end: U32, done: seq<U32>, id: U32)
    requires Grouped(ranges, start, end, done) && end as int + 1 < id
    ensures Grouped(ranges + [(start, end)], id, id, done + [id])
  {
    CloseRange(ranges, start, end, done);
    assert Between(id, id) == [id];
  }

  /* What was formatted reads back. */

  ghost predicate Clean(s: Text) {
    s != [] && forall i :: 0 <= i < |s| ==> IsDigit(s[i]) || s[i] == DASH
  }

  lemma PieceReadsBack(r: Range)
    ensures Clean(FormatRange(r)) && Ends(FormatRange(r)) == Ok(r)
  {
    var lo, hi := ToText(r.0), ToText(r.1);
    TextIsDigits(r.0);
    TextIsDigits(r.1);
    ParseOfText(r.0, MAX_U32);
    ParseOfText(r.1, MAX_U32);
    var s := FormatRange(r);
    if r.0 != r.1 {
      FirstIndex(s, DASH, |lo|);
      assert s[..|lo|] == lo && s[|lo| + 1..] == hi;
      TrimKeepsClean(lo);
      TrimKeepsClean(hi);
    } else {
      assert IndexOf(s, DASH) == |s|;
    }
  }

  lemma TrimKeepsClean(s: Text)
    requires Clean(s)
    ensures Trim(s) == s
  {
    assert !IsSpace(s[0]) && !IsSpace(s[|s| - 1]);
  }

  lemma SplitAtComma(first: Text, rest: Text)
    requires COMMA !in first
    ensures Split(first + [COMMA] + rest, COMMA) == [first] + Split(rest, COMMA)
  {
    var s := first + [COMMA] + rest;
    assert s[..|first|] == first && s[|first| + 1..] == rest;
    FirstIndex(s, COMMA, |first|);
  }

  lemma SplitOfOne(piece: Text)
    requires Clean(piece)
    ensures Split(piece, COMMA) == [piece]
  {
    assert IndexOf(piece, COMMA) == |piece|;
  }

  lemma {:induction false} SplitOfJoined(pieces: seq<Text>)
    requires pieces != [] && forall i :: 0 <= i < |pieces| ==> Clean(pieces[i])
    ensures Split(Joined(pieces), COMMA) == pieces
  {
    assert Clean(pieces[0]);
    if |pieces| == 1 {
      SplitOfOne(pieces[0]);
    } else {
      SplitOfJoined(pieces[1..]);
      SplitPieces(pieces);
    }
  }

  lemma SplitPieces(pieces: seq<Text>)
    requires |pieces| > 1 && COMMA !in pieces[0] && Split(Joined(pieces[1..]), COMMA) == pieces[1..]
    ensures Split(Joined(pieces), COMMA) == pieces
  {
    SplitAtComma(pieces[0], Joined(pieces[1..]));
  }

  lemma {:induction false} JoinedIsTrim(pieces: seq<Text>)
    requires pieces != [] && forall i :: 0 <= i < |pieces| ==> Clean(pieces[i])
    ensures var s := Joined(pieces); s != [] && !IsSpace(s[0]) && !IsSpace(s[|s| - 1])
  {
    assert Clean(pieces[0]);
    if |pieces| > 1 {
      var rest := Joined(pieces[1..]);
      JoinedIsTrim(pieces[1..]);
      var s := pieces[0] + [COMMA] + rest;
      assert s[|s| - 1] == rest[|rest| - 1];
    }
  }

  lemma {:induction false} PushedReadsBack(ranges: seq<Range>)
    ensures Pushed(FormatAll(ranges)) == Ok(Flatten(ranges))
  {
    if ranges != [] {
      var before, last := ranges[..|ranges| - 1], ranges[|ranges| - 1];
      PushedReadsBack(before);
      assert FormatAll(ranges)[..|ranges| - 1] == FormatAll(before);
      PieceReadsBack(last);
      TrimKeepsClean(FormatRange(last));
    }
  }

  lemma TextReadsBack(ranges: seq<Range>)
    ensures Pushed(Split(Trim(Joined(FormatAll(ranges))), COMMA)) == Ok(Flatten(ranges))
  {
    var pieces := FormatAll(ranges);
    if ranges == [] {
      ghost var only := Split([], COMMA);
      assert only == [[]] && only[..0] == [];
      assert Pushed(only) == Ok([]);
    } else {
      forall i | 0 <= i < |pieces| ensures Clean(pieces[i]) {
        PieceReadsBack(ranges[i]);
      }
      SplitOfJoined(pieces);
      JoinedIsTrim(pieces);
      PushedReadsBack(ranges);
    }
  }

  lemma FormattedReadsBack(ids: seq<U32>, ranges: seq<Range>)
    requires Flatten(ranges) == SortDedup(ids)
    ensures Listed(Joined(FormatAll(ranges))) == Ok(SortDedup(ids))
  {
    TextReadsBack(ranges);
    SortDedupOfAscending(SortDedup(ids));
  }

  // The loop of format_set. `end + 1` is an identifier whenever it is computed.
  method FormatRanges(sorted: seq<U32>) returns (pieces: seq<Text>, ghost ranges: seq<Range>)
    requires Ascending(sorted) && sorted != []
    ensures pieces == FormatAll(ranges) && Maximal(ranges) && Flatten(ranges) == sorted
  {
    pieces, ranges := [], [];
    var start, end := sorted[0], sorted[0];
    FirstRange(sorted);
    for k := 1 to |sorted|
      invariant end == sorted[k - 1] && Grouped(ranges, start, end, sorted[..k])
      invariant pieces == FormatAll(ranges)
    {
      var id := sorted[k];
      assert end < id;
      var next: U32 := end + 1;
      assert sorted[..k + 1] == sorted[..k] + [id];
      if id == next {
        GrowRange(ranges, start, end, sorted[..k], id);
        end := id;
      } else {
        CloseRange(ranges, start, end, sorted[..k]);
        OpenRange(ranges, start, end, sorted[..k], id);
        pieces := pieces + [FormatRange((start, end))];
        ranges := ranges + [(start, end)];
        start, end := id, id;
      }
    }
    assert sorted[..|sorted|] == sorted;
    CloseRange(ranges, start, end, sorted);
    pieces := pieces + [FormatRange((start, end))];
    ranges := ranges + [(start, end)];
  }

  // The text lists exactly the identifiers, as maximal increasing ranges that are not
  // adjacent, and reads back as the sorted duplicate-free list.
  method FormatSet(ids: seq<U32>) returns (text: Text, ghost ranges: seq<Range>)
    ensures text == Joined(FormatAll(ranges))
    ensures Maximal(ranges) && Flatten(ranges) == SortDedup(ids)
    ensures Listed(text) == Ok(SortDedup(ids))
  {
    if ids == [] {
      FormattedReadsBack([], []);
      return [], [];
    }
    var sorted := SortDedup(ids);
    assert ids[0] in sorted;
    var pieces;
    pieces, ranges := FormatRanges(sorted);
    text := Joined(pieces);
    FormattedReadsBack(ids, ranges);
  }

  /* One text per set of identifiers. */

  ghost predicate Lists(ranges: seq<Range>, x: int) {
    exists i :: 0 <= i < |ranges| && ranges[i].0 <= x <= ranges[i].1
  }

  lemma {:induction false} FlattenLists(ranges: seq<Range>, x: U32)
    ensures x in Flatten(ranges) <==> Lists(ranges, x)
  {
    if ranges != [] {
      var before, last := ranges[..|ranges| - 1], ranges[|ranges| - 1];
      FlattenLists(before, x);
      assert x in Flatten(ranges) <==> x in Flatten(before) || last.0 <= x <= last.1;
      assert forall i :: 0 <= i < |before| ==> before[i] == ranges[i];
    }
  }

  lemma LastRange(ranges: seq<Range>, x: int)
    requires Maximal(ranges) && ranges != []
    ensures var last := ranges[|ranges| - 1];
            && (last.0 <= x <= last.1 ==> Lists(ranges, x))
            && (x == last.0 as int - 1 || x > last.1 ==> !Lists(ranges, x))
            && (Lists(ranges[..|ranges| - 1], x) <==> Lists(ranges, x) && x < last.0)
  {
    assert forall i :: 0 <= i < |ranges| - 1 ==> ranges[..|ranges| - 1][i] == ranges[i];
  }

  lemma LastRangesAgree(r: seq<Range>, q: seq<Range>)
    requires Maximal(r) && Maximal(q) && r != [] && q != []
    requires forall x: int :: Lists(r, x) <==> Lists(q, x)
    ensures r[|r| - 1] == q[|q| - 1]
  {
    var a, b := r[|r| - 1], q[|q| - 1];
    LastRange(r, b.1);
    LastRange(q, b.1);
    LastRange(q, a.1);
    LastRange(r, a.1);
    LastRange(r, a.0 as int - 1);
    LastRange(q, a.0 as int - 1);
    LastRange(r, b.0 as int - 1);
    LastRange(q, b.0 as int - 1);
  }

  lemma {:induction false} MaximalIsUnique(r: seq<Range>, q: seq<Range>)
    requires Maximal(r) && Maximal(q)
    requires forall x: int :: Lists(r, x) <==> Lists(q, x)
    ensures r == q
  {
    if q != [] {
      LastRange(q, q[|q| - 1].1);
    }
    if r != [] {
      LastRange(r, r[|r| - 1].1);
      LastRangesAgree(r, q);
      var r', q' := r[..|r| - 1], q[..|q| - 1];
      forall x: int ensures Lists(r', x) <==> Lists(q', x) {
        LastRange(r, x);
        LastRange(q, x);
      }
      MaximalIsUnique(r', q');
      assert r == r' + [r[|r| - 1]];
    }
  }

  // Lists with the same identifiers, and only those, have the same text.
  lemma OneTextPerSet(ids: seq<U32>, r: seq<Range>, others: seq<U32>, q: seq<Range>)
    requires Maximal(r) && Flatten(r) == SortDedup(ids)
    requires Maximal(q) && Flatten(q) == SortDedup(others)
    ensures Joined(FormatAll(r)) == Joined(FormatAll(q)) <==> SameIds(ids, others)
  {
    FormattedReadsBack(ids, r);
    FormattedReadsBack(others, q);
    if SameIds(ids, others) {
      AscendingIsUnique(SortDedup(ids), SortDedup(others));
      forall x: int ensures Lists(r, x) <==> Lists(q, x) {
        if 0 <= x <= MAX_U32 {
          FlattenLists(r, x);
          FlattenLists(q, x);
        }
      }
      MaximalIsUnique(r, q);
    }
  }

  // One part: a number within u32, or two of them around the first '-', with white space allowed
  // around each.
  lemma EndsIff(part: Text, lo: U32, hi: U32)
    ensures Ends(part) == Ok((lo, hi)) <==>
              if 45 !in part then lo == hi && Decimal(part, lo)
              else exists k :: FirstDash(part, k) && Decimal(Trim(part[..k]), lo) && Decimal(Trim(part[k + 1..]), hi)
  {
    var i := IndexOf(part, 45);
    if i < |part| {
      assert FirstDash(part, i);
      TwoNumbers(part, i, lo, hi);
      forall k | FirstDash(part, k) ensures k == i {
        FirstIndex(part, 45, k);
      }
    } else {
      assert part[..i] == part;
      OneNumber(part, lo, hi);
    }
  }

  ghost predicate FirstDash(part: Text, k: int) {
    0 <= k < |part| && part[k] == 45 && 45 !in part[..k]
  }

  lemma TwoNumbers(part: Text, i: nat, lo: U32, hi: U32)
    requires i == IndexOf(part, 45) < |part|
    ensures Ends(part) == Ok((lo, hi)) <==> Decimal(Trim(part[..i]), lo) && Decimal(Trim(part[i + 1..]), hi)
  {
    ParseIff(Trim(part[..i]), MAX_U32, lo);
    ParseIff(Trim(part[i + 1..]), MAX_U32, hi);
  }

  lemma OneNumber(part: Text, lo: U32, hi: U32)
    requires IndexOf(part, 45) == |part|
    ensures Ends(part) == Ok((lo, hi)) <==> lo == hi && Decimal(part, lo)
  {
    ParseIff(part, MAX_U32, lo);
    ParseIff(part, MAX_U32, hi);
  }
}
