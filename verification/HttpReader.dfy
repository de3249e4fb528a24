// The incremental HTTP/1.1 response reader of the Firecracker client.
module HttpReader {
  import opened Wrappers
  import opened AsciiText

  const CR: U8 := 13
  const LF: U8 := 10
  const COLON: U8 := 58

  /* Reading the head. */

  // str::lines: split after LF, drop LF or CRLF, no empty line after a final LF.
  function Lines(s: Text): seq<Text> {
    if s == [] then []
    else
      var i := IndexOf(s, LF);
      var line := if i > 0 && i < |s| && s[i - 1] == CR then s[..i - 1] else s[..i];
      [line] + if i < |s| then Lines(s[i + 1..]) else []
  }

  function WordEnd(s: Text): (i: nat)
    ensures i <= |s|
  {
    if s == [] || IsSpace(s[0]) then 0 else 1 + WordEnd(s[1..])
  }

  // `split_whitespace().nth(1)`
  function SecondWord(s: Text): Option<Text> {
    var first := TrimStart(s);
    var rest := TrimStart(first[WordEnd(first)..]);
    if rest == [] then None else Some(rest[..WordEnd(rest)])
  }

  function Lower(c: U8): U8 {
    if 65 <= c <= 90 then c + 32 else c
  }

  // "content-length"
  const CONTENT_LENGTH: Text := [99, 111, 110, 116, 101, 110, 116, 45, 108, 101, 110, 103, 116, 104]

  predicate IsContentLength(key: Text) {
    |key| == |CONTENT_LENGTH| && forall i :: 0 <= i < |key| ==> Lower(key[i]) == CONTENT_LENGTH[i]
  }

  predicate IsLengthHeader(line: Text) {
    var i := IndexOf(line, COLON);
    i < |line| && IsContentLength(line[..i])
  }

  // The first Content-Length header decides; one that does not parse counts as 0.
  function ContentLength(headers: seq<Text>): nat {
    if headers == [] then 0
    else if IsLengthHeader(headers[0]) then
      match Parse(Trim(headers[0][IndexOf(headers[0], COLON) + 1..]), MAX_USIZE) case Some(n) => n case None => 0
    else ContentLength(headers[1..])
  }

  datatype Head = Head(status: nat, contentLength: nat)

  function ParseHead(head: Text): Result<Head> {
    var lines := Lines(head);
    if lines == [] then Err
    else
      match SecondWord(lines[0])
      case None => Err
      case Some(word) =>
        match Parse(word, MAX_U16)
        case None => Err
        case Some(status) => Ok(Head(status, ContentLength(lines[1..])))
  }

  /* The whole-stream reading (section 6.2 of RFC 9112). */

  predicate TerminatorAt(s: Text, i: nat) {
    i + 4 <= |s| && s[i..i + 4] == [CR, LF, CR, LF]
  }

  // `windows(4).position(..)`
  function FindTerminator(s: Text, from: nat): (r: Option<nat>)
    requires from <= |s|
    ensures r.Some? ==>
              from <= r.value && TerminatorAt(s, r.value) && forall i :: from <= i < r.value ==> !TerminatorAt(s, i)
    ensures r.None? ==> forall i :: from <= i ==> !TerminatorAt(s, i)
    decreases |s| - from
  {
    if from + 4 > |s| then None
    else if TerminatorAt(s, from) then Some(from)
    else FindTerminator(s, from + 1)
  }

  datatype Outcome =
    | Incomplete                            // the stream ended, failed or stalled too early
    | Malformed
    | Success
    | HttpError(status: nat, body: Text)

  function Answer(h: Head, body: Text): Outcome {
    if 200 <= h.status < 300 then Success else HttpError(h.status, body)
  }

  // The first CRLFCRLF ends the head; exactly Content-Length bytes follow.
  function WholeStream(s: Text): Outcome {
    match FindTerminator(s, 0)
    case None => Incomplete
    case Some(pos) =>
      match ParseHead(s[..pos])
      case Err => Malformed
      case Ok(h) =>
        var rest := s[pos + 4..];
        if |rest| < h.contentLength then Incomplete else Answer(h, rest[..h.contentLength])
  }

  function Concat(chunks: seq<Text>): Text {
    if chunks == [] then [] else Concat(chunks[..|chunks| - 1]) + chunks[|chunks| - 1]
  }

  lemma ConcatStep(chunks: seq<Text>, n: nat)
    requires n < |chunks|
    ensures Concat(chunks[..n + 1]) == Concat(chunks[..n]) + chunks[n]
  {
    assert chunks[..n + 1][..n] == chunks[..n];
  }

  lemma {:induction false} ConcatPrefix(chunks: seq<Text>, n: nat)
    requires n <= |chunks|
    ensures Concat(chunks[..n]) <= Concat(chunks)
    decreases |chunks| - n
  {
    if n == |chunks| {
      assert chunks[..n] == chunks;
    } else {
      ConcatStep(chunks, n);
      ConcatPrefix(chunks, n + 1);
    }
  }

  // Where the head ends depends on the bytes up to its end only.
  lemma TerminatorOfPrefix(s: Text, t: Text, pos: nat)
    requires FindTerminator(s, 0) == Some(pos)
    requires pos + 4 <= |t| && t[..pos + 4] == s[..pos + 4]
    ensures FindTerminator(t, 0) == Some(pos)
  {
    forall i | 0 <= i <= pos ensures TerminatorAt(t, i) == TerminatorAt(s, i) {
      assert t[i..i + 4] == t[..pos + 4][i..i + 4];
      assert s[i..i + 4] == s[..pos + 4][i..i + 4];
    }
  }

  // Once a prefix decides the outcome, what follows on the stream cannot change it.
  lemma PrefixDecides(s: Text, t: Text)
    requires s <= t && WholeStream(s) != Incomplete
    ensures WholeStream(t) == WholeStream(s)
  {
    var pos := FindTerminator(s, 0).value;
    TerminatorOfPrefix(s, t, pos);
    assert t[..pos] == s[..pos];
    if ParseHead(s[..pos]).Ok? {
      var n := ParseHead(s[..pos]).value.contentLength;
      assert t[pos + 4..][..n] == s[pos + 4..][..n];
    }
  }

  // After n reads the bytes at hand decide nothing, nor did they after fewer reads.
  ghost predicate Undecided(chunks: seq<Text>, n: nat)
    requires n <= |chunks|
  {
    forall k :: 0 <= k < n ==> WholeStream(Concat(chunks[..k])) == Incomplete
  }

  lemma ReadOneMore(chunks: seq<Text>, n: nat)
    requires n < |chunks| && Undecided(chunks, n) && WholeStream(Concat(chunks[..n])) == Incomplete
    ensures Undecided(chunks, n + 1) && Concat(chunks[..n + 1]) == Concat(chunks[..n]) + chunks[n]
  {
    ConcatStep(chunks, n);
  }

  // What the head loop leaves in `raw` splits into the head and the start of the body.
  lemma BodySoFar(raw: Text, boundary: nat, body: Text, h: Head)
    requires FindTerminator(raw, 0) == Some(boundary) && ParseHead(raw[..boundary]) == Ok(h)
    ensures var s := raw[..boundary + 4] + body;
            WholeStream(s) == if |body| < h.contentLength then Incomplete else Answer(h, body[..h.contentLength])
  {
    var s := raw[..boundary + 4] + body;
    TerminatorOfPrefix(raw, s, boundary);
    assert s[..boundary] == raw[..boundary];
    assert s[boundary + 4..] == body;
  }

  // One more read of the body loop.
  lemma GrowBody(chunks: seq<Text>, raw: Text, boundary: nat, body: Text, h: Head, taken: nat)
    requires taken < |chunks| && Undecided(chunks, taken)
    requires FindTerminator(raw, 0) == Some(boundary) && ParseHead(raw[..boundary]) == Ok(h)
    requires Concat(chunks[..taken]) == raw[..boundary + 4] + body && |body| < h.contentLength
    ensures Undecided(chunks, taken + 1)
    ensures Concat(chunks[..taken + 1]) == raw[..boundary + 4] + (body + chunks[taken])
  {
    BodySoFar(raw, boundary, body, h);
    ReadOneMore(chunks, taken);
    Regroup(raw[..boundary + 4], body, chunks[taken]);
  }

  lemma Regroup(a: Text, b: Text, c: Text)
    ensures a + b + c == a + (b + c)
  {
  }

  // The header loop of request_inner.
  method ReadHead(chunks: seq<Text>) returns (raw: Text, taken: nat)
    ensures taken <= |chunks| && raw == Concat(chunks[..taken]) && Undecided(chunks, taken)
    ensures FindTerminator(raw, 0).None? ==> taken == |chunks|
  {
    raw, taken := [], 0;
    while FindTerminator(raw, 0).None? && taken < |chunks|
      invariant taken <= |chunks| && raw == Concat(chunks[..taken]) && Undecided(chunks, taken)
    {
      ReadOneMore(chunks, taken);
      raw, taken := raw + chunks[taken], taken + 1;
    }
  }

  // The body loop of request_inner, after `before` reads.
  method ReadBody(chunks: seq<Text>, raw: Text, before: nat, boundary: nat, h: Head)
    returns (outcome: Outcome, taken: nat)
    requires before <= |chunks| && raw == Concat(chunks[..before]) && Undecided(chunks, before)
    requires FindTerminator(raw, 0) == Some(boundary) && ParseHead(raw[..boundary]) == Ok(h)
    ensures taken <= |chunks| && Undecided(chunks, taken)
    ensures outcome == WholeStream(Concat(chunks[..taken]))
    ensures outcome == Incomplete ==> taken == |chunks|
  {
    var body := raw[boundary + 4..];
    taken := before;
    assert raw == raw[..boundary + 4] + body;
    while |body| < h.contentLength
      invariant before <= taken <= |chunks| && Undecided(chunks, taken)
      invariant Concat(chunks[..taken]) == raw[..boundary + 4] + body
      decreases |chunks| - taken
    {
      if taken == |chunks| {
        BodySoFar(raw, boundary, body, h);
        return Incomplete, taken;
      }
      GrowBody(chunks, raw, boundary, body, h, taken);
      body, taken := body + chunks[taken], taken + 1;
    }
    BodySoFar(raw, boundary, body, h);
    outcome := Answer(h, body[..h.contentLength]);
  }

  // request_inner after the request is sent. `chunks` is what successive reads return before
  // the stream ends, fails or stalls. Whatever the cuts, the outcome is that of the whole
  // stream, and no read is issued once the bytes at hand decide it.
  method ReadResponse(chunks: seq<Text>) returns (outcome: Outcome, taken: nat)
    ensures outcome == WholeStream(Concat(chunks))
    ensures taken <= |chunks| && Undecided(chunks, taken)
    ensures outcome == WholeStream(Concat(chunks[..taken]))
    ensures outcome == Incomplete ==> taken == |chunks|
  {
    var raw;
    raw, taken := ReadHead(chunks);
    ConcatPrefix(chunks, taken);
    assert chunks[..|chunks|] == chunks;
    match FindTerminator(raw, 0) {
      case None => outcome := Incomplete;
      case Some(boundary) =>
        match ParseHead(raw[..boundary]) {
          case Err =>
            PrefixDecides(raw, Concat(chunks));
            outcome := Malformed;
          case Ok(h) =>
            outcome, taken := ReadBody(chunks, raw, taken, boundary, h);
            if outcome != Incomplete {
              ConcatPrefix(chunks, taken);
              PrefixDecides(Concat(chunks[..taken]), Concat(chunks));
            }
        }
    }
  }
}
