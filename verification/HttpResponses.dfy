// Responses as a server that follows RFC 9112 sends them, and what the reader makes of them.
module HttpResponses {
  import opened Wrappers
  import opened AsciiText
  import opened HttpReader

  const END_OF_HEAD: Text := [CR, LF, CR, LF]

  ghost predicate Plain(line: Text) {
    line != [] && CR !in line && LF !in line
  }

  ghost predicate AllPlain(lines: seq<Text>) {
    forall i :: 0 <= i < |lines| ==> Plain(lines[i])
  }

  function Join(lines: seq<Text>): Text {
    if lines == [] then []
    else if |lines| == 1 then lines[0]
    else lines[0] + [CR, LF] + Join(lines[1..])
  }

  lemma FirstLine(line: Text, rest: Text)
    requires Plain(line)
    ensures Lines(line + [CR, LF] + rest) == [line] + Lines(rest)
  {
    var s := line + [CR, LF] + rest;
    var i := IndexOf(s, LF);
    assert forall k :: 0 <= k <= |line| ==> s[k] != LF;
    assert s[|line| + 1] == LF;
    assert i == |line| + 1;
    assert s[i + 1..] == rest && s[..i - 1] == line;
  }

  // A bare line feed ends a line as well.
  lemma BareLineFeed(line: Text, rest: Text)
    requires Plain(line)
    ensures Lines(line + [LF] + rest) == [line] + Lines(rest)
  {
    var s := line + [LF] + rest;
    assert forall k :: 0 <= k < |line| ==> s[k] != LF;
    assert s[|line|] == LF && s[|line| - 1] != CR;
    assert IndexOf(s, LF) == |line|;
    assert s[|line| + 1..] == rest && s[..|line|] == line;
  }

  lemma {:induction false} LinesOfJoin(lines: seq<Text>)
    requires AllPlain(lines)
    ensures Lines(Join(lines)) == lines
  {
    var s := Join(lines);
    if |lines| > 1 {
      LinesOfJoin(lines[1..]);
      assert Plain(lines[0]);
      FirstLine(lines[0], Join(lines[1..]));
    } else if |lines| == 1 {
      assert Plain(s);
      assert IndexOf(s, LF) == |s|;
      assert s[..|s|] == s;
    }
  }

  lemma {:induction false} NoEarlierTerminator(lines: seq<Text>, tail: Text, i: nat)
    requires AllPlain(lines) && i < |Join(lines)|
    ensures !TerminatorAt(Join(lines) + END_OF_HEAD + tail, i)
  {
    var s := Join(lines) + END_OF_HEAD + tail;
    var line := lines[0];
    assert Plain(line);
    if |lines| == 1 || i < |line| {
      assert s[i] == line[i];
    } else {
      var rest := Join(lines[1..]);
      assert s == line + [CR, LF] + (rest + END_OF_HEAD + tail);
      assert s[|line| + 1] == LF;
      if i == |line| {
        assert Plain(lines[1]);
        assert s[i + 2] == rest[0] == lines[1][0];
      } else if i >= |line| + 2 {
        var k := i - |line| - 2;
        assert s[i..i + 4] == (rest + END_OF_HEAD + tail)[k..k + 4];
        NoEarlierTerminator(lines[1..], tail, k);
      }
    }
  }

  lemma HeadEndsAtItsEnd(lines: seq<Text>, tail: Text)
    requires AllPlain(lines)
    ensures FindTerminator(Join(lines) + END_OF_HEAD + tail, 0) == Some(|Join(lines)|)
  {
    var s, n := Join(lines) + END_OF_HEAD + tail, |Join(lines)|;
    forall i | 0 <= i < n ensures !TerminatorAt(s, i) {
      NoEarlierTerminator(lines, tail, i);
    }
    assert s[n..n + 4] == END_OF_HEAD;
    assert TerminatorAt(s, n);
  }

  lemma {:induction false} WordEndsAtSpace(word: Text, rest: Text)
    requires forall i :: 0 <= i < |word| ==> !Blank(word[i])
    requires rest == [] || Blank(rest[0])
    ensures WordEnd(word + rest) == |word|
  {
    if word != [] {
      assert (word + rest)[1..] == word[1..] + rest;
      WordEndsAtSpace(word[1..], rest);
    } else {
      assert word + rest == rest;
    }
  }

  /* Header names. */

  // "content-length" with any of its letters in upper case.
  predicate SpellsContentLength(name: Text) {
    var lower: Text := [99, 111, 110, 116, 101, 110, 116, 45, 108, 101, 110, 103, 116, 104];
    |name| == 14 && forall i :: 0 <= i < 14 ==> name[i] == lower[i] || (lower[i] != 45 && name[i] == lower[i] - 32)
  }

  // The text before the first ':' spells it.
  ghost predicate NamesContentLength(line: Text) {
    exists k :: 0 <= k < |line| && line[k] == 58 && 58 !in line[..k] && SpellsContentLength(line[..k])
  }

  lemma SpellsIff(name: Text)
    ensures IsContentLength(name) <==> SpellsContentLength(name)
  {
    if IsContentLength(name) {
      forall i | 0 <= i < 14
        ensures name[i] == CONTENT_LENGTH[i] || (CONTENT_LENGTH[i] != 45 && name[i] == CONTENT_LENGTH[i] - 32)
      {
        assert Lower(name[i]) == CONTENT_LENGTH[i];
      }
    }
  }

  lemma NamesIff(line: Text)
    ensures IsLengthHeader(line) <==> NamesContentLength(line)
  {
    var i := IndexOf(line, COLON);
    SpellsIff(line[..i]);
    if k :| 0 <= k < |line| && line[k] == 58 && 58 !in line[..k] && SpellsContentLength(line[..k]) {
      FirstIndex(line, COLON, k);
    }
  }

  /* Status lines and length headers. */

  function StatusLine(version: Text, word: Text, reason: Text): Text {
    version + [SPACE] + word + [SPACE] + reason
  }

  predicate IsWord(s: Text) {
    s != [] && forall i :: 0 <= i < |s| ==> !Blank(s[i])
  }

  lemma StatusLineReads(version: Text, word: Text, reason: Text)
    requires IsWord(version) && IsWord(word)
    ensures SecondWord(StatusLine(version, word, reason)) == Some(word)
  {
    var s := StatusLine(version, word, reason);
    assert s == version + ([SPACE] + word + [SPACE] + reason);
    WordEndsAtSpace(version, [SPACE] + word + [SPACE] + reason);
    var after := s[|version|..];
    assert after == [SPACE] + (word + ([SPACE] + reason));
    assert TrimStart(after) == TrimStart(after[1..]) == word + ([SPACE] + reason);
    WordEndsAtSpace(word, [SPACE] + reason);
  }

  lemma NumberIsWord(n: nat)
    ensures IsWord(ToText(n))
  {
    TextIsDigits(n);
    assert forall i :: 0 <= i < |ToText(n)| ==> IsDigit(ToText(n)[i]);
  }

  // A header line: its value may have white space around it.
  function HeaderLine(name: Text, before: Text, value: Text, after: Text): Text {
    name + [COLON] + (before + value + after)
  }

  lemma LengthHeaderReads(name: Text, before: Text, value: Text, after: Text)
    requires SpellsContentLength(name) && AllSpaces(before) && AllSpaces(after)
    requires value != [] && !Blank(value[0]) && !Blank(value[|value| - 1])
    ensures NamesContentLength(HeaderLine(name, before, value, after))
    ensures ContentLength([HeaderLine(name, before, value, after)])
            == match Parse(value, MAX_USIZE) case Some(n) => n case None => 0
  {
    var line := HeaderLine(name, before, value, after);
    assert line[..|name|] == name && line[|name| + 1..] == before + value + after;
    assert COLON !in name by {
      SpellsIff(name);
      assert forall i :: 0 <= i < |name| ==> Lower(name[i]) == CONTENT_LENGTH[i] != COLON;
    }
    FirstIndex(line, COLON, |name|);
    NamesIff(line);
    TrimPads(before, value, after);
  }

  lemma {:induction false} FirstLengthHeaderDecides(before: seq<Text>, line: Text, after: seq<Text>)
    requires forall i :: 0 <= i < |before| ==> !NamesContentLength(before[i])
    requires NamesContentLength(line)
    ensures ContentLength(before + [line] + after) == ContentLength([line])
  {
    var headers := before + [line] + after;
    NamesIff(headers[0]);
    if before != [] {
      assert headers[0] == before[0];
      assert headers[1..] == before[1..] + [line] + after;
      FirstLengthHeaderDecides(before[1..], line, after);
    } else {
      assert headers[0] == line;
    }
  }

  lemma {:induction false} NoLengthHeaderMeansNoBody(headers: seq<Text>)
    requires forall i :: 0 <= i < |headers| ==> !NamesContentLength(headers[i])
    ensures ContentLength(headers) == 0
  {
    if headers != [] {
      NamesIff(headers[0]);
      NoLengthHeaderMeansNoBody(headers[1..]);
    }
  }

  /* Outcomes. */

  // A printed status begins with '2' and has three digits exactly from 200 to 299.
  lemma TwoHundreds(n: nat)
    ensures 200 <= n < 300 <==> |ToText(n)| == 3 && ToText(n)[0] == 50
  {
    if n >= 10 {
      assert ToText(n) == ToText(n / 10) + [48 + n % 10];
      if n >= 100 {
        assert ToText(n / 10) == ToText(n / 100) + [48 + n / 10 % 10];
        assert n / 10 / 10 == n / 100;
        if n >= 1000 {
          assert ToText(n / 100) == ToText(n / 1000) + [48 + n / 100 % 10];
          assert n / 100 / 10 == n / 1000;
          TextIsDigits(n / 1000);
        }
      }
    }
  }

  lemma AnswerWrittenOut(status: nat, length: nat, body: Text)
    ensures Answer(Head(status, length), body)
            == if |ToText(status)| == 3 && ToText(status)[0] == 50 then Success else HttpError(status, body)
  {
    TwoHundreds(status);
  }

  lemma HeadReadsBack(lines: seq<Text>, status: nat)
    requires lines != [] && AllPlain(lines) && status <= MAX_U16
    requires SecondWord(lines[0]) == Some(ToText(status))
    ensures ParseHead(Join(lines)) == Ok(Head(status, ContentLength(lines[1..])))
  {
    LinesOfJoin(lines);
    ParseOfText(status, MAX_U16);
  }

  lemma BodyReadsBack(lines: seq<Text>, h: Head, body: Text, more: Text)
    requires AllPlain(lines) && ParseHead(Join(lines)) == Ok(h) && h.contentLength == |body|
    ensures WholeStream(Join(lines) + END_OF_HEAD + (body + more)) == Answer(h, body)
  {
    var head, s := Join(lines), Join(lines) + END_OF_HEAD + (body + more);
    HeadEndsAtItsEnd(lines, body + more);
    assert s[..|head|] == head;
    assert s[|head| + 4..] == body + more;
    assert (body + more)[..|body|] == body;
  }

  lemma RenderedReadsBack(version: Text, status: nat, reason: Text, headers: seq<Text>, body: Text, more: Text)
    requires status <= MAX_U16 && IsWord(version) && ContentLength(headers) == |body|
    requires AllPlain([StatusLine(version, ToText(status), reason)] + headers)
    ensures WholeStream(Join([StatusLine(version, ToText(status), reason)] + headers) + END_OF_HEAD + (body + more))
            == if |ToText(status)| == 3 && ToText(status)[0] == 50 then Success else HttpError(status, body)
  {
    var lines := [StatusLine(version, ToText(status), reason)] + headers;
    NumberIsWord(status);
    StatusLineReads(version, ToText(status), reason);
    assert lines[1..] == headers;
    HeadReadsBack(lines, status);
    BodyReadsBack(lines, Head(status, |body|), body, more);
    AnswerWrittenOut(status, |body|, body);
  }

  // A rendered response is a success exactly when its printed status has three digits and begins
  // with '2', and otherwise an error with that status and exactly that body: whatever headers
  // surround the first Content-Length, in whatever case its name is, with whatever white space
  // around its value, and whatever follows the body.
  lemma ResponseReadsBack(version: Text, status: nat, reason: Text, before: seq<Text>, name: Text, pad: Text,
                          pad': Text, after: seq<Text>, body: Text, more: Text)
    requires status <= MAX_U16 && |body| <= MAX_USIZE && IsWord(version) && AllSpaces(pad) && AllSpaces(pad')
    requires SpellsContentLength(name) && forall i :: 0 <= i < |before| ==> !NamesContentLength(before[i])
    requires AllPlain([StatusLine(version, ToText(status), reason)]
                      + (before + [HeaderLine(name, pad, ToText(|body|), pad')] + after))
    ensures var lines := [StatusLine(version, ToText(status), reason)]
                         + (before + [HeaderLine(name, pad, ToText(|body|), pad')] + after);
            WholeStream(Join(lines) + END_OF_HEAD + (body + more))
            == if |ToText(status)| == 3 && ToText(status)[0] == 50 then Success else HttpError(status, body)
  {
    var line := HeaderLine(name, pad, ToText(|body|), pad');
    NumberEnds(|body|);
    LengthHeaderReads(name, pad, ToText(|body|), pad');
    ParseOfText(|body|, MAX_USIZE);
    FirstLengthHeaderDecides(before, line, after);
    RenderedReadsBack(version, status, reason, before + [line] + after, body, more);
  }

  // Without a Content-Length the body is empty, and the outcome is there with the head.
  lemma ResponseWithoutLength(version: Text, status: nat, reason: Text, headers: seq<Text>, more: Text)
    requires status <= MAX_U16 && IsWord(version)
    requires forall i :: 0 <= i < |headers| ==> !NamesContentLength(headers[i])
    requires AllPlain([StatusLine(version, ToText(status), reason)] + headers)
    ensures WholeStream(Join([StatusLine(version, ToText(status), reason)] + headers) + END_OF_HEAD + more)
            == if |ToText(status)| == 3 && ToText(status)[0] == 50 then Success else HttpError(status, [])
  {
    NoLengthHeaderMeansNoBody(headers);
    RenderedReadsBack(version, status, reason, headers, [], more);
    assert [] + more == more;
  }

  // So it is with one whose value is not a number within range.
  lemma ResponseWithBadLength(version: Text, status: nat, reason: Text, before: seq<Text>, name: Text, pad: Text,
                              value: Text, pad': Text, after: seq<Text>, more: Text)
    requires status <= MAX_U16 && IsWord(version) && AllSpaces(pad) && AllSpaces(pad')
    requires SpellsContentLength(name) && forall i :: 0 <= i < |before| ==> !NamesContentLength(before[i])
    requires value != [] && !Blank(value[0]) && !Blank(value[|value| - 1])
    requires forall n: nat :: Decimal(value, n) ==> n > MAX_USIZE
    requires AllPlain([StatusLine(version, ToText(status), reason)]
                      + (before + [HeaderLine(name, pad, value, pad')] + after))
    ensures var lines := [StatusLine(version, ToText(status), reason)]
                         + (before + [HeaderLine(name, pad, value, pad')] + after);
            WholeStream(Join(lines) + END_OF_HEAD + more)
            == if |ToText(status)| == 3 && ToText(status)[0] == 50 then Success else HttpError(status, [])
  {
    var line := HeaderLine(name, pad, value, pad');
    LengthHeaderReads(name, pad, value, pad');
    if n :| Parse(value, MAX_USIZE) == Some(n) {
      ParseIff(value, MAX_USIZE, n);
      assert false;
    }
    FirstLengthHeaderDecides(before, line, after);
    RenderedReadsBack(version, status, reason, before + [line] + after, [], more);
    assert [] + more == more;
  }

  // A status that is not a number within range is malformed, and decided with the head.
  lemma BadStatusIsMalformed(version: Text, word: Text, reason: Text, headers: seq<Text>, more: Text)
    requires IsWord(version) && IsWord(word) && forall n: nat :: Decimal(word, n) ==> n > MAX_U16
    requires AllPlain([StatusLine(version, word, reason)] + headers)
    ensures WholeStream(Join([StatusLine(version, word, reason)] + headers) + END_OF_HEAD + more) == Malformed
  {
    var lines := [StatusLine(version, word, reason)] + headers;
    StatusLineReads(version, word, reason);
    LinesOfJoin(lines);
    if n :| Parse(word, MAX_U16) == Some(n) {
      ParseIff(word, MAX_U16, n);
      assert false;
    }
    HeadEndsAtItsEnd(lines, more);
    assert (Join(lines) + END_OF_HEAD + more)[..|Join(lines)|] == Join(lines);
  }

  // So is a head that is empty, or whose first line is a single word.
  lemma NoStatusIsMalformed(lines: seq<Text>, more: Text)
    requires AllPlain(lines) && (lines == [] || IsWord(lines[0]))
    ensures WholeStream(Join(lines) + END_OF_HEAD + more) == Malformed
  {
    LinesOfJoin(lines);
    if lines != [] {
      assert lines[0] + [] == lines[0];
      WordEndsAtSpace(lines[0], []);
      assert lines[0][|lines[0]|..] == [];
    }
    HeadEndsAtItsEnd(lines, more);
    assert (Join(lines) + END_OF_HEAD + more)[..|Join(lines)|] == Join(lines);
  }
}
