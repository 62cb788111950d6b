/** The per-file search of the agent: the stream is read in chunks of at most
    4096 characters into a `char[]` buffer, lines are assembled one character
    at a time, and the first line (without its trailing carriage returns) in
    which the term occurs, ignoring case, is kept together with its 1-based
    number. Also the context window shown around a match. */
module LineScan {
  import opened Common
  import opened Text
  import opened Host

  /** The line a search stopped at and its 1-based number. */
  datatype LineMatch = LineMatch(line: string, lineNumber: nat)

  /** Where one chunk leaves the scanner: stopped at a matching line, or
      ready for the next chunk with the line under construction and the
      number of lines seen so far. */
  datatype ChunkStep = Matched(m: LineMatch) | Continue(pending: string, lineNumber: nat)

  /** The text the reader delivers: the chunks up to the first empty one (a
      read of zero characters ends the loop). */
  function StreamText(chunks: seq<Chunk>, k: nat): string
    requires k <= |chunks|
    decreases |chunks| - k
  {
    if k == |chunks| || chunks[k] == [] then [] else chunks[k] + StreamText(chunks, k + 1)
  }

  /** The inner `for` loop over one chunk from position `i`. A line ends at
      `\n`; it is the pending text with trailing `\r` removed. When the term
      occurs in it, the loop stops; a match on an empty line (possible only
      for the empty term) stops the loop without recording a result, so the
      rest of the chunk is skipped and the pending text is kept. */
  function ScanChunk(chunk: string, i: nat, pending: string, lineNumber: nat, term: string): (r: ChunkStep)
    requires i <= |chunk|
    decreases |chunk| - i
    ensures r.Matched? ==> r.m.line != [] && ContainsIgnoreCase(r.m.line, term) && r.m.lineNumber > lineNumber
    ensures r.Continue? ==> r.lineNumber >= lineNumber
  {
    if i == |chunk| then Continue(pending, lineNumber)
    else if chunk[i] == '\n' then
      var line := TrimEnd(pending, '\r');
      if ContainsIgnoreCase(line, term) then
        if line != [] then Matched(LineMatch(line, lineNumber + 1)) else Continue(pending, lineNumber + 1)
      else ScanChunk(chunk, i + 1, [], lineNumber + 1, term)
    else ScanChunk(chunk, i + 1, pending + [chunk[i]], lineNumber, term)
  }

  /** The outer `while (true)` loop from chunk `k` on. */
  function ScanFrom(chunks: seq<Chunk>, k: nat, pending: string, lineNumber: nat, term: string): (r: Option<LineMatch>)
    requires k <= |chunks|
    decreases |chunks| - k
    ensures r.Some? ==> r.value.line != [] && ContainsIgnoreCase(r.value.line, term) && r.value.lineNumber > lineNumber
  {
    if k == |chunks| || chunks[k] == [] then None
    else
      match ScanChunk(chunks[k], 0, pending, lineNumber, term)
      case Matched(m) => Some(m)
      case Continue(rest, n) => ScanFrom(chunks, k + 1, rest, n, term)
  }

  /** The lines of `text` that end with `\n`, without it; text after the last
      `\n` is not a completed line. */
  function CompletedLines(text: string): seq<string>
    decreases |text|
  {
    match IndexOfChar(text, '\n')
    case None => []
    case Some(j) => [text[..j]] + CompletedLines(text[j + 1..])
  }

  /** `line`, once trailing `\r` are removed, contains `term`. */
  predicate LineHit(line: string, term: string) {
    ContainsIgnoreCase(TrimEnd(line, '\r'), term)
  }

  /** The first of `lines` in which `term` occurs once trailing `\r` are
      removed, numbered from `before + 1`. */
  function FirstMatch(lines: seq<string>, term: string, before: nat): (r: Option<LineMatch>)
    decreases |lines|
    ensures r.Some? ==> before < r.value.lineNumber <= before + |lines|
  {
    if lines == [] then None
    else if LineHit(lines[0], term) then Some(LineMatch(TrimEnd(lines[0], '\r'), before + 1))
    else FirstMatch(lines[1..], term, before + 1)
  }

  /** What `FirstMatch` finds: a line that holds the term, its text with
      trailing `\r` removed, no earlier line holding it, and nothing exactly
      when no line holds it. */
  lemma {:induction false} FirstMatchSpec(lines: seq<string>, term: string, before: nat)
    ensures var r := FirstMatch(lines, term, before);
      && (r.Some? ==> r.value.line == TrimEnd(lines[r.value.lineNumber - before - 1], '\r'))
      && (r.Some? ==> LineHit(lines[r.value.lineNumber - before - 1], term))
      && (r.Some? ==> forall k :: 0 <= k < r.value.lineNumber - before - 1 ==> !LineHit(lines[k], term))
      && (r.None? <==> forall k :: 0 <= k < |lines| ==> !LineHit(lines[k], term))
    decreases |lines|
  {
    if lines != [] && !LineHit(lines[0], term) {
      var tail := lines[1..];
      FirstMatchSpec(tail, term, before + 1);
      assert forall k :: 1 <= k < |lines| ==> lines[k] == tail[k - 1];
    }
  }

  /** The first matching line of `[line] + rest` is `line` when it holds the
      term, and otherwise the first matching line of `rest`, numbered one
      further on. */
  lemma FirstMatchCons(line: string, rest: seq<string>, term: string, before: nat)
    ensures FirstMatch([line] + rest, term, before) ==
      if LineHit(line, term) then Some(LineMatch(TrimEnd(line, '\r'), before + 1))
      else FirstMatch(rest, term, before + 1)
  {
    var lines := [line] + rest;
    assert lines[0] == line;
    assert lines[1..] == rest;
  }

  /** The scanner over a plain text, one character at a time, for a term
      that is not empty (then a matching line is never empty). */
  function ScanText(text: string, pending: string, lineNumber: nat, term: string): Option<LineMatch>
    decreases |text|
  {
    if text == [] then None
    else if text[0] == '\n' then
      var line := TrimEnd(pending, '\r');
      if ContainsIgnoreCase(line, term) && line != [] then Some(LineMatch(line, lineNumber + 1))
      else ScanText(text[1..], [], lineNumber + 1, term)
    else ScanText(text[1..], pending + [text[0]], lineNumber, term)
  }

  /** Copies one `ReadAsync` result into the buffer and returns its length. */
  method ReadChunk(buffer: array<char>, chunk: Chunk) returns (count: nat)
    requires buffer.Length == BufferSize
    modifies buffer
    ensures count == |chunk| && buffer[..count] == chunk
  {
    count := 0;
    while count < |chunk|
      invariant 0 <= count <= |chunk|
      invariant buffer[..count] == chunk[..count]
    {
      buffer[count] := chunk[count];
      count := count + 1;
    }
  }

  /** The read loop of `SearchFileAsync`: returns the line it stopped at and
      its number, or None when the stream ends first. For a term that is not
      empty this is the first completed line containing the term. */
  method ScanLines(chunks: seq<Chunk>, term: string) returns (found: Option<LineMatch>)
    ensures found == ScanFrom(chunks, 0, [], 0, term)
    ensures term != [] ==> found == FirstMatch(CompletedLines(StreamText(chunks, 0)), term, 0)
  {
    var buffer := new char[BufferSize];
    var lineNumber: nat := 0;
    var currentLine: string := [];
    var resultLine: string := [];
    var matchLineNumber: nat := 0;
    var k := 0;
    while k < |chunks|
      invariant 0 <= k <= |chunks|
      invariant resultLine == []
      invariant ScanFrom(chunks, k, currentLine, lineNumber, term) == ScanFrom(chunks, 0, [], 0, term)
      decreases |chunks| - k
    {
      var bytesRead := ReadChunk(buffer, chunks[k]);
      if bytesRead == 0 {
        break;
      }
      ghost var startLine, startNumber := currentLine, lineNumber;
      var i := 0;
      while i < bytesRead
        invariant 0 <= i <= bytesRead
        invariant buffer[..bytesRead] == chunks[k]
        invariant resultLine == []
        invariant ScanChunk(chunks[k], i, currentLine, lineNumber, term) ==
          ScanChunk(chunks[k], 0, startLine, startNumber, term)
      {
        assert buffer[i] == chunks[k][i];
        if buffer[i] == '\n' {
          lineNumber := lineNumber + 1;
          var line := TrimEnd(currentLine, '\r');
          if ContainsIgnoreCase(line, term) {
            resultLine := line;
            matchLineNumber := lineNumber;
            assert ScanChunk(chunks[k], 0, startLine, startNumber, term) ==
              if line != [] then Matched(LineMatch(line, lineNumber)) else Continue(currentLine, lineNumber);
            break;
          }
          currentLine := [];
        } else {
          currentLine := currentLine + [buffer[i]];
        }
        i := i + 1;
      }
      if resultLine != [] {
        assert ScanFrom(chunks, 0, [], 0, term) == Some(LineMatch(resultLine, matchLineNumber));
        break;
      }
      k := k + 1;
    }
    found := if resultLine != [] then Some(LineMatch(resultLine, matchLineNumber)) else None;
    if term != [] {
      ScanFindsFirstMatch(chunks, term);
    }
  }

  /** Splitting off a completed line. */
  lemma CompletedLinesCons(pending: string, rest: string)
    requires '\n' !in pending
    ensures CompletedLines(pending + ['\n'] + rest) == [pending] + CompletedLines(rest)
  {
    var text := pending + ['\n'] + rest;
    assert text[|pending|] == '\n';
    assert text[..|pending|] == pending;
    assert text[|pending| + 1..] == rest;
  }

  /** With a term that is not empty, the character scanner reports the first
      completed line of `pending + text` that contains the term. */
  lemma {:induction false} ScanTextFindsFirstMatch(text: string, pending: string, lineNumber: nat, term: string)
    requires term != [] && '\n' !in pending
    ensures ScanText(text, pending, lineNumber, term) == FirstMatch(CompletedLines(pending + text), term, lineNumber)
    decreases |text|
  {
    if text == [] {
      assert pending + text == pending;
      assert IndexOfChar(pending, '\n').None?;
    } else if text[0] == '\n' {
      assert pending + text == pending + ['\n'] + text[1..];
      CompletedLinesCons(pending, text[1..]);
      FirstMatchCons(pending, CompletedLines(text[1..]), term, lineNumber);
      ScanTextFindsFirstMatch(text[1..], [], lineNumber + 1, term);
      assert [] + text[1..] == text[1..];
      var line := TrimEnd(pending, '\r');
      if ContainsIgnoreCase(line, term) {
        IndexOfIgnoreCaseFromSpec(line, term, 0);
      }
    } else {
      assert pending + text == (pending + [text[0]]) + text[1..];
      ScanTextFindsFirstMatch(text[1..], pending + [text[0]], lineNumber, term);
    }
  }

  /** With a term that is not empty, one chunk behaves as its characters do
      in the plain scanner. */
  lemma {:induction false} ScanChunkAgreesWithText(chunk: string, i: nat, pending: string, lineNumber: nat, term: string, rest: string)
    requires term != [] && i <= |chunk|
    ensures ScanChunk(chunk, i, pending, lineNumber, term).Matched? ==>
      ScanText(chunk[i..] + rest, pending, lineNumber, term) == Some(ScanChunk(chunk, i, pending, lineNumber, term).m)
    ensures ScanChunk(chunk, i, pending, lineNumber, term).Continue? ==>
      ScanText(chunk[i..] + rest, pending, lineNumber, term) ==
      ScanText(rest, ScanChunk(chunk, i, pending, lineNumber, term).pending, ScanChunk(chunk, i, pending, lineNumber, term).lineNumber, term)
    decreases |chunk| - i
  {
    if i == |chunk| {
      assert chunk[i..] + rest == rest;
    } else {
      var text := chunk[i..] + rest;
      assert text[0] == chunk[i];
      assert text[1..] == chunk[i + 1..] + rest;
      if chunk[i] == '\n' {
        var line := TrimEnd(pending, '\r');
        if ContainsIgnoreCase(line, term) {
          IndexOfIgnoreCaseFromSpec(line, term, 0);
        } else {
          ScanChunkAgreesWithText(chunk, i + 1, [], lineNumber + 1, term, rest);
        }
      } else {
        ScanChunkAgreesWithText(chunk, i + 1, pending + [chunk[i]], lineNumber, term, rest);
      }
    }
  }

  /** With a term that is not empty, how the text is cut into chunks does not
      matter. */
  lemma {:induction false} ScanFromAgreesWithText(chunks: seq<Chunk>, k: nat, pending: string, lineNumber: nat, term: string)
    requires term != [] && k <= |chunks|
    ensures ScanFrom(chunks, k, pending, lineNumber, term) == ScanText(StreamText(chunks, k), pending, lineNumber, term)
    decreases |chunks| - k
  {
    if k < |chunks| && chunks[k] != [] {
      ScanChunkAgreesWithText(chunks[k], 0, pending, lineNumber, term, StreamText(chunks, k + 1));
      assert chunks[k][0..] == chunks[k];
      match ScanChunk(chunks[k], 0, pending, lineNumber, term)
      case Matched(m) =>
      case Continue(p, n) => ScanFromAgreesWithText(chunks, k + 1, p, n, term);
    }
  }

  /** The line-level meaning of the read loop for a term that is not empty. */
  lemma ScanFindsFirstMatch(chunks: seq<Chunk>, term: string)
    requires term != []
    ensures ScanFrom(chunks, 0, [], 0, term) == FirstMatch(CompletedLines(StreamText(chunks, 0)), term, 0)
  {
    ScanFromAgreesWithText(chunks, 0, [], 0, term);
    ScanTextFindsFirstMatch(StreamText(chunks, 0), [], 0, term);
    assert [] + StreamText(chunks, 0) == StreamText(chunks, 0);
  }

  /** Characters other than `\n` only extend the pending line. */
  lemma {:induction false} ScanChunkAccumulates(chunk: string, i: nat, j: nat, pending: string, lineNumber: nat, term: string)
    requires i <= j <= |chunk| && '\n' !in chunk[i..j]
    ensures ScanChunk(chunk, i, pending, lineNumber, term) == ScanChunk(chunk, j, pending + chunk[i..j], lineNumber, term)
    decreases j - i
  {
    if i == j {
      assert pending + chunk[i..j] == pending;
    } else {
      assert chunk[i] == chunk[i..j][0];
      assert chunk[i + 1..j] == chunk[i..j][1..];
      ScanChunkAccumulates(chunk, i + 1, j, pending + [chunk[i]], lineNumber, term);
      assert pending + [chunk[i]] + chunk[i + 1..j] == pending + chunk[i..j];
    }
  }

  /** A last line without a terminating `\n` is never searched. */
  lemma UnterminatedLastLineIgnored()
    ensures ScanFrom(["error"], 0, [], 0, "error") == None
  {
    assert "error"[0..5] == "error";
    ScanChunkAccumulates("error", 0, 5, [], 0, "error");
    assert ScanChunk("error", 0, [], 0, "error") == Continue("error", 0);
  }

  /** The same line followed by `\n` is found, as line 1. */
  lemma TerminatedLineFound()
    ensures ScanFrom(["error\n"], 0, [], 0, "error") == Some(LineMatch("error", 1))
  {
    assert "error\n"[0..5] == "error";
    ScanChunkAccumulates("error\n", 0, 5, [], 0, "error");
    assert TrimEnd("error", '\r') == "error";
    assert "error"[0..] == "error";
    assert MatchesAt("error", "error", 0);
    assert ContainsIgnoreCase("error", "error");
    assert ScanChunk("error\n", 5, "error", 0, "error") == Matched(LineMatch("error", 1));
  }

  /** With the empty term every line matches; an empty line stops the chunk
      without a result, so the same text gives different answers depending
      on where the reader cut it. */
  lemma EmptyTermDependsOnChunking()
    ensures StreamText(["\nab\n"], 0) == StreamText(["\n", "ab\n"], 0)
    ensures ScanFrom(["\nab\n"], 0, [], 0, "") == None
    ensures ScanFrom(["\n", "ab\n"], 0, [], 0, "") == Some(LineMatch("ab", 2))
  {
    assert MatchesAt("", "", 0);
    assert MatchesAt("ab", "", 0);
    assert ScanChunk("\nab\n", 0, [], 0, "") == Continue([], 1);
    assert ScanChunk("\n", 0, [], 0, "") == Continue([], 1);
    assert ScanChunk("ab\n", 0, [], 1, "") == Matched(LineMatch("ab", 2));
  }

  /** Characters shown on each side of a match, and the longest context. */
  const ContextBefore: nat := 50
  const ContextLength: nat := 100

  /** `Math.Max(0, index - 50)`. */
  function WindowStart(index: nat): nat {
    if index > ContextBefore then index - ContextBefore else 0
  }

  /** `Math.Min(line.Length - start, 100)`. */
  function WindowLength(lineLength: nat, index: nat): nat
    requires index <= lineLength
  {
    var available := lineLength - WindowStart(index);
    if available < ContextLength then available else ContextLength
  }

  /** The context shown for a match at `index`: up to 100 characters from 50
      before the match, with `...` where the line was cut. */
  function Snippet(line: string, index: nat): (r: string)
    requires index <= |line|
    ensures var start := WindowStart(index);
      var len := WindowLength(|line|, index);
      var offset := if start > 0 then 3 else 0;
      && start + len <= |line|
      && |r| == offset + len + (if start + len < |line| then 3 else 0)
      && r[offset..offset + len] == line[start..start + len]
      && (start > 0 ==> r[..3] == "...")
      && (start + len < |line| ==> r[|r| - 3..] == "...")
    ensures |r| <= ContextLength + 6
    ensures |line| <= ContextLength && index <= ContextBefore ==> r == line
  {
    var start := WindowStart(index);
    var len := WindowLength(|line|, index);
    var context := line[start..start + len];
    var prefixed := if start > 0 then "..." + context else context;
    if start + len < |line| then prefixed + "..." else prefixed
  }

  /** A term of at most 50 characters is always shown whole. */
  lemma SnippetShowsShortTerm(line: string, term: string, index: nat)
    requires MatchesAt(line, term, index) && |term| <= ContextBefore
    ensures index + |term| <= |line|
    ensures var start := WindowStart(index);
      var offset := (if start > 0 then 3 else 0) + index - start;
      Snippet(line, index)[offset..offset + |term|] == line[index..index + |term|]
  {
    var start := WindowStart(index);
    var len := WindowLength(|line|, index);
    assert index + |term| <= start + len;
    var s := Snippet(line, index);
    var o := if start > 0 then 3 else 0;
    assert s[o..o + len] == line[start..start + len];
    var shown := s[o + index - start..o + index - start + |term|];
    var window := s[o..o + len];
    forall k | 0 <= k < |term| ensures shown[k] == line[index..index + |term|][k] {
      calc {
        shown[k];
        s[o + index - start + k];
        window[index - start + k];
        line[start..start + len][index - start + k];
        line[index + k];
      }
    }
  }

  /** The context shown for an occurrence of a term of at most 50
      characters holds the term itself, ignoring case. */
  lemma ShortTermShown(line: string, term: string, index: nat)
    requires MatchesAt(line, term, index) && |term| <= ContextBefore
    ensures exists o :: MatchesAt(Snippet(line, index), term, o)
  {
    SnippetShowsShortTerm(line, term, index);
    var start := WindowStart(index);
    var o := (if start > 0 then 3 else 0) + index - start;
    MatchesAtCopy(line, Snippet(line, index), term, index, o);
  }

  /** A longer term that is preceded by 50 characters is cut off. */
  lemma SnippetCutsLongTerm(line: string, term: string, index: nat)
    requires MatchesAt(line, term, index) && |term| > ContextBefore && index >= ContextBefore
    ensures WindowStart(index) + WindowLength(|line|, index) < index + |term|
  {
  }
}
