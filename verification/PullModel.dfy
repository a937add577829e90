/** Streaming model pulls: the outcome does not depend on how the response is cut into chunks. */
module PullModel {
  import opened Prelude
  import opened Text

  datatype PullProgress = PullProgress(
    status: Option<string>,
    digest: Option<string>,
    total: Option<nat>,
    completed: Option<nat>,
    error: Option<string>)
  {
    predicate IsSuccess() {
      status == Some("success")
    }
  }

  datatype PullError = Transport | BadLine(line: string) | Reported(text: string) | NoSuccess

  /** A chunk of the body, or the failure of the stream. */
  datatype Chunk = Data(text: string) | StreamFailure

  /** What has happened so far: unread tail, events emitted, success seen, and the first error. */
  datatype Reader = Reader(buffer: string, events: seq<PullProgress>, sawSuccess: bool, failure: Option<PullError>)

  const START := Reader("", [], false, None)

  // ---------------------------------------------------------------- reading lines

  /** The position of the first newline. */
  function Newline(s: string): (at: Option<nat>)
    ensures at.Some? ==> at.value < |s|
  {
    if s == "" then None
    else if s[0] == '\n' then Some(0)
    else match Newline(s[1..]) case None => None case Some(i) => Some(i + 1)
  }

  lemma {:induction false} NewlineFound(s: string)
    ensures match Newline(s)
            case None => '\n' !in s
            case Some(i) => i < |s| && s[i] == '\n' && '\n' !in s[..i]
  {
    if s != "" && s[0] != '\n' {
      NewlineFound(s[1..]);
      if Newline(s).Some? {
        assert s[..Newline(s).value] == [s[0]] + s[1..][..Newline(s[1..]).value];
      }
    }
  }

  lemma {:induction false} NewlineOfConcat(s: string, t: string)
    ensures Newline(s).Some? ==> Newline(s + t) == Newline(s)
  {
    if s != "" && s[0] != '\n' {
      assert (s + t)[1..] == s[1..] + t;
      NewlineOfConcat(s[1..], t);
    }
  }

  /** One complete line: blank lines are skipped, errors stop, anything else is an event. */
  function OnLine(r: Reader, raw: string, parse: string -> Option<PullProgress>): Reader {
    var line := Trim(raw);
    if line == "" then r
    else match parse(line)
         case None => r.(failure := Some(BadLine(line)))
         case Some(p) =>
           if p.error.Some? then r.(failure := Some(Reported(p.error.value)))
           else r.(events := r.events + [p], sawSuccess := r.sawSuccess || p.IsSuccess())
  }

  /** The reader once the first complete line of its buffer is dealt with. */
  function AfterLine(r: Reader, parse: string -> Option<PullProgress>): (next: Reader)
    requires Newline(r.buffer).Some?
    ensures |next.buffer| < |r.buffer|
  {
    NewlineFound(r.buffer);
    var i := Newline(r.buffer).value;
    OnLine(r.(buffer := r.buffer[i + 1..]), r.buffer[..i], parse)
  }

  /** Takes every complete line off the buffer, stopping at the first error. */
  function Drain(r: Reader, parse: string -> Option<PullProgress>): Reader
    decreases |r.buffer|
  {
    if r.failure.Some? || Newline(r.buffer).None? then r else Drain(AfterLine(r, parse), parse)
  }

  function Feed(r: Reader, text: string, parse: string -> Option<PullProgress>): Reader {
    if r.failure.Some? then r else Drain(r.(buffer := r.buffer + text), parse)
  }

  lemma AfterLineOfLonger(r: Reader, more: string, parse: string -> Option<PullProgress>)
    requires Newline(r.buffer).Some?
    ensures Newline(r.buffer + more) == Newline(r.buffer)
    ensures var next := AfterLine(r, parse);
            AfterLine(r.(buffer := r.buffer + more), parse) == next.(buffer := next.buffer + more)
  {
    NewlineOfConcat(r.buffer, more);
    NewlineFound(r.buffer);
    hide Newline, Trim;
    var i := Newline(r.buffer).value;
    assert (r.buffer + more)[..i] == r.buffer[..i];
    assert (r.buffer + more)[i + 1..] == r.buffer[i + 1..] + more;
  }

  /** Draining early and then appending is draining the whole, up to the text after an error. */
  lemma {:induction false} DrainThenMore(r: Reader, more: string, parse: string -> Option<PullProgress>)
    requires r.failure.None?
    ensures var once := Drain(r.(buffer := r.buffer + more), parse);
            var early := Drain(r, parse);
            if early.failure.Some? then once == early.(buffer := once.buffer)
            else once == Drain(early.(buffer := early.buffer + more), parse)
    decreases |r.buffer|
  {
    hide OnLine, Newline, AfterLine;
    if Newline(r.buffer).Some? {
      AfterLineOfLonger(r, more, parse);
      if AfterLine(r, parse).failure.None? {
        DrainThenMore(AfterLine(r, parse), more, parse);
      }
    }
  }

  /** What a caller can see: the events, the success flag and the error. */
  predicate SameOutcome(x: Reader, y: Reader) {
    && x.events == y.events && x.sawSuccess == y.sawSuccess && x.failure == y.failure
    && (x.failure.None? ==> x.buffer == y.buffer)
  }

  function FeedAll(r: Reader, texts: seq<string>, parse: string -> Option<PullProgress>): Reader
    decreases |texts|
  {
    if texts == [] then r else FeedAll(Feed(r, texts[0], parse), texts[1..], parse)
  }

  function Concat(texts: seq<string>): string {
    if texts == [] then "" else texts[0] + Concat(texts[1..])
  }

  ghost predicate Drained(r: Reader) {
    r.failure.None? ==> Newline(r.buffer).None?
  }

  lemma {:induction false} DrainIsDrained(r: Reader, parse: string -> Option<PullProgress>)
    ensures Drained(Drain(r, parse))
    decreases |r.buffer|
  {
    hide OnLine, Newline, AfterLine;
    if r.failure.None? && Newline(r.buffer).Some? {
      DrainIsDrained(AfterLine(r, parse), parse);
    }
  }

  lemma {:induction false} AfterFailureNothing(r: Reader, texts: seq<string>, parse: string -> Option<PullProgress>)
    requires r.failure.Some?
    ensures FeedAll(r, texts, parse) == r
    decreases |texts|
  {
    if texts != [] {
      AfterFailureNothing(r, texts[1..], parse);
    }
  }

  /** Feeding one piece and then the rest, when the first piece holds no error. */
  lemma FeedInTwo(r: Reader, first: string, rest: string, parse: string -> Option<PullProgress>)
    requires r.failure.None?
    ensures var early := Feed(r, first, parse);
            if early.failure.Some?
            then Feed(r, first + rest, parse) == early.(buffer := Feed(r, first + rest, parse).buffer)
            else Feed(r, first + rest, parse) == Feed(early, rest, parse)
  {
    hide Drain;
    DrainThenMore(r.(buffer := r.buffer + first), rest, parse);
    assert (r.buffer + first) + rest == r.buffer + (first + rest);
  }

  lemma FeedNothing(r: Reader, parse: string -> Option<PullProgress>)
    requires Drained(r)
    ensures Feed(r, "", parse) == r
  {
    assert r.buffer + "" == r.buffer;
  }

  /** Feeding a text in pieces has the same outcome as feeding it whole. */
  lemma {:induction false} PiecesEqualWhole(r: Reader, texts: seq<string>, parse: string -> Option<PullProgress>)
    requires r.failure.None? && Drained(r)
    ensures SameOutcome(FeedAll(r, texts, parse), Feed(r, Concat(texts), parse))
    decreases |texts|
  {
    if texts == [] {
      FeedNothing(r, parse);
    } else {
      var first := Feed(r, texts[0], parse);
      FeedInTwo(r, texts[0], Concat(texts[1..]), parse);
      FeedIsDrained(r, texts[0], parse);
      hide Feed, Drained;
      if first.failure.Some? {
        AfterFailureNothing(first, texts[1..], parse);
      } else {
        PiecesEqualWhole(first, texts[1..], parse);
      }
    }
  }

  lemma FeedIsDrained(r: Reader, text: string, parse: string -> Option<PullProgress>)
    ensures Drained(Feed(r, text, parse))
  {
    DrainIsDrained(r.(buffer := r.buffer + text), parse);
  }

  // ---------------------------------------------------------------- the stream

  /** The chunks before the first stream failure. */
  function Before(chunks: seq<Chunk>): seq<string> {
    if chunks == [] || chunks[0].StreamFailure? then [] else [chunks[0].text] + Before(chunks[1..])
  }

  predicate Breaks(chunks: seq<Chunk>) {
    exists i | 0 <= i < |chunks| :: chunks[i].StreamFailure?
  }

  /** The result of a pull, given the reader after all data that arrived. */
  function Conclude(r: Reader, broke: bool): Result<(), PullError> {
    if r.failure.Some? then Err(r.failure.value)
    else if broke then Err(Transport)
    else if r.sawSuccess then Ok(())
    else Err(NoSuccess)
  }

  /** `pull_model`: the events handed to the callback and the final result. */
  method Pull(chunks: seq<Chunk>, parse: string -> Option<PullProgress>)
    returns (events: seq<PullProgress>, r: Result<(), PullError>)
    ensures var end := FeedAll(START, Before(chunks), parse);
            events == end.events && r == Conclude(end, Breaks(chunks))
  {
    var buffer, sawSuccess := "", false;
    events := [];
    ghost var goal := FeedAll(START, Before(chunks), parse);
    assert chunks[0..] == chunks;
    for i := 0 to |chunks|
      invariant goal == FeedAll(Reader(buffer, events, sawSuccess, None), Before(chunks[i..]), parse)
      invariant forall j | 0 <= j < i :: chunks[j].Data?
    {
      assert chunks[i..][1..] == chunks[i + 1..];
      match chunks[i]
      case StreamFailure => return events, Err(Transport);
      case Data(text) =>
        var failure;
        buffer, events, sawSuccess, failure := ReadLines(Reader(buffer + text, events, sawSuccess, None), parse);
        if failure.Some? {
          AfterFailureNothing(Reader(buffer, events, sawSuccess, failure), Before(chunks[i + 1..]), parse);
          return events, Err(failure.value);
        }
    }
    r := if sawSuccess then Ok(()) else Err(NoSuccess);
  }

  lemma DrainStep(r: Reader, parse: string -> Option<PullProgress>)
    requires r.failure.None?
    ensures Newline(r.buffer).None? ==> Drain(r, parse) == r
    ensures Newline(r.buffer).Some? ==>
              var i := Newline(r.buffer).value;
              var next := OnLine(r.(buffer := r.buffer[i + 1..]), r.buffer[..i], parse);
              Drain(r, parse) == if next.failure.Some? then next else Drain(next, parse)
  {
    hide Newline, Trim, OnLine;
  }

  /** The inner loop: it ends because every round shortens the buffer. */
  method ReadLines(start: Reader, parse: string -> Option<PullProgress>)
    returns (buffer: string, events: seq<PullProgress>, sawSuccess: bool, failure: Option<PullError>)
    requires start.failure.None?
    ensures Reader(buffer, events, sawSuccess, failure) == Drain(start, parse)
  {
    hide Newline, Trim, Drain, AfterLine;
    buffer, events, sawSuccess, failure := start.buffer, start.events, start.sawSuccess, None;
    while true
      invariant failure.None? && Drain(start, parse) == Drain(Reader(buffer, events, sawSuccess, None), parse)
      decreases |buffer|
    {
      ghost var now := Reader(buffer, events, sawSuccess, None);
      DrainStep(now, parse);
      match Newline(buffer)
      case None => return;
      case Some(i) =>
        var raw := buffer[..i];
        var line := Trim(raw);
        buffer := buffer[i + 1..];
        if line == "" {
          continue;
        }
        match parse(line)
        case None =>
          failure := Some(BadLine(line));
          return;
        case Some(progress) =>
          if progress.error.Some? {
            failure := Some(Reported(progress.error.value));
            return;
          }
          sawSuccess := sawSuccess || progress.IsSuccess();
          events := events + [progress];
    }
  }

  /**
   * Two ways of cutting the same text into chunks, both broken off by the stream or both not,
   * give the same events and the same result.
   */
  lemma ChunkingDoesNotMatter(x: seq<Chunk>, y: seq<Chunk>, parse: string -> Option<PullProgress>)
    requires Concat(Before(x)) == Concat(Before(y)) && Breaks(x) == Breaks(y)
    ensures var p, q := FeedAll(START, Before(x), parse), FeedAll(START, Before(y), parse);
            p.events == q.events && Conclude(p, Breaks(x)) == Conclude(q, Breaks(y))
  {
    PiecesEqualWhole(START, Before(x), parse);
    PiecesEqualWhole(START, Before(y), parse);
  }

  // ---------------------------------------------------------------- in terms of lines

  /** The newline-terminated lines of a text, trimmed, without blank ones; an unterminated tail is ignored. */
  function Lines(text: string): seq<string>
    decreases |text|
  {
    NewlineFound(text);
    match Newline(text)
    case None => []
    case Some(i) =>
      var line := Trim(text[..i]);
      (if line == "" then [] else [line]) + Lines(text[i + 1..])
  }

  predicate Good(line: string, parse: string -> Option<PullProgress>) {
    parse(line).Some? && parse(line).value.error.None?
  }

  /** The events of the lines up to the first that fails. */
  function GoodPrefix(lines: seq<string>, parse: string -> Option<PullProgress>): seq<PullProgress> {
    if lines == [] || !Good(lines[0], parse) then []
    else [parse(lines[0]).value] + GoodPrefix(lines[1..], parse)
  }

  function FirstFailure(lines: seq<string>, parse: string -> Option<PullProgress>): Option<PullError> {
    if lines == [] then None
    else match parse(lines[0])
         case None => Some(BadLine(lines[0]))
         case Some(p) => if p.error.Some? then Some(Reported(p.error.value)) else FirstFailure(lines[1..], parse)
  }

  predicate AnySuccess(events: seq<PullProgress>) {
    exists i | 0 <= i < |events| :: events[i].status == Some("success")
  }

  /** From reader `r`, the lines take it to `end`, as far as a caller can see. */
  ghost predicate Reads(r: Reader, end: Reader, lines: seq<string>, parse: string -> Option<PullProgress>) {
    && end.events == r.events + GoodPrefix(lines, parse)
    && end.failure == FirstFailure(lines, parse)
    && (end.sawSuccess <==> r.sawSuccess || AnySuccess(GoodPrefix(lines, parse)))
  }

  lemma {:induction false} DrainReadsLines(r: Reader, parse: string -> Option<PullProgress>)
    requires r.failure.None?
    ensures Reads(r, Drain(r, parse), Lines(r.buffer), parse)
    decreases |r.buffer|
  {
    hide AfterLine, OnLine, Newline, Lines, Reads;
    if Newline(r.buffer).None? {
      ReadsNothing(r, parse);
    } else {
      var next := AfterLine(r, parse);
      if next.failure.None? {
        DrainReadsLines(next, parse);
        GoodLineReads(r, Drain(next, parse), parse);
      } else {
        BadLineReads(r, parse);
      }
    }
  }

  lemma ReadsNothing(r: Reader, parse: string -> Option<PullProgress>)
    requires r.failure.None? && Newline(r.buffer).None?
    ensures Reads(r, r, Lines(r.buffer), parse)
  {
    assert Lines(r.buffer) == [];
    assert r.events + [] == r.events;
  }

  lemma BadLineReads(r: Reader, parse: string -> Option<PullProgress>)
    requires r.failure.None? && Newline(r.buffer).Some? && AfterLine(r, parse).failure.Some?
    ensures Reads(r, AfterLine(r, parse), Lines(r.buffer), parse)
  {
    LinesStep(r.buffer);
    var i := Newline(r.buffer).value;
    hide Newline, Trim, Lines, AnySuccess, GoodPrefix, FirstFailure;
    OutcomeOfCons(Trim(r.buffer[..i]), Lines(r.buffer[i + 1..]), parse);
    assert r.events + [] == r.events;
  }

  lemma AfterGoodLine(r: Reader, parse: string -> Option<PullProgress>)
    requires r.failure.None? && Newline(r.buffer).Some? && AfterLine(r, parse).failure.None?
    ensures var i := Newline(r.buffer).value;
            var line, next := Trim(r.buffer[..i]), AfterLine(r, parse);
            && next.buffer == r.buffer[i + 1..]
            && if line == "" then next.events == r.events && next.sawSuccess == r.sawSuccess
               else
                 && Good(line, parse)
                 && next.events == r.events + [parse(line).value]
                 && next.sawSuccess == (r.sawSuccess || parse(line).value.IsSuccess())
  {
    hide Newline, Trim;
  }

  lemma GoodLineReads(r: Reader, end: Reader, parse: string -> Option<PullProgress>)
    requires r.failure.None? && Newline(r.buffer).Some? && AfterLine(r, parse).failure.None?
    requires Reads(AfterLine(r, parse), end, Lines(AfterLine(r, parse).buffer), parse)
    ensures Reads(r, end, Lines(r.buffer), parse)
  {
    hide Newline, Trim, Lines, AnySuccess, GoodPrefix, FirstFailure, OnLine, AfterLine;
    LinesStep(r.buffer);
    AfterGoodLine(r, parse);
    var i := Newline(r.buffer).value;
    var line, rest := Trim(r.buffer[..i]), Lines(r.buffer[i + 1..]);
    if line == "" {
      assert [] + rest == rest;
    } else {
      OutcomeOfCons(line, rest, parse);
      var p := parse(line).value;
      assert (r.events + [p]) + GoodPrefix(rest, parse) == r.events + ([p] + GoodPrefix(rest, parse));
    }
  }

  lemma OutcomeOfCons(line: string, rest: seq<string>, parse: string -> Option<PullProgress>)
    ensures var lines := [line] + rest;
            if Good(line, parse) then
              && GoodPrefix(lines, parse) == [parse(line).value] + GoodPrefix(rest, parse)
              && FirstFailure(lines, parse) == FirstFailure(rest, parse)
              && (AnySuccess(GoodPrefix(lines, parse))
                  <==> parse(line).value.IsSuccess() || AnySuccess(GoodPrefix(rest, parse)))
            else
              && GoodPrefix(lines, parse) == [] && !AnySuccess(GoodPrefix(lines, parse))
              && FirstFailure(lines, parse)
              == Some(if parse(line).None? then BadLine(line) else Reported(parse(line).value.error.value))
  {
    assert ([line] + rest)[1..] == rest;
    if Good(line, parse) {
      SuccessOfCons(parse(line).value, GoodPrefix(rest, parse));
    }
  }

  lemma LinesStep(text: string)
    ensures match Newline(text)
            case None => Lines(text) == []
            case Some(i) =>
              && i < |text|
              && Lines(text) == (if Trim(text[..i]) == "" then [] else [Trim(text[..i])]) + Lines(text[i + 1..])
  {
    NewlineFound(text);
  }

  lemma SuccessOfCons(p: PullProgress, rest: seq<PullProgress>)
    ensures AnySuccess([p] + rest) <==> p.IsSuccess() || AnySuccess(rest)
  {
    var all := [p] + rest;
    assert all[0] == p;
    assert forall i | 0 <= i < |rest| :: all[i + 1] == rest[i];
  }

  /**
   * For every way of cutting a text into chunks, the events are those of its complete lines up
   * to the first bad one, that line decides the error, and success needs a success line.
   */
  lemma PullDependsOnLinesOnly(chunks: seq<Chunk>, parse: string -> Option<PullProgress>)
    ensures var end, lines := FeedAll(START, Before(chunks), parse), Lines(Concat(Before(chunks)));
            && end.events == GoodPrefix(lines, parse)
            && Conclude(end, Breaks(chunks))
            == match FirstFailure(lines, parse) {
                 case Some(e) => Err(e)
                 case None => if Breaks(chunks) then Err(Transport)
                              else if AnySuccess(GoodPrefix(lines, parse)) then Ok(()) else Err(NoSuccess)
               }
  {
    PiecesEqualWhole(START, Before(chunks), parse);
    assert "" + Concat(Before(chunks)) == Concat(Before(chunks));
    DrainReadsLines(START.(buffer := Concat(Before(chunks))), parse);
  }
}
