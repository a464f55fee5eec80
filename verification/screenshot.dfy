/** The pure parts of the screenshot screen: the resize rule applied before recognition, the
    assignment of a screen side to each recognised line, the chat-chrome filter, and the
    request (or the "nothing readable" reply) that results.

    Recognition itself is not modelled: its output is a parameter, a sequence of lines each
    with an optional text and optional horizontal box bounds, plus the recognised plain text
    and the image width. */
module Screenshot {
  import opened Wrappers
  import opened Text
  import RizzRoute

  /* ---------------------------------------------------------------------------------
     Resize
     --------------------------------------------------------------------------------- */

  datatype Dims = Dims(w: int, h: int)

  function Max(a: int, b: int): int { if a < b then b else a }

  /** `Math.round(x)`: the integer nearest to `x`, halves rounded up. */
  function Round(x: real): (n: int)
    ensures x - 0.5 < n as real <= x + 0.5
  {
    (x + 0.5).Floor
  }

  /** `Math.round(num / den)` is at most `bound` when `num <= bound * den`. */
  lemma RoundQuotientAtMost(num: nat, den: nat, bound: nat)
    requires den > 0 && num <= bound * den
    ensures 0 <= Round(num as real / den as real) <= bound
  {
    var x := num as real / den as real;
    assert x * den as real == num as real;
    assert (num as real) <= (bound * den) as real;
    CancelPositive(x, bound as real, den as real);
  }

  /** `a * c <= b * c` with `c > 0` gives `a <= b`. */
  lemma CancelPositive(a: real, b: real, c: real)
    requires c > 0.0 && a * c <= b * c
    ensures a <= b
  {
    assert (b - a) * c >= 0.0;
  }

  /** The canvas size `resizeImageFile` draws into: unchanged when the longer side is within
      `maxDim`; otherwise the longer side (width on a strict win, else height) becomes `maxDim`
      and the other is scaled by the same factor and rounded. */
  function ResizeDims(width: nat, height: nat, maxDim: nat): (d: Dims)
    ensures Max(width, height) <= maxDim ==> d == Dims(width, height)
    ensures 0 <= d.w <= maxDim && 0 <= d.h <= maxDim
    ensures Max(width, height) > maxDim && width > height ==>
              d.w == maxDim
              && (height * maxDim) as real / width as real - 0.5 < d.h as real
              && d.h as real <= (height * maxDim) as real / width as real + 0.5
    ensures Max(width, height) > maxDim && width <= height ==>
              d.h == maxDim
              && (width * maxDim) as real / height as real - 0.5 < d.w as real
              && d.w as real <= (width * maxDim) as real / height as real + 0.5
  {
    if Max(width, height) > maxDim then
      if width > height then
        RoundQuotientAtMost(height * maxDim, width, maxDim);
        Dims(maxDim, Round((height * maxDim) as real / width as real))
      else
        RoundQuotientAtMost(width * maxDim, height, maxDim);
        Dims(Round((width * maxDim) as real / height as real), maxDim)
    else
      Dims(width, height)
  }

  /* ---------------------------------------------------------------------------------
     Lines and sides
     --------------------------------------------------------------------------------- */

  datatype Side = Left | Right | Unknown

  /** One recognised line: its text (None when missing) and the `x0`/`x1` bounds of the box
      found for it (None when the box or the bound is missing). */
  datatype OcrLine = OcrLine(text: Option<string>, x0: Option<int>, x1: Option<int>)

  /** A classified line, as posted in the request. */
  datatype Line = Line(text: string, side: Side)

  /** Side from the box: right when the box's horizontal centre is past the middle of the
      image, left when it is not (the exact middle counts as left), unknown when a bound is
      missing or the width is 0. Compared in integers: `(x0 + x1) / 2 > width / 2` exactly
      when `x0 + x1 > width`. */
  function SideOf(x0: Option<int>, x1: Option<int>, width: nat): (side: Side)
    ensures side == Unknown <==> x0.None? || x1.None? || width == 0
    ensures side == Right <==>
              x0.Some? && x1.Some? && width != 0
              && (x0.value + x1.value) as real / 2.0 > width as real / 2.0
    ensures side == Left <==>
              x0.Some? && x1.Some? && width != 0
              && (x0.value + x1.value) as real / 2.0 <= width as real / 2.0
  {
    if x0.Some? && x1.Some? && width != 0 then
      if x0.value + x1.value > width then Right else Left
    else Unknown
  }

  function ClassifyOcrLine(l: OcrLine, width: nat): (line: Line)
    ensures line.text == Trim(l.text.GetOr(""))
    ensures line.side == SideOf(l.x0, l.x1, width)
  {
    Line(Trim(l.text.GetOr("")), SideOf(l.x0, l.x1, width))
  }

  /** Fallback when recognition gives no lines: the plain text's pieces between line breaks,
      each trimmed, the empty ones dropped, side unknown. */
  function PlainTextLines(parts: seq<string>): (lines: seq<Line>)
    ensures var texts := Filter(TrimAll(parts), RizzRoute.NonEmpty);
            |lines| == |texts| && forall i :: 0 <= i < |lines| ==> lines[i] == Line(texts[i], Unknown)
  {
    var texts := RizzRoute.CleanLines(parts);
    RizzRoute.CleanLinesIsFilter(parts);
    seq(|texts|, i requires 0 <= i < |texts| => Line(texts[i], Unknown))
  }

  /** `ocrLines`: one classified line per recognised line when there are any (empty texts
      kept for now), otherwise the fallback over the plain text. */
  function ExtractLines(ocr: seq<OcrLine>, plain: string, width: nat): (lines: seq<Line>)
    ensures |ocr| > 0 ==> |lines| == |ocr|
                          && forall i :: 0 <= i < |ocr| ==> lines[i] == ClassifyOcrLine(ocr[i], width)
    ensures |ocr| == 0 ==> lines == PlainTextLines(Split(plain, '\n'))
    ensures forall i :: 0 <= i < |lines| ==> IsTrimmed(lines[i].text)
  {
    if |ocr| > 0 then seq(|ocr|, i requires 0 <= i < |ocr| => ClassifyOcrLine(ocr[i], width))
    else
      var lines := PlainTextLines(Split(plain, '\n'));
      assert forall i :: 0 <= i < |lines| ==> IsTrimmed(lines[i].text) by {
        var c := RizzRoute.CleanLines(Split(plain, '\n'));
        RizzRoute.CleanLinesIsFilter(Split(plain, '\n'));
        assert forall i :: 0 <= i < |lines| ==> lines[i].text == c[i];
      }
      lines
  }

  /** Without recognised lines, the lines are the plain text's non-blank pieces between line
      breaks, trimmed, in order, all with unknown side. */
  lemma PlainTextFallback(plain: string, width: nat)
    ensures var lines := ExtractLines([], plain, width);
            var texts := Filter(TrimAll(Split(plain, '\n')), RizzRoute.NonEmpty);
            |lines| == |texts|
            && forall i :: 0 <= i < |lines| ==> lines[i].text == texts[i] && lines[i].side == Unknown
  {
  }

  /* ---------------------------------------------------------------------------------
     Chat-chrome filter
     --------------------------------------------------------------------------------- */

  /** Words that mark timestamps, read receipts and other interface text, matched
      case-insensitively anywhere in a line. */
  const Denylist: seq<string> := ["double tap", "today", "yesterday", "am", "pm", "seen", "active", "message"]

  /** How many of the most recent lines are kept. */
  const RecentLines: nat := 6

  /** A line survives when it has text and contains no denylisted word, whatever the case. */
  predicate Keep(l: Line) {
    l.text != [] && !ContainsAny(Lower(l.text), Denylist)
  }

  /** `filtered`: the surviving lines, of which only the last six, in their original order. */
  function Recent(lines: seq<Line>): (r: seq<Line>)
    ensures |r| <= RecentLines
    ensures forall i :: 0 <= i < |r| ==> Keep(r[i])
    ensures var kept := Filter(lines, Keep);
            |r| == (if |kept| < RecentLines then |kept| else RecentLines)
            && r == kept[|kept| - |r|..]
  {
    TakeLast(Filter(lines, Keep), RecentLines)
  }

  /** Filtering what has already been filtered changes nothing. */
  lemma RecentIdempotent(lines: seq<Line>)
    ensures Recent(Recent(lines)) == Recent(lines)
  {
    var r := Recent(lines);
    FilterKeepsAll(r, Keep);
  }

  /** A filter that every element passes returns its input. */
  lemma {:induction false} FilterKeepsAll<T>(xs: seq<T>, keep: T -> bool)
    requires forall i :: 0 <= i < |xs| ==> keep(xs[i])
    ensures Filter(xs, keep) == xs
  {
    if |xs| > 0 {
      FilterKeepsAll(xs[1..], keep);
    }
  }

  /** A line containing a denylisted word in any letter case is dropped. */
  lemma DenylistedDropped(l: Line, k: nat, at: nat)
    requires k < |Denylist| && at <= |l.text| && StartsWith(Lower(l.text)[at..], Denylist[k])
    ensures !Keep(l)
  {
    assert Contains(Lower(l.text), Denylist[k]);
  }

  /** The read-receipt sample: `Seen 2:30pm` is dropped (it contains `seen` and `pm`). */
  lemma SeenDropped()
    ensures !Keep(Line("Seen 2:30pm", Unknown))
  {
    assert Lower("Seen 2:30pm")[0..][..4] == "seen";
    DenylistedDropped(Line("Seen 2:30pm", Unknown), 5, 0);
  }

  /** A word none of whose first-two-letter pairs occurs in `s` is not contained in `s`. */
  lemma NotContainedByPair(s: string, w: string)
    requires |w| >= 2
    requires forall i :: 0 <= i < |s| - 1 ==> !(s[i] == w[0] && s[i + 1] == w[1])
    ensures !Contains(s, w)
  {
    forall i | 0 <= i <= |s|
      ensures !StartsWith(s[i..], w)
    {
      if i + 1 < |s| {
        assert s[i..][0] == s[i] && s[i..][1] == s[i + 1];
      }
    }
  }

  /** The plain-message sample: `I miss you` survives. */
  lemma MessageKept()
    ensures Keep(Line("I miss you", Left))
  {
    var s := Lower("I miss you");
    assert s == "i miss you";
    forall k | 0 <= k < |Denylist|
      ensures !Contains(s, Denylist[k])
    {
      NotContainedByPair(s, Denylist[k]);
    }
  }

  /** Ten surviving lines become the last six, in order. */
  lemma TruncationKeepsLastSix(lines: seq<Line>)
    requires |lines| == 10 && forall i :: 0 <= i < |lines| ==> Keep(lines[i])
    ensures Recent(lines) == lines[4..]
  {
    FilterKeepsAll(lines, Keep);
  }

  /* ---------------------------------------------------------------------------------
     The outcome of analysing one screenshot
     --------------------------------------------------------------------------------- */

  const NoReadableText: string := "No readable text found. Try a different screenshot or crop it."

  /** Either a reply shown at once without any request, or the request posted to the reply
      handler. */
  datatype Outcome = Show(replies: seq<string>) | Post(request: RizzRoute.Request)

  function SideName(side: Side): string {
    match side
    case Left => "left"
    case Right => "right"
    case Unknown => "unknown"
  }

  function ToMessage(l: Line): RizzRoute.Message {
    RizzRoute.Tagged(Some(l.text), Some(SideName(l.side)))
  }

  /** The posted `messages`: one `{ text, side }` object per line, in order. */
  function ToMessages(lines: seq<Line>): (ms: seq<RizzRoute.Message>)
    ensures |ms| == |lines| && RizzRoute.NoFaulty(ms)
    ensures forall i :: 0 <= i < |lines| ==> ms[i] == ToMessage(lines[i])
  {
    seq(|lines|, i requires 0 <= i < |lines| => ToMessage(lines[i]))
  }

  /** The longest side `analyze` resizes the screenshot to before recognition. */
  const MaxDim: nat := 1024

  /** The width of the image recognition runs on: the screenshot after `resizeImageFile`. */
  function RecognisedWidth(width: nat, height: nat): (w: nat)
    ensures w <= MaxDim
    ensures Max(width, height) <= MaxDim ==> w == width
  {
    ResizeDims(width, height, MaxDim).w
  }

  /** The outcome from the surviving lines: no line gives exactly the "no readable text"
      reply, with no request; otherwise the lines are posted with `copyMode: true`. */
  function OutcomeOf(r: seq<Line>): (o: Outcome)
    ensures r == [] <==> o == Show([NoReadableText])
    ensures r != [] <==> o == Post(RizzRoute.Request(Some(ToMessages(r)), Some(true)))
  {
    if |r| == 0 then Show([NoReadableText])
    else Post(RizzRoute.Request(Some(ToMessages(r)), Some(true)))
  }

  /** The pure part of `analyze` for a `width` x `height` screenshot, with each box's side
      judged against the width of the image the boxes were found in. */
  function Analyze(ocr: seq<OcrLine>, plain: string, width: nat, height: nat): (o: Outcome)
    ensures var r := Recent(ExtractLines(ocr, plain, RecognisedWidth(width, height)));
            && (r == [] <==> o == Show([NoReadableText]))
            && (r != [] <==> o == Post(RizzRoute.Request(Some(ToMessages(r)), Some(true))))
  {
    OutcomeOf(Recent(ExtractLines(ocr, plain, RecognisedWidth(width, height))))
  }

  /** `analyze` as written: the boxes come from the resized image, but their centres are
      compared with half the width of the preview, which is the screenshot's own width (0
      when the preview fails to load). */
  function AnalyzeAsWritten(ocr: seq<OcrLine>, plain: string, previewWidth: nat): (o: Outcome)
    ensures var r := Recent(ExtractLines(ocr, plain, previewWidth));
            && (r == [] <==> o == Show([NoReadableText]))
            && (r != [] <==> o == Post(RizzRoute.Request(Some(ToMessages(r)), Some(true))))
  {
    OutcomeOf(Recent(ExtractLines(ocr, plain, previewWidth)))
  }

  /** A screenshot within the size limit is not resized, so both versions agree. */
  lemma SmallScreenshotsAgree(ocr: seq<OcrLine>, plain: string, width: nat, height: nat)
    requires Max(width, height) <= MaxDim
    ensures Analyze(ocr, plain, width, height) == AnalyzeAsWritten(ocr, plain, width)
  {
  }

  /** A 1170 x 2532 phone screenshot is recognised at 473 x 1024. A line boxed from 300 to 470
      there lies in the right half of the recognised image, yet compared with half of 1170 it
      is read as the other person's line. */
  lemma TallScreenshotMisreadsSides(ocr: seq<OcrLine>)
    requires ocr == [OcrLine(Some("Hey"), Some(300), Some(470))]
    ensures ResizeDims(1170, 2532, MaxDim) == Dims(473, 1024)
    ensures ExtractLines(ocr, "", 1170) == [Line("Hey", Left)]
    ensures ExtractLines(ocr, "", RecognisedWidth(1170, 2532)) == [Line("Hey", Right)]
  {
    var x := (1170 * 1024) as real / 2532 as real;
    assert 473.0 < x < 473.5;
    assert Round(x) == 473;
    assert ResizeDims(1170, 2532, MaxDim) == Dims(473, 1024);
    TrimOfWord();
  }

  /** A word without surrounding whitespace is its own trim. */
  lemma TrimOfWord()
    ensures Trim("Hey") == "Hey"
  {
    TrimUnique("Hey", 0, 3);
    assert "Hey"[0..3] == "Hey";
  }

  /** Posted lines reach the completion service with the reply template, and each transcript
      line is the line's side upper-cased, a colon, a space and its text. */
  lemma PostedLinesUseReplyTemplate(r: seq<Line>, completion: RizzRoute.Completion)
    requires |r| >= 1
    ensures var ms := ToMessages(r);
            && RizzRoute.Handle(RizzRoute.Request(Some(ms), Some(true)), completion).prompt
               == Some(RizzRoute.Prompt(RizzRoute.ReplyTemplate, RizzRoute.ModelInput(ms)))
            && forall i :: 0 <= i < |r| ==>
                 RizzRoute.RenderLine(ms[i]) == Upper(SideName(r[i].side)) + ": " + r[i].text
  {
    var ms := ToMessages(r);
    RizzRoute.CopyFlagForcesReplyTemplate(ms, completion);
    forall i | 0 <= i < |r|
      ensures RizzRoute.RenderLine(ms[i]) == Upper(SideName(r[i].side)) + ": " + r[i].text
    {
      assert ms[i] == ToMessage(r[i]);
      RenderPostedLine(r[i]);
    }
  }

  lemma RenderPostedLine(l: Line)
    ensures RizzRoute.RenderLine(ToMessage(l)) == Upper(SideName(l.side)) + ": " + l.text
  {
  }

  /** Whatever the screenshot, its request selects the reply template and holds one to six
      messages. */
  lemma ScreenshotRequestUsesReplyTemplate(ocr: seq<OcrLine>, plain: string, width: nat, height: nat,
                                           completion: RizzRoute.Completion)
    requires Analyze(ocr, plain, width, height).Post?
    ensures var req := Analyze(ocr, plain, width, height).request;
            && req.messages.Some? && 1 <= |req.messages.value| <= RecentLines
            && RizzRoute.Handle(req, completion).prompt
               == Some(RizzRoute.Prompt(RizzRoute.ReplyTemplate, RizzRoute.ModelInput(req.messages.value)))
  {
    var r := Recent(ExtractLines(ocr, plain, RecognisedWidth(width, height)));
    PostedLinesUseReplyTemplate(r, completion);
  }
}
