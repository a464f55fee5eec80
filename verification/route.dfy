/** The reply-request handler (`POST /api/rizz`): an empty-input guard, the lower-cased intent
    text, the `SIDE: text` transcript, the choice between copy mode and advice mode, and the
    parsing of the completion service's raw text into the `replies` list.

    The completion service is not called here: its answer is a parameter of `Handle`, and the
    exchange records whether the handler would have asked for it at all. */
module RizzRoute {
  import opened Wrappers
  import opened Text

  /* ---------------------------------------------------------------------------------
     Request and response
     --------------------------------------------------------------------------------- */

  /** One element of the request's `messages` array: a bare string; any other value whose
      `text` and `side` are strings or missing (None); or an element on which the handler
      throws before the completion call. That last case is `null` (reading `text` throws)
      and an object whose `text` or `side` is truthy but not a string (`.trim()` or
      `.toUpperCase()` is not a function). */
  datatype Message =
    | Plain(s: string)
    | Tagged(text: Option<string>, side: Option<string>)
    | Faulty

  /** The request body. `messages` is None when it is missing or not an array; `copyMode` is
      None when it is missing or not a boolean. */
  datatype Request = Request(messages: Option<seq<Message>>, copyMode: Option<bool>)

  /** What the completion service gave back: the message content as a string (None when it
      is missing or falsy, which `|| ""` turns into the empty string), or a failure. A failure
      is a rejected call, a body that is not JSON, or truthy content that is not a string
      (its `.split` throws); each ends in the catch block. */
  datatype Completion = Completed(content: Option<string>) | Failed

  datatype Mode = Copy | Advice

  /** The two fixed system prompts (their wording is not modelled). */
  datatype Template = ReplyTemplate | AdviceTemplate

  /** What the handler sends to the completion service. */
  datatype Prompt = Prompt(system: Template, transcript: string)

  /** One call of the handler: the prompt it sent (None when the completion service was never
      called) and the `replies` field of its JSON response. */
  datatype Exchange = Exchange(prompt: Option<Prompt>, replies: seq<string>)

  const Greeting: string := "Hey \U{1F44B} How can I help?"
  const Rephrase: string := "Hmm\U{2026} try asking that a different way."
  const WentWrong: string := "Something went wrong \U{1F605} Try again."

  /** The alternatives of the intent regular expression, which is matched against lower-cased text. */
  const Triggers: seq<string> := [
    "what should i text", "what can i say", "how to start", "start a convo",
    "give me a reply", "write a message", "reply to", "text her", "text him",
    "conversation starter"
  ]

  const Incoming: string := "INCOMING"
  const Outgoing: string := "OUTGOING"

  /* ---------------------------------------------------------------------------------
     Intent text
     --------------------------------------------------------------------------------- */

  predicate NoFaulty(ms: seq<Message>) {
    forall i :: 0 <= i < |ms| ==> !ms[i].Faulty?
  }

  /** The text a message contributes to intent detection: a string as it is, an object's
      `text` trimmed (missing text counts as empty). */
  function PlainText(m: Message): string
    requires !m.Faulty?
  {
    match m
    case Plain(s) => s
    case Tagged(text, _) => Trim(text.GetOr(""))
  }

  /** The non-empty plain texts, in message order. */
  function PlainTexts(ms: seq<Message>): (ts: seq<string>)
    requires NoFaulty(ms)
    ensures |ts| <= |ms|
    ensures forall i :: 0 <= i < |ts| ==> ts[i] != []
  {
    if |ms| == 0 then []
    else
      var t := PlainText(ms[0]);
      (if t == [] then [] else [t]) + PlainTexts(ms[1..])
  }

  /** Order is kept: the texts of a concatenation are the texts of each part, in turn. */
  lemma {:induction false} PlainTextsAppend(a: seq<Message>, b: seq<Message>)
    requires NoFaulty(a) && NoFaulty(b)
    ensures NoFaulty(a + b)
    ensures PlainTexts(a + b) == PlainTexts(a) + PlainTexts(b)
  {
    if |a| > 0 {
      assert (a + b)[1..] == a[1..] + b;
      assert (a + b)[0] == a[0];
      PlainTextsAppend(a[1..], b);
      var t := PlainText(a[0]);
      var head := if t == [] then [] else [t];
      assert PlainTexts(a + b) == head + PlainTexts(a[1..] + b);
      assert PlainTexts(a) == head + PlainTexts(a[1..]);
    } else {
      assert a + b == b;
    }
  }

  /** Every message's plain text, empty ones included. */
  function AllPlainTexts(ms: seq<Message>): (ts: seq<string>)
    requires NoFaulty(ms)
    ensures |ts| == |ms| && forall i :: 0 <= i < |ms| ==> ts[i] == PlainText(ms[i])
  {
    seq(|ms|, i requires 0 <= i < |ms| && NoFaulty(ms) => PlainText(ms[i]))
  }

  predicate NonEmpty(t: string) { t != [] }

  /** `plainTexts` is exactly the `filter(Boolean)` of every message's plain text: the
      non-empty ones, all of them, in message order. */
  lemma {:induction false} PlainTextsIsFilter(ms: seq<Message>)
    requires NoFaulty(ms)
    ensures PlainTexts(ms) == Filter(AllPlainTexts(ms), NonEmpty)
  {
    if |ms| > 0 {
      PlainTextsIsFilter(ms[1..]);
      assert AllPlainTexts(ms)[1..] == AllPlainTexts(ms[1..]);
    }
  }

  /** `userText`: the plain texts joined with single spaces, lower-cased. */
  function UserText(ms: seq<Message>): (u: string)
    requires NoFaulty(ms)
    ensures forall i :: 0 <= i < |u| ==> !IsUpperAscii(u[i])
  {
    Lower(Join(PlainTexts(ms), " "))
  }

  /** The intent text of a longer conversation is the two halves' intent texts with one space
      between them (when both contribute text). */
  lemma UserTextAppend(a: seq<Message>, b: seq<Message>)
    requires NoFaulty(a) && NoFaulty(b)
    requires PlainTexts(a) != [] && PlainTexts(b) != []
    ensures NoFaulty(a + b)
    ensures UserText(a + b) == UserText(a) + " " + UserText(b)
  {
    PlainTextsAppend(a, b);
    JoinAppend(PlainTexts(a), PlainTexts(b), " ");
    var ja := Join(PlainTexts(a), " ");
    var jb := Join(PlainTexts(b), " ");
    LowerAppend(ja + " ", jb);
    LowerAppend(ja, " ");
  }

  /* ---------------------------------------------------------------------------------
     Transcript
     --------------------------------------------------------------------------------- */

  /** The label an object message is rendered under: its `side`, or UNKNOWN when the side is
      missing or empty, upper-cased. */
  function SideLabel(side: Option<string>): (tag: string)
    ensures side.None? || side == Some([]) ==> tag == "UNKNOWN"
    ensures side.Some? && side.value != [] ==> tag == Upper(side.value)
    ensures tag != []
    ensures forall i :: 0 <= i < |tag| ==> !IsLowerAscii(tag[i])
  {
    match side
    case Some(s) => if s == [] then "UNKNOWN" else Upper(s)
    case None => Upper("UNKNOWN")
  }

  /** One transcript line: a string unprefixed, an object as `LABEL: text`. A missing `text`
      is interpolated as the word `undefined`. */
  function RenderLine(m: Message): (line: string)
    requires !m.Faulty?
    ensures m.Plain? ==> line == m.s
    ensures m.Tagged? ==> StartsWith(line, SideLabel(m.side) + ": ")
                          && line[|SideLabel(m.side)| + 2..] == m.text.GetOr("undefined")
  {
    match m
    case Plain(s) => s
    case Tagged(text, side) => SideLabel(side) + ": " + text.GetOr("undefined")
  }

  function RenderLines(ms: seq<Message>): (lines: seq<string>)
    requires NoFaulty(ms)
    ensures |lines| == |ms|
    ensures forall i :: 0 <= i < |ms| ==> lines[i] == RenderLine(ms[i])
  {
    seq(|ms|, i requires 0 <= i < |ms| && NoFaulty(ms) => RenderLine(ms[i]))
  }

  /** `modelInput`: the rendered lines joined with newlines. When no message renders to text
      with a line break of its own, the transcript has exactly one line per message, in
      message order. */
  function ModelInput(ms: seq<Message>): (transcript: string)
    requires NoFaulty(ms)
    ensures |ms| >= 1 && (forall i :: 0 <= i < |ms| ==> '\n' !in RenderLine(ms[i])) ==>
              Split(transcript, '\n') == RenderLines(ms)
  {
    var lines := RenderLines(ms);
    if |ms| >= 1 && forall i :: 0 <= i < |lines| ==> '\n' !in lines[i] then
      SplitJoin(lines, '\n');
      Join(lines, "\n")
    else
      Join(lines, "\n")
  }

  /* ---------------------------------------------------------------------------------
     Intent detection
     --------------------------------------------------------------------------------- */

  /** `isCopyMode`: the request asks for copy mode with the boolean `true`, or the intent text
      contains one of the trigger phrases. */
  function DetectMode(copyMode: Option<bool>, userText: string): (mode: Mode)
    ensures mode == Copy <==>
              copyMode == Some(true) || exists k :: 0 <= k < |Triggers| && Contains(userText, Triggers[k])
  {
    if copyMode == Some(true) || ContainsAny(userText, Triggers) then Copy else Advice
  }

  /** The system prompt follows the mode. */
  function TemplateFor(mode: Mode): (t: Template)
    ensures t == ReplyTemplate <==> mode == Copy
  {
    match mode
    case Copy => ReplyTemplate
    case Advice => AdviceTemplate
  }

  /* ---------------------------------------------------------------------------------
     Reply parsing
     --------------------------------------------------------------------------------- */

  /** Every line trimmed, blank lines dropped, order kept. */
  function CleanLines(parts: seq<string>): (lines: seq<string>)
    ensures |lines| <= |parts|
    ensures forall i :: 0 <= i < |lines| ==> lines[i] != [] && IsTrimmed(lines[i])
    ensures (forall i :: 0 <= i < |parts| ==> '\n' !in parts[i]) ==>
              forall i :: 0 <= i < |lines| ==> '\n' !in lines[i]
  {
    if |parts| == 0 then []
    else
      var t := Trim(parts[0]);
      (if t == [] then [] else [t]) + CleanLines(parts[1..])
  }

  /** Cleaning is exactly the `filter(Boolean)` of every line trimmed: the non-empty trimmed
      lines, all of them, in order. */
  lemma {:induction false} CleanLinesIsFilter(parts: seq<string>)
    ensures CleanLines(parts) == Filter(TrimAll(parts), NonEmpty)
  {
    if |parts| > 0 {
      CleanLinesIsFilter(parts[1..]);
      assert TrimAll(parts)[1..] == TrimAll(parts[1..]);
    }
  }

  /** The raw completion text split into lines, each trimmed, blank ones dropped: every
      resulting line is non-empty, has no whitespace at either end and no line break. */
  function ResponseLines(raw: string): (lines: seq<string>)
    ensures forall i :: 0 <= i < |lines| ==> lines[i] != [] && IsTrimmed(lines[i]) && '\n' !in lines[i]
  {
    CleanLines(Split(raw, '\n'))
  }

  /** Which lines reply parsing sees: the pieces of the raw text between line breaks, each
      trimmed, the empty ones dropped, in order. */
  lemma ResponseLinesIsFilter(raw: string)
    ensures ResponseLines(raw) == Filter(TrimAll(Split(raw, '\n')), NonEmpty)
  {
    CleanLinesIsFilter(Split(raw, '\n'));
  }

  /** Lines that are already trimmed and non-empty survive cleaning unchanged. */
  lemma {:induction false} CleanLinesOfClean(lines: seq<string>)
    requires forall i :: 0 <= i < |lines| ==> lines[i] != [] && IsTrimmed(lines[i])
    ensures CleanLines(lines) == lines
  {
    if |lines| > 0 {
      var l := lines[0];
      TrimUnique(l, 0, |l|);
      assert l[0..|l|] == l;
      CleanLinesOfClean(lines[1..]);
      assert lines == [l] + lines[1..];
    }
  }

  /** Round trip: text written one trimmed, non-empty line per entry is read back as exactly
      those lines. */
  lemma ResponseLinesOfJoin(lines: seq<string>)
    requires forall i :: 0 <= i < |lines| ==> lines[i] != [] && IsTrimmed(lines[i]) && '\n' !in lines[i]
    ensures ResponseLines(Join(lines, "\n")) == lines
  {
    if |lines| == 0 {
      assert Split([], '\n') == [[]];
      assert Trim([]) == [];
    } else {
      SplitJoin(lines, '\n');
      CleanLinesOfClean(lines);
    }
  }

  /** The first line, upper-cased, starts with one of the two direction markers: that is, it
      starts with one of them in any mix of letter case. */
  function HasHeader(lines: seq<string>): (h: bool)
    ensures h <==> |lines| > 0 && (StartsWithIgnoringCase(lines[0], Incoming)
                                  || StartsWithIgnoringCase(lines[0], Outgoing))
  {
    if |lines| == 0 then false
    else
      UpperStartsWith(lines[0], Incoming);
      UpperStartsWith(lines[0], Outgoing);
      StartsWith(Upper(lines[0]), Incoming) || StartsWith(Upper(lines[0]), Outgoing)
  }

  /** The reply list before the empty-list fallback. In copy mode: at most three lines, a
      contiguous run of the cleaned lines that starts right after a direction marker, or at
      the first line when there is none. In advice mode: the whole trimmed text as one entry. */
  function ParseReplies(mode: Mode, raw: string): (replies: seq<string>)
    ensures mode == Advice ==> replies == [Trim(raw)]
    ensures mode == Copy ==>
              var lines := ResponseLines(raw);
              var start := if HasHeader(lines) then 1 else 0;
              && start <= |lines|
              && |replies| == (if |lines| - start < 3 then |lines| - start else 3)
              && replies == lines[start..start + |replies|]
  {
    match mode
    case Copy =>
      var lines := ResponseLines(raw);
      if HasHeader(lines) then Slice(lines, 1, 4) else Slice(lines, 0, 3)
    case Advice => [Trim(raw)]
  }

  /** The response never carries an empty `replies` list. */
  function OrRephrase(replies: seq<string>): (r: seq<string>)
    ensures |r| >= 1
    ensures replies != [] ==> r == replies
  {
    if |replies| > 0 then replies else [Rephrase]
  }

  /* ---------------------------------------------------------------------------------
     The handler
     --------------------------------------------------------------------------------- */

  /** `POST`: the whole request, given the answer the completion service would give. */
  function Handle(req: Request, completion: Completion): (x: Exchange)
    ensures |x.replies| >= 1
    ensures x.prompt.None? <==>
              req.messages.None? || req.messages.value == [] || !NoFaulty(req.messages.value)
    ensures x.prompt.Some? ==>
              && x.prompt.value.transcript == ModelInput(req.messages.value)
              && (x.prompt.value.system == ReplyTemplate <==>
                    DetectMode(req.copyMode, UserText(req.messages.value)) == Copy)
  {
    match req.messages
    case None => Exchange(None, [Greeting])
    case Some(ms) =>
      if |ms| == 0 then Exchange(None, [Greeting])
      else if !NoFaulty(ms) then Exchange(None, [WentWrong])
      else
        var mode := DetectMode(req.copyMode, UserText(ms));
        var prompt := Prompt(TemplateFor(mode), ModelInput(ms));
        match completion
        case Failed => Exchange(Some(prompt), [WentWrong])
        case Completed(content) =>
          Exchange(Some(prompt), OrRephrase(ParseReplies(mode, content.GetOr(""))))
  }

  /* ---------------------------------------------------------------------------------
     Properties of the handler
     --------------------------------------------------------------------------------- */

  /** A missing, non-array or empty `messages` is answered with the greeting alone, and the
      completion service is not called. */
  lemma EmptyRequestGreets(req: Request, completion: Completion)
    requires req.messages.None? || req.messages == Some([])
    ensures Handle(req, completion) == Exchange(None, [Greeting])
  {
  }

  /** Every failure inside the handler is answered with the apology alone: a faulty message
      (before any completion call) or a failed call or decode (after it). */
  lemma FailuresApologise(req: Request, completion: Completion)
    requires req.messages.Some? && |req.messages.value| > 0
    requires !NoFaulty(req.messages.value) || completion.Failed?
    ensures Handle(req, completion).replies == [WentWrong]
    ensures !NoFaulty(req.messages.value) ==> Handle(req, completion).prompt.None?
  {
  }

  /** `copyMode: true` selects the reply template whatever the text says. */
  lemma CopyFlagForcesReplyTemplate(ms: seq<Message>, completion: Completion)
    requires |ms| > 0 && NoFaulty(ms)
    ensures Handle(Request(Some(ms), Some(true)), completion).prompt
            == Some(Prompt(ReplyTemplate, ModelInput(ms)))
  {
  }

  /** Any non-empty list of strings and tagged lines reaches the completion service, with the
      reply template when the copy flag is set. */
  lemma ReachesCompletion(req: Request, completion: Completion)
    requires req.messages.Some? && |req.messages.value| > 0 && NoFaulty(req.messages.value)
    ensures Handle(req, completion).prompt.Some?
    ensures req.copyMode == Some(true) ==> Handle(req, completion).prompt.value.system == ReplyTemplate
  {
  }

  /** In advice mode the reply is the whole trimmed completion as a single entry, even when it
      is empty: the rephrase placeholder cannot appear on this path. */
  lemma AdviceRepliesOnce(req: Request, content: Option<string>)
    requires req.messages.Some? && |req.messages.value| > 0 && NoFaulty(req.messages.value)
    requires DetectMode(req.copyMode, UserText(req.messages.value)) == Advice
    ensures Handle(req, Completed(content)).replies == [Trim(content.GetOr(""))]
  {
  }

  /** In copy mode the replies are one to three lines of the completion, in order; the
      rephrase placeholder appears exactly when no candidate line is left. */
  lemma CopyRepliesBounded(req: Request, raw: string)
    requires req.messages.Some? && |req.messages.value| > 0 && NoFaulty(req.messages.value)
    requires DetectMode(req.copyMode, UserText(req.messages.value)) == Copy
    ensures var replies := Handle(req, Completed(Some(raw))).replies;
            var parsed := ParseReplies(Copy, raw);
            var lines := ResponseLines(raw);
            var start := if HasHeader(lines) then 1 else 0;
            && 1 <= |replies| <= 3
            && (parsed == [] ==> replies == [Rephrase])
            && (parsed != [] ==> replies == parsed == lines[start..start + |replies|])
  {
    var parsed := ParseReplies(Copy, raw);
    assert Handle(req, Completed(Some(raw))).replies == OrRephrase(parsed);
  }

  /** Round trip for the strict format: a direction marker, in any letter case, followed by
      three trimmed lines is read back as those three lines. */
  lemma MarkedRepliesRoundTrip(header: string, c0: string, c1: string, c2: string)
    requires header != [] && IsTrimmed(header) && '\n' !in header
    requires StartsWithIgnoringCase(header, Incoming) || StartsWithIgnoringCase(header, Outgoing)
    requires c0 != [] && IsTrimmed(c0) && '\n' !in c0
    requires c1 != [] && IsTrimmed(c1) && '\n' !in c1
    requires c2 != [] && IsTrimmed(c2) && '\n' !in c2
    ensures ParseReplies(Copy, Join([header, c0, c1, c2], "\n")) == [c0, c1, c2]
  {
    var lines := [header, c0, c1, c2];
    assert forall i :: 0 <= i < |lines| ==> lines[i] != [] && IsTrimmed(lines[i]) && '\n' !in lines[i] by {
      forall i | 0 <= i < |lines|
        ensures lines[i] != [] && IsTrimmed(lines[i]) && '\n' !in lines[i]
      {
        if i == 0 {} else if i == 1 {} else if i == 2 {} else {}
      }
    }
    MarkedLines(lines);
    assert lines[1..4] == [c0, c1, c2];
  }

  /** Clean lines under a direction marker: the three after the marker are the replies. */
  lemma MarkedLines(lines: seq<string>)
    requires |lines| >= 4 && HasHeader(lines)
    requires forall i :: 0 <= i < |lines| ==> lines[i] != [] && IsTrimmed(lines[i]) && '\n' !in lines[i]
    ensures ParseReplies(Copy, Join(lines, "\n")) == lines[1..4]
  {
    ResponseLinesOfJoin(lines);
  }

  /** Fallback for a missing marker: the first three lines are taken as they are. */
  lemma UnmarkedRepliesRoundTrip(lines: seq<string>)
    requires |lines| >= 1
    requires forall i :: 0 <= i < |lines| ==> lines[i] != [] && IsTrimmed(lines[i]) && '\n' !in lines[i]
    requires !StartsWithIgnoringCase(lines[0], Incoming) && !StartsWithIgnoringCase(lines[0], Outgoing)
    ensures ParseReplies(Copy, Join(lines, "\n")) == lines[..if |lines| < 3 then |lines| else 3]
  {
    assert !HasHeader(lines);
    UnmarkedLines(lines);
  }

  /** Clean lines without a direction marker: the first three (or fewer) are the replies. */
  lemma UnmarkedLines(lines: seq<string>)
    requires !HasHeader(lines)
    requires forall i :: 0 <= i < |lines| ==> lines[i] != [] && IsTrimmed(lines[i]) && '\n' !in lines[i]
    ensures ParseReplies(Copy, Join(lines, "\n")) == lines[..if |lines| < 3 then |lines| else 3]
  {
    ResponseLinesOfJoin(lines);
  }

  /** The strict-format sample `OUTGOING\nHey!\nWhat's up?\nYo!` yields its three messages. */
  lemma OutgoingSample(header: string, c0: string, c1: string, c2: string, raw: string)
    requires header == "OUTGOING" && c0 == "Hey!" && c1 == "What's up?" && c2 == "Yo!"
    requires raw == header + "\n" + c0 + "\n" + c1 + "\n" + c2
    ensures ParseReplies(Copy, raw) == [c0, c1, c2]
  {
    assert [header, c0, c1, c2][1..] == [c0, c1, c2];
    assert [c0, c1, c2][1..] == [c1, c2];
    assert [c1, c2][1..] == [c2];
    assert Join([c1, c2], "\n") == c1 + "\n" + c2;
    assert Join([c0, c1, c2], "\n") == c0 + "\n" + (c1 + "\n" + c2);
    assert Join([header, c0, c1, c2], "\n") == header + "\n" + (c0 + "\n" + (c1 + "\n" + c2));
    assert Join([header, c0, c1, c2], "\n") == raw;
    assert StartsWithIgnoringCase(header, Outgoing);
    MarkedRepliesRoundTrip(header, c0, c1, c2);
  }

  /** A trigger phrase selects copy mode without the flag. */
  lemma TriggerSample()
    ensures DetectMode(None, "what should i text her") == Copy
  {
    assert StartsWith("what should i text her"[0..], Triggers[0]);
  }
}
