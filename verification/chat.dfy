/** The assistant chat screen as a state transition: sending a message appends the user's
    entry, posts the history, and appends the answer either as copy-ready entries (copy mode)
    or as one assistant entry; the mode button flips copy mode.

    The reply handler's answer is a parameter of `Send`: the response's `replies` field, or
    no answer at all when the request is rejected or the response is not JSON. */
module Chat {
  import opened Wrappers
  import opened Text
  import RizzRoute

  datatype Role = User | Bot | BotCopy

  datatype Entry = Entry(role: Role, text: string)

  /** The screen's state: the chat log and the copy-mode flag. */
  datatype ChatState = ChatState(chat: seq<Entry>, copyMode: bool)

  /** How the request ended: a JSON response with its `replies` field (None when it has
      none), or lost, when the fetch is rejected or the response does not parse; then the
      handler throws after the user's entry is in the log and nothing more is added. */
  datatype Answer = Replied(replies: Option<seq<string>>) | Lost

  /** The separator between replies shown in one assistant entry. */
  const ReplySeparator: string := "\n\n"

  function Texts(chat: seq<Entry>): (ts: seq<string>)
    ensures |ts| == |chat| && forall i :: 0 <= i < |chat| ==> ts[i] == chat[i].text
  {
    seq(|chat|, i requires 0 <= i < |chat| => chat[i].text)
  }

  /** Only text with something besides whitespace is sent. */
  predicate Sendable(text: string) {
    Trim(text) != []
  }

  /** The `messages` posted by `sendMessage`: the text of every earlier entry, whoever wrote
      it, then the new text; nothing is posted for whitespace-only text. */
  function History(s: ChatState, text: string): (h: Option<seq<string>>)
    ensures h.None? <==> !Sendable(text)
    ensures h.Some? ==> |h.value| == |s.chat| + 1 && h.value[|s.chat|] == text
                        && forall i :: 0 <= i < |s.chat| ==> h.value[i] == s.chat[i].text
  {
    if Sendable(text) then Some(Texts(s.chat) + [text]) else None
  }

  /** The request body: the history as plain strings and the current copy-mode flag. */
  function SendRequest(s: ChatState, text: string): (req: RizzRoute.Request)
    requires Sendable(text)
    ensures req.copyMode == Some(s.copyMode)
    ensures req.messages.Some? && |req.messages.value| == |s.chat| + 1
    ensures forall i :: 0 <= i < |req.messages.value| ==>
              req.messages.value[i] == RizzRoute.Plain(History(s, text).value[i])
  {
    var h := History(s, text).value;
    RizzRoute.Request(Some(seq(|h|, i requires 0 <= i < |h| => RizzRoute.Plain(h[i]))), Some(s.copyMode))
  }

  /** The entries appended for the answer: one copy-ready entry per reply in copy mode when
      there is at least one reply; otherwise one assistant entry holding all replies joined
      by a blank line (empty text when the response has no replies). */
  function AnswerEntries(copyMode: bool, replies: Option<seq<string>>): (es: seq<Entry>)
    ensures copyMode && replies.Some? && |replies.value| > 0 ==>
              |es| == |replies.value|
              && forall i :: 0 <= i < |es| ==> es[i] == Entry(BotCopy, replies.value[i])
    ensures !(copyMode && replies.Some? && |replies.value| > 0) ==>
              es == [Entry(Bot, if replies.Some? then Join(replies.value, ReplySeparator) else "")]
  {
    if copyMode && replies.Some? && |replies.value| > 0 then
      seq(|replies.value|, i requires 0 <= i < |replies.value| => Entry(BotCopy, replies.value[i]))
    else
      [Entry(Bot, match replies case Some(rs) => Join(rs, ReplySeparator) case None => "")]
  }

  /** `sendMessage(text)` once the request has ended: whitespace-only text changes nothing;
      otherwise the log grows by the untrimmed user entry, followed by the answer entries
      when an answer arrived, and copy mode is untouched. */
  function Send(s: ChatState, text: string, answer: Answer): (s': ChatState)
    ensures !Sendable(text) ==> s' == s
    ensures Sendable(text) ==>
              && s'.copyMode == s.copyMode
              && |s'.chat| > |s.chat|
              && s'.chat[..|s.chat|] == s.chat
              && s'.chat[|s.chat|] == Entry(User, text)
    ensures Sendable(text) && answer.Replied? ==>
              && |s'.chat| > |s.chat| + 1
              && s'.chat[|s.chat| + 1..] == AnswerEntries(s.copyMode, answer.replies)
    ensures Sendable(text) && answer.Lost? ==> |s'.chat| == |s.chat| + 1
  {
    if Sendable(text) then
      var answered := match answer
        case Replied(replies) => AnswerEntries(s.copyMode, replies)
        case Lost => [];
      var chat := s.chat + [Entry(User, text)] + answered;
      assert chat[..|s.chat|] == s.chat;
      assert chat[|s.chat| + 1..] == answered;
      ChatState(chat, s.copyMode)
    else s
  }

  /** The mode button: copy mode flips, the log stays. */
  function Toggle(s: ChatState): (s': ChatState)
    ensures s'.chat == s.chat && s'.copyMode == !s.copyMode
  {
    s.(copyMode := !s.copyMode)
  }

  /** Pressing the mode button twice restores the state. */
  lemma ToggleTwice(s: ChatState)
    ensures Toggle(Toggle(s)) == s
  {
  }

  /** In copy mode with k > 0 replies, exactly k copy-ready entries are appended and their
      texts are the replies, in order; no other entry is added beside the user's. */
  lemma CopyModeAppendsEachReply(s: ChatState, text: string, replies: seq<string>)
    requires s.copyMode && Sendable(text) && |replies| > 0
    ensures var s' := Send(s, text, Replied(Some(replies)));
            && |s'.chat| == |s.chat| + 1 + |replies|
            && Texts(s'.chat[|s.chat| + 1..]) == replies
            && forall i :: |s.chat| < i < |s'.chat| ==> s'.chat[i].role == BotCopy
  {
    var s' := Send(s, text, Replied(Some(replies)));
    var tail := s'.chat[|s.chat| + 1..];
    forall i | |s.chat| < i < |s'.chat|
      ensures s'.chat[i].role == BotCopy
    {
      assert s'.chat[i] == tail[i - |s.chat| - 1];
    }
  }

  /** Outside copy mode (or with no replies) exactly one assistant entry is appended. */
  lemma AdviceModeAppendsOne(s: ChatState, text: string, replies: Option<seq<string>>)
    requires Sendable(text) && !(s.copyMode && replies.Some? && |replies.value| > 0)
    ensures var s' := Send(s, text, Replied(replies));
            && |s'.chat| == |s.chat| + 2
            && s'.chat[|s.chat| + 1].role == Bot
  {
    var s' := Send(s, text, Replied(replies));
    assert s'.chat[|s.chat| + 1..] == AnswerEntries(s.copyMode, replies);
  }

  /** A lost answer leaves the user's entry unanswered at the end of the log, and the next
      message's history still carries it. */
  lemma LostAnswerLeavesQuestion(s: ChatState, text: string, next: string)
    requires Sendable(text) && Sendable(next)
    ensures var s' := Send(s, text, Lost);
            && s'.chat == s.chat + [Entry(User, text)]
            && History(s', next) == Some(Texts(s.chat) + [text, next])
  {
    var s' := Send(s, text, Lost);
    assert s'.chat == s.chat + [Entry(User, text)];
    assert Texts(s'.chat) == Texts(s.chat) + [text];
    assert Texts(s.chat) + [text] + [next] == Texts(s.chat) + [text, next];
  }

  /** A sendable message always reaches the completion service: the request is never empty
      and holds only strings. In copy mode the reply template is used. */
  lemma SendReachesCompletion(s: ChatState, text: string, completion: RizzRoute.Completion)
    requires Sendable(text)
    ensures var req := SendRequest(s, text);
            && RizzRoute.NoFaulty(req.messages.value)
            && RizzRoute.Handle(req, completion).prompt.Some?
            && (s.copyMode ==> RizzRoute.Handle(req, completion).prompt.value.system == RizzRoute.ReplyTemplate)
  {
    var req := SendRequest(s, text);
    var ms := req.messages.value;
    assert RizzRoute.NoFaulty(ms) by {
      forall i | 0 <= i < |ms|
        ensures !ms[i].Faulty?
      {
        assert ms[i] == RizzRoute.Plain(History(s, text).value[i]);
      }
    }
    RizzRoute.ReachesCompletion(req, completion);
  }
}
