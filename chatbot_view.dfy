/**
 * The chat widget (`src/frontend/src/components/Chatbot.tsx`): its message
 * list, the send handler, and the rule that shows a Start Challenge button
 * under an assistant message. The widget looks for tags case-insensitively,
 * with a colon or a space after the word, in the message text it shows; the
 * request to the endpoint is collapsed into its outcome, a parameter.
 */
module ChatbotView {
  import opened Wrappers
  import opened Text
  import opened ChatbotApi

  // ---------------------------------------------------------------- tag extraction

  /** ASCII case folding, which is what a non-unicode `/i` regular expression applies to ASCII letters. */
  function AsciiLower(c: char): char
  {
    if 'A' <= c <= 'Z' then (c as int + 32) as char else c
  }

  /** `s` matches the lower-case word `w` ignoring ASCII case. */
  predicate FoldsTo(s: string, w: string)
  {
    |s| == |w| && forall i :: 0 <= i < |s| ==> AsciiLower(s[i]) == w[i]
  }

  /** The ID of a match of `/\[challenge[: ]([^\]]+)\]/i` at the front of `s`, if there is one. */
  function FrontTagAt(s: string): (r: Option<string>)
    ensures r.Some? ==> r.value != [] && ']' !in r.value && 12 + |r.value| <= |s|
  {
    if |s| < 11 || s[0] != '[' || !FoldsTo(s[1..10], "challenge") || (s[10] != ':' && s[10] != ' ') then None
    else
      match IndexOf(s[11..], ']')
      case None => None
      case Some(k) => if k == 0 then None else Some(s[11..][..k])
  }

  /** `extractChallengeIds`: the IDs of every non-overlapping match, in order. */
  function ExtractChallengeIds(s: string): (r: seq<string>)
    ensures forall i :: 0 <= i < |r| ==> r[i] != [] && ']' !in r[i]
    decreases |s|
  {
    if s == [] then []
    else
      match FrontTagAt(s)
      case Some(id) => [id] + ExtractChallengeIds(s[12 + |id|..])
      case None => ExtractChallengeIds(s[1..])
  }

  /** Text without `[` yields no IDs. */
  lemma {:induction false} NoBracketNoIds(s: string)
    requires '[' !in s
    ensures ExtractChallengeIds(s) == []
    decreases |s|
  {
    if s != [] {
      assert FrontTagAt(s).None?;
      NoBracketNoIds(s[1..]);
    }
  }

  lemma FrontTagAtTag(word: string, mark: char, id: string, after: string)
    requires FoldsTo(word, "challenge") && (mark == ':' || mark == ' ')
    requires id != [] && ']' !in id
    ensures FrontTagAt("[" + word + [mark] + id + "]" + after) == Some(id)
  {
    var s := "[" + word + [mark] + id + "]" + after;
    assert s[1..10] == word;
    var rest := s[11..];
    assert rest == id + "]" + after;
    var k := IndexOf(rest, ']');
    assert rest[|id|] == ']';
    assert k.value == |id|;
    assert rest[..|id|] == id;
  }

  /**
   * Either spelling of the tag, `[challenge:ID]` or `[challenge ID]`, in any
   * ASCII case, after plain text, yields its ID first.
   */
  lemma {:induction false} FrontFindsTag(before: string, word: string, mark: char, id: string, after: string)
    requires '[' !in before && FoldsTo(word, "challenge") && (mark == ':' || mark == ' ')
    requires id != [] && ']' !in id
    ensures ExtractChallengeIds(before + ("[" + word + [mark] + id + "]" + after)) == [id] + ExtractChallengeIds(after)
    decreases |before|
  {
    var t := "[" + word + [mark] + id + "]" + after;
    if before == [] {
      assert before + t == t;
      FrontTagAtTag(word, mark, id, after);
      assert t[12 + |id|..] == after;
    } else {
      var s := before + t;
      assert s[0] == before[0];
      assert FrontTagAt(s).None?;
      assert s[1..] == before[1..] + t;
      FrontFindsTag(before[1..], word, mark, id, after);
    }
  }

  // ---------------------------------------------------------------- messages

  datatype Role = UserRole | AssistantRole

  datatype Message = Message(role: Role, content: string, challengeIds: Option<seq<string>>)

  const Welcome := Message(AssistantRole, "Hi! How can I help today?", None)
  const GenericError := "Sorry, I encountered an error. Please try again."
  const Unavailable := "The AI service is currently unavailable. Please try again later."

  /** How the request for one message ended. */
  datatype Reply =
    | Answer(response: string, ids: seq<string>)   // 2xx: the endpoint's `response` and `challengeIds`
    | ErrorStatus(status: int)                     // a non-2xx status whose error body was read
    | Thrown(message: string)                      // any other Error, with its message
    | ThrownOther                                  // a thrown value that is not an Error

  /** The one assistant message a send appends. */
  function ReplyMessage(r: Reply): (m: Message)
    ensures m.role == AssistantRole
    ensures r.Answer? ==> m.content == r.response && m.challengeIds == Some(r.ids)
    ensures r.ErrorStatus? ==> m.content == (if r.status == 503 then Unavailable else GenericError)
    ensures r.Thrown? ==> m.content == r.message
    ensures r.ThrownOther? ==> m.content == GenericError
    ensures !r.Answer? ==> m.challengeIds.None?
  {
    match r
    case Answer(response, ids) => Message(AssistantRole, response, Some(ids))
    case ErrorStatus(status) => Message(AssistantRole, if status == 503 then Unavailable else GenericError, None)
    case Thrown(message) => Message(AssistantRole, message, None)
    case ThrownOther => Message(AssistantRole, GenericError, None)
  }

  /** The widget's state: the message list, the input box and the in-flight flag. */
  class Chatbot {
    var messages: seq<Message>
    var input: string
    var isLoading: bool

    /** The list starts with exactly one assistant welcome message. */
    predicate StartsWithWelcome()
      reads this
    {
      |messages| >= 1 && messages[0] == Welcome
    }

    constructor()
      ensures messages == [Welcome] && input == [] && !isLoading
      ensures StartsWithWelcome()
    {
      messages := [Welcome];
      input := [];
      isLoading := false;
    }

    method SetInput(text: string)
      modifies this
      ensures input == text && messages == old(messages) && isLoading == old(isLoading)
    {
      input := text;
    }

    /**
     * `handleSendMessage`: nothing happens for blank input or while a request
     * is in flight; otherwise the trimmed text is appended as a user message,
     * the input is cleared, and the reply's one assistant message follows.
     */
    method HandleSendMessage(reply: Reply)
      modifies this
      ensures JsTrim(old(input)) == [] || old(isLoading) ==>
        messages == old(messages) && input == old(input) && isLoading == old(isLoading)
      ensures JsTrim(old(input)) != [] && !old(isLoading) ==>
        messages == old(messages) + [Message(UserRole, JsTrim(old(input)), None), ReplyMessage(reply)]
        && input == [] && !isLoading
      ensures old(StartsWithWelcome()) ==> StartsWithWelcome()
    {
      var text := JsTrim(input);
      if text == [] || isLoading {
        return;
      }
      input := [];
      messages := messages + [Message(UserRole, text, None)];
      isLoading := true;
      messages := messages + [ReplyMessage(reply)];
      isLoading := false;
    }
  }

  // ---------------------------------------------------------------- Start Challenge button

  /** `renderMessage`: the button shows on assistant messages whose text has a tag, and opens the first. */
  function StartTarget(m: Message): (r: Option<string>)
    ensures r.Some? <==> m.role == AssistantRole && ExtractChallengeIds(m.content) != []
    ensures r.Some? ==> r.value == ExtractChallengeIds(m.content)[0]
  {
    var ids := ExtractChallengeIds(m.content);
    if m.role == AssistantRole && |ids| > 0 then Some(ids[0]) else None
  }

  /**
   * As written, the button is looked for in text the endpoint has already
   * rewritten: for the reply `[challenge:7]` the endpoint reports the ID 7,
   * yet the message it produces shows no button.
   */
  lemma RewrittenReplyLosesButton()
    ensures ApiResponse("[challenge:7]").1 == ["7"]
    ensures StartTarget(ReplyMessage(Answer(ApiResponse("[challenge:7]").0, ApiResponse("[challenge:7]").1))).None?
  {
    TagInPlainTextReplaced([], "7", []);
    TagInPlainTextExtracted([], "7", []);
    assert [] + (TagOpen + "7" + "]" + []) == "[challenge:7]";
    assert ReplaceTags([]) == [] && ExtractTags([]) == [];
    var content := LinkBase + "7";
    assert [] + (LinkBase + "7" + ReplaceTags([])) == content;
    NoBracketNoIds(content);
  }

  /** The button rule reading the IDs the endpoint sent with the message, which the widget already stores. */
  function StartTargetFromIds(m: Message): (r: Option<string>)
    ensures r.Some? <==> m.role == AssistantRole && m.challengeIds.Some? && m.challengeIds.value != []
  {
    if m.role == AssistantRole && m.challengeIds.Some? && |m.challengeIds.value| > 0
    then Some(m.challengeIds.value[0]) else None
  }

  /** With the stored IDs, a reply with a tag shows the button, and it opens the reply's first tag. */
  lemma StartFromIdsOpensFirstTag(reply: string)
    requires ExtractTags(reply) != []
    ensures var (content, ids) := ApiResponse(reply);
      StartTargetFromIds(ReplyMessage(Answer(content, ids))) == Some(ExtractTags(reply)[0])
  {
  }
}
