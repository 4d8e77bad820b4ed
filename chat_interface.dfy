/** The conversation page: the message list, the input box, the mock
    grammar detector run on every sent message, the simulated tutor reply
    and the feedback dialog's hand-off. */
module ChatInterface {
  import opened Wrappers
  import opened Js
  import opened ChatMessage
  import opened FeedbackModal

  // ------------------------------------------------------ grammar detector

  const IAre: string := "I are"
  const GoodIn: string := "good in"
  const IAreExplanation: string :=
    "Use \"I am\" instead of \"I are\" - \"am\" is the correct form of \"be\" with \"I\"."
  const GoodInExplanation: string := "Use \"good at\" when talking about skills or abilities."

  /** The error reported for the first occurrence of `pattern`. */
  function Report(text: string, pattern: string, correction: string, explanation: string): GrammarError {
    var i := IndexOf(text, pattern);
    GrammarError(pattern, correction, explanation, i, i + |pattern|)
  }

  /** `detectGrammarErrors`: "I are" is checked first, "good in" second,
      each reported once, at its first occurrence. */
  function DetectGrammarErrors(text: string): (r: seq<GrammarError>)
    ensures |r| == (if Includes(text, IAre) then 1 else 0) + (if Includes(text, GoodIn) then 1 else 0)
    ensures forall k :: 0 <= k < |r| ==>
      && (r[k].text == IAre || r[k].text == GoodIn)
      && FirstOccurrence(text, r[k].text, r[k].start)
      && r[k].end == r[k].start + |r[k].text|
    ensures forall k :: 0 <= k < |r| && r[k].text == IAre ==>
      r[k].correction == "I am" && r[k].explanation == IAreExplanation
    ensures forall k :: 0 <= k < |r| && r[k].text == GoodIn ==>
      r[k].correction == "good at" && r[k].explanation == GoodInExplanation
    ensures |r| == 2 ==> r[0].text == IAre && r[1].text == GoodIn
  {
    var first := if Includes(text, IAre) then [Report(text, IAre, "I am", IAreExplanation)] else [];
    var second := if Includes(text, GoodIn) then [Report(text, GoodIn, "good at", GoodInExplanation)] else [];
    first + second
  }

  /** A detected error lies inside the text and covers its pattern. */
  lemma DetectedCoversPattern(text: string, e: GrammarError)
    requires e in DetectGrammarErrors(text)
    ensures 0 <= e.start < e.end <= |text| && text[e.start..e.end] == e.text
  {
  }

  /** The two patterns cannot overlap: "good in" holds no capital `I`, and
      "I are" holds no `g`. */
  lemma PatternsApart(text: string, i: int, j: int)
    requires OccursAt(text, IAre, i) && OccursAt(text, GoodIn, j)
    ensures i + |IAre| <= j || j + |GoodIn| <= i
  {
    assert forall p | i <= p < i + |IAre| :: text[p] == text[i..i + |IAre|][p - i];
    assert forall q | 0 <= q < |IAre| :: IAre[q] != 'g';
    assert text[j] == text[j..j + |GoodIn|][0] == 'g';
    assert forall p | j <= p < j + |GoodIn| :: text[p] == text[j..j + |GoodIn|][p - j];
    assert forall q | 0 <= q < |GoodIn| :: GoodIn[q] != 'I';
    assert text[i] == text[i..i + |IAre|][0] == 'I';
  }

  /** What the detector reports is placed inside the text and free of
      overlaps, whatever the text. */
  lemma DetectedPlacedDisjoint(text: string)
    ensures Placed(DetectGrammarErrors(text), |text|)
    ensures Disjoint(DetectGrammarErrors(text))
  {
    var r := DetectGrammarErrors(text);
    if |r| == 2 {
      PatternsApart(text, r[0].start, r[1].start);
    }
  }

  const OutOfOrderText: string := "good in I are"

  lemma DetectedOnOutOfOrderText()
    ensures DetectGrammarErrors(OutOfOrderText) == [
      GrammarError(IAre, "I am", IAreExplanation, 8, 13),
      GrammarError(GoodIn, "good at", GoodInExplanation, 0, 7)]
  {
    var text := OutOfOrderText;
    assert text[8..13] == IAre;
    assert OccursAt(text, IAre, 8);
    forall k | 0 <= k < 8
      ensures !OccursAt(text, IAre, k)
    {
      assert text[k] != 'I';
      assert k + |IAre| <= |text| ==> text[k..k + |IAre|][0] == text[k];
    }
    assert IndexOf(text, IAre) == 8;
    assert text[0..7] == GoodIn;
    assert OccursAt(text, GoodIn, 0);
    assert IndexOf(text, GoodIn) == 0;
  }

  /** Once "I are" at 8 is wrapped, whatever its explanation, the shifted
      position of "good in" at 0 falls on the end of the opening tag. */
  lemma WrapShiftsOntoMarkup(a: GrammarError, b: GrammarError)
    requires a.start == 8 && a.end == 13 && b.start == 0 && b.end == 7
    ensures ErrorText(Run(OutOfOrderText, [a]), b) == ">I are<"
  {
    var text := OutOfOrderText;
    var open := Open(a.explanation);
    assert [a][..0] == [];
    var st := Step(Render(text, 0), a);
    assert Run(text, [a]) == st;
    assert st.content == "good in " + (open + "I are" + Close) by {
      assert text[..8] == "good in " && text[8..13] == "I are" && text[13..] == [];
      StepInBounds(Render(text, 0), a, "good in ", "I are", []);
    }
    assert st.offset == |open| + 7;
    TagEndSlice(open);
  }

  /** Seven characters from the last one of an opening tag that ends in
      `>`, in the content that tag produced. */
  lemma TagEndSlice(open: string)
    requires |open| > 0 && open[|open| - 1] == '>'
    ensures ("good in " + (open + "I are" + Close))[|open| + 7..|open| + 14] == ">I are<"
  {
    var n, c := |open|, "good in " + (open + "I are" + Close);
    var w := c[n + 7..n + 14];
    assert w[0] == c[n + 7] == open[n - 1];
    assert forall i | 1 <= i < 6 :: w[i] == c[n + 7 + i] == "I are"[i - 1];
    assert w[6] == c[n + 13] == Close[0];
  }

  /** The detector's list is in the order of the checks, not of the text:
      in "good in I are" the later error comes first, and the offset of its
      highlight then shifts the second highlight onto the markup, so that
      it wraps `>I are<` and "good in" stays unmarked. */
  lemma DetectedOutOfOrderMisplacesHighlight()
    ensures var errs := DetectGrammarErrors(OutOfOrderText);
      && |errs| == 2 && errs[0].text == IAre && errs[1].text == GoodIn
      && errs[0].start == 8 && errs[1].start == 0
      && WrappedText(OutOfOrderText, errs, 1) == ">I are<"
  {
    DetectedOnOutOfOrderText();
    var errs := DetectGrammarErrors(OutOfOrderText);
    assert errs[..1] == [errs[0]];
    WrapShiftsOntoMarkup(errs[0], errs[1]);
  }

  /** With the errors sorted by start before the highlights are spliced in,
      every detected error is wrapped at its own pattern, in any text. */
  lemma SortedRenderingWrapsEachPattern(text: string, k: nat)
    requires k < |DetectGrammarErrors(text)|
    ensures var s := SortByStart(DetectGrammarErrors(text));
      k < |s| && WrappedText(text, s, k) == s[k].text
  {
    var errs := DetectGrammarErrors(text);
    DetectedPlacedDisjoint(text);
    SortByStartPerm(errs);
    SortedWrapsEverySlice(text, errs, k);
    var s := SortByStart(errs);
    assert s[k] in multiset(errs);
    DetectedCoversPattern(text, s[k]);
  }

  // ------------------------------------------------------------- messages

  datatype MessageType = UserMessage | AiMessage

  /** The `comment` stored with a rating: the mock message holds a string,
      the dialog hands over its comment and reasons together. */
  datatype FeedbackComment = Text(text: string) | Details(comment: string, reasons: seq<Reason>)

  datatype MessageFeedback = MessageFeedback(rating: Rating, comment: FeedbackComment)

  /** A message; its `id` is a clock reading in milliseconds and its
      timestamp is not modelled. */
  datatype Message = Message(
    id: nat,
    kind: MessageType,
    content: string,
    grammarErrors: Option<seq<GrammarError>>,
    hasAudio: bool,
    feedback: Option<MessageFeedback>)

  /** The message `handleSendMessage` appends. */
  function UserMessageOf(id: nat, text: string): (m: Message)
    ensures m.kind == UserMessage && m.content == text && m.id == id
    ensures m.grammarErrors.Some? && m.grammarErrors.value == DetectGrammarErrors(text)
    ensures m.feedback.None?
  {
    Message(id, UserMessage, text, Some(DetectGrammarErrors(text)), false, None)
  }

  const Responses: seq<string> := [
    "That's interesting! Can you tell me more about that? I'd love to hear your thoughts on this topic.",
    "Great point! Your English is improving. Let me help you with a small grammar tip to make it even better.",
    "I understand what you're saying. Here's a suggestion to make your sentence sound more natural...",
    "Excellent! You're expressing yourself very well. Keep practicing - you're doing great!"
  ]

  /** `generateAIResponse`: one of the canned replies, chosen by `choice`
      (the random draw), with the id one past the clock reading. */
  function AiResponse(now: nat, choice: nat): (m: Message)
    requires choice < |Responses|
    ensures m.kind == AiMessage && m.id == now + 1 && m.hasAudio
    ensures m.content in Responses && m.grammarErrors.None? && m.feedback.None?
  {
    Message(now + 1, AiMessage, Responses[choice], None, true, None)
  }

  /** `prev.map(...)` in `handleFeedback`. */
  function WithFeedback(ms: seq<Message>, id: nat, f: MessageFeedback): (r: seq<Message>)
    ensures |r| == |ms|
    ensures forall k :: 0 <= k < |ms| && ms[k].id == id ==> r[k] == ms[k].(feedback := Some(f))
    ensures forall k :: 0 <= k < |ms| && ms[k].id != id ==> r[k] == ms[k]
  {
    if ms == [] then []
    else [if ms[0].id == id then ms[0].(feedback := Some(f)) else ms[0]] + WithFeedback(ms[1..], id, f)
  }

  /** A second rating of the same message replaces the first. */
  lemma WithFeedbackLastWins(ms: seq<Message>, id: nat, f: MessageFeedback, g: MessageFeedback)
    ensures WithFeedback(WithFeedback(ms, id, f), id, g) == WithFeedback(ms, id, g)
  {
    var once, twice := WithFeedback(ms, id, g), WithFeedback(WithFeedback(ms, id, f), id, g);
    assert forall k :: 0 <= k < |ms| ==> twice[k] == once[k];
  }

  /** What the dialog submits is what lands on the message: its rating,
      and its trimmed comment with its reasons as the stored comment. */
  lemma SubmittedFeedbackLands(s: State, ms: seq<Message>, id: nat, k: nat)
    requires s.rating.Some? && k < |ms| && ms[k].id == id
    ensures var f := Submit(s, id).value;
      WithFeedback(ms, id, MessageFeedback(f.rating, Details(f.comment, f.reasons)))[k].feedback
        == Some(MessageFeedback(s.rating.value, Details(Trim(s.comment), s.selectedReasons)))
  {
  }

  // ------------------------------------------------------------ mock data

  const WelcomeContent: string :=
    "Hello! I'm your AI English tutor. I'm here to help you practice English conversation and improve your grammar. What would you like to talk about today?"
  /** The second mock message, written as the pieces around "enjoys" and
      around the "ading " of "reading". */
  const HobbiesContent: string :=
    "Hi! I want to practice talking about my hobbies. I really " + "enjoys" + " re" + "ading "
      + "books and playing guitar."
  const ReplyContent: string :=
    "That's wonderful! Reading and playing guitar are fantastic hobbies. I noticed a small grammar point - you should say \"I really enjoy\" instead of \"I really enjoys.\" Can you tell me what kind of books you like to read?"
  const EnjoysExplanation: string :=
    "Use \"enjoy\" instead of \"enjoys\" because the subject \"I\" requires the base form of the verb."

  /** The error recorded on the second mock message, at the position it is
      written with. */
  const EnjoysAsWritten: GrammarError := GrammarError("enjoys", "enjoy", EnjoysExplanation, 67, 73)

  /** The same error at the position of "enjoys" in that message. */
  const EnjoysCorrected: GrammarError := GrammarError("enjoys", "enjoy", EnjoysExplanation, 58, 64)

  /** The three mock messages, with the given error on the second. */
  function MockMessagesWith(enjoys: GrammarError): (ms: seq<Message>)
    ensures |ms| == 3 && ms[0].id == 1 && ms[1].id == 2 && ms[2].id == 3
    ensures ms[1].grammarErrors == Some([enjoys]) && ms[1].content == HobbiesContent
  {
    [ Message(1, AiMessage, WelcomeContent, None, true, None),
      Message(2, UserMessage, HobbiesContent, Some([enjoys]), false, None),
      Message(3, AiMessage, ReplyContent, None, true,
              Some(MessageFeedback(Up, Text("Very helpful correction!")))) ]
  }

  /** The second and fourth of five joined pieces sit at the offsets the
      pieces before them add up to. */
  lemma JoinedPieces(a: string, b: string, c: string, d: string, e: string)
    ensures (a + b + c + d + e)[|a|..|a| + |b|] == b
    ensures (a + b + c + d + e)[|a| + |b| + |c|..|a| + |b| + |c| + |d|] == d
  {
  }

  lemma HobbiesContentParts()
    ensures HobbiesContent[58..64] == "enjoys" && HobbiesContent[67..73] == "ading "
  {
    var before := "Hi! I want to practice talking about my hobbies. I really ";
    assert |before| == 58;
    JoinedPieces(before, "enjoys", " re", "ading ", "books and playing guitar.");
  }

  /** The recorded position of "enjoys" is nine characters too far right:
      the highlight wraps "ading " of "reading" instead. */
  lemma MockErrorAsWrittenMissesWord()
    ensures HobbiesContent[58..64] == "enjoys"
    ensures WrappedText(HobbiesContent, [EnjoysAsWritten], 0) == "ading "
  {
    HobbiesContentParts();
    assert [EnjoysAsWritten][..0] == [];
  }

  /** At the corrected position the highlight wraps the word it explains,
      and the rest of the message is kept. */
  lemma MockErrorCorrectedWrapsWord()
    ensures WrappedText(HobbiesContent, [EnjoysCorrected], 0) == EnjoysCorrected.text
    ensures Run(HobbiesContent, [EnjoysCorrected]).content
      == HobbiesContent[..58] + Replacement(EnjoysExplanation, "enjoys") + HobbiesContent[64..]
  {
    var errs := [EnjoysCorrected];
    HobbiesContentParts();
    assert errs[..0] == [];
    assert Run(HobbiesContent, errs) == Step(Render(HobbiesContent, 0), EnjoysCorrected);
    var c := HobbiesContent;
    StepInBounds(Render(c, 0), EnjoysCorrected, c[..58], c[58..64], c[64..]);
  }

  /** The mock conversation the page starts from, with the corrected
      position. */
  function MockMessages(): (ms: seq<Message>)
    ensures |ms| == 3
    ensures ms[1].grammarErrors == Some([EnjoysCorrected])
  {
    MockMessagesWith(EnjoysCorrected)
  }

  // ------------------------------------------------------------ the page

  const QuickActions: seq<string> := [
    "Can you help me practice pronunciation?",
    "I want to learn new vocabulary words.",
    "Can you check my grammar?"
  ]

  class Chat {
    var messages: seq<Message>
    var inputText: string
    var isTyping: bool
    var showFeedback: bool
    var selectedMessageId: Option<nat>

    constructor ()
      ensures messages == [] && inputText == "" && !isTyping
      ensures !showFeedback && selectedMessageId == None
    {
      messages, inputText, isTyping := [], "", false;
      showFeedback, selectedMessageId := false, None;
    }

    /** The mount effect that loads the mock conversation. */
    method LoadMockMessages()
      modifies this
      ensures messages == MockMessages()
      ensures inputText == old(inputText) && isTyping == old(isTyping)
      ensures showFeedback == old(showFeedback) && selectedMessageId == old(selectedMessageId)
    {
      messages := MockMessages();
    }

    /** Typing, a voice transcript or a quick-action button. */
    method SetInputText(text: string)
      modifies this
      ensures inputText == text
      ensures messages == old(messages) && isTyping == old(isTyping)
      ensures showFeedback == old(showFeedback) && selectedMessageId == old(selectedMessageId)
    {
      inputText := text;
    }

    method QuickAction(k: nat)
      requires k < |QuickActions|
      modifies this
      ensures inputText == QuickActions[k]
      ensures messages == old(messages) && isTyping == old(isTyping)
      ensures showFeedback == old(showFeedback) && selectedMessageId == old(selectedMessageId)
    {
      SetInputText(QuickActions[k]);
    }

    /** `handleSendMessage` up to the timer: blank input is ignored;
        otherwise the input becomes one user message stamped `now`,
        the box is cleared and the tutor starts typing. */
    method HandleSendMessage(now: nat)
      modifies this
      ensures AllSpace(old(inputText)) ==>
        messages == old(messages) && inputText == old(inputText) && isTyping == old(isTyping)
      ensures !AllSpace(old(inputText)) ==>
        messages == old(messages) + [UserMessageOf(now, old(inputText))] && inputText == "" && isTyping
      ensures showFeedback == old(showFeedback) && selectedMessageId == old(selectedMessageId)
    {
      // `!inputText.trim()`: Js.Trim is empty exactly for an all-space text.
      var text := inputText;
      if AllSpace(text) {
        return;
      }
      messages := messages + [UserMessageOf(now, text)];
      inputText := "";
      isTyping := true;
    }

    /** The timer callback: the reply is appended and typing stops. */
    method ReceiveAiResponse(now: nat, choice: nat)
      requires choice < |Responses|
      modifies this
      ensures messages == old(messages) + [AiResponse(now, choice)] && !isTyping
      ensures inputText == old(inputText)
      ensures showFeedback == old(showFeedback) && selectedMessageId == old(selectedMessageId)
    {
      messages := messages + [AiResponse(now, choice)];
      isTyping := false;
    }

    /** `handleKeyPress`: Enter without Shift sends; any other key, or
        Shift+Enter, leaves everything as it is. */
    method HandleKeyPress(key: string, shiftKey: bool, now: nat)
      modifies this
      ensures key == "Enter" && !shiftKey && !AllSpace(old(inputText)) ==>
        messages == old(messages) + [UserMessageOf(now, old(inputText))] && inputText == "" && isTyping
      ensures !(key == "Enter" && !shiftKey) || AllSpace(old(inputText)) ==>
        messages == old(messages) && inputText == old(inputText) && isTyping == old(isTyping)
      ensures showFeedback == old(showFeedback) && selectedMessageId == old(selectedMessageId)
    {
      if key == "Enter" && !shiftKey {
        HandleSendMessage(now);
      }
    }

    /** A message's thumb: the dialog opens for that message; the rating
        pressed is not passed on. */
    method OpenFeedback(id: nat, rating: Rating)
      modifies this
      ensures showFeedback && selectedMessageId == Some(id)
      ensures messages == old(messages) && inputText == old(inputText) && isTyping == old(isTyping)
    {
      selectedMessageId := Some(id);
      showFeedback := true;
    }

    /** The dialog's `onClose`. */
    method CloseFeedback()
      modifies this
      ensures !showFeedback && selectedMessageId == None
      ensures messages == old(messages) && inputText == old(inputText) && isTyping == old(isTyping)
    {
      showFeedback, selectedMessageId := false, None;
    }

    /** `handleFeedback`: every message with that id gets the feedback, the
        others are untouched, and the dialog closes. */
    method HandleFeedback(messageId: nat, rating: Rating, comment: FeedbackComment)
      modifies this
      ensures messages == WithFeedback(old(messages), messageId, MessageFeedback(rating, comment))
      ensures !showFeedback && selectedMessageId == None
      ensures inputText == old(inputText) && isTyping == old(isTyping)
    {
      messages := WithFeedback(messages, messageId, MessageFeedback(rating, comment));
      showFeedback, selectedMessageId := false, None;
    }
  }
}
