/** The chat window's send action: a non-blank question is appended to the
    transcript and sent along with the whole conversation; the streamed answer
    then fills one assistant entry after it. */
module ChatBot {
  import opened Options
  import opened Seqs
  import opened Strings
  import opened ChatStream

  /** The chat window: its transcript and the text in the input box. */
  datatype Chat = Chat(messages: seq<Message>, input: string)

  /** What pressing send does before the network is involved: the window
      afterwards, and the transcript posted as the request body (None when
      nothing is sent). */
  datatype Submission = Submission(chat: Chat, request: Option<seq<Message>>)

  /** A text that trims to nothing. */
  predicate Blank(text: string) {
    Trim(text) == ""
  }

  /** The question asked: a suggested question's text when one was clicked,
      the input box otherwise. */
  function Question(c: Chat, arg: Option<string>): string {
    arg.GetOr(c.input)
  }

  /** Pressing send, or clicking a suggested question `arg`. A question made
      only of white space sends nothing and changes nothing; any other is
      appended as the user's entry, the input box is cleared, and the new
      transcript is what is posted. */
  function Submit(c: Chat, arg: Option<string>): (r: Submission)
    ensures var text := Question(c, arg);
            (forall i :: 0 <= i < |text| ==> IsSpace(text[i])) ==> r == Submission(c, None)
    ensures var text := Question(c, arg);
            (exists i :: 0 <= i < |text| && !IsSpace(text[i])) ==>
              && r.chat.messages == c.messages + [Message(User, text)]
              && r.chat.input == ""
              && r.request == Some(r.chat.messages)
  {
    var text := Question(c, arg);
    if Blank(text) then Submission(c, None)
    else
      var ms := c.messages + [Message(User, text)];
      Submission(Chat(ms, ""), Some(ms))
  }

  /** Sending from the input box clears it, so pressing send again at once
      sends nothing. */
  lemma SendTwice(c: Chat)
    ensures Submit(Submit(c, None).chat, None).request.None?
  {
    var s := Submit(c, None);
    if s.request.Some? {
      assert Question(s.chat, None) == "";
    }
  }

  /** The whole exchange. `response` is None when the request throws before
      the reply is read (the network fails, or the response has no body);
      otherwise it lists the decoded chunks read before the stream ended or
      failed. An empty assistant entry is added when reading starts, and
      every token updates it. */
  function Converse(c: Chat, arg: Option<string>, response: Option<seq<string>>, parse: Parser): (r: Chat)
    ensures var text := Question(c, arg);
            && (Blank(text) ==> r == c)
            && (!Blank(text) ==>
                  && r.input == ""
                  && |r.messages| == |c.messages| + (if response.Some? then 2 else 1)
                  && r.messages[..|c.messages| + 1] == c.messages + [Message(User, text)])
            && (!Blank(text) && response.Some? ==>
                  r.messages[|c.messages| + 1]
                     == Message(Assistant, Limit(Flatten(StreamTokens(response.value, parse)))))
  {
    var s := Submit(c, arg);
    if s.request.None? then c
    else match response
      case None => s.chat
      case Some(chunks) =>
        var done := Answer(s.chat.messages, chunks, parse);
        s.chat.(messages := done)
  }

  /** The transcript after streaming `chunks` into a fresh assistant entry
      placed after `ms`. */
  function Answer(ms: seq<Message>, chunks: seq<string>, parse: Parser): (r: seq<Message>)
    ensures |r| == |ms| + 1
    ensures r[..|ms|] == ms
    ensures r[|ms|] == Message(Assistant, Limit(Flatten(StreamTokens(chunks, parse))))
  {
    var begun := Reply("", ms + [Message(Assistant, "")]);
    EmptyShown(begun);
    var done := ProcessStream(begun, chunks, parse);
    assert done.messages[..|ms|] == begun.messages[..|ms|];
    assert done.partial == Flatten(StreamTokens(chunks, parse));
    done.messages
  }

  /** A fresh assistant entry shows the empty reply. */
  lemma EmptyShown(st: Reply)
    requires st.partial == "" && |st.messages| > 0
    requires st.messages[|st.messages| - 1] == Message(Assistant, "")
    ensures Shown(st)
  {
    LimitEmpty();
  }

  /** The empty reply is displayed as the empty text. */
  lemma LimitEmpty()
    ensures Limit("") == ""
  {
    SplitNoSeparator("", '\n');
    assert Take([""], MaxLines) == [""];
  }

  /** What the assistant's entry shows is the start of the concatenated
      tokens, at most five lines of it. */
  lemma ConverseShowsStart(c: Chat, arg: Option<string>, chunks: seq<string>, parse: Parser)
    requires !Blank(Question(c, arg))
    ensures var r := Converse(c, arg, Some(chunks), parse);
            var shown := r.messages[|r.messages| - 1].content;
            && shown <= Flatten(StreamTokens(chunks, parse))
            && |Split(shown, '\n')| <= MaxLines
  {
  }

  /** A stream that yields no token (only the sentinel, or nothing that
      parses) leaves the assistant's entry empty. */
  lemma SilentStreamEmptyEntry(ms: seq<Message>, chunks: seq<string>, parse: Parser)
    requires StreamTokens(chunks, parse) == []
    ensures Answer(ms, chunks, parse) == ms + [Message(Assistant, "")]
  {
    var r := Answer(ms, chunks, parse);
    var ts := StreamTokens(chunks, parse);
    assert Flatten(ts) == "";
    LimitEmpty();
    SnocShape(r, ms, Message(Assistant, ""));
  }

  lemma SnocShape<T>(r: seq<T>, ms: seq<T>, x: T)
    requires |r| == |ms| + 1 && r[..|ms|] == ms && r[|ms|] == x
    ensures r == ms + [x]
  {
    assert r == r[..|ms|] + [r[|ms|]];
  }
}
