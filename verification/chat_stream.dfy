/** The assistant's streamed reply: each decoded chunk is split into lines,
    only `data:` lines are kept, the `[DONE]` sentinel is skipped, every other
    line is parsed into a token appended to the running reply, and the
    transcript's last entry shows the reply's first five lines. */
module ChatStream {
  import opened Options
  import opened Seqs
  import opened Strings

  datatype Role = User | Assistant
  datatype Message = Message(role: Role, content: string)

  /** The reply so far and the transcript it is shown in. */
  datatype Reply = Reply(partial: string, messages: seq<Message>)

  /** JSON.parse of an event's payload followed by the lookup of
      `choices[0].delta.content`, an absent or empty content read as "";
      None stands for a payload the parse throws on. */
  type Parser = string -> Option<string>

  const MaxLines: nat := 5
  const DataPrefix := "data:"
  const DataMarker := "data: "
  const DoneLine := "data: [DONE]"

  /** The reply as displayed: its first `MaxLines` newline-separated lines,
      which are a prefix of the reply. */
  function Limit(s: string): (r: string)
    ensures r <= s
    ensures Split(r, '\n') == Take(Split(s, '\n'), MaxLines)
    ensures |Split(r, '\n')| <= MaxLines
  {
    TakeLines(s);
    Join(Take(Split(s, '\n'), MaxLines), '\n')
  }

  function Take<T>(xs: seq<T>, n: nat): (r: seq<T>)
    ensures |r| == if |xs| <= n then |xs| else n
    ensures r <= xs
  {
    if |xs| <= n then xs else xs[..n]
  }

  /** Joining the first lines of a text gives a prefix of it that splits
      back into exactly those lines. */
  lemma TakeLines(s: string)
    ensures var kept := Take(Split(s, '\n'), MaxLines);
            && Join(kept, '\n') <= s
            && Split(Join(kept, '\n'), '\n') == kept
  {
    var lines := Split(s, '\n');
    var kept := Take(lines, MaxLines);
    JoinSplit(s, '\n');
    if |lines| > MaxLines {
      JoinPrefix(lines, MaxLines, '\n');
    }
    assert forall i :: 0 <= i < |kept| ==> kept[i] == lines[i];
    SplitJoin(kept, '\n');
  }

  /** A reply of at most `MaxLines` lines is displayed whole. */
  lemma LimitKeepsShort(s: string)
    requires |Split(s, '\n')| <= MaxLines
    ensures Limit(s) == s
  {
    JoinSplit(s, '\n');
  }

  // ------------------------------------------------------------ one line

  /** The line filter: its trimmed form starts with `data:`. */
  predicate IsDataLine(line: string) {
    StartsWith(Trim(line), DataPrefix)
  }

  /** The data lines of a chunk: exactly its lines that pass the filter;
      DataLinesKeepsOrder fixes their order. */
  function DataLines(lines: seq<string>): (r: seq<string>)
    ensures forall i :: 0 <= i < |r| ==> IsDataLine(r[i])
    ensures forall i :: 0 <= i < |lines| && IsDataLine(lines[i]) ==> lines[i] in r
  {
    Filter(lines, IsDataLine)
  }

  /** The filter keeps a single line exactly when it is a data line, and
      distributes over concatenation; together these fix the order and the
      number of copies of every kept line. */
  lemma DataLinesKeepsOrder(a: seq<string>, line: string, b: seq<string>)
    ensures DataLines([line]) == if IsDataLine(line) then [line] else []
    ensures DataLines(a + b) == DataLines(a) + DataLines(b)
  {
    FilterAppend(a, b, IsDataLine);
  }

  /** The token a data line yields: none for the sentinel, whose trimmed form
      is exactly `data: [DONE]`; otherwise what the parser makes of the line
      with its first `data: ` removed. A line that starts with `data: ` hands
      the parser what follows the marker; a line without the marker anywhere
      (`data:` with no space) is handed over whole. */
  function LineToken(line: string, parse: Parser): (r: Option<string>)
    ensures Trim(line) == DoneLine ==> r.None?
    ensures Trim(line) != DoneLine && StartsWith(line, DataMarker) ==> r == parse(line[|DataMarker|..])
    ensures Trim(line) != DoneLine && IndexOf(line, DataMarker).None? ==> r == parse(line)
  {
    if Trim(line) == DoneLine then None
    else
      LeadingMarker(line);
      parse(ReplaceFirst(line, DataMarker, ""))
  }

  lemma LeadingMarker(line: string)
    ensures StartsWith(line, DataMarker) ==> ReplaceFirst(line, DataMarker, "") == line[|DataMarker|..]
  {
    if StartsWith(line, DataMarker) {
      assert line == DataMarker + line[|DataMarker|..];
      ReplaceLeadingPattern(DataMarker, line[|DataMarker|..]);
    }
  }

  /** The transcript with its last entry replaced by `m`. An empty
      transcript gains no entry: assigning at index -1 adds no element. */
  function ReplaceLast(ms: seq<Message>, m: Message): (r: seq<Message>)
    ensures |r| == |ms|
    ensures |ms| > 0 ==> r[..|ms| - 1] == ms[..|ms| - 1] && r[|ms| - 1] == m
  {
    if |ms| == 0 then ms else ms[..|ms| - 1] + [m]
  }

  /** One data line: a token is appended to the reply and the display is
      refreshed; a sentinel or a line that fails to parse changes nothing. */
  function Accept(st: Reply, line: string, parse: Parser): (r: Reply)
    ensures LineToken(line, parse).None? ==> r == st
    ensures LineToken(line, parse).Some? ==>
              && Follows(st, r, [LineToken(line, parse).value])
              && (|st.messages| > 0 ==> Shown(r))
  {
    match LineToken(line, parse)
    case None => st
    case Some(token) =>
      FlattenOne(token);
      var partial := st.partial + token;
      Reply(partial, ReplaceLast(st.messages, Message(Assistant, Limit(partial))))
  }

  /** The data lines of one chunk, in order: the reply grows by their tokens,
      only the last entry changes, and lines without a token change nothing. */
  function Feed(st: Reply, lines: seq<string>, parse: Parser): (r: Reply)
    ensures Follows(st, r, Tokens(lines, parse))
    ensures Tokens(lines, parse) == [] ==> r == st
    decreases |lines|
  {
    if |lines| == 0 then
      FollowsNil(st);
      st
    else
      var next := Accept(st, lines[0], parse);
      var r := Feed(next, lines[1..], parse);
      match LineToken(lines[0], parse)
      case None => r
      case Some(t) =>
        FollowsTrans(st, next, r, [t], Tokens(lines[1..], parse));
        r
  }

  /** One decoded chunk: the reply grows by the tokens of its data lines. */
  function ProcessChunk(st: Reply, chunk: string, parse: Parser): (r: Reply)
    ensures Follows(st, r, Tokens(DataLines(Split(chunk, '\n')), parse))
  {
    Feed(st, DataLines(Split(chunk, '\n')), parse)
  }

  /** The chunks of one response, in arrival order: the reply is every token
      of every chunk in order, and the transcript changes only in its last
      entry, which keeps showing the limited reply. A line split across two
      chunks is seen as two separate lines. */
  function ProcessStream(st: Reply, chunks: seq<string>, parse: Parser): (r: Reply)
    ensures Follows(st, r, StreamTokens(chunks, parse))
    decreases |chunks|
  {
    if |chunks| == 0 then
      FollowsNil(st);
      st
    else
      var next := ProcessChunk(st, chunks[0], parse);
      var r := ProcessStream(next, chunks[1..], parse);
      FollowsTrans(st, next, r, Tokens(DataLines(Split(chunks[0], '\n')), parse), StreamTokens(chunks[1..], parse));
      r
  }

  // ------------------------------------------------ reference definitions

  /** The tokens a list of data lines yields, in line order. */
  function Tokens(lines: seq<string>, parse: Parser): seq<string>
    decreases |lines|
  {
    if |lines| == 0 then []
    else match LineToken(lines[0], parse)
      case None => Tokens(lines[1..], parse)
      case Some(t) => [t] + Tokens(lines[1..], parse)
  }

  function StreamTokens(chunks: seq<string>, parse: Parser): seq<string>
    decreases |chunks|
  {
    if |chunks| == 0 then []
    else Tokens(DataLines(Split(chunks[0], '\n')), parse) + StreamTokens(chunks[1..], parse)
  }

  /** The transcript's last entry is the assistant showing the limited reply. */
  predicate Shown(st: Reply) {
    |st.messages| > 0 && st.messages[|st.messages| - 1] == Message(Assistant, Limit(st.partial))
  }

  // ------------------------------------------------------------ lemmas

  /** Lines are handled one after the other. */
  lemma {:induction false} FeedAppend(st: Reply, a: seq<string>, b: seq<string>, parse: Parser)
    ensures Feed(st, a + b, parse) == Feed(Feed(st, a, parse), b, parse)
    decreases |a|
  {
    if |a| > 0 {
      assert (a + b)[0] == a[0];
      assert (a + b)[1..] == a[1..] + b;
      FeedAppend(Accept(st, a[0], parse), a[1..], b, parse);
    } else {
      assert a + b == b;
    }
  }

  /** A line that is not a data line, the sentinel, or a line that fails to
      parse contributes nothing, and the lines after it are handled exactly
      as if it were absent. */
  lemma InertLineIgnored(st: Reply, a: seq<string>, line: string, b: seq<string>, parse: Parser)
    requires !IsDataLine(line) || LineToken(line, parse).None?
    ensures Feed(st, DataLines(a + [line] + b), parse) == Feed(st, DataLines(a + b), parse)
  {
    FilterAppend(a + [line], b, IsDataLine);
    FilterAppend(a, [line], IsDataLine);
    FilterAppend(a, b, IsDataLine);
    var da := DataLines(a);
    var db := DataLines(b);
    if IsDataLine(line) {
      assert DataLines([line]) == [line];
      FeedAppend(st, da + [line], db, parse);
      FeedAppend(st, da, [line], parse);
      FeedAppend(st, da, db, parse);
    } else {
      assert DataLines([line]) == [];
      assert da + [] == da;
    }
  }

  /** Any line that trims to the sentinel, such as the sentinel followed by
      the carriage return of a CRLF stream, passes the filter and yields no
      token. */
  lemma DoneLineYieldsNothing(line: string, parse: Parser)
    requires Trim(line) == DoneLine
    ensures IsDataLine(line) && LineToken(line, parse).None?
  {
    assert DoneLine[..|DataPrefix|] == DataPrefix;
  }

  /** The sentinel as sent, and with a trailing carriage return, trims to
      the sentinel. */
  lemma DoneLineTrims()
    ensures Trim(DoneLine) == DoneLine
    ensures Trim(DoneLine + "\r") == DoneLine
  {
    assert !IsSpace(DoneLine[0]) && !IsSpace(DoneLine[|DoneLine| - 1]);
    assert SkipSpaces(DoneLine, 0) == 0;
    var crlf := DoneLine + "\r";
    assert !IsSpace(crlf[0]) && IsSpace(crlf[|crlf| - 1]) && !IsSpace(crlf[|crlf| - 2]);
    assert SkipSpaces(crlf, 0) == 0;
  }

  /** `r` follows `st` after `ts`: the reply has grown by the tokens `ts` in
      order, the transcript has its old length and its old entries except
      the last, and a shown reply stays shown. */
  predicate Follows(st: Reply, r: Reply, ts: seq<string>) {
    && r.partial == st.partial + Flatten(ts)
    && |r.messages| == |st.messages|
    && (|st.messages| > 0 ==> r.messages[..|st.messages| - 1] == st.messages[..|st.messages| - 1])
    && (Shown(st) ==> Shown(r))
  }

  lemma FollowsTrans(a: Reply, b: Reply, c: Reply, s: seq<string>, t: seq<string>)
    requires Follows(a, b, s) && Follows(b, c, t)
    ensures Follows(a, c, s + t)
  {
    FlattenAppend(s, t);
    AppendAssoc(a.partial, Flatten(s), Flatten(t));
    var n := |a.messages|;
    if n > 0 {
      assert c.messages[..n - 1] == b.messages[..n - 1];
    }
  }

  lemma AppendAssoc(x: string, y: string, z: string)
    ensures (x + y) + z == x + (y + z)
  {
  }

  lemma FollowsNil(st: Reply)
    ensures Follows(st, st, [])
  {
    assert Flatten<char>([]) == [];
    assert st.partial + [] == st.partial;
  }

  lemma FlattenOne(t: string)
    ensures Flatten([t]) == t
  {
    assert [t][1..] == [];
    assert Flatten<char>([]) == [];
    assert t + [] == t;
  }
}
