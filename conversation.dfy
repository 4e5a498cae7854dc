/** The conversation log placed in the coaching and summary prompts: one
    `Speaker <n>: <text>` line per transcript entry, joined by newlines. */
module Conversation {
  import opened Text
  import opened Decimal
  import opened Wrappers
  import opened Sessions

  const LinePrefix: string := "Speaker "

  /** `f"Speaker {speaker}: {text}"`. */
  function RenderLine(e: Entry): string {
    LinePrefix + IntToDecimal(e.speaker) + ": " + e.text
  }

  function RenderLines(context: seq<Entry>): (lines: seq<string>)
    ensures |lines| == |context|
    ensures forall i :: 0 <= i < |context| ==> lines[i] == RenderLine(context[i])
  {
    seq(|context|, i requires 0 <= i < |context| => RenderLine(context[i]))
  }

  /** `"\n".join(f"Speaker {item['speaker']}: {item['text']}" for item in context)`. */
  function ConversationText(context: seq<Entry>): string {
    Join(RenderLines(context), '\n')
  }

  /** The log is built only for a non-empty context; an empty one ends the
      work before any prompt is written. */
  function ConversationPrompt(context: seq<Entry>): (log: Option<string>)
    ensures log.None? <==> |context| == 0
    ensures log.Some? ==> log.value == ConversationText(context)
    ensures log.Some? ==> |log.value| >= |LinePrefix| && log.value[..|LinePrefix|] == LinePrefix
    ensures log.Some? && SingleLineTexts(context) ==> ParseConversation(log.value) == Some(context)
  {
    if |context| == 0 then None
    else
      ConversationTextPrefix(context);
      if SingleLineTexts(context) then
        ConversationRoundTrip(context);
        Some(ConversationText(context))
      else
        Some(ConversationText(context))
  }

  /** A non-empty log starts with the prefix of its first line. */
  lemma ConversationTextPrefix(context: seq<Entry>)
    requires |context| > 0
    ensures |ConversationText(context)| >= |LinePrefix|
    ensures ConversationText(context)[..|LinePrefix|] == LinePrefix
  {
    var lines := RenderLines(context);
    assert lines[0] == RenderLine(context[0]);
    if |context| > 1 {
      assert ConversationText(context) == lines[0] + ("\n" + Join(lines[1..], '\n'));
    }
  }

  /** Reads one line back: the prefix, a decimal speaker number ended by the
      first colon, a space, and the rest of the line as the text. */
  function ParseLine(line: string): Option<Entry> {
    if |line| < |LinePrefix| || line[..|LinePrefix|] != LinePrefix then None
    else
      var rest := line[|LinePrefix|..];
      var k := IndexOf(rest, ':');
      if k + 2 <= |rest| && rest[k..k + 2] == ": " && IsDecimal(rest[..k])
      then Some(Entry(ParseDecimal(rest[..k]), rest[k + 2..]))
      else None
  }

  function ParseLines(lines: seq<string>): Option<seq<Entry>>
    decreases |lines|
  {
    if |lines| == 0 then Some([])
    else
      match ParseLine(lines[0])
      case None => None
      case Some(e) =>
        match ParseLines(lines[1..])
        case None => None
        case Some(es) => Some([e] + es)
  }

  /** Reads a whole conversation log back into its entries. */
  function ParseConversation(text: string): Option<seq<Entry>> {
    ParseLines(Split(text, '\n'))
  }

  /** Every entry's text fits on one line. */
  predicate SingleLineTexts(context: seq<Entry>) {
    forall i :: 0 <= i < |context| ==> '\n' !in context[i].text
  }

  /** A rendered line is read back as the entry it came from. */
  lemma ParseRenderLine(e: Entry)
    ensures ParseLine(RenderLine(e)) == Some(e)
  {
    var d := IntToDecimal(e.speaker);
    IntToDecimalRoundTrip(e.speaker);
    IntToDecimalCharacters(e.speaker);
    var line := RenderLine(e);
    assert line == LinePrefix + (d + ": " + e.text);
    var rest := line[|LinePrefix|..];
    assert rest == d + [':'] + (" " + e.text);
    assert ':' !in d;
    IndexOfAfter(d, ':', " " + e.text);
    assert rest[..|d|] == d;
    assert rest[|d|..|d| + 2] == ": ";
    assert rest[|d| + 2..] == e.text;
  }

  /** A rendered line holds a newline only where its text does. */
  lemma RenderLineSingle(e: Entry)
    requires '\n' !in e.text
    ensures '\n' !in RenderLine(e)
  {
    IntToDecimalCharacters(e.speaker);
    var d := IntToDecimal(e.speaker);
    assert '\n' !in d;
    assert RenderLine(e) == LinePrefix + d + ": " + e.text;
  }

  /** The log has exactly one line per entry, in order, when no text spans
      several lines. */
  lemma ConversationTextLines(context: seq<Entry>)
    requires |context| > 0 && SingleLineTexts(context)
    ensures Split(ConversationText(context), '\n') == RenderLines(context)
  {
    var lines := RenderLines(context);
    forall i | 0 <= i < |lines| ensures '\n' !in lines[i] {
      RenderLineSingle(context[i]);
    }
    SplitJoin(lines, '\n');
  }

  lemma {:induction false} ParseRenderLines(context: seq<Entry>)
    ensures ParseLines(RenderLines(context)) == Some(context)
    decreases |context|
  {
    if |context| > 0 {
      ParseRenderLine(context[0]);
      assert RenderLines(context)[1..] == RenderLines(context[1..]);
      ParseRenderLines(context[1..]);
      assert context == [context[0]] + context[1..];
    }
  }

  /** The log determines the context it was built from: reading it back
      gives every speaker and text, in order. */
  lemma ConversationRoundTrip(context: seq<Entry>)
    requires |context| > 0 && SingleLineTexts(context)
    ensures ParseConversation(ConversationText(context)) == Some(context)
  {
    ConversationTextLines(context);
    ParseRenderLines(context);
  }

  /** What `generate_advice` takes from the registry before prompting: the
      last `DefaultContextLimit` lines of the session, rendered as the log,
      or nothing when the session has no lines. */
  method AdviceLog<W(==)>(manager: ConnectionManager<W>, sid: string) returns (log: Option<string>)
    ensures var lines := manager.Transcript(sid);
      log == ConversationPrompt(lines[|lines| - Min(DefaultContextLimit, |lines|)..])
    ensures log.None? <==> manager.Transcript(sid) == []
  {
    var context := manager.GetRecentContext(sid, DefaultContextLimit);
    log := ConversationPrompt(context);
  }
}
