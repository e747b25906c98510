/**
 * The chat assistant (src/app/Components/Chat.tsx): the system prompt built
 * from the location catalogue, the welcome message, and `sendMessage`, the
 * state machine over the transcript, the input box and the loading flag.
 * The model call is a parameter: its outcome is given, not computed.
 */
module Chat {
  import opened Wrappers
  import Text

  datatype Role = System | User | Assistant

  /** A transcript entry; ids and timestamps are not modelled. */
  datatype Message = Message(role: Role, content: string)

  /** The two catalogue fields the prompt reads; None is null or undefined. */
  datatype LocationInfo = LocationInfo(title: Option<string>, description: Option<string>)

  // ----------------------------------------------------------- system prompt

  const UntitledLocation := "Untitled Location"
  const NoDescription := "No description"
  const NoLocations := "No locations available in the database."

  /** Line `index` (zero-based) of the catalogue listing. */
  function LocationLine(index: nat, l: LocationInfo): string
  {
    Text.NatToString(index + 1) + ". " + OrElse(l.title, UntitledLocation)
      + ": " + OrElse(l.description, NoDescription)
  }

  /** `locationsData.map(...)`, numbering from `start`. */
  function Lines(locs: seq<LocationInfo>, start: nat): (lines: seq<string>)
    ensures |lines| == |locs|
    ensures forall i :: 0 <= i < |locs| ==> lines[i] == LocationLine(start + i, locs[i])
    decreases |locs|
  {
    if locs == [] then [] else [LocationLine(start, locs[0])] + Lines(locs[1..], start + 1)
  }

  /** `locationsInfo`: the numbered lines joined by line breaks. */
  function Listing(locs: seq<LocationInfo>): string
  {
    Text.JoinLines(Lines(locs, 0))
  }

  /** `locationsInfo || 'No locations available in the database.'`. */
  function ListingOrFallback(locs: seq<LocationInfo>): (s: string)
  {
    var listing := Listing(locs);
    if listing != "" then listing else NoLocations
  }

  const PromptOpening :=
    "You are HKTAP AI, an intelligent assistant for Hong Kong location discovery. "
    + "You have access to a database of "

  const PromptCatalogueHeading := " locations in Hong Kong.\n\nAvailable Locations:\n"

  const PromptRole :=
    "\n\nYour role:\n"
    + "- Help users find and learn about locations in Hong Kong\n"
    + "- Provide information about specific places from the database\n"
    + "- Suggest locations based on user preferences (dining, entertainment, business, etc.)\n"
    + "- Answer questions about Hong Kong tourism and local spots\n"
    + "- Be friendly, helpful, and knowledgeable about Hong Kong\n\n"
    + "Always base your recommendations on the locations in the database above. "
    + "If a user asks about a location not in the database, let them know it's not available "
    + "but suggest similar alternatives from the database.\n\n"
    + "Current database contains "

  /** `location${n !== 1 ? 's' : ''}.` */
  function CountNoun(n: nat): string
  {
    if n != 1 then " locations." else " location."
  }

  /** The prompt up to and including the first statement of the count. */
  function PromptHeader(n: nat): string
  {
    PromptOpening + Text.NatToString(n)
  }

  /** The catalogue listing (or its fallback) and the assistant's instructions. */
  function PromptBody(locs: seq<LocationInfo>): string
  {
    PromptCatalogueHeading + ListingOrFallback(locs) + PromptRole
  }

  /** The closing count: `${n} location${n !== 1 ? 's' : ''}.` */
  function PromptFooter(n: nat): string
  {
    Text.NatToString(n) + CountNoun(n)
  }

  /** `generateSystemPrompt`. */
  function SystemPrompt(locs: seq<LocationInfo>): string
  {
    PromptHeader(|locs|) + PromptBody(locs) + PromptFooter(|locs|)
  }

  /** A listing line is never empty: it starts with its number. */
  lemma LocationLineStartsWithNumber(index: nat, l: LocationInfo)
    ensures var line := LocationLine(index, l);
      && |line| > |Text.NatToString(index + 1)|
      && line[..|Text.NatToString(index + 1)|] == Text.NatToString(index + 1)
  {
  }

  /** The fallback text replaces the listing exactly when there is no location. */
  lemma ListingEmptyIff(locs: seq<LocationInfo>)
    ensures Listing(locs) == "" <==> locs == []
    ensures locs == [] ==> ListingOrFallback(locs) == NoLocations
    ensures locs != [] ==> ListingOrFallback(locs) == Listing(locs)
  {
    var lines := Lines(locs, 0);
    Text.JoinLinesEmpty(lines);
    if |locs| == 1 {
      assert lines[0] == LocationLine(0, locs[0]);
    }
  }

  /**
   * When no title or description holds a line break, splitting the listing at
   * line breaks gives one line per location, in catalogue order, numbered from 1.
   */
  lemma ListingLines(locs: seq<LocationInfo>)
    requires locs != []
    requires forall k :: 0 <= k < |locs| ==>
      Text.NoLineBreak(OrElse(locs[k].title, UntitledLocation))
      && Text.NoLineBreak(OrElse(locs[k].description, NoDescription))
    ensures var split := Text.SplitLines(Listing(locs));
      && |split| == |locs|
      && forall i :: 0 <= i < |locs| ==>
           split[i] == Text.NatToString(i + 1) + ". " + OrElse(locs[i].title, UntitledLocation)
                       + ": " + OrElse(locs[i].description, NoDescription)
  {
    var lines := Lines(locs, 0);
    forall k | 0 <= k < |lines| ensures Text.NoLineBreak(lines[k]) {
      var num := Text.NatToString(k + 1);
      var line := lines[k];
      forall p | 0 <= p < |line| ensures line[p] != '\n' {
        var t := OrElse(locs[k].title, UntitledLocation);
        var d := OrElse(locs[k].description, NoDescription);
        assert line == num + ". " + t + ": " + d;
        if p < |num| {
          assert line[p] == num[p];
        } else if p < |num| + 2 {
        } else if p < |num| + 2 + |t| {
          assert line[p] == t[p - |num| - 2];
        } else if p < |num| + 4 + |t| {
        } else {
          assert line[p] == d[p - |num| - 4 - |t|];
        }
      }
    }
    Text.SplitJoin(lines);
  }

  lemma Framed(h: string, b: string, f: string)
    ensures (h + b + f)[..|h|] == h
    ensures (h + b + f)[|h + b + f| - |f|..] == f
    ensures |f| >= 2 ==>
      (h + b + f)[|h + b + f| - 1] == f[|f| - 1] && (h + b + f)[|h + b + f| - 2] == f[|f| - 2]
  {
    assert h + b + f == h + (b + f);
  }

  /** The closing count ends in "s." exactly when the count is not one. */
  lemma FooterPlural(n: nat)
    ensures var f := PromptFooter(n);
      |f| >= 2 && f[|f| - 1] == '.' && (f[|f| - 2] == 's' <==> n != 1)
  {
    var d, noun := Text.NatToString(n), CountNoun(n);
    assert PromptFooter(n) == d + noun;
    assert (d + noun)[|d + noun| - 1] == noun[|noun| - 1];
    assert (d + noun)[|d + noun| - 2] == noun[|noun| - 2];
  }

  /** The prompt states the number of locations twice and pluralises "location" unless it is one. */
  lemma SystemPromptCount(locs: seq<LocationInfo>)
    ensures var p := SystemPrompt(locs);
      && p[..|PromptHeader(|locs|)|] == PromptOpening + Text.NatToString(|locs|)
      && p[|p| - |PromptFooter(|locs|)|..] == Text.NatToString(|locs|) + CountNoun(|locs|)
      && (p[|p| - 2] == 's' <==> |locs| != 1)
      && p[|p| - 1] == '.'
  {
    var h, b, f := PromptHeader(|locs|), PromptBody(locs), PromptFooter(|locs|);
    Framed(h, b, f);
    FooterPlural(|locs|);
  }

  // -------------------------------------------------------------- transcript

  const Welcome := Message(Assistant,
    "Hello! I'm your HKTAP AI assistant. I can help you find information about locations "
    + "in Hong Kong based on our database. How can I assist you today?")

  const NoResponse := "Sorry, I couldn't generate a response."

  const MissingKeyError :=
    "OpenRouter API key not configured. Please add NEXT_PUBLIC_OPENROUTER_API_KEY to your .env file."

  /** The error text the catch block shows for an error message. */
  function ErrorReply(message: string): string
  {
    "Sorry, I encountered an error: " + message
      + ". Please make sure your OpenRouter API key is configured correctly."
  }

  /** What the completion call returns: the first choice's content (None is null), or an error. */
  datatype Completion = Reply(content: Option<string>) | Failure(message: string)

  /** Characters `String.prototype.trim` removes. */
  predicate IsWhitespace(c: char) {
    var u := c as int;
    // white space: tab, vertical tab, form feed, space, no-break space, byte-order mark
    || u == 0x09 || u == 0x0B || u == 0x0C || u == 0x20 || u == 0xA0 || u == 0xFEFF
    // the other space separators
    || u == 0x1680 || (0x2000 <= u <= 0x200A) || u == 0x202F || u == 0x205F || u == 0x3000
    // line terminators
    || u == 0x0A || u == 0x0D || u == 0x2028 || u == 0x2029
  }

  /** `!s.trim()`: the input is empty after trimming. */
  predicate IsBlank(s: string) {
    forall i :: 0 <= i < |s| ==> IsWhitespace(s[i])
  }

  /** The messages sent to the model. */
  function Request(prompt: string, previous: seq<Message>, input: string): (req: seq<Message>)
    ensures |req| == |previous| + 2
    ensures req[0] == Message(System, prompt)
    ensures req[1..|previous| + 1] == previous
    ensures req[|previous| + 1] == Message(User, input)
  {
    [Message(System, prompt)] + previous + [Message(User, input)]
  }

  /** The assistant's answer for a completion outcome. */
  function AnswerText(keyConfigured: bool, outcome: Completion): (text: string)
    ensures !keyConfigured ==> text == ErrorReply(MissingKeyError)
    ensures keyConfigured && outcome.Failure? ==> text == ErrorReply(outcome.message)
    ensures keyConfigured && outcome.Reply? ==>
      text == OrElse(outcome.content, NoResponse)
  {
    if !keyConfigured then ErrorReply(MissingKeyError)
    else match outcome
      case Failure(message) => ErrorReply(message)
      case Reply(content) => OrElse(content, NoResponse)
  }

  /** An answer is never empty. */
  lemma AnswerNonEmpty(keyConfigured: bool, outcome: Completion)
    ensures AnswerText(keyConfigured, outcome) != ""
  {
  }

  /** The chat window's state. */
  class ChatSession {
    var messages: seq<Message>
    var inputMessage: string
    var isLoading: bool

    constructor ()
      ensures messages == [] && inputMessage == "" && !isLoading
    {
      messages := [];
      inputMessage := "";
      isLoading := false;
    }

    /** The effect that seeds an empty transcript with the welcome message. */
    method SeedWelcome()
      modifies this
      ensures old(messages) == [] ==> messages == [Welcome]
      ensures old(messages) != [] ==> messages == old(messages)
      ensures inputMessage == old(inputMessage) && isLoading == old(isLoading)
    {
      if messages == [] {
        messages := [Welcome];
      }
    }

    /**
     * `sendMessage`. Returns the request made to the model, or None when no
     * request is made (the guard rejects the send, or the key is missing).
     */
    method SendMessage(locations: seq<LocationInfo>, keyConfigured: bool, outcome: Completion)
      returns (request: Option<seq<Message>>)
      modifies this
      // the guard: a blank input or a send in progress changes nothing
      ensures IsBlank(old(inputMessage)) || old(isLoading) ==>
        && request == None
        && messages == old(messages) && inputMessage == old(inputMessage) && isLoading == old(isLoading)
      // an accepted send appends the user's message and exactly one answer
      ensures !IsBlank(old(inputMessage)) && !old(isLoading) ==>
        && messages == old(messages)
             + [Message(User, old(inputMessage)), Message(Assistant, AnswerText(keyConfigured, outcome))]
        && inputMessage == "" && !isLoading
        && (keyConfigured <==> request.Some?)
        && (keyConfigured ==>
             request == Some(Request(SystemPrompt(locations), old(messages), old(inputMessage))))
    {
      if IsBlank(inputMessage) || isLoading {
        return None;
      }
      var previous := messages;
      var input := inputMessage;
      messages := messages + [Message(User, input)];
      inputMessage := "";
      isLoading := true;
      var answer: string;
      if !keyConfigured {
        request := None;
        answer := ErrorReply(MissingKeyError);
      } else {
        request := Some(Request(SystemPrompt(locations), previous, input));
        match outcome
        case Reply(content) =>
          answer := OrElse(content, NoResponse);
        case Failure(message) =>
          answer := ErrorReply(message);
      }
      messages := messages + [Message(Assistant, answer)];
      isLoading := false;
    }
  }
}
