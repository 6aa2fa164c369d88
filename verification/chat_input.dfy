/** The input handling of src/components/chat.tsx: one line of text is cut at
    its first space into a command and its arguments; five slash commands
    switch to another view or start an image generation, and everything else
    is sent to the chat as a user message followed by one assistant reply.
    Each remote call is split into the part that runs before the `await`
    (`Send`) and the part that runs when it settles (`Settle`), so that the
    store may change in between. */
module ChatInput {
  import opened Wrappers
  import opened Text
  import opened Types
  import opened ChatHistory

  /** The entries of the command table. */
  datatype Command = StudyCommand | ExplainCommand | SummarizeCommand | IdeaCommand | ImagineCommand

  /** The `switch` of `processSlashCommand`: the command a head names, if any. */
  function LookupCommand(head: string): Option<Command> {
    if head == "/study" then Some(StudyCommand)
    else if head == "/explain" then Some(ExplainCommand)
    else if head == "/summarize" then Some(SummarizeCommand)
    else if head == "/idea" then Some(IdeaCommand)
    else if head == "/imagine" then Some(ImagineCommand)
    else None
  }

  /** Every command of the table begins with the slash, so the
      `startsWith('/')` test in front of the lookup never changes its
      answer. */
  lemma CommandsStartWithSlash(head: string)
    ensures LookupCommand(head).Some? ==> StartsWith(head, "/")
  {
  }

  /** The view a view-switching command opens and the seed property it
      fills. */
  function CommandTarget(c: Command): (Capability, SeedKey)
    requires c != ImagineCommand
  {
    match c
    case StudyCommand => (Study, Question)
    case ExplainCommand => (Explain, Topic)
    case SummarizeCommand => (Summarize, TextKey)
    case IdeaCommand => (GetIdea, Topic)
  }

  /** The command-and-arguments split of chat.tsx:102-103: the command is
      the text before the first space, and the arguments put back after it
      with one space rebuild the input. */
  function SplitCommand(input: string): (r: (string, string))
    ensures ' ' !in r.0
    ensures ' ' in input ==> r.0 + " " + r.1 == input
    ensures ' ' !in input ==> r.0 == input && r.1 == ""
  {
    var pieces := Split(input, ' ');
    HeadAndRest(input, ' ');
    (pieces[0], Join(pieces[1..], ' '))
  }

  /** What a line of input asks for. */
  datatype Routing =
    | ToView(view: Capability, seed: Seed)   // a view switch with its seed
    | Imagine(prompt: string)                // the image-generation command
    | Plain                                  // an ordinary chat message

  /** The decision `handleSendMessage` takes from the text alone. */
  function Route(input: string): (r: Routing)
    ensures r.Plain? <==> LookupCommand(SplitCommand(input).0).None?
    ensures r.ToView? ==>
      && LookupCommand(SplitCommand(input).0).Some?
      && var c := LookupCommand(SplitCommand(input).0).value;
      && c != ImagineCommand
      && r.view == CommandTarget(c).0 && r.seed == Seed(CommandTarget(c).1, SplitCommand(input).1)
    ensures r.Imagine? <==> SplitCommand(input).0 == "/imagine"
    ensures r.Imagine? ==> r.prompt == SplitCommand(input).1
  {
    var (command, args) := SplitCommand(input);
    if StartsWith(command, "/") && LookupCommand(command).Some? then
      match LookupCommand(command).value
      case ImagineCommand => Imagine(args)
      case c => var (view, key) := CommandTarget(c); ToView(view, Seed(key, args))
    else
      Plain
  }

  /** The input box: its text, the attached image as a data URI, and whether
      voice recording is on. */
  datatype Composer = Composer(input: string, image: Option<string>, recording: bool)

  /** An attachment counts only when it is a non-empty string. */
  predicate HasImage(image: Option<string>) {
    image.Some? && image.value != ""
  }

  /** What the chat capability is asked: the message, the attachment, the
      chat's messages as they were before this one, and its settings. */
  datatype ChatRequest = ChatRequest(
    message: string,
    image: Option<string>,
    history: seq<Message>,
    persona: string,
    language: string)

  /** A remote call in flight, with the id of the chat that was active when
      it was made. */
  datatype Pending =
    | AwaitReply(chatId: ChatId, request: ChatRequest)
    | AwaitImage(chatId: ChatId, prompt: string)

  /** How a remote call settles: its text (the response, or the image URL),
      or a rejection. */
  datatype Outcome = Succeeded(value: string) | Failed

  /** What a send does besides changing the store and the input box. */
  datatype Effect =
    | Nothing
    | NoActiveChatToast
    | SwitchView(view: Capability, seed: Seed)
    | Await(pending: Pending)

  datatype Sent = Sent(store: Store, composer: Composer, effect: Effect)

  const GeneratingImage := "Generating image..."
  const ReplyFailed := "Sorry, something went wrong."
  const ImageFailed := "Sorry, I failed to generate the image."
  const ImagineCommandText := "/imagine"

  function UserMessage(content: string, image: Option<string>): Message {
    Message(User, content, image)
  }

  function AssistantMessage(content: string): Message {
    Message(Assistant, content, None)
  }

  /** The caption of a generated image. */
  function ImageCaption(prompt: string): string {
    "Here is your generated image for: \"" + prompt + "\""
  }

  /** `handleSendMessage` up to its `await`. */
  function Send(s: Store, c: Composer): (r: Sent)
    ensures r.store.activeId == s.activeId
    ensures |r.store.chats| == |s.chats|
    ensures IsBlank(c.input) && !HasImage(c.image) ==> r == Sent(s, c, Nothing)
    ensures ActiveChat(s).None? ==> r.store == s && r.composer == c
    ensures r.effect.NoActiveChatToast? <==>
      (!IsBlank(c.input) || HasImage(c.image)) && ActiveChat(s).None?
    ensures r.effect.SwitchView? ==> r.store == s
    ensures r.effect.Await? ==>
      ActiveChat(s).Some? && r.effect.pending.chatId == ActiveChat(s).value.id
    ensures r.store != s ==> r.composer == c.(input := "", image := None)
  {
    if Trim(c.input) == [] && !HasImage(c.image) then
      Sent(s, c, Nothing)
    else
      match ActiveChat(s)
      case None => Sent(s, c, NoActiveChatToast)
      case Some(chat) =>
        var cleared := c.(input := "", image := None);
        match Route(c.input)
        case ToView(view, seed) => Sent(s, cleared, SwitchView(view, seed))
        case Imagine(prompt) =>
          if prompt == "" then
            Sent(s, cleared, Nothing)
          else
            var s1 := AddMessage(s, chat.id, UserMessage(ImagineCommandText + " " + prompt, None));
            var s2 := AddMessage(s1, chat.id, AssistantMessage(GeneratingImage));
            Sent(s2, cleared, Await(AwaitImage(chat.id, prompt)))
        case Plain =>
          var request := ChatRequest(c.input, c.image, chat.messages, chat.persona, chat.language);
          var s1 := AddMessage(s, chat.id, UserMessage(c.input, c.image));
          Sent(s1, cleared, Await(AwaitReply(chat.id, request)))
  }

  /** The message the settled call adds. */
  function ReplyMessage(p: Pending, o: Outcome): Message {
    match p
    case AwaitReply(_, _) =>
      (match o
       case Succeeded(response) => AssistantMessage(response)
       case Failed => AssistantMessage(ReplyFailed))
    case AwaitImage(_, prompt) =>
      (match o
       case Succeeded(url) => Message(Assistant, ImageCaption(prompt), Some(url))
       case Failed => AssistantMessage(ImageFailed))
  }

  /** The part of `handleSendMessage` / `handleImageGeneration` after the
      `await`: exactly one assistant message goes to the chat the call was
      made from, whichever chat is active by now. */
  function Settle(s: Store, p: Pending, o: Outcome): (r: Store)
    ensures r.activeId == s.activeId
    ensures r.chats == AppendMessage(s.chats, p.chatId, ReplyMessage(p, o))
    ensures ReplyMessage(p, o).role == Assistant
  {
    AddMessage(s, p.chatId, ReplyMessage(p, o))
  }

  /** `handleVoiceSubmit`: the transcript is put after what was typed, with
      one space in between unless nothing was typed; recording stops. */
  function VoiceSubmit(c: Composer, transcript: string): (r: Composer)
    ensures !r.recording && r.image == c.image
    ensures StartsWith(r.input, c.input)
    ensures |r.input| == |c.input| + |transcript| + (if c.input == "" then 0 else 1)
    ensures r.input[|r.input| - |transcript|..] == transcript
    ensures c.input != "" ==> r.input[|c.input|] == ' '
  {
    var text := if c.input != "" then c.input + " " + transcript else transcript;
    c.(input := text, recording := false)
  }
}

/** Properties of a whole send, from the key press to the settled reply. */
module ChatInputProperties {
  import opened Wrappers
  import opened Text
  import opened Types
  import opened ChatHistory
  import opened ChatInput

  /** Cutting `head + " " + rest` at its first space gives back `head` and
      `rest` when `head` has no space. */
  lemma {:induction false} SplitCommandOf(head: string, rest: string)
    requires ' ' !in head
    ensures SplitCommand(head + " " + rest) == (head, rest)
  {
    var input := head + " " + rest;
    var r := SplitCommand(input);
    assert r.0 + " " + r.1 == input;
    assert input[|head|] == ' ' && input[|r.0|] == ' ';
    assert forall i | 0 <= i < |head| :: input[i] == head[i] && input[i] != ' ';
    assert forall i | 0 <= i < |r.0| :: input[i] == r.0[i] && input[i] != ' ';
    assert r.0 == input[..|head|] == head;
    assert r.1 == input[|head| + 1..] == rest;
  }

  /** A line made of a head without spaces, one space and the rest is
      routed by the head alone, with the rest, verbatim, as the argument. */
  lemma RouteCommandLine(head: string, args: string)
    requires ' ' !in head
    ensures var r := Route(head + " " + args);
      && (head == "/study" ==> r == ToView(Study, Seed(Question, args)))
      && (head == "/explain" ==> r == ToView(Explain, Seed(Topic, args)))
      && (head == "/summarize" ==> r == ToView(Summarize, Seed(TextKey, args)))
      && (head == "/idea" ==> r == ToView(GetIdea, Seed(Topic, args)))
      && (head == "/imagine" ==> r == Imagine(args))
      && (LookupCommand(head).None? ==> r == Plain)
  {
    SplitCommandOf(head, args);
  }

  /** No space in the example heads. */
  lemma ExampleHeads()
    ensures ' ' !in "/summarize" && ' ' !in "/bogus" && ' ' !in "hi"
    ensures LookupCommand("/bogus").None? && LookupCommand("hi").None?
  {
    assert forall i | 0 <= i < |"/summarize"| :: "/summarize"[i] != ' ';
    assert forall i | 0 <= i < |"/bogus"| :: "/bogus"[i] != ' ';
  }

  /** A known command with its argument text. */
  lemma RouteSummarizeExample(input: string)
    requires input == "/summarize notes"
    ensures Route(input) == ToView(Summarize, Seed(TextKey, "notes"))
  {
    ExampleHeads();
    assert "/summarize" + " " + "notes" == input;
    RouteCommandLine("/summarize", "notes");
  }

  /** An unknown command falls back to a plain message. */
  lemma RouteUnknownExample(input: string)
    requires input == "/bogus hi"
    ensures Route(input) == Plain
  {
    ExampleHeads();
    assert "/bogus" + " " + "hi" == input;
    RouteCommandLine("/bogus", "hi");
  }

  /** A line without a slash is a plain message. */
  lemma RoutePlainExample(input: string)
    requires input == "hi there"
    ensures Route(input) == Plain
  {
    ExampleHeads();
    assert "hi" + " " + "there" == input;
    RouteCommandLine("hi", "there");
  }

  /** A line that names a command starts with the slash, so it is never
      blank and the blank-input guard never swallows it. */
  lemma CommandLineNotBlank(input: string)
    requires LookupCommand(SplitCommand(input).0).Some?
    ensures |input| > 0 && input[0] == '/'
    ensures !IsBlank(input)
  {
    var head := SplitCommand(input).0;
    CommandsStartWithSlash(head);
    assert head[0] == '/';
    if ' ' in input {
      assert input == head + " " + SplitCommand(input).1;
    }
    assert !IsJsSpace(input[0]);
  }

  /** `/imagine` with a prompt: the input is the command, one space and the
      prompt. */
  lemma ImagineLine(input: string)
    requires Route(input).Imagine?
    ensures !IsBlank(input)
    ensures Route(input).prompt != "" ==> input == ImagineCommandText + " " + Route(input).prompt
  {
    CommandLineNotBlank(input);
  }

  /** `Send` on a plain message to an active chat: the user message is
      appended and the reply is awaited. */
  lemma SendPlain(s: Store, c: Composer)
    requires ActiveChat(s).Some? && (!IsBlank(c.input) || HasImage(c.image)) && Route(c.input).Plain?
    ensures var chat := ActiveChat(s).value;
      Send(s, c) == Sent(
        AddMessage(s, chat.id, UserMessage(c.input, c.image)),
        c.(input := "", image := None),
        Await(AwaitReply(chat.id, ChatRequest(c.input, c.image, chat.messages, chat.persona, chat.language))))
  {
  }

  /** `Send` on `/imagine` with a prompt: the command line and the
      placeholder are appended and the image is awaited. */
  lemma SendImagine(s: Store, c: Composer)
    requires ActiveChat(s).Some? && Route(c.input).Imagine? && Route(c.input).prompt != ""
    ensures var chat := ActiveChat(s).value;
      var s1 := AddMessage(s, chat.id, UserMessage(c.input, None));
      Send(s, c) == Sent(
        AddMessage(s1, chat.id, AssistantMessage(GeneratingImage)),
        c.(input := "", image := None),
        Await(AwaitImage(chat.id, Route(c.input).prompt)))
  {
    ImagineLine(c.input);
  }

  /** A second append to the chat that was just moved to the front leaves it
      at the front, with both messages in order. */
  lemma AppendTwice(chats: seq<Chat>, id: ChatId, m1: Message, m2: Message)
    requires id in Ids(chats)
    ensures var k := FindIndex(chats, id).value;
      var r := AppendMessage(AppendMessage(chats, id, m1), id, m2);
      && |r| == |chats|
      && r[0].id == id
      && r[0].messages == chats[k].messages + [m1, m2]
      && r[1..] == chats[..k] + chats[k + 1..]
  {
    var k := FindIndex(chats, id).value;
    var r1 := AppendMessage(chats, id, m1);
    AppendMessageMovesToFront(chats, id, m1);
    AppendAtFront(r1, id, m2);
    var r := AppendMessage(r1, id, m2);
    assert r[1..] == r1[1..];
    assert chats[k].messages + [m1] + [m2] == chats[k].messages + [m1, m2];
  }

  /** A plain message: exactly one user message, the text as typed with the
      attachment, then exactly one assistant message (the response, or the
      apology on failure), both in the chat active at send time, which ends
      up first in the list; the request carries the chat's earlier messages. */
  lemma PlainSendThenReply(s: Store, c: Composer, o: Outcome)
    requires ActiveChat(s).Some?
    requires (!IsBlank(c.input) || HasImage(c.image)) && Route(c.input).Plain?
    ensures var chat := ActiveChat(s).value;
      var k := FindIndex(s.chats, chat.id).value;
      var sent := Send(s, c);
      && sent.effect == Await(AwaitReply(chat.id,
           ChatRequest(c.input, c.image, chat.messages, chat.persona, chat.language)))
      && var r := Settle(sent.store, sent.effect.pending, o);
      && r.activeId == s.activeId
      && r.chats[0].id == chat.id
      && r.chats[0].messages == chat.messages
           + [UserMessage(c.input, c.image),
              AssistantMessage(if o.Succeeded? then o.value else ReplyFailed)]
      && r.chats[1..] == s.chats[..k] + s.chats[k + 1..]
  {
    var chat := ActiveChat(s).value;
    var k := FindIndex(s.chats, chat.id).value;
    assert s.chats[k] == chat;
    SendPlain(s, c);
    AppendTwice(s.chats, chat.id, UserMessage(c.input, c.image),
      ReplyMessage(Send(s, c).effect.pending, o));
  }

  /** `/imagine` with a prompt: the user message repeats the input, then the
      placeholder, then the image or the failure message; the placeholder
      stays. */
  lemma ImagineSendThenSettle(s: Store, c: Composer, o: Outcome)
    requires ActiveChat(s).Some?
    requires Route(c.input).Imagine? && Route(c.input).prompt != ""
    ensures var chat := ActiveChat(s).value;
      var prompt := Route(c.input).prompt;
      var sent := Send(s, c);
      && sent.effect == Await(AwaitImage(chat.id, prompt))
      && var r := Settle(sent.store, sent.effect.pending, o);
      && r.chats[0].id == chat.id
      && r.chats[0].messages == chat.messages
           + [UserMessage(c.input, None), AssistantMessage(GeneratingImage),
              if o.Succeeded? then Message(Assistant, ImageCaption(prompt), Some(o.value))
              else AssistantMessage(ImageFailed)]
  {
    var chat := ActiveChat(s).value;
    var k := FindIndex(s.chats, chat.id).value;
    assert s.chats[k] == chat;
    var prompt := Route(c.input).prompt;
    var m1 := UserMessage(c.input, None);
    var m2 := AssistantMessage(GeneratingImage);
    var m3 := ReplyMessage(AwaitImage(chat.id, prompt), o);
    SendImagine(s, c);
    var s2 := AddMessage(AddMessage(s, chat.id, m1), chat.id, m2);
    AppendTwice(s.chats, chat.id, m1, m2);
    AppendAtFront(s2.chats, chat.id, m3);
    assert chat.messages + [m1, m2] + [m3] == chat.messages + [m1, m2, m3];
  }

  /** The bare command: `/imagine`, with or without one trailing space,
      routes to an image generation with an empty prompt. */
  lemma BareImagineRoute(input: string)
    requires input == ImagineCommandText || input == ImagineCommandText + " "
    ensures Route(input) == Imagine("")
  {
    assert ' ' !in ImagineCommandText by {
      forall i | 0 <= i < |ImagineCommandText| ensures ImagineCommandText[i] != ' ' { }
    }
    SplitCommandOf(ImagineCommandText, "");
  }

  /** `/imagine` without a prompt is taken as handled and does nothing: no
      message, no view switch, only the input box is cleared. */
  lemma ImagineWithoutPromptIsSwallowed(s: Store, c: Composer)
    requires ActiveChat(s).Some?
    requires Route(c.input) == Imagine("")
    ensures Send(s, c) == Sent(s, c.(input := "", image := None), Nothing)
  {
    ImagineLine(c.input);
  }

  /** A view command appends nothing and switches to its view, with the
      argument text under the property that view reads. */
  lemma ViewCommandSwitches(s: Store, c: Composer)
    requires ActiveChat(s).Some?
    requires Route(c.input).ToView?
    ensures Send(s, c) == Sent(s, c.(input := "", image := None), SwitchView(Route(c.input).view, Route(c.input).seed))
    ensures Route(c.input).seed.value == SplitCommand(c.input).1
  {
    CommandLineNotBlank(c.input);
  }

  /** A send keeps the set of chat ids. */
  lemma SendKeepsIds(s: Store, c: Composer)
    ensures Ids(Send(s, c).store.chats) == Ids(s.chats)
  {
    if ActiveChat(s).Some? && (!IsBlank(c.input) || HasImage(c.image)) {
      var chat := ActiveChat(s).value;
      match Route(c.input)
      case ToView(_, _) =>
      case Imagine(prompt) =>
        if prompt != "" {
          var m1 := UserMessage(c.input, None);
          SendImagine(s, c);
          AppendMessageKeepsIds(s.chats, chat.id, m1);
          AppendMessageKeepsIds(AddMessage(s, chat.id, m1).chats, chat.id, AssistantMessage(GeneratingImage));
        }
      case Plain =>
        SendPlain(s, c);
        AppendMessageKeepsIds(s.chats, chat.id, UserMessage(c.input, c.image));
    }
  }

  /** A reply that arrives after the user switched to another chat still
      goes to the chat it was asked from, and the newly active chat stays
      active. */
  lemma LateReplyKeepsItsChat(s: Store, c: Composer, other: ChatId, o: Outcome)
    requires ActiveChat(s).Some?
    requires Send(s, c).effect.Await?
    ensures var origin := ActiveChat(s).value.id;
      var sent := Send(s, c);
      var switched := LoadChat(sent.store, other);
      var r := Settle(switched, sent.effect.pending, o);
      && r.chats[0].id == origin
      && r.chats[0].messages[|r.chats[0].messages| - 1] == ReplyMessage(sent.effect.pending, o)
      && (other in Ids(s.chats) ==> r.activeId == Some(other))
  {
    var sent := Send(s, c);
    var origin := ActiveChat(s).value.id;
    SendKeepsIds(s, c);
    var switched := LoadChat(sent.store, other);
    assert origin in Ids(switched.chats);
    AppendMessageMovesToFront(switched.chats, origin, ReplyMessage(sent.effect.pending, o));
  }
}
