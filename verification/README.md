# Clarity AI chat core, modelled in Dafny

Clarity AI is a browser application with five capabilities behind one tab bar:
- **Solve**, a chat with an AI model;
- **Study**, a homework helper;
- **Explain**;
- **Summarize**;
- **Get Idea**.

This project models the logic that decides what the user sees and what is
stored, and proves properties of it. The model has five parts:

- **Chat store** (`ChatHistory`, from `src/hooks/use-chat-history.ts`). It
  holds a list of chats, most recently created or messaged first (loading a
  chat makes it active without moving it), and the id of the active chat. It
  supports create, delete, load, add-message and update-settings. From the
  mount effect on, the store invariant holds:
  - there is at least one chat;
  - the ids are distinct;
  - the active id names a chat.

  A first user message gives a chat its title: the first 30 characters,
  followed by three dots `...` when the message was cut short. Deleting the
  active chat re-activates the first chat that remains. Messages carry no id
  and are never edited.
- **Input router** (`ChatInput`, `ChatInputProperties`, from
  `src/components/chat.tsx`). A line is cut at its first single space into a
  command and its arguments, so further spaces stay in the arguments. The
  command table has five entries:
  - `/study`, `/explain`, `/summarize` and `/idea` switch to another view and
    hand it the arguments as a seed;
  - `/imagine` starts an image generation;
  - anything else is sent to the chat as one user message, followed later by
    one assistant reply.

  Each remote call is split at its `await` into `Send` and `Settle`, so the
  store may change in between. While the chat view stays mounted, the reply
  goes to the chat the call was made from.
- **Two mounts of the store** (`Screen`, from `src/components/chat.tsx` and
  `src/components/chat-settings.tsx`). The settings sheet sits in the chat
  view's header, but each component mounts its own store. The sheet's
  actions therefore never reach the chat view (see Findings). Everywhere
  else the model composes all store operations on one shared store.
- **View switcher** (`CodeForge`, from `src/components/code-forge.tsx` and the
  seed effect at line 45 of each seeded view). It tracks which capability is
  rendered and which seed is pending. A view takes a seed only when the seed
  has the property that view reads, and clears it when it does.
- **Markdown grouping** (`Markdown`, from
  `src/components/markdown-renderer.tsx`). Consecutive bullet lines form one
  list, and every other non-blank line forms a paragraph, in document order.
  Within a paragraph, back-quoted spans (the regular expression
  `` /(`.*?`)/ ``) become code segments. The split is characterised
  independently: the pieces alternate text and span, rebuild the line, and
  take each span where the pattern first matches; exactly one split does.
- **Flashcards** (`StudyBuddy`, from `src/components/study-buddy.tsx`). "Next"
  and "previous" step cyclically through the deck. Submitting a topic empties
  the deck while the request runs, and a seed topic is used once.

`Text` writes out the JavaScript string operations the code relies on:
`trim` with the ECMAScript white-space set, `split` and `join` with a
one-character separator, and `startsWith`. `Types` holds the records from
`src/lib/types.ts` that these parts share.

Things the model takes as parameters instead of computing them:
- fresh chat ids (`crypto.randomUUID`);
- time stamps (`new Date().toISOString()`);
- the outcome of every call to an AI flow (`Outcome`, `Generation`).

## Model

| member | source | states |
|---|---|---|
| Text.Trim | src/components/markdown-renderer.tsx:24 | `trim` removes only white space, and only from the two ends; what it keeps neither starts nor ends with white space; the result is empty exactly when the string is blank |
| Text.Split | src/components/chat.tsx:102 | `split` with a one-character separator yields at least one piece, no piece contains the separator, and joining the pieces with the separator gives the string back |
| Text.HeadAndRest | src/components/chat.tsx:102-103 | when the separator occurs, the first piece, the separator and the re-joined rest rebuild the string; when it does not, the first piece is the whole string and the rest joins to nothing |
| ChatHistory.Init | src/hooks/use-chat-history.ts:28-34 | on mount the store holds exactly one new chat, with the default title and settings and no messages; that chat is active and the store invariant holds |
| ChatHistory.FindIndex | src/hooks/use-chat-history.ts:75 | `findIndex` finds nothing exactly when no chat has the id; otherwise it gives the first position that holds the id |
| ChatHistory.ActiveChat | src/hooks/use-chat-history.ts:103 | the active chat exists exactly when the active id is set and names a chat, and then it is a chat with that id; in a valid store it always exists |
| ChatHistory.CreateChat | src/hooks/use-chat-history.ts:36-41 | a new chat is put in front of the old list, unchanged, and becomes the active chat |
| ChatHistory.WithoutId | src/hooks/use-chat-history.ts:45 | the filter keeps no chat that has the id and never lengthens the list |
| ChatHistory.WithoutIdIds | src/hooks/use-chat-history.ts:45 | the filter takes exactly the deleted id out of the set of ids and keeps distinct ids distinct |
| ChatHistory.WithoutIdRemovesOne | src/hooks/use-chat-history.ts:45 | with distinct ids, the filter removes exactly the one chat with the id and keeps the rest in order; an unknown id removes nothing |
| ChatHistory.DeleteChat | src/hooks/use-chat-history.ts:43-57 | deleting a chat that is not active leaves the active id alone; deleting the active chat activates the first remaining chat, or, when none remains, replaces the list with one new active chat |
| ChatHistory.DeleteActiveReselects | src/hooks/use-chat-history.ts:46-53 | in a valid store, deleting the active chat activates the chat that was first, or the second one when the deleted chat was first; the list shrinks by one unless it was the last chat, which is replaced |
| ChatHistory.LoadChat | src/hooks/use-chat-history.ts:59-71 | loading a known id makes it active; loading an unknown id changes nothing; the list is never touched |
| ChatHistory.DeriveTitle | src/hooks/use-chat-history.ts:83 | a message of at most 30 characters is its own title; a longer one gives its first 30 characters followed by "..." |
| ChatHistory.AppendMessage | src/hooks/use-chat-history.ts:73-95 | adding a message never changes the number of chats, and a message for an unknown chat changes nothing |
| ChatHistory.AppendMessageMovesToFront | src/hooks/use-chat-history.ts:73-95 | for a known chat, the message goes last in its messages, the chat moves to the front, and the other chats keep their order; only the first message of a chat, and only if it is a user message, sets the title; nothing else of the chat changes |
| ChatHistory.AppendMessageKeepsIds | src/hooks/use-chat-history.ts:86-93 | moving the updated chat to the top keeps the set of ids and their distinctness |
| ChatHistory.AppendAtFront | src/hooks/use-chat-history.ts:89-91 | adding to the chat that is already first leaves the order of the list as it was |
| ChatHistory.AddMessage | src/hooks/use-chat-history.ts:73-95 | adding a message never changes the active id |
| ChatHistory.UpdateSettings | src/hooks/use-chat-history.ts:97-101 | chats with other ids are untouched; the chat with the id gets each supplied setting, keeps every setting not supplied, and keeps its title, messages and creation time; order and length are kept |
| ChatHistory.UpdateSettingsFound | src/hooks/use-chat-history.ts:97-101 | the chat with the id is found at the same position as before, and holds the supplied settings merged into its old ones |
| ChatHistory.UpdateSettingsKeepsIds | src/hooks/use-chat-history.ts:98-100 | updating settings keeps the set of ids and their distinctness |
| ChatHistory.UpdateChatSettings | src/hooks/use-chat-history.ts:97-101 | updating settings never changes the active id |
| ChatHistory.StepKeepsValid | src/hooks/use-chat-history.ts:36-101 | every store operation keeps the invariant (non-empty, distinct ids, active id present), given a fresh id for a created chat |
| ChatHistory.RunKeepsValid | src/hooks/use-chat-history.ts:36-101 | any sequence of store operations keeps the invariant |
| ChatHistory.LifetimeInvariant | src/hooks/use-chat-history.ts:28-34 | from the mount effect on, the chat list is never empty and there is always an active chat |
| ChatInput.CommandsStartWithSlash | src/components/chat.tsx:105 | every command in the table starts with a slash, so the `startsWith('/')` test never changes the outcome of the lookup |
| ChatInput.SplitCommand | src/components/chat.tsx:102-103 | the command has no space; when the input has a space, command, one space and arguments rebuild it; otherwise the command is the whole input and the arguments are empty |
| ChatInput.Route | src/components/chat.tsx:49-69 | a line is a plain message exactly when its command is not in the table; a view command opens its capability with the arguments under the property that view reads; `/imagine` is an image request whose prompt is the arguments |
| ChatInput.Send | src/components/chat.tsx:88-129 | blank input with no image does nothing; with no active chat only the toast appears; a view command does not touch the store (the switch then unmounts the chat view); a pending call is tied to the chat active at send time; whenever the store changes, the input box and the image are cleared |
| ChatInput.Settle | src/components/chat.tsx:123-134 | a settled call appends exactly one assistant message, to the chat it was made from, and never changes the active id |
| ChatInput.VoiceSubmit | src/components/chat.tsx:147-150 | the typed text is kept as the start and the transcript ends the input; between them stands exactly one space character, or nothing when nothing was typed; recording stops and the image is kept |
| ChatInputProperties.SplitCommandOf | src/components/chat.tsx:102-103 | a head without spaces, one space and any rest split back into that head and that rest |
| ChatInputProperties.RouteCommandLine | src/components/chat.tsx:49-69 | a line made of a head, one space and arguments is routed by the head alone: each of the five commands to its target with the arguments verbatim, an unknown head to a plain message |
| ChatInputProperties.RouteSummarizeExample | src/components/chat.tsx:57-59 | "/summarize notes" opens Summarize with the text "notes" |
| ChatInputProperties.RouteUnknownExample | src/components/chat.tsx:66-67 | "/bogus hi" is sent as a plain message |
| ChatInputProperties.RoutePlainExample | src/components/chat.tsx:105 | "hi there" is sent as a plain message |
| ChatInputProperties.CommandLineNotBlank | src/components/chat.tsx:89 | a line naming a command starts with a slash, so the blank-input guard never stops it |
| ChatInputProperties.ImagineLine | src/components/chat.tsx:74 | for `/imagine` with a prompt, the stored user message `/imagine <prompt>` is exactly the line typed |
| ChatInputProperties.SendPlain | src/components/chat.tsx:110-129 | a plain message appends the user message with its attachment to the active chat and awaits a reply for that chat; the request carries the chat's earlier messages and settings |
| ChatInputProperties.SendImagine | src/components/chat.tsx:71-77 | `/imagine` with a prompt appends the command line and the "Generating image..." placeholder, then awaits the image for the active chat |
| ChatInputProperties.AppendTwice | src/hooks/use-chat-history.ts:73-95 | two messages added in turn to one chat end up in that order, with the chat first and the other chats in their old order |
| ChatInputProperties.PlainSendThenReply | src/components/chat.tsx:88-137 | a plain message yields exactly one user message and then one assistant message (the response, or the apology on failure) in the chat active at send time, which ends up first; the active id is unchanged |
| ChatInputProperties.ImagineSendThenSettle | src/components/chat.tsx:71-86 | `/imagine <prompt>` yields the user line, the placeholder, then the captioned image or the failure message, in that order; the placeholder is never removed |
| ChatInputProperties.BareImagineRoute | src/components/chat.tsx:102-103 | `/imagine`, with or without one trailing space, is an image request with an empty prompt |
| ChatInputProperties.ImagineWithoutPromptIsSwallowed | src/components/chat.tsx:72 | an image request with an empty prompt counts as handled: no message and no switch, only the input box is cleared |
| ChatInputProperties.ViewCommandSwitches | src/components/chat.tsx:105-107 | a view command appends nothing, clears the input box and switches to its view with the arguments as the seed |
| ChatInputProperties.SendKeepsIds | src/components/chat.tsx:88-138 | sending never adds or removes a chat |
| ChatInputProperties.LateReplyKeepsItsChat | src/components/chat.tsx:130 | on one shared store, a reply that arrives after the user switched chats still goes to the chat it was asked from, as its last message, and the chat switched to stays active |
| Screen.MountAsWritten | src/components/chat.tsx:24 | the chat view and the settings sheet each mount a store of their own, each valid, each with its own first chat active |
| Screen.SheetAsWritten | src/components/chat-settings.tsx:16-29 | a sheet action changes the sheet's store and leaves the chat view's store exactly as it was |
| Screen.FirstSendDefaults | src/hooks/use-chat-history.ts:16-34 | the first plain message from a freshly mounted store asks with the default persona and language |
| Screen.SheetPersonaMissesRequest | src/components/chat-settings.tsx:25-29 | as written: a persona chosen in the sheet shows in the sheet's active chat, while the chat view's next request still carries the default persona, whatever was chosen |
| Screen.UpdatedActive | src/hooks/use-chat-history.ts:97-103 | changing the active chat's settings keeps it active, with the supplied settings merged in |
| Screen.SharedSettingsReachRequest | src/components/chat.tsx:123-129 | on one shared store, the persona and language chosen for the active chat are the ones the next plain message's request carries |
| CodeForge.InitialShowsChat | src/components/code-forge.tsx:24-25 | the first render shows the chat, and no seed is pending |
| CodeForge.TabsCoverCapabilities | src/components/code-forge.tsx:15-21 | the tab bar lists every capability exactly once |
| CodeForge.SwitchTo | src/components/code-forge.tsx:27-30 | the switch callback sets the view and the seed together, and the rendered view receives exactly that seed |
| CodeForge.ClickTab | src/components/code-forge.tsx:58-61 | a tab click shows that view with the seed cleared, so the view finds nothing to take |
| CodeForge.Render | src/components/code-forge.tsx:32-47 | the chat is rendered exactly for Solve; every other capability renders its own view and passes it the current seed |
| CodeForge.RenderIsInjective | src/components/code-forge.tsx:34-44 | different capabilities render different components |
| CodeForge.ReadSeed | src/components/homework-helper.tsx:45 | a view takes a seed exactly when the seed has the property that view reads and its text is non-empty, and it takes that text |
| CodeForge.ConsumeSeed | src/components/homework-helper.tsx:44-50 | a seeded view takes exactly what `ReadSeed` gives for its own key (the seed's text when the seed has that key and is non-empty, otherwise nothing); a view that takes a seed clears it and stays active; a seed it does not read stays pending, unchanged; the chat never takes a seed |
| CodeForge.CommandKeysMatchViews | src/components/chat.tsx:51-62 | each view command fills exactly the seed property its target view reads |
| CodeForge.CommandSeedReachesView | src/components/chat.tsx:105-107 | after a view command, the target view takes the argument text once when it is non-empty, and the seed is then cleared; with empty arguments the seed stays unused |
| StudyBuddy.NextIndex | src/components/study-buddy.tsx:75 | "next" moves one card forward and wraps from the last card to the first |
| StudyBuddy.PrevIndex | src/components/study-buddy.tsx:82 | "previous" moves one card back and wraps from the first card to the last |
| StudyBuddy.NextPrevInverse | src/components/study-buddy.tsx:72-84 | on a valid index, next and previous undo each other |
| StudyBuddy.AdvanceRotates | src/components/study-buddy.tsx:75 | up to a full round (k ≤ n), k presses of "next" move k cards on, wrapping once past the end of the deck; a full round returns to the starting card |
| StudyBuddy.AdvanceAnyRounds | src/components/study-buddy.tsx:75 | any number k of presses of "next" from card i lands on card (i + k) mod n, however many rounds that takes |
| StudyBuddy.NextCard | src/components/study-buddy.tsx:72-77 | "next" turns the card face down, shows the next card and keeps the deck valid |
| StudyBuddy.PrevCard | src/components/study-buddy.tsx:79-84 | "previous" turns the card face down, shows the previous card and keeps the deck valid |
| StudyBuddy.NextThenPrev | src/components/study-buddy.tsx:72-84 | next then previous shows the same card again, face down |
| StudyBuddy.Submit | src/components/study-buddy.tsx:27-33 | a blank topic does nothing; otherwise the deck empties, returns to its start face down, and loads |
| StudyBuddy.Finish | src/components/study-buddy.tsx:35-55 | a non-empty set of cards replaces the deck; an empty set or a failure leaves it as it was; loading ends either way; validity is kept |
| StudyBuddy.ConsumeSeed | src/components/study-buddy.tsx:63-70 | a non-empty seed topic is copied into the input, submitted and cleared; a missing or empty seed does nothing |
| StudyBuddy.SeedUsedOnce | src/components/study-buddy.tsx:63-70 | consuming the seed a second time changes nothing |
| Markdown.CloseTick | src/components/markdown-renderer.tsx:39 | the lazy `.*?` stops at the first backtick after the opening one, provided no line terminator comes before it; it finds nothing exactly when no backtick is reached that way |
| Markdown.CloseTickAt | src/components/markdown-renderer.tsx:39 | a backtick reached without a line terminator and with no backtick before it is where the span closes |
| Markdown.SpanOfClose | src/components/markdown-renderer.tsx:39 | the text from an opening backtick to where it closes is a code span: backticks at both ends, and neither a backtick nor a line terminator between them |
| Markdown.OpenTick | src/components/markdown-renderer.tsx:39 | the match found is the leftmost: a match starts there, none starts earlier, and it closes at the first backtick after it; nothing is found exactly when no match starts anywhere at or after the position |
| Markdown.SplitCode | src/components/markdown-renderer.tsx:39 | the capturing split alternates text and code span, starts and ends with text, concatenates back to the line, and takes every span where the pattern first matches, so no match starts inside a text piece |
| Markdown.FirstSpan | src/components/markdown-renderer.tsx:39 | in leftmost pieces, a single text means the pattern never matches, and otherwise the second piece is the first match |
| Markdown.LeftmostUnique | src/components/markdown-renderer.tsx:39 | two leftmost alternations of the same line are equal |
| Markdown.SplitCodeUnique | src/components/markdown-renderer.tsx:39 | any pieces that alternate text and span, rebuild the line and take each span leftmost are exactly the split's pieces |
| Markdown.ClassifyAll | src/components/markdown-renderer.tsx:42-50 | each piece becomes one segment, in order: code when it starts and ends with a backtick, plain text otherwise |
| Markdown.SegmentsOfLine | src/components/markdown-renderer.tsx:39-50 | every span is shown as code, its text without the backticks and with no backtick inside; the segments give the line back unless some piece is a single backtick |
| Markdown.ReassembleClassified | src/components/markdown-renderer.tsx:43-50 | putting the backticks back around the code segments restores the pieces, when no piece is a lone backtick |
| Markdown.LoneBacktick | src/components/markdown-renderer.tsx:43-46 | a line that is one backtick is shown as an empty code segment, so its backtick disappears |
| Markdown.BlocksOfAccount | src/components/markdown-renderer.tsx:22-56 | the blocks of every prefix of the lines hold every bullet text in order, one non-empty list per maximal run of bullet lines, and one paragraph per other non-blank line, in order, and nothing else |
| Markdown.ContinueRunAccounted | src/components/markdown-renderer.tsx:24-25 | a bullet line right after a bullet line adds its text to the last list and to nothing else |
| Markdown.StartRunAccounted | src/components/markdown-renderer.tsx:24-25 | a bullet line after any other line, or first, opens one more list |
| Markdown.ParagraphAccounted | src/components/markdown-renderer.tsx:37-53 | a non-blank line that is not a bullet adds one paragraph of its segments |
| Markdown.BlankAccounted | src/components/markdown-renderer.tsx:37 | a blank line adds no block |
| Markdown.ExtendLastList | src/components/markdown-renderer.tsx:24-25 | adding an item to the last list adds it to the items only, and keeps every list non-empty |
| Markdown.GroupLineFollowsBlocksOf | src/components/markdown-renderer.tsx:22-56 | after each line, the blocks emitted with the pending list closed onto them are the blocks of the lines so far, and a list is pending exactly when the last line was a bullet |
| Markdown.Render | src/components/markdown-renderer.tsx:16-67 | the blocks are those of all the lines, in document order: each maximal run of bullet lines is one list of exactly that run's texts, each other non-blank line one paragraph of its segments; hence every bullet text in order, one non-empty list per run, one paragraph per other non-blank line, and nothing else |
| MarkdownExamples.ParagraphThenList | src/components/markdown-renderer.tsx:22-56 | a paragraph line followed by a bullet gives the paragraph first, then the list |
| MarkdownExamples.BlankEndsList | src/components/markdown-renderer.tsx:27-37 | two bullets, a blank line and a bullet give two lists, the first with both texts and the second with the last |
| MarkdownExamples.FirstTicksPair | src/components/markdown-renderer.tsx:39 | in "`a`b`" the first two backticks close a span and the third stays in the text after it |

## Left out

- The AI flows (`handleChatConversation`, `generatePicture`, `studyBuddy` and the
  flows of the other views) are remote AI flows, whose results are parameters:
  `Outcome` and `Generation`.
- Toasts, `console` output, the spinners drawn from `isSending` and `isLoading`
  (the `isLoading` flag itself is `StudyBuddy.Deck.loading`), scrolling,
  and the `FileReader` that turns an upload into a data URI are presentation
  or I/O. Their only effect on state, the attached image, is the
  `Composer.image` field.
- The image part of a chat request is simplified. `ChatRequest.image` is the
  attachment as it was attached. The source (chat.tsx:113-121) sends an image
  only when the attachment is a non-empty string matching `^data:(.*);base64,`
  with a non-empty content type, and then sends the URI and that content
  type. Any other attachment is still stored with the user message, but is
  left out of the request.
- Chat settings travel with the chat and are part of the request, but a
  reply's dependence on persona and language is not modelled.
- Bold and italic substitution and the `dangerouslySetInnerHTML` rendering of
  a segment (markdown-renderer.tsx:6-13) are not modelled. Segments keep their
  raw text.
- The 150 ms `setTimeout` before the card index moves (study-buddy.tsx:74-76,
  81-83) is not modelled. The face-down flip and the new index are one step.
  This hides a race: the timer computes the index from the deck length its
  closure captured, so a topic submitted within those 150 ms can have its
  reset index 0 moved to 1 by the old deck's length, and with a one-card new
  deck `flashcards[1]` (study-buddy.tsx:128) is undefined. `StudyBuddy.Valid`
  after `NextCard` and `PrevCard` holds only because that window is absent.
- The store lives for one mount of the chat view. `CodeForge` renders `Chat`
  only for Solve (code-forge.tsx:32-47), so a tab click (code-forge.tsx:58-61)
  or a `/study`, `/explain`, `/summarize` or `/idea` command unmounts it, and
  nothing persists the chats: `CHAT_HISTORY_KEY` (use-chat-history.ts:8) is
  never used. Going back to Solve starts from `[]` and `null` again and the
  mount effect creates one fresh chat, so every view switch discards all chats
  and any pending reply. The store properties hold within one mount.
- React's state batching and stale closures are not modelled. For example,
  `deleteChat` compares with the `activeChatId` of its last render. Each
  model operation works on the current store.
- One shared store is assumed everywhere except in `Screen`. The source has
  two (see Findings). So the interleavings that put a sheet action between a
  send and its reply are ones the code as written cannot produce:
  `ChatInputProperties.LateReplyKeepsItsChat`, and settings changed with
  `UpdateChatSettings` reaching a request. They state what the store
  guarantees once it is shared.
- The `title` parameter of `createNewChat` is never passed by any caller, so
  the model always uses "New Chat".
- `ChatHistory.UpdateSettings`: a settings object whose field is present but
  `undefined` overwrites that field in JavaScript. The model only has
  "supplied" and "absent".
- `ChatHistory.DeriveTitle`: lengths count Unicode characters, not the UTF-16
  code units that JavaScript's `length` and `substring` count, so a title
  that cuts a surrogate pair is not modelled.
- `DEFAULT_PERSONA` and `DEFAULT_LANGUAGE`: src/lib/constants is not part of
  this model, so their text is unknown. They are constants of unspecified
  value.
- The thin seeded views (homework helper, explain, summarize, get idea) are
  modelled only by the seed they read (line 45 of each). Their forms and
  remote calls are left out.
- Flashcards are not reachable from the tab bar: no capability renders
  `study-buddy.tsx`, and there is no `/flashcards` command. The flashcard view
  is modelled on its own.
- Markdown `Render` returns block values, not React elements. Element keys
  and CSS classes are left out.

## Findings

| source | as written | input that shows it | evidently intended | confidence | as-written member | corrected member |
|---|---|---|---|---|---|---|
| src/components/chat-settings.tsx:16-23 | the settings sheet calls `useChatHistory()` itself, and so does the chat view (chat.tsx:24); the hook's state is per mount, so the sheet acts on a second store of its own | mount the chat view, choose a persona other than the default in its settings sheet, then send "hi" | the sheet, rendered in the chat view's header, changes the chat the view shows, and the next request carries the chosen persona | high, not executed | Screen.SheetPersonaMissesRequest | Screen.SharedSettingsReachRequest |
