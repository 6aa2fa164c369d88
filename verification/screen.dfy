/** The chat view and its settings sheet, and which chat store each of them
    holds. The sheet is rendered in the chat view's header
    (src/components/chat.tsx:159), yet each component calls
    `useChatHistory()` for itself (chat.tsx:24, chat-settings.tsx:23), and
    the hook keeps its chats in component state with no shared provider and
    no storage: the two mounts are two stores. What the sheet does (create,
    delete, load, change persona or language) reaches only its own store,
    while the chat view reads and writes the other one. The rest of the
    model assumes the single shared store the sheet evidently means to act
    on; `SheetAsWritten` and its lemma record the code as it stands. */
module Screen {
  import opened Wrappers
  import opened Text
  import opened Types
  import opened ChatHistory
  import opened ChatInput
  import opened ChatInputProperties

  /** The two stores the code mounts: the chat view's and the sheet's. */
  datatype Mounted = Mounted(chatView: Store, sheet: Store)

  /** Both mount effects run, each creating its own first chat. */
  function MountAsWritten(viewId: ChatId, sheetId: ChatId, createdAt: string): (m: Mounted)
    ensures Valid(m.chatView) && Valid(m.sheet)
    ensures ActiveChat(m.chatView).value.id == viewId
    ensures ActiveChat(m.sheet).value.id == sheetId
  {
    Mounted(Init(viewId, createdAt), Init(sheetId, createdAt))
  }

  /** A sheet action as the code has it: it changes the sheet's store and
      leaves the chat view's store as it was. */
  function SheetAsWritten(m: Mounted, e: Event): (r: Mounted)
    ensures r.chatView == m.chatView
    ensures r.sheet == Apply(m.sheet, e)
  {
    m.(sheet := Apply(m.sheet, e))
  }

  /** A plain, non-blank message. */
  predicate PlainMessage(c: Composer) {
    !IsBlank(c.input) && Route(c.input).Plain?
  }

  /** Changing the settings of the active chat leaves it active, with the
      new settings merged in. */
  lemma UpdatedActive(s: Store, persona: Option<string>, language: Option<string>)
    requires ActiveChat(s).Some?
    ensures var chat := ActiveChat(s).value;
      ActiveChat(UpdateChatSettings(s, chat.id, persona, language)) == Some(MergeSettings(chat, persona, language))
  {
    var chat := ActiveChat(s).value;
    UpdateSettingsFound(s.chats, chat.id, persona, language);
  }

  /** A plain message sent from a freshly mounted store asks with the
      default persona and language. */
  lemma FirstSendDefaults(id: ChatId, createdAt: string, c: Composer)
    requires PlainMessage(c)
    ensures var sent := Send(Init(id, createdAt), c);
      && sent.effect.Await? && sent.effect.pending.AwaitReply?
      && sent.effect.pending.request.persona == DefaultPersona
      && sent.effect.pending.request.language == DefaultLanguage
  {
    SendPlain(Init(id, createdAt), c);
  }

  /** As written: after the mount, a persona chosen in the sheet shows in
      the sheet's active chat, but the next message the chat view sends
      still carries the default persona, whatever was chosen. */
  lemma SheetPersonaMissesRequest(viewId: ChatId, sheetId: ChatId, createdAt: string, p: string, c: Composer)
    requires PlainMessage(c)
    ensures var m := MountAsWritten(viewId, sheetId, createdAt);
      var r := SheetAsWritten(m, Update(sheetId, Some(p), None));
      var sent := Send(r.chatView, c);
      && ActiveChat(r.sheet).Some? && ActiveChat(r.sheet).value.persona == p
      && sent.effect.Await? && sent.effect.pending.AwaitReply?
      && sent.effect.pending.request.persona == DefaultPersona
  {
    var m := MountAsWritten(viewId, sheetId, createdAt);
    var r := SheetAsWritten(m, Update(sheetId, Some(p), None));
    assert r.chatView == Init(viewId, createdAt);
    assert r.sheet == UpdateChatSettings(m.sheet, ActiveChat(m.sheet).value.id, Some(p), None);
    UpdatedActive(m.sheet, Some(p), None);
    FirstSendDefaults(viewId, createdAt, c);
  }

  /** With one shared store, as intended: a persona or language chosen for
      the active chat is what the next plain message's request carries. */
  lemma SharedSettingsReachRequest(s: Store, persona: Option<string>, language: Option<string>, c: Composer)
    requires ActiveChat(s).Some? && PlainMessage(c)
    ensures var chat := ActiveChat(s).value;
      var sent := Send(UpdateChatSettings(s, chat.id, persona, language), c);
      && sent.effect.Await? && sent.effect.pending.AwaitReply?
      && sent.effect.pending.request.persona == persona.GetOr(chat.persona)
      && sent.effect.pending.request.language == language.GetOr(chat.language)
  {
    var chat := ActiveChat(s).value;
    UpdatedActive(s, persona, language);
    SendPlain(UpdateChatSettings(s, chat.id, persona, language), c);
  }
}
