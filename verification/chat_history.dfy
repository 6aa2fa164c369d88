/** The chat-session store of src/hooks/use-chat-history.ts: a list of chats
    in display order (most recently created or messaged first) and the id of the active
    chat. Each operation of the hook is a pure transition over that pair;
    fresh ids and time stamps are parameters. */
module ChatHistory {
  import opened Wrappers
  import opened Types

  /** The DEFAULT_PERSONA and DEFAULT_LANGUAGE constants. Their module
      (src/lib/constants) is not part of this model, so they are fixed
      strings whose text the model does not know. */
  const DefaultPersona: string
  const DefaultLanguage: string

  const NewChatTitle := "New Chat"

  /** A derived title keeps at most this many characters of the message... */
  const TitleLength := 30
  /** ...and ends in this marker when it had to cut the message short. */
  const Ellipsis := "..."

  datatype Store = Store(chats: seq<Chat>, activeId: Option<ChatId>)

  function Ids(chats: seq<Chat>): set<ChatId> {
    set c | c in chats :: c.id
  }

  predicate UniqueIds(chats: seq<Chat>) {
    forall i, j | 0 <= i < j < |chats| :: chats[i].id != chats[j].id
  }

  /** The store invariant: at least one chat, ids distinct, and the active id
      names one of the chats. */
  predicate Valid(s: Store) {
    && |s.chats| > 0
    && s.activeId.Some?
    && s.activeId.value in Ids(s.chats)
    && UniqueIds(s.chats)
  }

  /** `createNewChat()`: the title argument is always left at its default. */
  function NewChat(id: ChatId, createdAt: string): Chat {
    Chat(id, NewChatTitle, createdAt, [], DefaultPersona, DefaultLanguage)
  }

  /** A chat the store has just created: default title and settings, no
      messages. */
  predicate IsFresh(c: Chat, id: ChatId) {
    && c.id == id
    && c.title == NewChatTitle
    && c.messages == []
    && c.persona == DefaultPersona
    && c.language == DefaultLanguage
  }

  /** The mount effect: the store starts over with a single new chat, which
      is active. */
  function Init(id: ChatId, createdAt: string): (s: Store)
    ensures Valid(s)
    ensures |s.chats| == 1 && IsFresh(s.chats[0], id)
    ensures ActiveChat(s) == Some(s.chats[0])
  {
    Store([NewChat(id, createdAt)], Some(id))
  }

  /** `chats.findIndex(chat => chat.id === id)`, with `None` for -1. */
  function FindIndex(chats: seq<Chat>, id: ChatId): (r: Option<nat>)
    ensures r.None? <==> id !in Ids(chats)
    ensures r.Some? ==> r.value < |chats| && chats[r.value].id == id
    ensures r.Some? ==> forall j | 0 <= j < r.value :: chats[j].id != id
  {
    if |chats| == 0 then None
    else if chats[0].id == id then Some(0)
    else
      match FindIndex(chats[1..], id)
      case None =>
        assert Ids(chats) == {chats[0].id} + Ids(chats[1..]) by {
          assert forall c | c in chats :: c == chats[0] || c in chats[1..];
        }
        None
      case Some(k) => Some(k + 1)
  }

  /** `activeChat`: the first chat whose id is the active id, if any. */
  function ActiveChat(s: Store): (r: Option<Chat>)
    ensures r.Some? <==> s.activeId.Some? && s.activeId.value in Ids(s.chats)
    ensures r.Some? ==> r.value in s.chats && r.value.id == s.activeId.value
    ensures Valid(s) ==> r.Some?
  {
    match s.activeId
    case None => None
    case Some(id) =>
      match FindIndex(s.chats, id)
      case None => None
      case Some(k) => Some(s.chats[k])
  }

  /** `createChat`: a new chat goes to the front and becomes active; the
      chats already there follow it in their old order. */
  function CreateChat(s: Store, id: ChatId, createdAt: string): (r: Store)
    ensures |r.chats| == |s.chats| + 1
    ensures IsFresh(r.chats[0], id) && r.chats[1..] == s.chats
    ensures r.activeId == Some(id)
    ensures ActiveChat(r) == Some(r.chats[0])
  {
    Store([NewChat(id, createdAt)] + s.chats, Some(id))
  }

  /** `chats.filter(chat => chat.id !== id)`: no chat left has the id. */
  function WithoutId(chats: seq<Chat>, id: ChatId): (r: seq<Chat>)
    ensures |r| <= |chats|
    ensures forall k | 0 <= k < |r| :: r[k].id != id
  {
    if |chats| == 0 then []
    else if chats[0].id == id then WithoutId(chats[1..], id)
    else
      var rest := WithoutId(chats[1..], id);
      assert forall k | 1 <= k < |rest| + 1 :: ([chats[0]] + rest)[k] == rest[k - 1];
      [chats[0]] + rest
  }

  /** With distinct ids, the first chat's id occurs nowhere after it. */
  lemma HeadIdNotInTail(chats: seq<Chat>)
    requires |chats| > 0 && UniqueIds(chats)
    ensures chats[0].id !in Ids(chats[1..])
  {
    forall c | c in chats[1..] ensures c.id != chats[0].id {
      var j :| 0 <= j < |chats[1..]| && chats[1..][j] == c;
      assert c == chats[j + 1];
    }
  }

  /** Distinct ids stay distinct in the tail. */
  lemma TailUnique(chats: seq<Chat>)
    requires |chats| > 0 && UniqueIds(chats)
    ensures UniqueIds(chats[1..])
  {
    forall i, j | 0 <= i < j < |chats[1..]| ensures chats[1..][i].id != chats[1..][j].id {
      assert chats[1..][i] == chats[i + 1] && chats[1..][j] == chats[j + 1];
    }
  }

  /** The ids of a non-empty list: the first chat's and those of the rest. */
  lemma IdsCons(chats: seq<Chat>)
    requires |chats| > 0
    ensures Ids(chats) == {chats[0].id} + Ids(chats[1..])
  {
    assert forall c | c in chats :: c == chats[0] || c in chats[1..];
  }

  lemma IdsPrepend(h: Chat, rest: seq<Chat>)
    ensures Ids([h] + rest) == {h.id} + Ids(rest)
  {
    IdsCons([h] + rest);
    assert ([h] + rest)[1..] == rest;
  }

  lemma IdsConcat(a: seq<Chat>, b: seq<Chat>)
    ensures Ids(a + b) == Ids(a) + Ids(b)
  {
    assert forall c | c in a + b :: c in a || c in b;
  }

  /** A chat whose id is new in front of a list of distinct ids. */
  lemma UniquePrepend(h: Chat, rest: seq<Chat>)
    requires UniqueIds(rest) && h.id !in Ids(rest)
    ensures UniqueIds([h] + rest)
  {
    var r := [h] + rest;
    forall i, j | 0 <= i < j < |r| ensures r[i].id != r[j].id {
      assert r[j] == rest[j - 1];
      if i > 0 { assert r[i] == rest[i - 1]; } else { assert rest[j - 1] in rest; }
    }
  }

  /** Two lists with the same ids position by position have the same ids,
      and the same distinctness. */
  lemma SameIds(a: seq<Chat>, b: seq<Chat>)
    requires |a| == |b| && forall i | 0 <= i < |a| :: a[i].id == b[i].id
    ensures Ids(a) == Ids(b)
    ensures UniqueIds(a) ==> UniqueIds(b)
  {
    forall c | c in a ensures c.id in Ids(b) {
      var i :| 0 <= i < |a| && a[i] == c;
      assert b[i] in b;
    }
    forall c | c in b ensures c.id in Ids(a) {
      var i :| 0 <= i < |b| && b[i] == c;
      assert a[i] in a;
    }
  }

  /** The filter takes the id out of the set of ids, and keeps distinct ids
      distinct. */
  lemma {:induction false} WithoutIdIds(chats: seq<Chat>, id: ChatId)
    ensures Ids(WithoutId(chats, id)) == Ids(chats) - {id}
    ensures UniqueIds(chats) ==> UniqueIds(WithoutId(chats, id))
  {
    if |chats| > 0 {
      var rest := WithoutId(chats[1..], id);
      WithoutIdIds(chats[1..], id);
      IdsCons(chats);
      if UniqueIds(chats) {
        TailUnique(chats);
        HeadIdNotInTail(chats);
      }
      if chats[0].id != id {
        IdsPrepend(chats[0], rest);
        if UniqueIds(chats) {
          UniquePrepend(chats[0], rest);
        }
      }
    }
  }

  /** With distinct ids, the filter removes exactly the one chat with that
      id and keeps the others in order; an unknown id removes nothing. */
  lemma {:induction false} WithoutIdRemovesOne(chats: seq<Chat>, id: ChatId)
    requires UniqueIds(chats)
    ensures id !in Ids(chats) ==> WithoutId(chats, id) == chats
    ensures id in Ids(chats) ==>
      var k := FindIndex(chats, id).value;
      WithoutId(chats, id) == chats[..k] + chats[k + 1..]
  {
    if |chats| > 0 {
      TailUnique(chats);
      WithoutIdRemovesOne(chats[1..], id);
      IdsCons(chats);
      if chats[0].id == id {
        HeadIdNotInTail(chats);
        RemoveHead(chats, id);
      } else {
        RemoveBehindHead(chats, id);
      }
    }
  }

  /** The filter on a list whose first chat has the id, and no other. */
  lemma RemoveHead(chats: seq<Chat>, id: ChatId)
    requires |chats| > 0 && chats[0].id == id
    requires WithoutId(chats[1..], id) == chats[1..]
    ensures FindIndex(chats, id) == Some(0)
    ensures WithoutId(chats, id) == chats[..0] + chats[1..]
  {
    assert chats[..0] + chats[1..] == chats[1..];
  }

  /** The filter on a list whose first chat keeps its place, given what it
      does on the rest. */
  lemma RemoveBehindHead(chats: seq<Chat>, id: ChatId)
    requires |chats| > 0 && chats[0].id != id
    requires Ids(chats) == {chats[0].id} + Ids(chats[1..])
    requires id !in Ids(chats[1..]) ==> WithoutId(chats[1..], id) == chats[1..]
    requires id in Ids(chats[1..]) ==>
      var k := FindIndex(chats[1..], id).value;
      WithoutId(chats[1..], id) == chats[1..][..k] + chats[1..][k + 1..]
    ensures id !in Ids(chats) ==> WithoutId(chats, id) == chats
    ensures id in Ids(chats) ==>
      var k := FindIndex(chats, id).value;
      WithoutId(chats, id) == chats[..k] + chats[k + 1..]
  {
    assert WithoutId(chats, id) == [chats[0]] + WithoutId(chats[1..], id);
    if id in Ids(chats) {
      var k := FindIndex(chats[1..], id).value;
      assert FindIndex(chats, id) == Some(k + 1);
      RemoveBehindHeadAt(chats, k);
    } else {
      assert [chats[0]] + chats[1..] == chats;
    }
  }

  lemma RemoveBehindHeadAt(chats: seq<Chat>, k: nat)
    requires |chats| > 0 && k + 1 < |chats|
    ensures [chats[0]] + (chats[1..][..k] + chats[1..][k + 1..]) == chats[..k + 1] + chats[k + 2..]
  {
    assert chats[..k + 1] == [chats[0]] + chats[1..][..k];
    assert chats[k + 2..] == chats[1..][k + 1..];
  }

  /** `deleteChat`: the chat is removed. Deleting the active chat activates
      the first chat that remains, or, when none remains, replaces the list
      with one new chat, which becomes active. Deleting any other chat leaves
      the active id alone. */
  function DeleteChat(s: Store, id: ChatId, freshId: ChatId, createdAt: string): (r: Store)
    ensures s.activeId != Some(id) ==>
      r.activeId == s.activeId && r.chats == WithoutId(s.chats, id)
    ensures s.activeId == Some(id) && |WithoutId(s.chats, id)| > 0 ==>
      r.chats == WithoutId(s.chats, id) && r.activeId == Some(r.chats[0].id)
    ensures s.activeId == Some(id) && |WithoutId(s.chats, id)| == 0 ==>
      |r.chats| == 1 && IsFresh(r.chats[0], freshId) && r.activeId == Some(freshId)
    ensures Ids(r.chats) == Ids(s.chats) - {id} || r.chats == [NewChat(freshId, createdAt)]
  {
    WithoutIdIds(s.chats, id);
    var remaining := WithoutId(s.chats, id);
    if s.activeId == Some(id) then
      if |remaining| > 0 then Store(remaining, Some(remaining[0].id))
      else
        var replacement := NewChat(freshId, createdAt);
        Store([replacement], Some(replacement.id))
    else
      Store(remaining, s.activeId)
  }

  /** Deleting the active chat of a valid store activates the chat that was
      first in display order, or the second one when the active chat was
      itself first; an empty list is replaced by a single new chat. */
  lemma DeleteActiveReselects(s: Store, freshId: ChatId, createdAt: string)
    requires Valid(s)
    ensures var r := DeleteChat(s, s.activeId.value, freshId, createdAt);
      && (|s.chats| == 1 ==> r.chats == [NewChat(freshId, createdAt)] && r.activeId == Some(freshId))
      && (|s.chats| > 1 && s.chats[0].id == s.activeId.value ==> r.activeId == Some(s.chats[1].id))
      && (|s.chats| > 1 && s.chats[0].id != s.activeId.value ==> r.activeId == Some(s.chats[0].id))
      && |r.chats| == if |s.chats| == 1 then 1 else |s.chats| - 1
  {
    var id := s.activeId.value;
    WithoutIdRemovesOne(s.chats, id);
    var k := FindIndex(s.chats, id).value;
    if k == 0 && |s.chats| > 1 {
      assert WithoutId(s.chats, id)[0] == s.chats[1];
    }
  }

  /** `loadChat`: the active id moves to `id` only when a chat with that id
      exists; otherwise (the not-found toast) the store stays as it was. */
  function LoadChat(s: Store, id: ChatId): (r: Store)
    ensures r.chats == s.chats
    ensures id in Ids(s.chats) ==> r.activeId == Some(id)
    ensures id !in Ids(s.chats) ==> r == s
  {
    if id in Ids(s.chats) then s.(activeId := Some(id)) else s
  }

  /** The title derived from a first user message: its first 30 characters,
      followed by "..." exactly when the message is longer than that. */
  function DeriveTitle(content: string): (t: string)
    ensures |content| <= TitleLength ==> t == content
    ensures |content| > TitleLength ==>
      |t| == TitleLength + |Ellipsis| && t[..TitleLength] == content[..TitleLength]
      && t[TitleLength..] == Ellipsis
  {
    var n := if |content| < TitleLength then |content| else TitleLength;
    content[..n] + (if |content| > TitleLength then Ellipsis else "")
  }

  /** The chat `c` after `msg` has been appended to it. */
  function WithMessage(c: Chat, msg: Message): Chat {
    var title := if |c.messages| == 0 && msg.role == User then DeriveTitle(msg.content) else c.title;
    c.(messages := c.messages + [msg], title := title)
  }

  /** `addMessage` on the list: the list keeps its length, and an unknown id
      changes nothing. */
  function AppendMessage(chats: seq<Chat>, chatId: ChatId, msg: Message): (r: seq<Chat>)
    ensures |r| == |chats|
    ensures chatId !in Ids(chats) ==> r == chats
  {
    match FindIndex(chats, chatId)
    case None => chats
    case Some(k) => [WithMessage(chats[k], msg)] + (chats[..k] + chats[k + 1..])
  }

  /** `addMessage` on a known id: the message goes to the end of that chat's
      messages, the chat moves to the front, and the other chats keep their
      order. Only the first message of a chat, and only a user message, sets
      the title; nothing else of the chat changes. */
  lemma AppendMessageMovesToFront(chats: seq<Chat>, chatId: ChatId, msg: Message)
    requires chatId in Ids(chats)
    ensures var k := FindIndex(chats, chatId).value;
      var r := AppendMessage(chats, chatId, msg);
      && r[0].id == chatId
      && r[0].messages == chats[k].messages + [msg]
      && r[0].createdAt == chats[k].createdAt
      && r[0].persona == chats[k].persona && r[0].language == chats[k].language
      && r[1..] == chats[..k] + chats[k + 1..]
    ensures var c := chats[FindIndex(chats, chatId).value];
      var r := AppendMessage(chats, chatId, msg);
      && (c.messages == [] && msg.role == User ==> r[0].title == DeriveTitle(msg.content))
      && (c.messages != [] || msg.role == Assistant ==> r[0].title == c.title)
  {
    var k := FindIndex(chats, chatId).value;
    var others := chats[..k] + chats[k + 1..];
    assert AppendMessage(chats, chatId, msg) == [WithMessage(chats[k], msg)] + others;
    assert ([WithMessage(chats[k], msg)] + others)[1..] == others;
  }

  /** Moving a chat to the front keeps the set of ids and their
      distinctness. */
  lemma AppendMessageKeepsIds(chats: seq<Chat>, chatId: ChatId, msg: Message)
    ensures Ids(AppendMessage(chats, chatId, msg)) == Ids(chats)
    ensures UniqueIds(chats) ==> UniqueIds(AppendMessage(chats, chatId, msg))
  {
    if chatId in Ids(chats) {
      var k := FindIndex(chats, chatId).value;
      var others := chats[..k] + chats[k + 1..];
      var r := AppendMessage(chats, chatId, msg);
      SameIds([chats[k]] + others, r);
      MoveToFrontKeepsIds(chats, k);
      if UniqueIds(chats) {
        MoveToFrontUnique(chats, k);
      }
    }
  }

  /** Where the chat at position `m` of the list with the chat at `k` moved
      to the front came from. */
  function FrontPosition(m: nat, k: nat): nat {
    if m == 0 then k else if m - 1 < k then m - 1 else m
  }

  lemma MoveToFrontKeepsIds(chats: seq<Chat>, k: nat)
    requires k < |chats|
    ensures Ids([chats[k]] + (chats[..k] + chats[k + 1..])) == Ids(chats)
  {
    assert chats == chats[..k] + ([chats[k]] + chats[k + 1..]);
    IdsConcat(chats[..k], [chats[k]] + chats[k + 1..]);
    IdsPrepend(chats[k], chats[k + 1..]);
    IdsPrepend(chats[k], chats[..k] + chats[k + 1..]);
    IdsConcat(chats[..k], chats[k + 1..]);
  }

  lemma MoveToFrontUnique(chats: seq<Chat>, k: nat)
    requires k < |chats| && UniqueIds(chats)
    ensures UniqueIds([chats[k]] + (chats[..k] + chats[k + 1..]))
  {
    var t := [chats[k]] + (chats[..k] + chats[k + 1..]);
    assert forall m | 0 <= m < |t| :: t[m] == chats[FrontPosition(m, k)];
    forall i, j | 0 <= i < j < |t| ensures t[i].id != t[j].id {
      var a, b := FrontPosition(i, k), FrontPosition(j, k);
      assert a != b;
      if a < b { assert chats[a].id != chats[b].id; } else { assert chats[b].id != chats[a].id; }
    }
  }

  /** Appending to the chat that is already first changes only that chat:
      the order of the list stays as it is. */
  lemma AppendAtFront(chats: seq<Chat>, chatId: ChatId, msg: Message)
    requires |chats| > 0 && chats[0].id == chatId
    ensures AppendMessage(chats, chatId, msg) == [WithMessage(chats[0], msg)] + chats[1..]
  {
    assert FindIndex(chats, chatId) == Some(0);
    assert chats[..0] + chats[1..] == chats[1..];
  }

  /** `addMessage` on the store: the active id is not touched. */
  function AddMessage(s: Store, chatId: ChatId, msg: Message): (r: Store)
    ensures r.activeId == s.activeId
    ensures r.chats == AppendMessage(s.chats, chatId, msg)
  {
    s.(chats := AppendMessage(s.chats, chatId, msg))
  }

  /** The chat `c` with the supplied settings merged in. */
  function MergeSettings(c: Chat, persona: Option<string>, language: Option<string>): Chat {
    c.(persona := persona.GetOr(c.persona), language := language.GetOr(c.language))
  }

  /** `updateChatSettings`: every chat with the id gets the supplied persona
      and language (an absent field keeps the old value); everything else,
      the order included, is untouched. */
  function UpdateSettings(chats: seq<Chat>, id: ChatId, persona: Option<string>, language: Option<string>)
    : (r: seq<Chat>)
    ensures |r| == |chats|
    ensures forall i | 0 <= i < |chats| :: chats[i].id != id ==> r[i] == chats[i]
    ensures forall i | 0 <= i < |chats| :: chats[i].id == id ==>
      && r[i].id == id && r[i].title == chats[i].title
      && r[i].createdAt == chats[i].createdAt && r[i].messages == chats[i].messages
      && (persona.Some? ==> r[i].persona == persona.value)
      && (persona.None? ==> r[i].persona == chats[i].persona)
      && (language.Some? ==> r[i].language == language.value)
      && (language.None? ==> r[i].language == chats[i].language)
  {
    if |chats| == 0 then []
    else
      var head := if chats[0].id == id then MergeSettings(chats[0], persona, language) else chats[0];
      [head] + UpdateSettings(chats[1..], id, persona, language)
  }

  /** Updating settings keeps every id in its place. */
  lemma UpdateSettingsKeepsIds(chats: seq<Chat>, id: ChatId, persona: Option<string>, language: Option<string>)
    ensures var r := UpdateSettings(chats, id, persona, language);
      Ids(r) == Ids(chats) && (UniqueIds(chats) ==> UniqueIds(r))
  {
    SameIds(chats, UpdateSettings(chats, id, persona, language));
  }

  /** The chat with the id is found where it was before, now with the
      supplied settings merged in. */
  lemma {:induction false} UpdateSettingsFound(chats: seq<Chat>, id: ChatId, persona: Option<string>, language: Option<string>)
    ensures var r := UpdateSettings(chats, id, persona, language);
      && FindIndex(r, id) == FindIndex(chats, id)
      && (FindIndex(chats, id).Some? ==>
            r[FindIndex(chats, id).value] == MergeSettings(chats[FindIndex(chats, id).value], persona, language))
  {
    if |chats| > 0 && chats[0].id != id {
      UpdateSettingsFound(chats[1..], id, persona, language);
      var r := UpdateSettings(chats, id, persona, language);
      assert r[1..] == UpdateSettings(chats[1..], id, persona, language);
    }
  }

  function UpdateChatSettings(s: Store, id: ChatId, persona: Option<string>, language: Option<string>)
    : (r: Store)
    ensures r.activeId == s.activeId
    ensures r.chats == UpdateSettings(s.chats, id, persona, language)
  {
    s.(chats := UpdateSettings(s.chats, id, persona, language))
  }

  /** One call into the store. */
  datatype Event =
    | Create(id: ChatId, createdAt: string)
    | Delete(id: ChatId, freshId: ChatId, createdAt: string)
    | Load(id: ChatId)
    | Add(chatId: ChatId, msg: Message)
    | Update(chatId: ChatId, persona: Option<string>, language: Option<string>)

  function Apply(s: Store, e: Event): Store {
    match e
    case Create(id, at) => CreateChat(s, id, at)
    case Delete(id, freshId, at) => DeleteChat(s, id, freshId, at)
    case Load(id) => LoadChat(s, id)
    case Add(chatId, msg) => AddMessage(s, chatId, msg)
    case Update(chatId, p, l) => UpdateChatSettings(s, chatId, p, l)
  }

  /** `crypto.randomUUID` never repeats an id the store holds. */
  predicate FreshFor(s: Store, e: Event) {
    e.Create? ==> e.id !in Ids(s.chats)
  }

  function Run(s: Store, events: seq<Event>): Store
    decreases |events|
  {
    if |events| == 0 then s else Run(Apply(s, events[0]), events[1..])
  }

  predicate FreshAlong(s: Store, events: seq<Event>)
    decreases |events|
  {
    |events| == 0 || (FreshFor(s, events[0]) && FreshAlong(Apply(s, events[0]), events[1..]))
  }

  /** Every operation keeps the store invariant, given a fresh id for a new
      chat. */
  lemma StepKeepsValid(s: Store, e: Event)
    requires Valid(s) && FreshFor(s, e)
    ensures Valid(Apply(s, e))
  {
    match e
    case Create(id, at) =>
      IdsPrepend(NewChat(id, at), s.chats);
      UniquePrepend(NewChat(id, at), s.chats);
    case Delete(id, freshId, at) =>
      WithoutIdIds(s.chats, id);
      var r := DeleteChat(s, id, freshId, at);
      assert r.chats[0] in r.chats;
    case Load(id) =>
    case Add(chatId, msg) =>
      AppendMessageKeepsIds(s.chats, chatId, msg);
    case Update(chatId, p, l) =>
      UpdateSettingsKeepsIds(s.chats, chatId, p, l);
  }

  /** Any sequence of store operations with fresh ids keeps the invariant. */
  lemma {:induction false} RunKeepsValid(s: Store, events: seq<Event>)
    requires Valid(s) && FreshAlong(s, events)
    ensures Valid(Run(s, events))
    decreases |events|
  {
    if |events| > 0 {
      StepKeepsValid(s, events[0]);
      RunKeepsValid(Apply(s, events[0]), events[1..]);
    }
  }

  /** From the mount effect on, the list is never empty and there is always
      an active chat. */
  lemma LifetimeInvariant(id: ChatId, createdAt: string, events: seq<Event>)
    requires FreshAlong(Init(id, createdAt), events)
    ensures var s := Run(Init(id, createdAt), events);
      |s.chats| > 0 && ActiveChat(s).Some?
  {
    RunKeepsValid(Init(id, createdAt), events);
  }
}
