/**
 * The action handlers of the customer-service feature. Each maps the tab's state
 * to a new one; the calls a handler makes to the messaging API, to other actions
 * and to local storage are returned beside the state as `Effect`s, in order.
 * `now` is the value of `Date.now()` and `knownChats` the chats `selectChat` finds.
 */
module TriageActions {
  import opened Common
  import opened CsTypes
  import opened DateOrder
  import Selectors
  import FilterConfig

  const Cap: nat := FilterConfig.MaxMessagesDisplay

  /** The record a handler starts from when the tab has no customer-service state. */
  function EmptyState(now: int): CustomerServiceState {
    CustomerServiceState([], map[], now, ArrayOf([]), None, None)
  }

  function CurrentOrEmpty(tab: TabState, now: int): CustomerServiceState {
    tab.customerService.GetOr(EmptyState(now))
  }

  /** `messagesByChatId[chatId] || []`. */
  function ChatList(cs: CustomerServiceState, chatId: string): seq<Message> {
    if chatId in cs.messagesByChatId then cs.messagesByChatId[chatId] else []
  }

  /**
   * What every handler keeps true of the triage store: both the global list and
   * every per-chat list are capped and newest first, and no chat key holds an
   * empty list. (The two caps are applied independently, so the per-chat lists
   * are NOT kept consistent with the global one.)
   */
  ghost predicate Valid(cs: CustomerServiceState) {
    && |cs.messages| <= Cap && SortedByDateDesc(cs.messages)
    && forall c :: c in cs.messagesByChatId ==>
         && cs.messagesByChatId[c] != []
         && |cs.messagesByChatId[c]| <= Cap
         && SortedByDateDesc(cs.messagesByChatId[c])
  }

  ghost predicate ValidTab(tab: TabState) {
    tab.customerService.Some? ==> Valid(tab.customerService.value)
  }

  // ---------------------------------------------------------------------------
  // Opening, closing, replying.
  // ---------------------------------------------------------------------------

  /** `toggleCustomerService`: `force` when given, else the negation of the flag. */
  function ToggleCustomerService(tab: TabState, force: Option<bool>): (r: TabState)
    ensures force.Some? ==> r.isCustomerServiceModalOpen == force.value
    ensures force.None? ==> r.isCustomerServiceModalOpen == !tab.isCustomerServiceModalOpen
    ensures r.customerService == tab.customerService
  {
    tab.(isCustomerServiceModalOpen := if force.Some? then force.value else !tab.isCustomerServiceModalOpen)
  }

  lemma ToggleTwiceRestores(tab: TabState)
    ensures ToggleCustomerService(ToggleCustomerService(tab, None), None) == tab
  {
  }

  function OpenCustomerService(tab: TabState): (r: TabState)
    ensures r.isCustomerServiceModalOpen && r.customerService == tab.customerService
  {
    tab.(isCustomerServiceModalOpen := true)
  }

  /** `closeCustomerService`: closes the modal, drops the reply target, resets the draft reply. */
  function CloseCustomerService(tab: TabState): (r: Step)
    ensures !r.tab.isCustomerServiceModalOpen
    ensures r.tab.customerService.None? <==> tab.customerService.None?
    ensures tab.customerService.Some? ==>
              r.tab.customerService.value == tab.customerService.value.(replyingToMessage := None)
    ensures r.effects == [ResetDraftReplyInfo]
  {
    Step(TabState(false, match tab.customerService
                         case None => None
                         case Some(cs) => Some(cs.(replyingToMessage := None))),
         [ResetDraftReplyInfo])
  }

  /** `setCustomerServiceReply`. */
  function SetCustomerServiceReply(tab: TabState, message: Option<Message>, now: int): (r: TabState)
    ensures r.customerService == Some(CurrentOrEmpty(tab, now).(replyingToMessage := message))
    ensures r.isCustomerServiceModalOpen == tab.isCustomerServiceModalOpen
  {
    tab.(customerService := Some(CurrentOrEmpty(tab, now).(replyingToMessage := message)))
  }

  // ---------------------------------------------------------------------------
  // Settings.
  // ---------------------------------------------------------------------------

  /**
   * `initializeCustomerServiceSettings`: only when the state has no settings and
   * storage yields some, installs them, defaulting the other fields.
   */
  function InitializeCustomerServiceSettings(tab: TabState, stored: Option<SavedSettings>, now: int): (r: TabState)
    ensures (tab.customerService.Some? && tab.customerService.value.settings.Some?) || stored.None? ==> r == tab
    ensures (tab.customerService.None? || tab.customerService.value.settings.None?) && stored.Some? ==>
              && r.isCustomerServiceModalOpen == tab.isCustomerServiceModalOpen
              && r.customerService.Some? && r.customerService.value.settings == stored
    ensures tab.customerService.None? && stored.Some? ==>
              r.customerService == Some(EmptyState(now).(settings := stored))
    ensures tab.customerService.Some? && tab.customerService.value.settings.None? && stored.Some? ==>
              var old_ := tab.customerService.value;
              var new_ := r.customerService.value;
              && new_.messages == old_.messages
              && new_.messagesByChatId == old_.messagesByChatId
              && new_.replyingToMessage == old_.replyingToMessage
              && new_.lastUpdated == (if old_.lastUpdated == 0 then now else old_.lastUpdated)
              && new_.repliedMessageIds == (if old_.repliedMessageIds.Missing? || old_.repliedMessageIds == Scalar(false)
                                            then ArrayOf([]) else old_.repliedMessageIds)
  {
    if tab.customerService.Some? && tab.customerService.value.settings.Some? then tab
    else if stored.None? then tab
    else
      var cs := CurrentOrEmpty(tab, now);
      var replied := if cs.repliedMessageIds.Missing? || cs.repliedMessageIds == Scalar(false)
                     then ArrayOf([]) else cs.repliedMessageIds;
      tab.(customerService := Some(cs.(lastUpdated := if cs.lastUpdated == 0 then now else cs.lastUpdated,
                                       repliedMessageIds := replied,
                                       settings := stored)))
  }

  /** The `settings` payload of `saveCustomerServiceSettings`; any list may be missing. */
  datatype SettingsPayload = SettingsPayload(
    monitoredChatIds: Option<seq<string>>,
    filteredUserIds: Option<seq<string>>,
    regexFilters: Option<seq<RegexRule>>)

  /**
   * `settingsToSave`: exactly the three lists, a missing one as `[]`, rules as plain
   * `(source, flags)` records; the form's mode and auto-read flag are not kept.
   */
  function SettingsToSave(p: SettingsPayload): (r: SavedSettings)
    ensures r.monitoredChatIds == Some(p.monitoredChatIds.GetOr([]))
    ensures r.filteredUserIds == Some(p.filteredUserIds.GetOr([]))
    ensures r.regexFilters == Some(p.regexFilters.GetOr([]))
    ensures r.mode.None? && r.autoRead.None?
  {
    SavedSettings(Some(p.monitoredChatIds.GetOr([])), Some(p.filteredUserIds.GetOr([])),
                  Some(p.regexFilters.GetOr([])), None, None)
  }

  /** `saveCustomerServiceSettings`: writes the blob to storage and into the state. */
  function SaveCustomerServiceSettings(tab: TabState, p: SettingsPayload, now: int): (r: Step)
    ensures r.effects == [StoreSettings(SettingsToSave(p))]
    ensures r.tab.customerService == Some(CurrentOrEmpty(tab, now).(settings := Some(SettingsToSave(p))))
    ensures r.tab.isCustomerServiceModalOpen == tab.isCustomerServiceModalOpen
  {
    var saved := SettingsToSave(p);
    Step(tab.(customerService := Some(CurrentOrEmpty(tab, now).(settings := Some(saved)))), [StoreSettings(saved)])
  }

  /**
   * After a save, the filter decides chat and sender membership by the saved lists
   * alone, whatever local storage holds.
   */
  lemma SavedListsDecideFilter(tab: TabState, p: SettingsPayload, now: int, stored: Option<SavedSettings>,
                               chatId: string, senderId: string)
    requires senderId != ""
    ensures var settings := FilterConfig.EffectiveSettings(Some(SaveCustomerServiceSettings(tab, p, now).tab), stored);
      && settings == Some(SettingsToSave(p))
      && (FilterConfig.IsMonitoredChat(chatId, settings) <==> chatId in p.monitoredChatIds.GetOr([]))
      && (FilterConfig.IsFilteredUser(Some(senderId), settings) <==> senderId in p.filteredUserIds.GetOr([]))
  {
  }

  // ---------------------------------------------------------------------------
  // The triage store.
  // ---------------------------------------------------------------------------

  /**
   * `addToCustomerService`: the message joins the global list and the list of
   * `chatId`; each is re-sorted newest first and cut to `Cap` on its own.
   */
  function AddToCustomerService(tab: TabState, message: Message, chatId: string, now: int): (r: TabState)
    ensures r.isCustomerServiceModalOpen == tab.isCustomerServiceModalOpen
    ensures r.customerService.Some?
    ensures r.customerService.value.messages == Newest(CurrentOrEmpty(tab, now).messages + [message], Cap)
    ensures r.customerService.value.messagesByChatId.Keys == CurrentOrEmpty(tab, now).messagesByChatId.Keys + {chatId}
    ensures r.customerService.value.messagesByChatId[chatId] ==
              Newest(ChatList(CurrentOrEmpty(tab, now), chatId) + [message], Cap)
    ensures forall c :: c in CurrentOrEmpty(tab, now).messagesByChatId && c != chatId ==>
              r.customerService.value.messagesByChatId[c] == CurrentOrEmpty(tab, now).messagesByChatId[c]
    ensures r.customerService.value.lastUpdated == now
    ensures r.customerService.value.repliedMessageIds == CurrentOrEmpty(tab, now).repliedMessageIds
    ensures r.customerService.value.settings == CurrentOrEmpty(tab, now).settings
    ensures r.customerService.value.replyingToMessage == CurrentOrEmpty(tab, now).replyingToMessage
  {
    var cs := CurrentOrEmpty(tab, now);
    var newMessages := Newest(cs.messages + [message], Cap);
    var newChatMessages := Newest(ChatList(cs, chatId) + [message], Cap);
    tab.(customerService := Some(cs.(messages := newMessages,
                                     messagesByChatId := cs.messagesByChatId[chatId := newChatMessages],
                                     lastUpdated := now)))
  }

  /** The added message is kept unless `Cap` messages at least as new are already queued. */
  lemma AddKeepsMessage(tab: TabState, message: Message, chatId: string, now: int)
    requires |CurrentOrEmpty(tab, now).messages| < Cap
    ensures message in AddToCustomerService(tab, message, chatId, now).customerService.value.messages
  {
    var s := CurrentOrEmpty(tab, now).messages + [message];
    NewestSpec(s, Cap);
    assert message in multiset(s);
  }

  lemma AddPreservesValid(tab: TabState, message: Message, chatId: string, now: int)
    requires ValidTab(tab)
    ensures ValidTab(AddToCustomerService(tab, message, chatId, now))
  {
    var cs := CurrentOrEmpty(tab, now);
    NewestSpec(cs.messages + [message], Cap);
    var added := Newest(ChatList(cs, chatId) + [message], Cap);
    NewestSpec(ChatList(cs, chatId) + [message], Cap);
    assert |added| > 0;
    var byChat := AddToCustomerService(tab, message, chatId, now).customerService.value.messagesByChatId;
    assert byChat == cs.messagesByChatId[chatId := added];
    forall c | c in byChat
      ensures byChat[c] != [] && |byChat[c]| <= Cap && SortedByDateDesc(byChat[c])
    {
      if c != chatId {
        assert byChat[c] == cs.messagesByChatId[c];
      }
    }
  }

  predicate SameMessage(a: Message, b: Message) {
    a.id == b.id && a.chatId == b.chatId
  }

  /** The filter the global list is resolved with. */
  function NotSameAs(message: Message): Message -> bool {
    (x: Message) => !SameMessage(x, message)
  }

  /** The filter a chat's list is resolved with: only the id is compared. */
  function OtherId(id: int): Message -> bool {
    (x: Message) => x.id != id
  }

  predicate IsReplyTarget(cs: CustomerServiceState, message: Message) {
    cs.replyingToMessage.Some? && SameMessage(cs.replyingToMessage.value, message)
  }

  /**
   * The per-chat lists once `message` is resolved: its chat's list drops every
   * entry with its id, and the key goes when nothing is left.
   */
  function ResolveChatLists(cs: CustomerServiceState, message: Message): (r: map<string, seq<Message>>)
    ensures message.chatId in r <==> exists x :: x in ChatList(cs, message.chatId) && x.id != message.id
    ensures message.chatId in r ==> r[message.chatId] == KeepWhere(ChatList(cs, message.chatId), OtherId(message.id))
    ensures forall c :: c != message.chatId ==> (c in r <==> c in cs.messagesByChatId)
    ensures forall c :: c in cs.messagesByChatId && c != message.chatId ==> r[c] == cs.messagesByChatId[c]
  {
    var chatMessages := KeepWhere(ChatList(cs, message.chatId), OtherId(message.id));
    assert chatMessages != [] ==> chatMessages[0] in chatMessages;
    if chatMessages == [] then cs.messagesByChatId - {message.chatId}
    else cs.messagesByChatId[message.chatId := chatMessages]
  }

  /** The calls a resolve makes: a draft-reply reset, then a mark-read of a known chat. */
  function ResolveEffects(message: Message, wasTarget: bool, knownChats: set<string>): (r: seq<Effect>)
    ensures (MarkMessageListRead(message.chatId, message.id) in r) <==> message.chatId in knownChats
    ensures (ResetDraftReplyInfo in r) <==> wasTarget
    ensures forall e :: e in r ==> e == ResetDraftReplyInfo || e == MarkMessageListRead(message.chatId, message.id)
    ensures |r| <= 2
    ensures |r| == 2 ==> r[0] == ResetDraftReplyInfo && r[1] == MarkMessageListRead(message.chatId, message.id)
  {
    (if wasTarget then [ResetDraftReplyInfo] else []) +
    (if message.chatId in knownChats then [MarkMessageListRead(message.chatId, message.id)] else [])
  }

  /**
   * `resolveCustomerServiceMessage`: the global list drops every entry with the
   * message's `(id, chatId)`; the message's chat list drops every entry with its
   * `id`, and the chat key goes when nothing is left; a matching reply target is
   * cleared (with a draft-reply reset); a known chat is marked read up to the id.
   */
  function ResolveCustomerServiceMessage(tab: TabState, message: Message, knownChats: set<string>, now: int)
    : (r: Step)
    ensures r.tab.isCustomerServiceModalOpen == tab.isCustomerServiceModalOpen
    ensures r.tab.customerService.Some?
    ensures var cs := CurrentOrEmpty(tab, now);
            r.tab.customerService.value.messages == KeepWhere(cs.messages, NotSameAs(message))
    ensures var cs := CurrentOrEmpty(tab, now);
            message.chatId in r.tab.customerService.value.messagesByChatId <==>
              exists x :: x in ChatList(cs, message.chatId) && x.id != message.id
    ensures var cs := CurrentOrEmpty(tab, now); var byChat := r.tab.customerService.value.messagesByChatId;
            message.chatId in byChat ==>
              byChat[message.chatId] == KeepWhere(ChatList(cs, message.chatId), OtherId(message.id))
    ensures var cs := CurrentOrEmpty(tab, now); var byChat := r.tab.customerService.value.messagesByChatId;
            forall c :: c != message.chatId ==> (c in byChat <==> c in cs.messagesByChatId)
    ensures var cs := CurrentOrEmpty(tab, now); var byChat := r.tab.customerService.value.messagesByChatId;
            forall c :: c in cs.messagesByChatId && c != message.chatId ==> byChat[c] == cs.messagesByChatId[c]
    ensures var cs := CurrentOrEmpty(tab, now);
            r.tab.customerService.value.replyingToMessage == if IsReplyTarget(cs, message) then None else cs.replyingToMessage
    ensures var cs := CurrentOrEmpty(tab, now);
            && r.tab.customerService.value.lastUpdated == now
            && r.tab.customerService.value.repliedMessageIds == cs.repliedMessageIds
            && r.tab.customerService.value.settings == cs.settings
    ensures (MarkMessageListRead(message.chatId, message.id) in r.effects) <==> message.chatId in knownChats
    ensures (ResetDraftReplyInfo in r.effects) <==> IsReplyTarget(CurrentOrEmpty(tab, now), message)
    ensures forall e :: e in r.effects ==> e == ResetDraftReplyInfo || e == MarkMessageListRead(message.chatId, message.id)
    ensures |r.effects| <= 2
    ensures |r.effects| == 2 ==>
              r.effects[0] == ResetDraftReplyInfo && r.effects[1] == MarkMessageListRead(message.chatId, message.id)
  {
    var cs := CurrentOrEmpty(tab, now);
    var target := IsReplyTarget(cs, message);
    var newState := cs.(messages := KeepWhere(cs.messages, NotSameAs(message)),
                        messagesByChatId := ResolveChatLists(cs, message),
                        lastUpdated := now,
                        replyingToMessage := if target then None else cs.replyingToMessage);
    Step(tab.(customerService := Some(newState)), ResolveEffects(message, target, knownChats))
  }

  lemma ResolvePreservesValid(tab: TabState, message: Message, knownChats: set<string>, now: int)
    requires ValidTab(tab)
    ensures ValidTab(ResolveCustomerServiceMessage(tab, message, knownChats, now).tab)
  {
    var cs := CurrentOrEmpty(tab, now);
    KeepWhereStaysSorted(cs.messages, NotSameAs(message));
    KeepWhereStaysSorted(ChatList(cs, message.chatId), OtherId(message.id));
  }

  lemma {:induction false} KeepWhereTwice(s: seq<Message>, keep: Message -> bool)
    ensures KeepWhere(KeepWhere(s, keep), keep) == KeepWhere(s, keep)
  {
    if s != [] {
      KeepWhereTwice(s[1..], keep);
      var rest := KeepWhere(s[1..], keep);
      if keep(s[0]) {
        var once := [s[0]] + rest;
        assert KeepWhere(s, keep) == once;
        assert once[0] == s[0] && once[1..] == rest;
        assert KeepWhere(once, keep) == [once[0]] + KeepWhere(once[1..], keep);
      } else {
        assert KeepWhere(s, keep) == [] + rest == rest;
      }
    }
  }

  lemma {:induction false} KeepWhereAll(s: seq<Message>, keep: Message -> bool)
    requires forall x :: x in s ==> keep(x)
    ensures KeepWhere(s, keep) == s
  {
    if s != [] {
      assert forall x :: x in s[1..] ==> x in s;
      KeepWhereAll(s[1..], keep);
      assert s == [s[0]] + s[1..];
    }
  }

  /** Resolving the same message twice leaves the state resolving it once leaves. */
  lemma ResolveChatListsTwice(cs: CustomerServiceState, message: Message)
    ensures var once := ResolveChatLists(cs, message);
            ResolveChatLists(cs.(messagesByChatId := once), message) == once
  {
    var once := ResolveChatLists(cs, message);
    var mid := cs.(messagesByChatId := once);
    var twice := ResolveChatLists(mid, message);
    var kept := KeepWhere(ChatList(cs, message.chatId), OtherId(message.id));
    KeepWhereTwice(ChatList(cs, message.chatId), OtherId(message.id));
    assert kept != [] ==> kept[0] in kept;
    assert ChatList(mid, message.chatId) == kept;
    assert twice.Keys == once.Keys;
  }

  lemma ResolveIdempotent(tab: TabState, message: Message, knownChats: set<string>, now1: int, now2: int)
    ensures var once := ResolveCustomerServiceMessage(tab, message, knownChats, now1).tab;
            ResolveCustomerServiceMessage(once, message, knownChats, now2).tab ==
              ResolveCustomerServiceMessage(tab, message, knownChats, now2).tab
  {
    var cs := CurrentOrEmpty(tab, now2);
    assert ResolveChatLists(CurrentOrEmpty(tab, now1), message) == ResolveChatLists(cs, message);
    var mid := ResolveCustomerServiceMessage(tab, message, knownChats, now1).tab.customerService.value;
    ResolveChatListsTwice(cs, message);
    assert ResolveChatLists(mid, message) == ResolveChatLists(cs.(messagesByChatId := ResolveChatLists(cs, message)), message);
    KeepWhereTwice(cs.messages, NotSameAs(message));
  }

  /**
   * Resolving a message that is not queued, and is not the reply target, only
   * refreshes `lastUpdated`.
   */
  lemma ResolveAbsentIsNoOp(tab: TabState, message: Message, knownChats: set<string>, now: int)
    requires tab.customerService.Some? && Valid(tab.customerService.value)
    requires forall x :: x in tab.customerService.value.messages ==> !SameMessage(x, message)
    requires forall x :: x in ChatList(tab.customerService.value, message.chatId) ==> x.id != message.id
    requires !IsReplyTarget(tab.customerService.value, message)
    ensures ResolveCustomerServiceMessage(tab, message, knownChats, now).tab ==
              tab.(customerService := Some(tab.customerService.value.(lastUpdated := now)))
  {
    var cs := tab.customerService.value;
    KeepWhereAll(cs.messages, NotSameAs(message));
    KeepWhereAll(ChatList(cs, message.chatId), OtherId(message.id));
    var r := ResolveCustomerServiceMessage(tab, message, knownChats, now).tab;
    assert r.customerService.value.messagesByChatId == cs.messagesByChatId;
  }

  /** `Array.isArray(repliedMessageIds) ? repliedMessageIds : []`. */
  function RepliedArray(ids: RepliedIds): seq<string> {
    if ids.ArrayOf? then ids.ids else []
  }

  /**
   * `markCustomerServiceMessageReplied`: appends `${chatId}-${messageId}` to the
   * array form of the replied ids unless it is already there; a non-array value
   * counts as empty.
   */
  function MarkCustomerServiceMessageReplied(tab: TabState, chatId: string, messageId: int, now: int)
    : (r: TabState)
    ensures r.customerService.Some? && r.customerService.value.repliedMessageIds.ArrayOf?
    ensures var before := RepliedArray(CurrentOrEmpty(tab, now).repliedMessageIds);
            var after := r.customerService.value.repliedMessageIds.ids;
            && MessageKey(chatId, messageId) in after
            && (forall k :: k in after <==> k in before || k == MessageKey(chatId, messageId))
            && |after| >= |before| && after[..|before|] == before
            && (NoDuplicates(before) ==> NoDuplicates(after))
    ensures r.customerService.value == CurrentOrEmpty(tab, now).(repliedMessageIds := r.customerService.value.repliedMessageIds)
    ensures r.isCustomerServiceModalOpen == tab.isCustomerServiceModalOpen
  {
    var cs := CurrentOrEmpty(tab, now);
    var key := MessageKey(chatId, messageId);
    var ids := RepliedArray(cs.repliedMessageIds);
    var newIds := if key in ids then ids else ids + [key];
    tab.(customerService := Some(cs.(repliedMessageIds := ArrayOf(newIds))))
  }

  /** Marking twice is marking once. */
  lemma MarkRepliedIdempotent(tab: TabState, chatId: string, messageId: int, now1: int, now2: int)
    ensures var once := MarkCustomerServiceMessageReplied(tab, chatId, messageId, now1);
            MarkCustomerServiceMessageReplied(once, chatId, messageId, now2) == once
  {
  }

  /** Recording one message of a chat leaves every other message of that chat as it was. */
  lemma MarkRepliedLeavesOthers(tab: TabState, chatId: string, messageId: int, otherId: int, now: int)
    requires otherId != messageId
    ensures Selectors.SelectIsMessageReplied(MarkCustomerServiceMessageReplied(tab, chatId, messageId, now), chatId, otherId)
            == Selectors.SelectIsMessageReplied(tab, chatId, otherId)
  {
    MessageKeyInjective(chatId, otherId, messageId);
  }

  /** The replied selector sees the key right after the reducer records it. */
  lemma MarkRepliedThenSelected(tab: TabState, chatId: string, messageId: int, now: int)
    ensures Selectors.SelectIsMessageReplied(MarkCustomerServiceMessageReplied(tab, chatId, messageId, now), chatId, messageId)
  {
  }

  /**
   * `sendCustomerServiceReply`: a blank text or a missing target changes nothing;
   * otherwise the reply is sent, the target recorded as replied, the reply target
   * cleared and the draft reply reset.
   */
  function SendCustomerServiceReply(tab: TabState, text: string, replyTo: Option<Message>, now: int): (r: Step)
    ensures (Trim(text) == [] || replyTo.None?) ==> r == Step(tab, [])
    ensures Trim(text) != [] && replyTo.Some? ==>
              && r.effects == [SendMessage(text, replyTo.value.chatId, replyTo.value.id), ResetDraftReplyInfo]
              && r.tab.customerService.Some?
              && r.tab.customerService.value.replyingToMessage.None?
              && Selectors.SelectIsMessageReplied(r.tab, replyTo.value.chatId, replyTo.value.id)
              && r.tab.customerService.value ==
                   MarkCustomerServiceMessageReplied(tab, replyTo.value.chatId, replyTo.value.id, now)
                     .customerService.value.(replyingToMessage := None)
  {
    if Trim(text) == [] || replyTo.None? then Step(tab, [])
    else
      var m := replyTo.value;
      var marked := MarkCustomerServiceMessageReplied(tab, m.chatId, m.id, now);
      Step(marked.(customerService := Some(marked.customerService.value.(replyingToMessage := None))),
           [SendMessage(text, m.chatId, m.id), ResetDraftReplyInfo])
  }

  /** `Math.max(...messages.map(msg => msg.id))`. */
  function MaxId(s: seq<Message>): (r: int)
    requires s != []
    ensures exists k :: 0 <= k < |s| && s[k].id == r
    ensures forall k :: 0 <= k < |s| ==> s[k].id <= r
  {
    if |s| == 1 then s[0].id
    else
      var rest := MaxId(s[1..]);
      assert forall k :: 1 <= k < |s| ==> s[k] == s[1..][k - 1];
      if s[0].id >= rest then s[0].id else rest
  }

  /** The per-chat lists `clearCustomerServiceMessages` walks; none without state. */
  function ChatLists(tab: TabState): map<string, seq<Message>> {
    if tab.customerService.Some? then tab.customerService.value.messagesByChatId else map[]
  }

  /** A chat the clear marks read: it has queued messages and the client knows it. */
  predicate NeedsMarkRead(byChat: map<string, seq<Message>>, knownChats: set<string>, c: string) {
    c in byChat && byChat[c] != [] && c in knownChats
  }

  /** A call the clear may issue: the chat needs it and `maxId` is its largest id. */
  predicate IsClearCall(byChat: map<string, seq<Message>>, knownChats: set<string>, e: Effect) {
    e.MarkMessageListRead? && NeedsMarkRead(byChat, knownChats, e.chatId) && e.maxId == MaxId(byChat[e.chatId])
  }

  /**
   * `clearCustomerServiceMessages`: one mark-read call per known chat with queued
   * messages, at that chat's largest message id, then a fresh empty store (no
   * settings, no reply target). The order of the calls follows JavaScript's
   * property order and is not modelled.
   */
  method ClearCustomerServiceMessages(tab: TabState, knownChats: set<string>, now: int) returns (r: Step)
    ensures r.tab == TabState(tab.isCustomerServiceModalOpen, Some(EmptyState(now)))
    ensures forall k :: 0 <= k < |r.effects| ==> IsClearCall(ChatLists(tab), knownChats, r.effects[k])
    ensures forall c :: NeedsMarkRead(ChatLists(tab), knownChats, c) ==>
              MarkMessageListRead(c, MaxId(ChatLists(tab)[c])) in r.effects
    ensures forall i, j :: 0 <= i < j < |r.effects| && r.effects[i].MarkMessageListRead? && r.effects[j].MarkMessageListRead? ==>
              r.effects[i].chatId != r.effects[j].chatId
  {
    var byChat := ChatLists(tab);
    var pending := byChat.Keys;
    var calls: seq<Effect> := [];
    while pending != {}
      invariant pending <= byChat.Keys
      invariant forall k :: 0 <= k < |calls| ==> IsClearCall(byChat, knownChats, calls[k]) && calls[k].chatId !in pending
      invariant forall c :: c in byChat.Keys - pending && NeedsMarkRead(byChat, knownChats, c) ==>
                  MarkMessageListRead(c, MaxId(byChat[c])) in calls
      invariant forall i, j :: 0 <= i < j < |calls| && calls[i].MarkMessageListRead? && calls[j].MarkMessageListRead? ==>
                  calls[i].chatId != calls[j].chatId
      decreases pending
    {
      var c :| c in pending;
      var messages := byChat[c];
      if |messages| > 0 && c in knownChats {
        calls := calls + [MarkMessageListRead(c, MaxId(messages))];
      }
      pending := pending - {c};
    }
    r := Step(TabState(tab.isCustomerServiceModalOpen, Some(EmptyState(now))), calls);
  }

  lemma ClearedIsValid(now: int)
    ensures Valid(EmptyState(now))
  {
  }

  lemma MarkRepliedPreservesValid(tab: TabState, chatId: string, messageId: int, now: int)
    requires ValidTab(tab)
    ensures ValidTab(MarkCustomerServiceMessageReplied(tab, chatId, messageId, now))
  {
  }
}
