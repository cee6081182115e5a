/**
 * Read-only views of the customer-service part of a tab's state, each with the
 * default the feature uses when that part is missing.
 */
module Selectors {
  import opened Common
  import opened CsTypes

  /** The triage queue; empty when the feature has no state yet. */
  function SelectCustomerServiceMessages(tab: TabState): (r: seq<Message>)
    ensures tab.customerService.None? ==> r == []
    ensures tab.customerService.Some? ==> r == tab.customerService.value.messages
  {
    match tab.customerService
    case None => []
    case Some(cs) => cs.messages
  }

  /** One chat's queue; empty when there is no state or no entry for the chat. */
  function SelectCustomerServiceMessagesByChatId(tab: TabState, chatId: string): (r: seq<Message>)
    ensures (tab.customerService.None? || chatId !in tab.customerService.value.messagesByChatId) ==> r == []
    ensures tab.customerService.Some? && chatId in tab.customerService.value.messagesByChatId ==>
              r == tab.customerService.value.messagesByChatId[chatId]
  {
    match tab.customerService
    case None => []
    case Some(cs) => if chatId in cs.messagesByChatId then cs.messagesByChatId[chatId] else []
  }

  /** `customerService?.lastUpdated || 0`. */
  function SelectCustomerServiceLastUpdated(tab: TabState): (r: int)
    ensures tab.customerService.None? ==> r == 0
    ensures tab.customerService.Some? ==> r == tab.customerService.value.lastUpdated
  {
    match tab.customerService
    case None => 0
    case Some(cs) => cs.lastUpdated
  }

  function SelectHasCustomerServiceMessages(tab: TabState): (r: bool)
    ensures r <==> tab.customerService.Some? && tab.customerService.value.messages != []
  {
    |SelectCustomerServiceMessages(tab)| > 0
  }

  /**
   * The chats that currently have queued messages: the keys of `messagesByChatId`
   * whose list is non-empty.
   */
  function SelectActiveCustomerServiceChatIds(tab: TabState): (r: set<string>)
    ensures tab.customerService.None? ==> r == {}
    ensures tab.customerService.Some? ==>
              forall c :: c in r <==>
                c in tab.customerService.value.messagesByChatId && tab.customerService.value.messagesByChatId[c] != []
  {
    match tab.customerService
    case None => {}
    case Some(cs) => set c | c in cs.messagesByChatId && |cs.messagesByChatId[c]| > 0
  }

  function SelectCustomerServiceReplyingMessage(tab: TabState): (r: Option<Message>)
    ensures tab.customerService.None? ==> r.None?
    ensures tab.customerService.Some? ==> r == tab.customerService.value.replyingToMessage
  {
    match tab.customerService
    case None => None
    case Some(cs) => cs.replyingToMessage
  }

  /**
   * Whether `${chatId}-${messageId}` has been recorded as replied. Only the array
   * form of `repliedMessageIds` is consulted (`Array.isArray(...) && includes`).
   */
  function SelectIsMessageReplied(tab: TabState, chatId: string, messageId: int): (r: bool)
    ensures r <==> && tab.customerService.Some?
                   && tab.customerService.value.repliedMessageIds.ArrayOf?
                   && MessageKey(chatId, messageId) in tab.customerService.value.repliedMessageIds.ids
  {
    match tab.customerService
    case None => false
    case Some(cs) =>
      match cs.repliedMessageIds
      case ArrayOf(ids) => MessageKey(chatId, messageId) in ids
      case _ => false
  }

  /**
   * The settings in the tab state, or, when there are none, what
   * `loadSettingsFromStorage` gives (`stored`: `None` for an absent, unreadable or
   * unparsable entry).
   */
  function SelectCustomerServiceSettings(tab: TabState, stored: Option<SavedSettings>): (r: Option<SavedSettings>)
    ensures tab.customerService.Some? && tab.customerService.value.settings.Some? ==>
              r == tab.customerService.value.settings
    ensures (tab.customerService.None? || tab.customerService.value.settings.None?) ==> r == stored
  {
    match tab.customerService
    case Some(CustomerServiceState(_, _, _, _, Some(s), _)) => Some(s)
    case _ => stored
  }
}
