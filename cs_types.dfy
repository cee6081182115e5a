/**
 * The records the customer-service triage feature keeps in a tab's state, the
 * persisted settings blob, and the side effects its action handlers issue.
 */
module CsTypes {
  import opened Common

  /** An `ApiFormattedText`; only its `text` is consulted. */
  datatype FormattedText = FormattedText(text: string)

  /**
   * The fields of an `ApiMessage` the feature reads. `date` is in seconds and may
   * be missing; `groupedId` is the album id.
   */
  datatype Message = Message(
    id: int,
    chatId: string,
    date: Option<int>,
    senderId: Option<string>,
    groupedId: Option<string>)

  /** A compiled `RegExp`, reduced to what the code stores of it. */
  datatype RegexRule = RegexRule(source: string, flags: string)

  /** What one `regex.test(text)` call does. */
  datatype TestOutcome = Matched | NotMatched | Threw

  /**
   * The JavaScript regular-expression engine, left abstract: `compile(p, f)` is
   * `new RegExp(p, f)` (`None` when it throws a SyntaxError) and `test` is
   * `RegExp.prototype.test`.
   */
  datatype RegexEngine = RegexEngine(
    compile: (string, string) -> Option<RegexRule>,
    test: (RegexRule, string) -> TestOutcome)

  /** The two operating modes of the settings form. */
  datatype Mode = OnCall | Assist

  /**
   * Settings as found in the tab state or parsed from local storage. Every field
   * may be missing from a parsed blob.
   */
  datatype SavedSettings = SavedSettings(
    monitoredChatIds: Option<seq<string>>,
    filteredUserIds: Option<seq<string>>,
    regexFilters: Option<seq<RegexRule>>,
    mode: Option<Mode>,
    autoRead: Option<bool>)

  /** A value found in an object's own properties (`Object.values`). */
  datatype PropertyValue = StringValue(s: string) | OtherValue

  /**
   * `repliedMessageIds` as it may be found in state: the current array form, or
   * an older persisted `Set` (its elements in insertion order), a plain object,
   * a scalar (with its JavaScript truthiness), or nothing (`undefined`/`null`).
   */
  datatype RepliedIds =
    | Missing
    | ArrayOf(ids: seq<string>)
    | SetOf(elements: seq<string>)
    | ObjectOf(values: seq<PropertyValue>)
    | Scalar(truthy: bool)

  /** `tabState.customerService`. */
  datatype CustomerServiceState = CustomerServiceState(
    messages: seq<Message>,
    messagesByChatId: map<string, seq<Message>>,
    lastUpdated: int,
    repliedMessageIds: RepliedIds,
    settings: Option<SavedSettings>,
    replyingToMessage: Option<Message>)

  /** The part of one tab's state the feature reads and writes. */
  datatype TabState = TabState(
    isCustomerServiceModalOpen: bool,
    customerService: Option<CustomerServiceState>)

  /** Calls an action handler makes besides returning the new state. */
  datatype Effect =
    | MarkMessageListRead(chatId: string, maxId: int)
    | SendMessage(text: string, toChatId: string, replyToMsgId: int)
    | ResetDraftReplyInfo
    | StoreSettings(stored: SavedSettings)

  /** What an action handler produces: the new tab state and its calls, in order. */
  datatype Step = Step(tab: TabState, effects: seq<Effect>)

  /** The reply-tracking key `${chatId}-${messageId}`. */
  function MessageKey(chatId: string, messageId: int): string {
    chatId + "-" + IntToString(messageId)
  }

  /** Within one chat, different message ids have different keys. */
  lemma MessageKeyInjective(chatId: string, a: int, b: int)
    ensures MessageKey(chatId, a) == MessageKey(chatId, b) ==> a == b
  {
    assert MessageKey(chatId, a)[|chatId| + 1..] == IntToString(a);
    assert MessageKey(chatId, b)[|chatId| + 1..] == IntToString(b);
    IntToStringInjective(a, b);
  }
}
