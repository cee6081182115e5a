/**
 * The admission filter of the customer-service feature: the built-in defaults and
 * the three checks that decide whether an incoming message is kept out of triage.
 * `shouldFilterMessage` answers `true` for a message that must NOT be shown.
 */
module FilterConfig {
  import opened Common
  import opened CsTypes
  import Selectors

  /** `CUSTOMER_SERVICE_CONFIG.MONITORED_CHAT_IDS`. */
  const DefaultMonitoredChatIds: seq<string> := ["-1001234567890", "-4618248704", "-4549167178"]
  /** `CUSTOMER_SERVICE_CONFIG.FILTERED_USER_IDS`: empty. */
  const DefaultFilteredUserIds: seq<string> := []
  /** `CUSTOMER_SERVICE_CONFIG.REGEX_FILTERS`: empty. */
  const DefaultRegexFilters: seq<RegexRule> := []
  /** `CUSTOMER_SERVICE_CONFIG.MAX_MESSAGES_DISPLAY`. */
  const MaxMessagesDisplay: nat := 100
  /** `CUSTOMER_SERVICE_CONFIG.AUTO_REFRESH_INTERVAL`, in milliseconds. */
  const AutoRefreshInterval: nat := 5000
  /** `CUSTOMER_SERVICE_CONFIG.MESSAGE_EXPIRE_TIME`: 24 hours in milliseconds. */
  const MessageExpireTime: nat := 24 * 60 * 60 * 1000

  /**
   * The settings every check consults: those of the tab state (or of local storage)
   * when a state is given, nothing otherwise.
   */
  function EffectiveSettings(global: Option<TabState>, stored: Option<SavedSettings>): (r: Option<SavedSettings>)
    ensures global.None? ==> r.None?
    ensures global.Some? ==> r == Selectors.SelectCustomerServiceSettings(global.value, stored)
  {
    match global
    case None => None
    case Some(tab) => Selectors.SelectCustomerServiceSettings(tab, stored)
  }

  /** A saved list overrides the built-in one, even when it is empty. */
  function MonitoredList(settings: Option<SavedSettings>): seq<string> {
    if settings.Some? && settings.value.monitoredChatIds.Some? then settings.value.monitoredChatIds.value
    else DefaultMonitoredChatIds
  }

  function FilteredUserList(settings: Option<SavedSettings>): seq<string> {
    if settings.Some? && settings.value.filteredUserIds.Some? then settings.value.filteredUserIds.value
    else DefaultFilteredUserIds
  }

  function IsMonitoredChat(chatId: string, settings: Option<SavedSettings>): (r: bool)
    ensures settings.Some? && settings.value.monitoredChatIds.Some? ==>
              (r <==> chatId in settings.value.monitoredChatIds.value)
    ensures (settings.None? || settings.value.monitoredChatIds.None?) ==>
              (r <==> chatId in DefaultMonitoredChatIds)
  {
    chatId in MonitoredList(settings)
  }

  /** A missing or empty sender id is never filtered. */
  function IsFilteredUser(userId: Option<string>, settings: Option<SavedSettings>): (r: bool)
    ensures (userId.None? || userId.value == "") ==> !r
    ensures userId.Some? && userId.value != "" && settings.Some? && settings.value.filteredUserIds.Some? ==>
              (r <==> userId.value in settings.value.filteredUserIds.value)
    ensures (settings.None? || settings.value.filteredUserIds.None?) ==> !r
  {
    if userId.None? || userId.value == "" then false
    else userId.value in FilteredUserList(settings)
  }

  /**
   * `filters.map(f => new RegExp(f.source, f.flags))`: the first pattern that does
   * not compile makes the whole map throw.
   */
  function CompileAll(filters: seq<RegexRule>, engine: RegexEngine): (r: Option<seq<RegexRule>>)
    ensures r.Some? <==> forall i :: 0 <= i < |filters| ==> engine.compile(filters[i].source, filters[i].flags).Some?
    ensures r.Some? ==> |r.value| == |filters|
    ensures r.Some? ==>
              forall i :: 0 <= i < |filters| ==> Some(r.value[i]) == engine.compile(filters[i].source, filters[i].flags)
  {
    if filters == [] then Some([])
    else
      match engine.compile(filters[0].source, filters[0].flags)
      case None => None
      case Some(rule) =>
        match CompileAll(filters[1..], engine)
        case None =>
          assert forall i :: 1 <= i < |filters| ==> filters[1..][i - 1] == filters[i];
          None
        case Some(rest) =>
          assert forall i :: 1 <= i < |filters| ==> filters[1..][i - 1] == filters[i];
          Some([rule] + rest)
  }

  /**
   * `rules.some(regex => { try { return regex.test(text) } catch { return false } })`:
   * a rule whose test throws counts as not matching and the later rules are still tried.
   */
  function AnyRuleMatches(rules: seq<RegexRule>, text: string, engine: RegexEngine): (r: bool)
    ensures r <==> exists i :: 0 <= i < |rules| && engine.test(rules[i], text) == Matched
  {
    if rules == [] then false
    else if engine.test(rules[0], text) == Matched then true
    else
      var rest := AnyRuleMatches(rules[1..], text, engine);
      assert forall i :: 1 <= i < |rules| ==> rules[1..][i - 1] == rules[i];
      assert rest ==> exists i :: 1 <= i < |rules| && engine.test(rules[i], text) == Matched by {
        if rest {
          var j :| 0 <= j < |rules[1..]| && engine.test(rules[1..][j], text) == Matched;
          assert engine.test(rules[j + 1], text) == Matched;
        }
      }
      rest
  }

  /**
   * `isFilteredByRegex`: no text never matches; without saved rules the built-in
   * (empty) list is used; saved rules are recompiled first, and a pattern that no
   * longer compiles throws out of the check.
   */
  function IsFilteredByRegex(messageText: Option<FormattedText>, settings: Option<SavedSettings>, engine: RegexEngine)
    : (r: Result<bool>)
  {
    if messageText.None? then Ok(false)
    else if settings.Some? && settings.value.regexFilters.Some? then
      match CompileAll(settings.value.regexFilters.value, engine)
      case None => Err("SyntaxError: Invalid regular expression")
      case Some(rules) => Ok(AnyRuleMatches(rules, messageText.value.text, engine))
    else Ok(AnyRuleMatches(DefaultRegexFilters, messageText.value.text, engine))
  }

  /** `shouldFilterMessage`: the three checks in order, each one short-circuiting. */
  function ShouldFilterMessage(
    chatId: string, senderId: Option<string>, messageText: Option<FormattedText>,
    settings: Option<SavedSettings>, engine: RegexEngine): Result<bool>
  {
    if !IsMonitoredChat(chatId, settings) then Ok(true)
    else if IsFilteredUser(senderId, settings) then Ok(true)
    else IsFilteredByRegex(messageText, settings, engine)
  }

  // ---------------------------------------------------------------------------
  // Properties of the filter.
  // ---------------------------------------------------------------------------

  /** Some saved rule fails to recompile. */
  predicate SavedRuleBroken(settings: Option<SavedSettings>, engine: RegexEngine) {
    && settings.Some? && settings.value.regexFilters.Some?
    && exists i :: 0 <= i < |settings.value.regexFilters.value| &&
         engine.compile(settings.value.regexFilters.value[i].source, settings.value.regexFilters.value[i].flags).None?
  }

  /** Some rule in force matches the text. */
  predicate TextMatchesSomeRule(text: string, settings: Option<SavedSettings>, engine: RegexEngine)
    requires !SavedRuleBroken(settings, engine)
  {
    if settings.Some? && settings.value.regexFilters.Some? then
      var saved := settings.value.regexFilters.value;
      exists i :: 0 <= i < |saved| && engine.test(engine.compile(saved[i].source, saved[i].flags).value, text) == Matched
    else
      exists i :: 0 <= i < |DefaultRegexFilters| && engine.test(DefaultRegexFilters[i], text) == Matched
  }

  /**
   * The check throws exactly when it reaches the regex step with a text and a
   * saved rule that does not compile; otherwise it filters exactly when the chat
   * is not monitored, the sender is blocked, or some rule in force matches.
   */
  lemma ShouldFilterMessageSpec(
    chatId: string, senderId: Option<string>, messageText: Option<FormattedText>,
    settings: Option<SavedSettings>, engine: RegexEngine)
    ensures ShouldFilterMessage(chatId, senderId, messageText, settings, engine).Err? <==>
              && IsMonitoredChat(chatId, settings) && !IsFilteredUser(senderId, settings)
              && messageText.Some? && SavedRuleBroken(settings, engine)
    ensures !SavedRuleBroken(settings, engine) ==>
              ShouldFilterMessage(chatId, senderId, messageText, settings, engine) ==
                Ok(|| !IsMonitoredChat(chatId, settings)
                   || IsFilteredUser(senderId, settings)
                   || (messageText.Some? && TextMatchesSomeRule(messageText.value.text, settings, engine)))
  {
    if settings.Some? && settings.value.regexFilters.Some? && messageText.Some? {
      var saved := settings.value.regexFilters.value;
      var compiled := CompileAll(saved, engine);
      if compiled.Some? {
        var text := messageText.value.text;
        assert AnyRuleMatches(compiled.value, text, engine) <==> TextMatchesSomeRule(text, settings, engine) by {
          if AnyRuleMatches(compiled.value, text, engine) {
            var i :| 0 <= i < |compiled.value| && engine.test(compiled.value[i], text) == Matched;
            assert engine.compile(saved[i].source, saved[i].flags).value == compiled.value[i];
          }
          if TextMatchesSomeRule(text, settings, engine) {
            var i :| 0 <= i < |saved| && engine.test(engine.compile(saved[i].source, saved[i].flags).value, text) == Matched;
            assert engine.test(compiled.value[i], text) == Matched;
          }
        }
      }
    }
  }

  /** With no saved settings, only chats outside the built-in monitored list are filtered. */
  lemma DefaultsFilterOnlyUnmonitoredChats(
    chatId: string, senderId: Option<string>, messageText: Option<FormattedText>, engine: RegexEngine)
    ensures ShouldFilterMessage(chatId, senderId, messageText, None, engine) == Ok(chatId !in DefaultMonitoredChatIds)
  {
  }

  /** An empty saved rule list never filters a message in a monitored chat from an unblocked sender. */
  lemma EmptyRuleListNeverFilters(
    chatId: string, senderId: Option<string>, messageText: Option<FormattedText>,
    settings: SavedSettings, engine: RegexEngine)
    requires settings.regexFilters == Some([])
    requires IsMonitoredChat(chatId, Some(settings)) && !IsFilteredUser(senderId, Some(settings))
    ensures ShouldFilterMessage(chatId, senderId, messageText, Some(settings), engine) == Ok(false)
  {
  }
}
