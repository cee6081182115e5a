/**
 * The settings form of the customer-service feature: the form state a
 * `CustomerServiceSettings` component holds, initialised from the saved blob or
 * the built-in defaults, edited by its handlers and handed to the save action.
 * `visible` is the list of group ids the form currently shows (the folder-tag
 * filter is applied by the caller).
 */
module SettingsEditor {
  import opened Common
  import opened CsTypes
  import FilterConfig
  import TriageActions

  /** The `FilterSettings` record the form edits. */
  datatype FormSettings = FormSettings(
    monitoredChatIds: seq<string>,
    filteredUserIds: seq<string>,
    regexFilters: seq<RegexRule>,
    mode: Mode,
    autoRead: bool)

  const InvalidRegex: string := "Invalid regular expression"

  /** The patterns the form offers as one-click rules. */
  const PresetPatterns: seq<string> := ["^/\\w+", "^@\\w+", "^\\[系统\\]", "bot$"]

  /** The form with the built-in lists, on-call mode and no auto-read. */
  function DefaultForm(): (r: FormSettings)
    ensures r.monitoredChatIds == FilterConfig.DefaultMonitoredChatIds
    ensures r.filteredUserIds == [] && r.regexFilters == []
    ensures r.mode == OnCall && !r.autoRead
  {
    FormSettings(FilterConfig.DefaultMonitoredChatIds, FilterConfig.DefaultFilteredUserIds,
                 FilterConfig.DefaultRegexFilters, OnCall, false)
  }

  /**
   * The form's first state. Without a saved blob, the defaults; with one, its
   * lists with every rule recompiled, `mode || 'oncall'` and `autoRead || false`.
   * Spreading a missing list, mapping a missing rule list or recompiling a broken
   * rule throws, which here is `Err`.
   */
  function InitialSettings(saved: Option<SavedSettings>, engine: RegexEngine): (r: Result<FormSettings>)
    ensures saved.None? ==> r == Ok(DefaultForm())
    ensures saved.Some? ==>
              (r.Ok? <==> && saved.value.monitoredChatIds.Some? && saved.value.filteredUserIds.Some?
                          && saved.value.regexFilters.Some?
                          && FilterConfig.CompileAll(saved.value.regexFilters.value, engine).Some?)
    ensures saved.Some? && r.Ok? ==>
              && r.value.monitoredChatIds == saved.value.monitoredChatIds.value
              && r.value.filteredUserIds == saved.value.filteredUserIds.value
              && r.value.regexFilters == FilterConfig.CompileAll(saved.value.regexFilters.value, engine).value
              && r.value.mode == saved.value.mode.GetOr(OnCall)
              && r.value.autoRead == saved.value.autoRead.GetOr(false)
  {
    match saved
    case None => Ok(DefaultForm())
    case Some(blob) =>
      if blob.monitoredChatIds.None? || blob.filteredUserIds.None? || blob.regexFilters.None? then
        Err("TypeError: saved list is not iterable")
      else
        match FilterConfig.CompileAll(blob.regexFilters.value, engine)
        case None => Err("SyntaxError: Invalid regular expression")
        case Some(rules) =>
          Ok(FormSettings(blob.monitoredChatIds.value, blob.filteredUserIds.value, rules,
                          blob.mode.GetOr(OnCall), blob.autoRead.GetOr(false)))
  }

  /** The `settings` payload `handleSave` passes to the save action. */
  function FormPayload(f: FormSettings): TriageActions.SettingsPayload {
    TriageActions.SettingsPayload(Some(f.monitoredChatIds), Some(f.filteredUserIds), Some(f.regexFilters))
  }

  /** The rules that the engine recompiles to themselves. */
  predicate RulesRecompile(rules: seq<RegexRule>, engine: RegexEngine) {
    forall i :: 0 <= i < |rules| ==> engine.compile(rules[i].source, rules[i].flags) == Some(rules[i])
  }

  /**
   * Saving the form and opening it again gives back its three lists, provided every
   * rule recompiles to itself; the mode and the auto-read flag are not part of the
   * saved blob and come back as on-call and off.
   */
  lemma SaveThenReopen(f: FormSettings, engine: RegexEngine)
    requires RulesRecompile(f.regexFilters, engine)
    ensures InitialSettings(Some(TriageActions.SettingsToSave(FormPayload(f))), engine) ==
              Ok(f.(mode := OnCall, autoRead := false))
  {
    var compiled := FilterConfig.CompileAll(f.regexFilters, engine);
    assert compiled.Some?;
    assert compiled.value == f.regexFilters;
  }

  /** `^-?\d+$` with `\d` the ASCII digits. */
  predicate IsNumericId(t: string) {
    if |t| > 0 && t[0] == '-' then |t| > 1 && forall i :: 1 <= i < |t| ==> IsDigit(t[i])
    else |t| > 0 && forall i :: 0 <= i < |t| ==> IsDigit(t[i])
  }

  /**
   * The ids a batch add appends: the tokens that are numeric ids and not already in
   * `existing`, in token order. Tokens are not checked against each other.
   */
  function NewUserIds(tokens: seq<string>, existing: seq<string>): (r: seq<string>)
    ensures forall t :: t in r <==> t in tokens && IsNumericId(t) && t !in existing
    decreases |tokens|
  {
    if tokens == [] then []
    else
      var p := tokens[..|tokens| - 1];
      var t := tokens[|tokens| - 1];
      assert tokens == p + [t];
      NewUserIds(p, existing) + (if IsNumericId(t) && t !in existing then [t] else [])
  }

  /** A single token contributes itself exactly when it is a new numeric id. */
  lemma NewUserIdsSingle(t: string, existing: seq<string>)
    ensures NewUserIds([t], existing) == if IsNumericId(t) && t !in existing then [t] else []
  {
    assert [t][..0] == [];
  }

  /** The walk is a `filter`: the ids of a concatenation are the ids of each part, in order. */
  lemma {:induction false} NewUserIdsAppend(a: seq<string>, b: seq<string>, existing: seq<string>)
    ensures NewUserIds(a + b, existing) == NewUserIds(a, existing) + NewUserIds(b, existing)
    decreases |b|
  {
    if b == [] {
      assert a + b == a;
    } else {
      var b', t := b[..|b| - 1], b[|b| - 1];
      assert (a + b)[..|a + b| - 1] == a + b';
      assert (a + b)[|a + b| - 1] == t;
      NewUserIdsAppend(a, b', existing);
    }
  }

  /** A token repeated in one batch is appended once per occurrence. */
  lemma RepeatedTokenAddedTwice(existing: seq<string>)
    requires "12" !in existing
    ensures NewUserIds(["12", "12"], existing) == ["12", "12"]
  {
    assert ["12", "12"][..1] == ["12"];
    assert ["12"][..0] == [];
    assert IsNumericId("12");
  }

  /** The `forEach` that collects the ids a batch add appends. */
  method CollectNewUserIds(tokens: seq<string>, existing: seq<string>) returns (validIds: seq<string>)
    ensures validIds == NewUserIds(tokens, existing)
  {
    validIds := [];
    for i := 0 to |tokens|
      invariant validIds == NewUserIds(tokens[..i], existing)
    {
      assert tokens[..i + 1][..i] == tokens[..i];
      if IsNumericId(tokens[i]) && tokens[i] !in existing {
        validIds := validIds + [tokens[i]];
      }
    }
    assert tokens[..|tokens|] == tokens;
  }

  /** The ids a batch add appends for the text of the input box. */
  function BatchIds(input: string, existing: seq<string>): seq<string> {
    NewUserIds(Tokens(Trim(input)), existing)
  }

  /** `newUserId.trim()`, its `split(/\s+/)` and the collecting walk over the tokens. */
  method CollectBatchIds(input: string, existing: seq<string>) returns (validIds: seq<string>)
    ensures validIds == BatchIds(input, existing)
  {
    var trimmed := Trim(input);
    if trimmed == [] {
      return [];
    }
    validIds := CollectNewUserIds(Tokens(trimmed), existing);
  }

  /** `selectedCount === allGroupIds.length && allGroupIds.length > 0`. */
  function AllSelected(monitored: seq<string>, visible: seq<string>): bool {
    |KeepEach(monitored, visible)| == |visible| && |visible| > 0
  }

  lemma {:induction false} KeepEachDistinct(s: seq<string>, xs: seq<string>)
    requires NoDuplicates(s)
    ensures NoDuplicates(KeepEach(s, xs))
  {
    if s != [] {
      assert NoDuplicates(s[1..]);
      KeepEachDistinct(s[1..], xs);
      assert s[0] !in s[1..];
    }
  }

  /** A duplicate-free list has as many elements as its set. */
  lemma {:induction false} DistinctCardinality(s: seq<string>)
    requires NoDuplicates(s)
    ensures |set x | x in s| == |s|
  {
    if s != [] {
      var p := s[..|s| - 1];
      assert NoDuplicates(p);
      DistinctCardinality(p);
      assert s == p + [s[|s| - 1]];
      assert (set x | x in s) == (set x | x in p) + {s[|s| - 1]};
      assert s[|s| - 1] !in p;
    }
  }

  /**
   * With both lists duplicate-free, the flag means what it says: something is
   * shown and every shown id is monitored.
   */
  lemma AllSelectedMeansEveryVisibleMonitored(monitored: seq<string>, visible: seq<string>)
    requires NoDuplicates(monitored) && NoDuplicates(visible)
    ensures AllSelected(monitored, visible) <==> visible != [] && forall v :: v in visible ==> v in monitored
  {
    var kept := KeepEach(monitored, visible);
    KeepEachDistinct(monitored, visible);
    DistinctCardinality(kept);
    DistinctCardinality(visible);
    var keptSet := set x | x in kept;
    var visibleSet := set x | x in visible;
    assert keptSet <= visibleSet;
    if forall v :: v in visible ==> v in monitored {
      assert keptSet == visibleSet;
    } else {
      var v :| v in visible && v !in monitored;
      var missing := visibleSet - keptSet;
      assert v in missing;
      assert visibleSet == keptSet + missing && keptSet * missing == {};
      assert |visibleSet| == |keptSet| + |missing|;
    }
  }

  /** A monitored list that names a shown id twice can make the flag wrong. */
  lemma DuplicateMonitoredIdFoolsFlag()
    ensures AllSelected(["-100", "-100"], ["-100", "-200"])
    ensures "-200" !in ["-100", "-100"]
  {
    assert KeepEach(["-100", "-100"], ["-100", "-200"]) == ["-100", "-100"] by {
      assert ["-100", "-100"][1..] == ["-100"];
      assert ["-100"][1..] == [];
    }
  }

  /** `(prev.regexFilters || []).filter((_, i) => i !== index)`. */
  function RemoveAt<T>(s: seq<T>, index: int): (r: seq<T>)
    ensures 0 <= index < |s| ==> r == s[..index] + s[index + 1..]
    ensures !(0 <= index < |s|) ==> r == s
    decreases |s|
  {
    if s == [] then []
    else if index == 0 then s[1..]
    else
      var rest := RemoveAt(s[1..], index - 1);
      assert 0 <= index < |s| ==> s[..index] == [s[0]] + s[1..][..index - 1];
      assert 0 <= index < |s| ==> s[index + 1..] == s[1..][index..];
      assert s == [s[0]] + s[1..];
      [s[0]] + rest
  }

  /** Some rule in the list was compiled from exactly this pattern. */
  predicate HasSource(rules: seq<RegexRule>, pattern: string) {
    exists i :: 0 <= i < |rules| && rules[i].source == pattern
  }

  /** The state of the settings form. */
  class SettingsEditor {
    var monitoredChatIds: seq<string>
    var filteredUserIds: seq<string>
    var regexFilters: seq<RegexRule>
    var mode: Mode
    var autoRead: bool
    /** The user-id input box. */
    var newUserId: string
    /** The regex input box and its validation message ("" when none). */
    var newRegexFilter: string
    var regexValidationError: string
    /** The value the all-selected effect last computed. */
    var isAllSelected: bool
    /** Whether the saved blob has been copied into the form. */
    var hasInitialized: bool

    function Settings(): FormSettings
      reads this
    {
      FormSettings(monitoredChatIds, filteredUserIds, regexFilters, mode, autoRead)
    }

    /** Mount: the form from `InitialSettings`, empty inputs, no flags set. */
    constructor(init: FormSettings)
      ensures Settings() == init
      ensures newUserId == "" && newRegexFilter == "" && regexValidationError == ""
      ensures !isAllSelected && !hasInitialized
    {
      monitoredChatIds := init.monitoredChatIds;
      filteredUserIds := init.filteredUserIds;
      regexFilters := init.regexFilters;
      mode := init.mode;
      autoRead := init.autoRead;
      newUserId := "";
      newRegexFilter := "";
      regexValidationError := "";
      isAllSelected := false;
      hasInitialized := false;
    }

    /**
     * The effect that copies a saved blob into the form once; `Err` when the copy
     * throws, with the form untouched.
     */
    method SyncSaved(saved: Option<SavedSettings>, engine: RegexEngine) returns (r: Result<bool>)
      modifies this
      ensures saved.None? || old(hasInitialized) ==> r == Ok(false) && Settings() == old(Settings())
      ensures saved.None? || old(hasInitialized) ==> hasInitialized == old(hasInitialized)
      ensures saved.Some? && !old(hasInitialized) && InitialSettings(saved, engine).Err? ==>
                r.Err? && Settings() == old(Settings()) && !hasInitialized
      ensures saved.Some? && !old(hasInitialized) && InitialSettings(saved, engine).Ok? ==>
                r == Ok(true) && Settings() == InitialSettings(saved, engine).value && hasInitialized
      ensures newUserId == old(newUserId) && newRegexFilter == old(newRegexFilter)
      ensures regexValidationError == old(regexValidationError) && isAllSelected == old(isAllSelected)
    {
      if saved.None? || hasInitialized {
        return Ok(false);
      }
      var init := InitialSettings(saved, engine);
      if init.Err? {
        return Err(init.error);
      }
      monitoredChatIds := init.value.monitoredChatIds;
      filteredUserIds := init.value.filteredUserIds;
      regexFilters := init.value.regexFilters;
      mode := init.value.mode;
      autoRead := init.value.autoRead;
      hasInitialized := true;
      return Ok(true);
    }

    /** Checking a chat appends its id; unchecking removes every occurrence. */
    method ChatToggle(chatId: string, isChecked: bool)
      modifies this
      ensures isChecked ==> monitoredChatIds == old(monitoredChatIds) + [chatId]
      ensures !isChecked ==> monitoredChatIds == RemoveAll(old(monitoredChatIds), chatId)
      ensures Settings() == old(Settings()).(monitoredChatIds := monitoredChatIds)
      ensures newUserId == old(newUserId) && newRegexFilter == old(newRegexFilter)
      ensures regexValidationError == old(regexValidationError) && isAllSelected == old(isAllSelected)
      ensures hasInitialized == old(hasInitialized)
    {
      if isChecked {
        monitoredChatIds := monitoredChatIds + [chatId];
      } else {
        monitoredChatIds := RemoveAll(monitoredChatIds, chatId);
      }
    }

    /** The effect that recomputes the all-selected flag. */
    method RefreshAllSelected(visible: seq<string>)
      modifies this
      ensures isAllSelected == AllSelected(monitoredChatIds, visible)
      ensures Settings() == old(Settings())
      ensures newUserId == old(newUserId) && newRegexFilter == old(newRegexFilter)
      ensures regexValidationError == old(regexValidationError) && hasInitialized == old(hasInitialized)
    {
      isAllSelected := AllSelected(monitoredChatIds, visible);
    }

    /**
     * Select-all: when the flag is set, every shown id leaves the list; otherwise
     * the shown ids join it, each id once, in first-occurrence order.
     */
    method SelectAll(visible: seq<string>)
      modifies this
      ensures old(isAllSelected) ==> monitoredChatIds == RemoveEach(old(monitoredChatIds), visible)
      ensures !old(isAllSelected) ==> monitoredChatIds == Dedup(old(monitoredChatIds) + visible)
      ensures Settings() == old(Settings()).(monitoredChatIds := monitoredChatIds)
      ensures newUserId == old(newUserId) && newRegexFilter == old(newRegexFilter)
      ensures regexValidationError == old(regexValidationError) && isAllSelected == old(isAllSelected)
      ensures hasInitialized == old(hasInitialized)
    {
      if isAllSelected {
        monitoredChatIds := RemoveEach(monitoredChatIds, visible);
      } else {
        monitoredChatIds := Dedup(monitoredChatIds + visible);
      }
    }

    method UserIdInputChange(value: string)
      modifies this
      ensures newUserId == value
      ensures Settings() == old(Settings())
      ensures newRegexFilter == old(newRegexFilter) && regexValidationError == old(regexValidationError)
      ensures isAllSelected == old(isAllSelected) && hasInitialized == old(hasInitialized)
    {
      newUserId := value;
    }

    /**
     * Batch add: every whitespace-separated token of the input that is a numeric
     * id not yet blocked is appended, in token order; the input is cleared only
     * when something was appended.
     */
    method AddUserId()
      modifies this
      ensures filteredUserIds == old(filteredUserIds) + BatchIds(old(newUserId), old(filteredUserIds))
      ensures newUserId == if BatchIds(old(newUserId), old(filteredUserIds)) == [] then old(newUserId) else ""
      ensures Settings() == old(Settings()).(filteredUserIds := filteredUserIds)
      ensures newRegexFilter == old(newRegexFilter) && regexValidationError == old(regexValidationError)
      ensures isAllSelected == old(isAllSelected) && hasInitialized == old(hasInitialized)
    {
      var validIds := CollectBatchIds(newUserId, filteredUserIds);
      if |validIds| > 0 {
        filteredUserIds := filteredUserIds + validIds;
        newUserId := "";
      }
    }

    /** Picking a search result blocks its id unless it is already blocked. */
    method SelectSearchResult(id: string)
      modifies this
      ensures filteredUserIds == if id in old(filteredUserIds) then old(filteredUserIds) else old(filteredUserIds) + [id]
      ensures Settings() == old(Settings()).(filteredUserIds := filteredUserIds)
      ensures newUserId == old(newUserId) && newRegexFilter == old(newRegexFilter)
      ensures regexValidationError == old(regexValidationError)
      ensures isAllSelected == old(isAllSelected) && hasInitialized == old(hasInitialized)
    {
      if id !in filteredUserIds {
        filteredUserIds := filteredUserIds + [id];
      }
    }

    /** Unblocking removes every occurrence of the id. */
    method RemoveUserId(id: string)
      modifies this
      ensures filteredUserIds == RemoveAll(old(filteredUserIds), id)
      ensures Settings() == old(Settings()).(filteredUserIds := filteredUserIds)
      ensures newUserId == old(newUserId) && newRegexFilter == old(newRegexFilter)
      ensures regexValidationError == old(regexValidationError)
      ensures isAllSelected == old(isAllSelected) && hasInitialized == old(hasInitialized)
    {
      filteredUserIds := RemoveAll(filteredUserIds, id);
    }

    /** Typing a pattern validates its trimmed form as it is typed. */
    method RegexInputChange(value: string, engine: RegexEngine)
      modifies this
      ensures newRegexFilter == value
      ensures regexValidationError ==
                if Trim(value) != [] && engine.compile(Trim(value), "").None? then InvalidRegex else ""
      ensures Settings() == old(Settings())
      ensures newUserId == old(newUserId)
      ensures isAllSelected == old(isAllSelected) && hasInitialized == old(hasInitialized)
    {
      newRegexFilter := value;
      var trimmed := Trim(value);
      if trimmed != [] && engine.compile(trimmed, "").None? {
        regexValidationError := InvalidRegex;
      } else {
        regexValidationError := "";
      }
    }

    /**
     * Adding the typed pattern: nothing happens when it is blank or already flagged
     * invalid; a pattern that does not compile is flagged; one whose text is the
     * source of a rule already listed is ignored; otherwise its rule is appended and
     * the input cleared.
     */
    method AddRegexFilter(engine: RegexEngine)
      modifies this
      ensures var p := Trim(old(newRegexFilter));
              p == [] || old(regexValidationError) != "" ==>
                regexFilters == old(regexFilters) && newRegexFilter == old(newRegexFilter)
                && regexValidationError == old(regexValidationError)
      ensures var p := Trim(old(newRegexFilter));
              p != [] && old(regexValidationError) == "" && engine.compile(p, "").None? ==>
                regexFilters == old(regexFilters) && newRegexFilter == old(newRegexFilter)
                && regexValidationError == InvalidRegex
      ensures var p := Trim(old(newRegexFilter));
              p != [] && old(regexValidationError) == "" && engine.compile(p, "").Some? && HasSource(old(regexFilters), p) ==>
                regexFilters == old(regexFilters) && newRegexFilter == old(newRegexFilter)
                && regexValidationError == old(regexValidationError)
      ensures var p := Trim(old(newRegexFilter));
              p != [] && old(regexValidationError) == "" && engine.compile(p, "").Some? && !HasSource(old(regexFilters), p) ==>
                regexFilters == old(regexFilters) + [engine.compile(p, "").value]
                && newRegexFilter == "" && regexValidationError == ""
      ensures Settings() == old(Settings()).(regexFilters := regexFilters)
      ensures newUserId == old(newUserId)
      ensures isAllSelected == old(isAllSelected) && hasInitialized == old(hasInitialized)
    {
      var p := Trim(newRegexFilter);
      if p == [] || regexValidationError != "" {
        return;
      }
      match engine.compile(p, "")
      case None =>
        regexValidationError := InvalidRegex;
      case Some(rule) =>
        if !HasSource(regexFilters, p) {
          regexFilters := regexFilters + [rule];
          newRegexFilter := "";
          regexValidationError := "";
        }
    }

    /** A preset pattern is appended when it compiles and no listed rule has it as source. */
    method AddPresetRegex(pattern: string, engine: RegexEngine)
      requires pattern in PresetPatterns
      modifies this
      ensures engine.compile(pattern, "").Some? && !HasSource(old(regexFilters), pattern) ==>
                regexFilters == old(regexFilters) + [engine.compile(pattern, "").value]
      ensures engine.compile(pattern, "").None? || HasSource(old(regexFilters), pattern) ==>
                regexFilters == old(regexFilters)
      ensures Settings() == old(Settings()).(regexFilters := regexFilters)
      ensures newUserId == old(newUserId) && newRegexFilter == old(newRegexFilter)
      ensures regexValidationError == old(regexValidationError)
      ensures isAllSelected == old(isAllSelected) && hasInitialized == old(hasInitialized)
    {
      match engine.compile(pattern, "")
      case None =>
      case Some(rule) =>
        if !HasSource(regexFilters, pattern) {
          regexFilters := regexFilters + [rule];
        }
    }

    /** Deletes the rule at `index`, keeping the others in order. */
    method RemoveRegexFilter(index: int)
      modifies this
      ensures regexFilters == RemoveAt(old(regexFilters), index)
      ensures Settings() == old(Settings()).(regexFilters := regexFilters)
      ensures newUserId == old(newUserId) && newRegexFilter == old(newRegexFilter)
      ensures regexValidationError == old(regexValidationError)
      ensures isAllSelected == old(isAllSelected) && hasInitialized == old(hasInitialized)
    {
      regexFilters := RemoveAt(regexFilters, index);
    }

    /** Back to the built-in defaults, on-call mode, no auto-read. */
    method Reset()
      modifies this
      ensures Settings() == DefaultForm()
      ensures newUserId == old(newUserId) && newRegexFilter == old(newRegexFilter)
      ensures regexValidationError == old(regexValidationError)
      ensures isAllSelected == old(isAllSelected) && hasInitialized == old(hasInitialized)
    {
      var d := DefaultForm();
      monitoredChatIds := d.monitoredChatIds;
      filteredUserIds := d.filteredUserIds;
      regexFilters := d.regexFilters;
      mode := d.mode;
      autoRead := d.autoRead;
    }

    method ModeChange(newMode: Mode)
      modifies this
      ensures Settings() == old(Settings()).(mode := newMode)
      ensures newUserId == old(newUserId) && newRegexFilter == old(newRegexFilter)
      ensures regexValidationError == old(regexValidationError)
      ensures isAllSelected == old(isAllSelected) && hasInitialized == old(hasInitialized)
    {
      mode := newMode;
    }

    method AutoReadChange(checked: bool)
      modifies this
      ensures Settings() == old(Settings()).(autoRead := checked)
      ensures newUserId == old(newUserId) && newRegexFilter == old(newRegexFilter)
      ensures regexValidationError == old(regexValidationError)
      ensures isAllSelected == old(isAllSelected) && hasInitialized == old(hasInitialized)
    {
      autoRead := checked;
    }

    /** Save: hands the form to the save action; the form itself is unchanged. */
    method Save(tab: TabState, now: int) returns (r: Step)
      ensures r == TriageActions.SaveCustomerServiceSettings(tab, FormPayload(Settings()), now)
      ensures r.effects == [StoreSettings(SavedSettings(Some(monitoredChatIds), Some(filteredUserIds),
                                                        Some(regexFilters), None, None))]
    {
      r := TriageActions.SaveCustomerServiceSettings(tab, FormPayload(Settings()), now);
    }
  }

  // ---------------------------------------------------------------------------
  // Properties of the handlers, stated on the functions they use.
  // ---------------------------------------------------------------------------

  /** Unchecking a chat keeps every other id, in order. */
  lemma UncheckKeepsOthersInOrder(before: seq<string>, after: seq<string>, chatId: string)
    requires chatId !in before && chatId !in after
    ensures RemoveAll(before + [chatId] + after, chatId) == before + after
  {
    ToggleOnOffRestores(before, chatId);
    RemoveAllAppend(before + [chatId], after, chatId);
    RemoveAllAbsent(after, chatId);
  }

  /** Checking then unchecking a chat that was not monitored restores the list. */
  lemma ToggleOnOffRestores(monitored: seq<string>, chatId: string)
    requires chatId !in monitored
    ensures RemoveAll(monitored + [chatId], chatId) == monitored
  {
    RemoveAllAppend(monitored, [chatId], chatId);
    RemoveAllAbsent(monitored, chatId);
    assert RemoveAll([chatId], chatId) == [];
  }

  /**
   * Select-all on a duplicate-free list keeps the list in front and then appends the
   * first occurrence of every shown id not yet in it, in display order; deselect-all
   * leaves no shown id.
   */
  lemma SelectAllSpec(monitored: seq<string>, visible: seq<string>)
    requires NoDuplicates(monitored)
    ensures var r := Dedup(monitored + visible);
            && |r| >= |monitored| && r[..|monitored|] == monitored
            && NoDuplicates(r)
            && forall v :: v in r <==> v in monitored || v in visible
    ensures Dedup(monitored + visible) == monitored + Dedup(RemoveEach(visible, monitored))
    ensures NoDuplicates(visible) ==> Dedup(monitored + visible) == monitored + RemoveEach(visible, monitored)
    ensures forall v :: v in visible ==> v !in RemoveEach(monitored, visible)
  {
    DedupKeepsDistinctPrefix(monitored, visible);
    DedupAppend(monitored, visible);
    DedupOfDistinct(monitored);
    if NoDuplicates(visible) {
      RemoveEachDistinct(visible, monitored);
      DedupOfDistinct(RemoveEach(visible, monitored));
    }
  }

  /** After a select-all on shown ids, the refreshed flag is set. */
  lemma SelectAllThenFlagSet(monitored: seq<string>, visible: seq<string>)
    requires NoDuplicates(visible) && visible != []
    ensures AllSelected(Dedup(monitored + visible), visible)
  {
    var r := Dedup(monitored + visible);
    AllSelectedMeansEveryVisibleMonitored(r, visible);
  }
}
