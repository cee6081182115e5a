# Customer-service triage of the telegram-tt web client, modelled in Dafny

The fork of the telegram-tt web client adds a customer-service desk. Messages
from monitored group chats join a **triage queue** unless one of three
checks keeps them out: the chat is not monitored, the sender is blocked, or
the text matches a regular-expression rule. The queue is kept twice:

- a global list;
- one list per chat.

Each list is sorted newest first and capped at 100 entries. An operator can:

- **resolve** a queued message, which removes it and marks its chat read up to it;
- **reply** to a message, which sends the reply and records the message as replied;
- **clear** the queue, which marks every known chat read up to its newest queued message.

A modal shows the queue with album members (messages sharing a `groupedId`)
gathered into one entry. A settings form edits the monitored chats, the
blocked senders and the rules, and saves them to local storage. A composer
keeps a local draft. A small standalone Node server serves the built client:

- it probes for a free port;
- it maps a request path to a file and a MIME type;
- it falls back to `index.html` for unknown paths.

The model has one module per part of the source:

| module | file | models |
|---|---|---|
| `Common` | common.dfy | JavaScript string and list helpers the source relies on: `trim`, `split(/\s+/)`, `filter`, `new Set`, `includes` |
| `CsTypes` | cs_types.dfy | messages, rules, saved settings, the tab's customer-service state, side effects |
| `Selectors` | selectors.dfy | `src/global/selectors/customerService.ts` |
| `FilterConfig` | filter_config.dfy | `src/config/customerService.ts` |
| `DateOrder` | date_order.dfy | the stable newest-first sort and cap used by the action handlers |
| `TriageActions` | triage_actions.dfy | `src/global/actions/ui/customerService.ts` |
| `AlbumGrouping` | album_grouping.dfy | the grouping `reduce` and the replied-id normalisation of `CustomerServiceModal.tsx` |
| `SettingsEditor` | settings_editor.dfy | the form state and handlers of `CustomerServiceSettings.tsx`, as a class |
| `DraftUpdate` | composer.dfy | `updateDraftSafely` of `CustomerServiceComposer.tsx` |
| `StaticServer` | server.dfy | `standalone-server.js` |

Action handlers are pure functions from the tab state to a `Step`. A `Step`
holds the new state and the list of calls the handler makes:

- `markMessageListRead`;
- `sendMessage`;
- `resetDraftReplyInfo`;
- the local-storage write.

The environment is passed in as parameters:

| source dependency | model parameter |
|---|---|
| `Date.now()` | `now` |
| the chats `selectChat` finds | `knownChats` |
| what `loadSettingsFromStorage` yields | `stored` |
| `new RegExp` and `RegExp.prototype.test` | an abstract `RegexEngine` |
| the port probe | a predicate `available` |
| `fs.access` and `fs.readFile` | a `FileSystem` record |

The settings form's `useState` fields and the server's module-level `PORT`
are updated in place, so each is a class with `modifies` clauses. Two loops
are imperative methods, each proved equal to its specification function:

- the modal's grouping walk;
- the port scan.

Some behaviours of the code that a reader may not expect, each of which the model keeps:

- **Grouping is not by runs.** The modal's `reduce` joins each message to the *first* album with its album id anywhere in the list, not only to an adjacent one. Non-adjacent members of an album therefore gather into one group (`AlbumGrouping.GroupMessagesLayout`).
- **Mode and auto-read are not saved.** `settingsToSave` keeps only the three lists, so re-opening the form after a save gives on-call mode and auto-read off (`SettingsEditor.SaveThenReopen`).
- **A saved rule that no longer compiles throws.** In `isFilteredByRegex` the `try` guards only `regex.test`; recompiling the saved rules with `new RegExp` sits outside it. Such a rule therefore makes the call throw, which the model returns as `Err` (`FilterConfig.ShouldFilterMessageSpec`).
- **The monitored list is not empty by default.** The built-in list holds three example chat ids, so with no saved settings those three chats are monitored (`FilterConfig.DefaultsFilterOnlyUnmonitoredChats`).
- **`mode` is only stored.** The form saves it in its state, and no code in these files reads it to change how a message is handled.

## Model

| member | source | states |
|---|---|---|
| Common.TrimSpec | src/global/actions/ui/customerService.ts:209 | `trim()` removes exactly the leading and trailing whitespace run; the result is empty iff the text is all whitespace |
| Common.TrimLeftSpec | src/components/customerService/CustomerServiceSettings.tsx:295 | the part trimmed from the left is all whitespace and the rest is a suffix of the input |
| Common.TrimRightSpec | src/components/customerService/CustomerServiceSettings.tsx:295 | the part trimmed from the right is all whitespace, and what is kept is a prefix that does not end in whitespace |
| Common.Tokens | src/components/customerService/CustomerServiceSettings.tsx:299 | `split(/\s+/).filter(id => id.trim())` yields only non-empty tokens without whitespace |
| Common.WordLengthIsFirstWhitespace | src/components/customerService/CustomerServiceSettings.tsx:299 | a token ends at the first whitespace character or at the end of the text |
| Common.TokensOfWhitespace | src/components/customerService/CustomerServiceSettings.tsx:299 | a text of whitespace only has no tokens |
| Common.TokensOfWord | src/components/customerService/CustomerServiceSettings.tsx:299 | a non-empty text without whitespace is exactly one token, itself |
| Common.TokensSkipsLeadingWhitespace | src/components/customerService/CustomerServiceSettings.tsx:299 | leading whitespace yields no token |
| Common.TokensSplit | src/components/customerService/CustomerServiceSettings.tsx:299 | a whitespace character splits the text: the tokens of `a + w + b` are the tokens of `a` followed by those of `b`; with the two lemmas above this fixes the tokens of every text |
| Common.NatToString | src/global/actions/ui/customerService.ts:339 | a message id prints as a non-empty string of decimal digits |
| Common.NatToStringValue | src/global/actions/ui/customerService.ts:339 | the printed digits read back as the number |
| Common.NatToStringInjective | src/global/actions/ui/customerService.ts:339 | different numbers print differently |
| Common.IntToStringSign | src/global/actions/ui/customerService.ts:339 | a printed id starts with `-` iff it is negative |
| Common.IntToStringInjective | src/global/actions/ui/customerService.ts:339 | different ids print differently |
| CsTypes.MessageKeyInjective | src/global/actions/ui/customerService.ts:339 | within one chat, different message ids give different replied keys |
| Common.RemoveAll | src/components/customerService/CustomerServiceSettings.tsx:250 | `filter(id => id !== x)` removes every copy of `x` and keeps every other element with its multiplicity |
| Common.RemoveAllAppend | src/components/customerService/CustomerServiceSettings.tsx:250 | removing an element distributes over concatenation |
| Common.RemoveAllAbsent | src/components/customerService/CustomerServiceSettings.tsx:352 | removing an absent element changes nothing |
| Common.RemoveEach | src/components/customerService/CustomerServiceSettings.tsx:282 | `filter(id => !xs.includes(id))` keeps exactly the elements not in `xs` |
| Common.RemoveEachAppend | src/components/customerService/CustomerServiceSettings.tsx:282 | the filter keeps order: filtering a concatenation filters each part |
| Common.RemoveEachDistinct | src/components/customerService/CustomerServiceSettings.tsx:282 | filtering a duplicate-free list leaves it duplicate-free |
| Common.KeepEach | src/components/customerService/CustomerServiceSettings.tsx:240 | `filter(id => xs.includes(id))` keeps an element iff it is in `xs`; a single element is kept or dropped |
| Common.KeepEachAppend | src/components/customerService/CustomerServiceSettings.tsx:240 | the filter keeps the survivors in order and with their copies: filtering a concatenation filters each part, which with `KeepEach` fixes the result |
| Common.Dedup | src/components/customerService/CustomerServiceSettings.tsx:288 | `[...new Set(s)]` has no duplicates and the same elements as `s` |
| Common.DedupOfDistinct | src/components/customerService/CustomerServiceSettings.tsx:288 | a duplicate-free list passes through `new Set` unchanged |
| Common.DedupAppend | src/components/customerService/CustomerServiceSettings.tsx:288 | `new Set(a ++ b)` lists the first occurrences from `a`, then the first occurrences of the elements of `b` that are not in `a`, in order |
| Common.DedupKeepsDistinctPrefix | src/components/customerService/CustomerServiceSettings.tsx:288 | `new Set(a ++ b)`, for a duplicate-free `a`, starts with `a` in order |
| Selectors.SelectCustomerServiceMessages | src/global/selectors/customerService.ts:18-21 | the queue, or `[]` when the feature has no state |
| Selectors.SelectCustomerServiceMessagesByChatId | src/global/selectors/customerService.ts:24-31 | one chat's queue, or `[]` when there is no state or no entry for the chat |
| Selectors.SelectCustomerServiceLastUpdated | src/global/selectors/customerService.ts:40-43 | the last update time, or 0 without state |
| Selectors.SelectHasCustomerServiceMessages | src/global/selectors/customerService.ts:46-49 | true iff there is state and its queue is non-empty |
| Selectors.SelectActiveCustomerServiceChatIds | src/global/selectors/customerService.ts:52-61 | a chat is active iff it has an entry with a non-empty list |
| Selectors.SelectCustomerServiceReplyingMessage | src/global/selectors/customerService.ts:64-67 | no reply target without state; otherwise the state's reply target |
| Selectors.SelectIsMessageReplied | src/global/selectors/customerService.ts:70-75 | true iff the replied ids are an array containing `${chatId}-${messageId}`; any other form counts as not replied |
| Selectors.SelectCustomerServiceSettings | src/global/selectors/customerService.ts:78-88 | the settings in the state when present, otherwise what local storage yields |
| FilterConfig.EffectiveSettings | src/config/customerService.ts:41-47 | with no global state no saved settings are consulted; otherwise the settings selector decides |
| FilterConfig.IsMonitoredChat | src/config/customerService.ts:41-49 | a saved monitored list decides membership, even when empty; otherwise the built-in three ids do |
| FilterConfig.IsFilteredUser | src/config/customerService.ts:52-62 | a missing or empty sender is never blocked; a saved list decides; the built-in list blocks nobody |
| FilterConfig.CompileAll | src/config/customerService.ts:72-75 | the recompiled rule list exists iff every saved rule compiles, and has one compiled rule per saved rule, in order |
| FilterConfig.AnyRuleMatches | src/config/customerService.ts:78-86 | `some` with a swallowed test error: true iff some rule's test reports a match |
| FilterConfig.ShouldFilterMessageSpec | src/config/customerService.ts:65-112 | the check throws iff it reaches the regex step with a text and a saved rule that does not compile; otherwise it filters iff the chat is unmonitored, or the sender is blocked, or a rule in force matches |
| FilterConfig.DefaultsFilterOnlyUnmonitoredChats | src/config/customerService.ts:6-38 | without saved settings exactly the messages outside the three built-in chats are filtered |
| FilterConfig.EmptyRuleListNeverFilters | src/config/customerService.ts:65-87 | an empty saved rule list lets every message of a monitored chat from an unblocked sender through |
| DateOrder.Insert | src/global/actions/ui/customerService.ts:121-122 | one insertion step of the sort adds the message exactly once and keeps every other message |
| DateOrder.InsertSorted | src/global/actions/ui/customerService.ts:121-122 | inserting into a newest-first list keeps it newest first |
| DateOrder.SortByDateDesc | src/global/actions/ui/customerService.ts:121-122 | the comparator sort on `date`, a missing date counting as 0, gives a newest-first permutation of its input |
| DateOrder.SortIsStable | src/global/actions/ui/customerService.ts:121-122 | the sort is stable: messages with equal dates keep their input order |
| DateOrder.SortOfSorted | src/global/actions/ui/customerService.ts:127-128 | sorting a list that is already newest first returns it unchanged |
| DateOrder.CutSpec | src/global/actions/ui/customerService.ts:121-123 | `slice(0, cap)` of a newest-first list stays newest first and drops only messages no newer than every kept one |
| DateOrder.NewestSpec | src/global/actions/ui/customerService.ts:121-129 | sort then `slice(0, cap)` keeps `min(n, cap)` messages, newest first, drops none when under the cap, and every dropped message is no newer than any kept one |
| DateOrder.KeepWhere | src/global/actions/ui/customerService.ts:272-274 | `filter` keeps an element iff it satisfies the predicate; a single element is kept or dropped |
| DateOrder.KeepWhereAppend | src/global/actions/ui/customerService.ts:272-274 | the filter keeps the survivors in order and with their copies, equal dates included: filtering a concatenation filters each part |
| DateOrder.KeepWhereStaysSorted | src/global/actions/ui/customerService.ts:272-281 | filtering a newest-first list keeps it newest first |
| TriageActions.ToggleCustomerService | src/global/actions/ui/customerService.ts:35-45 | the modal flag becomes `force` when given, else flips; the queue state is untouched |
| TriageActions.ToggleTwiceRestores | src/global/actions/ui/customerService.ts:35-45 | toggling twice without `force` restores the tab |
| TriageActions.OpenCustomerService | src/global/actions/ui/customerService.ts:47-53 | the modal is open and nothing else changes |
| TriageActions.CloseCustomerService | src/global/actions/ui/customerService.ts:81-100 | the modal is closed, an existing state loses only its reply target, a missing one stays missing, and the draft reply is reset |
| TriageActions.SetCustomerServiceReply | src/global/actions/ui/customerService.ts:180-200 | the reply target becomes the given message, in the existing or a fresh empty state |
| TriageActions.InitializeCustomerServiceSettings | src/global/actions/ui/customerService.ts:56-79 | nothing changes when settings exist or storage has none; otherwise the stored settings are installed, the queues and reply target are kept, a zero `lastUpdated` becomes `now`, and a missing or `false` replied-id value becomes `[]` |
| TriageActions.SettingsToSave | src/global/actions/ui/customerService.ts:374-381 | the saved blob holds exactly the three lists, a missing list as `[]`, and no mode or auto-read flag |
| TriageActions.SaveCustomerServiceSettings | src/global/actions/ui/customerService.ts:356-392 | the blob is written to storage and put in the state, with everything else kept |
| TriageActions.SavedListsDecideFilter | src/global/actions/ui/customerService.ts:356-392 | after a save the filter consults exactly the saved chat and sender lists, whatever storage holds |
| TriageActions.AddToCustomerService | src/global/actions/ui/customerService.ts:102-144 | the global list and the chat's list are each the newest `Cap` of old list plus the message; other chats, replied ids, settings and reply target are kept; `lastUpdated` is `now` |
| TriageActions.AddKeepsMessage | src/global/actions/ui/customerService.ts:121-123 | below the cap the added message is always kept in the global list |
| TriageActions.AddPreservesValid | src/global/actions/ui/customerService.ts:102-144 | adding keeps every list capped and newest first, and no chat key with an empty list |
| TriageActions.ResolveChatLists | src/global/actions/ui/customerService.ts:277-286 | the chat's list drops every entry with the id, and its key is deleted iff nothing is left; other chats are untouched |
| TriageActions.ResolveEffects | src/global/actions/ui/customerService.ts:305-318 | the draft reply is reset iff the message was the reply target; the chat is marked read up to the id iff the client knows it; no other call is made, and the reset comes first |
| TriageActions.ResolveCustomerServiceMessage | src/global/actions/ui/customerService.ts:257-321 | the global list drops the entries equal by `(id, chatId)`, the chat list those equal by id, the reply target is cleared iff it is the message, and the calls are those of `ResolveEffects`, in the same order |
| TriageActions.ResolvePreservesValid | src/global/actions/ui/customerService.ts:257-321 | resolving keeps the store valid |
| TriageActions.KeepWhereTwice | src/global/actions/ui/customerService.ts:272-281 | filtering twice with the same predicate is filtering once |
| TriageActions.KeepWhereAll | src/global/actions/ui/customerService.ts:272-281 | a filter every element passes changes nothing |
| TriageActions.ResolveChatListsTwice | src/global/actions/ui/customerService.ts:277-286 | resolving the per-chat lists twice is resolving them once |
| TriageActions.ResolveIdempotent | src/global/actions/ui/customerService.ts:257-321 | resolving a message twice leaves the same state as resolving it once |
| TriageActions.ResolveAbsentIsNoOp | src/global/actions/ui/customerService.ts:257-321 | resolving a message that is neither queued nor the reply target only refreshes `lastUpdated` |
| TriageActions.MarkCustomerServiceMessageReplied | src/global/actions/ui/customerService.ts:323-354 | the replied ids become an array containing the key, whose elements are the old ones plus the key, with the old array as its prefix and no duplicate introduced; everything else is kept |
| TriageActions.MarkRepliedIdempotent | src/global/actions/ui/customerService.ts:339-346 | marking the same message twice is marking it once |
| TriageActions.MarkRepliedLeavesOthers | src/global/actions/ui/customerService.ts:339-346 | marking one message leaves the replied status of every other message of the same chat unchanged |
| TriageActions.MarkRepliedThenSelected | src/global/selectors/customerService.ts:70-75 | right after marking, the replied selector reports the message as replied |
| TriageActions.MarkRepliedPreservesValid | src/global/actions/ui/customerService.ts:323-354 | marking keeps the store valid |
| TriageActions.SendCustomerServiceReply | src/global/actions/ui/customerService.ts:202-255 | a blank text or missing target changes nothing and calls nothing; otherwise the reply is sent to the target's chat as a reply to it, the target is recorded as replied, the reply target is cleared and the draft reply reset |
| TriageActions.MaxId | src/global/actions/ui/customerService.ts:159 | `Math.max(...ids)` is an id of the list and no id exceeds it |
| TriageActions.ClearCustomerServiceMessages | src/global/actions/ui/customerService.ts:146-178 | the store becomes a fresh empty state; every call marks a known chat with queued messages read at its largest id, every such chat gets one, and no chat gets two |
| TriageActions.ClearedIsValid | src/global/actions/ui/customerService.ts:170-177 | the cleared store is valid |
| AlbumGrouping.FindAlbumFrom | src/components/customerService/CustomerServiceModal.tsx:413-415 | `find` returns the first album whose first member has the id, or reports that none has |
| AlbumGrouping.GroupMessages | src/components/customerService/CustomerServiceModal.tsx:410-428 | the modal's loop computes the fold `GroupAll` |
| AlbumGrouping.AlbumOf | src/components/customerService/CustomerServiceModal.tsx:410-428 | the messages of an album id are exactly those carrying it |
| AlbumGrouping.GroupAllLaysOut | src/components/customerService/CustomerServiceModal.tsx:410-428 | the fold lays out its input (albums exact, ids distinct, every id covered, singles and heads in order) |
| AlbumGrouping.GroupMessagesLayout | src/components/customerService/CustomerServiceModal.tsx:410-428 | the layout shows every queued message exactly once; each album holds all messages of one id in queue order, adjacent or not; no id has two albums; the bare entries are the messages without an id, in order; entries follow the order of their opening messages |
| AlbumGrouping.StringValues | src/components/customerService/CustomerServiceModal.tsx:744 | `Object.values(o).filter(id => typeof id === 'string')` keeps exactly the string values |
| AlbumGrouping.NormaliseRepliedIds | src/components/customerService/CustomerServiceModal.tsx:735-746 | an array is taken as is, a `Set` as its elements, another object as its string values, anything else as `[]` |
| AlbumGrouping.EntryIsReplied | src/components/customerService/CustomerServiceModal.tsx:445-446 | an entry shows as replied iff the key of its message, or of its album's first member, is recorded |
| AlbumGrouping.ModalAgreesWithSelector | src/components/customerService/CustomerServiceModal.tsx:588-589 | for the array form, the modal's replied mark equals `selectIsMessageReplied` |
| AlbumGrouping.RepliedAfterMark | src/components/customerService/CustomerServiceModal.tsx:445-446 | after the reply to an entry's first message is recorded, the modal shows the entry as replied |
| SettingsEditor.DefaultForm | src/components/customerService/CustomerServiceSettings.tsx:116-122 | the default form has the built-in lists, on-call mode and no auto-read |
| SettingsEditor.InitialSettings | src/components/customerService/CustomerServiceSettings.tsx:104-123 | no blob gives the defaults; a blob gives a form iff its three lists are present and every rule recompiles, with mode defaulting to on-call and auto-read to off |
| SettingsEditor.SaveThenReopen | src/components/customerService/CustomerServiceSettings.tsx:388-393 | saving and reopening returns the three lists, when the rules recompile to themselves, but resets mode and auto-read |
| SettingsEditor.NewUserIds | src/components/customerService/CustomerServiceSettings.tsx:302-309 | the ids a batch appends are exactly the tokens matching `^-?\d+$` that are not already blocked |
| SettingsEditor.RepeatedTokenAddedTwice | src/components/customerService/CustomerServiceSettings.tsx:302-309 | a token repeated within one batch is appended twice, because tokens are checked only against the saved list |
| SettingsEditor.NewUserIdsSingle | src/components/customerService/CustomerServiceSettings.tsx:302-309 | one token contributes itself iff it is a numeric id not already blocked |
| SettingsEditor.NewUserIdsAppend | src/components/customerService/CustomerServiceSettings.tsx:302-309 | the ids of a concatenation of token lists are the ids of each part, in order |
| SettingsEditor.CollectNewUserIds | src/components/customerService/CustomerServiceSettings.tsx:300-309 | the `forEach` loop computes `NewUserIds` |
| SettingsEditor.CollectBatchIds | src/components/customerService/CustomerServiceSettings.tsx:295-309 | trimming, splitting and collecting yields `BatchIds` of the input |
| SettingsEditor.AllSelectedMeansEveryVisibleMonitored | src/components/customerService/CustomerServiceSettings.tsx:238-242 | with duplicate-free lists, the all-selected flag holds iff something is shown and every shown id is monitored |
| SettingsEditor.DuplicateMonitoredIdFoolsFlag | src/components/customerService/CustomerServiceSettings.tsx:238-242 | a count-based flag is set for a monitored list naming one shown id twice while another shown id is unmonitored |
| SettingsEditor.KeepEachDistinct | src/components/customerService/CustomerServiceSettings.tsx:240 | filtering a duplicate-free list keeps it duplicate-free |
| SettingsEditor.DistinctCardinality | src/components/customerService/CustomerServiceSettings.tsx:240-241 | a duplicate-free list has as many elements as its set |
| SettingsEditor.RemoveAt | src/components/customerService/CustomerServiceSettings.tsx:383 | `filter((_, i) => i !== index)` drops exactly the element at a valid index, keeping the others in order, and nothing otherwise |
| SettingsEditor.UncheckKeepsOthersInOrder | src/components/customerService/CustomerServiceSettings.tsx:245-252 | unchecking a chat keeps every other id in order |
| SettingsEditor.ToggleOnOffRestores | src/components/customerService/CustomerServiceSettings.tsx:245-252 | checking then unchecking an unmonitored chat restores the list |
| SettingsEditor.SelectAllSpec | src/components/customerService/CustomerServiceSettings.tsx:276-291 | select-all keeps the old list in front and then appends the first occurrence of each shown id not yet in it, in display order; deselect-all leaves no shown id |
| SettingsEditor.SelectAllThenFlagSet | src/components/customerService/CustomerServiceSettings.tsx:238-291 | after select-all the recomputed flag is set |
| SettingsEditor.SettingsEditor.constructor | src/components/customerService/CustomerServiceSettings.tsx:104-128 | the form starts from the initial settings with empty inputs and neither flag set |
| SettingsEditor.SettingsEditor.SyncSaved | src/components/customerService/CustomerServiceSettings.tsx:198-209 | a blob is copied once, before the first copy; a failed copy leaves the form untouched |
| SettingsEditor.SettingsEditor.RefreshAllSelected | src/components/customerService/CustomerServiceSettings.tsx:238-242 | the flag is recomputed from the monitored list and the shown ids |
| SettingsEditor.SettingsEditor.ChatToggle | src/components/customerService/CustomerServiceSettings.tsx:245-252 | checking appends the id; unchecking removes every copy; nothing else changes |
| SettingsEditor.SettingsEditor.SelectAll | src/components/customerService/CustomerServiceSettings.tsx:276-291 | with the flag set the shown ids leave the list, otherwise they join it, de-duplicated |
| SettingsEditor.SettingsEditor.UserIdInputChange | src/components/customerService/CustomerServiceSettings.tsx:254-256 | the input box holds the typed value |
| SettingsEditor.SettingsEditor.AddUserId | src/components/customerService/CustomerServiceSettings.tsx:294-319 | the batch ids are appended, and the input is cleared only when at least one was |
| SettingsEditor.SettingsEditor.SelectSearchResult | src/components/customerService/CustomerServiceSettings.tsx:329-341 | the result's id is appended unless already blocked |
| SettingsEditor.SettingsEditor.RemoveUserId | src/components/customerService/CustomerServiceSettings.tsx:349-354 | every copy of the id is removed |
| SettingsEditor.SettingsEditor.RegexInputChange | src/components/customerService/CustomerServiceSettings.tsx:258-273 | the error is set iff the trimmed value is non-empty and does not compile |
| SettingsEditor.SettingsEditor.AddRegexFilter | src/components/customerService/CustomerServiceSettings.tsx:357-377 | blank or already-flagged input does nothing; a pattern that does not compile is flagged; one already a rule's source is ignored; otherwise its rule is appended and the input cleared |
| SettingsEditor.SettingsEditor.AddPresetRegex | src/components/customerService/CustomerServiceSettings.tsx:678-700 | a preset (the only patterns the buttons pass) is appended iff it compiles and no rule has it as its source |
| SettingsEditor.SettingsEditor.RemoveRegexFilter | src/components/customerService/CustomerServiceSettings.tsx:380-385 | the rule at the index is removed |
| SettingsEditor.SettingsEditor.Reset | src/components/customerService/CustomerServiceSettings.tsx:396-404 | the form returns to the defaults and the inputs are kept |
| SettingsEditor.SettingsEditor.ModeChange | src/components/customerService/CustomerServiceSettings.tsx:407-412 | only the mode changes |
| SettingsEditor.SettingsEditor.AutoReadChange | src/components/customerService/CustomerServiceSettings.tsx:415-420 | only the auto-read flag changes |
| SettingsEditor.SettingsEditor.Save | src/components/customerService/CustomerServiceSettings.tsx:388-393 | the save action stores the three lists of the form and no mode or auto-read flag |
| DraftUpdate.Sub | src/components/customerService/CustomerServiceComposer.tsx:37-40 | the level at `k` (defaulting to `{}`) is the record there, or empty when it is missing or not a record |
| DraftUpdate.NewDraftFields | src/components/customerService/CustomerServiceComposer.tsx:41-48 | the new draft is local and dated at the clock in whole seconds; every other field comes from the update, else from the old draft |
| DraftUpdate.OtherThreadsUnchanged | src/components/customerService/CustomerServiceComposer.tsx:58-61 | the drafts of other threads of the chat are kept |
| DraftUpdate.OtherChatsUnchanged | src/components/customerService/CustomerServiceComposer.tsx:54-57 | the entries of other chats are kept |
| DraftUpdate.OtherFieldsUnchanged | src/components/customerService/CustomerServiceComposer.tsx:50-65 | every level on the path keeps the fields it does not pass through and gains only the one it does |
| DraftUpdate.MissingLevelsStartEmpty | src/components/customerService/CustomerServiceComposer.tsx:37-41 | with no `messages`, the result has exactly one chat with one thread holding the stamped update |
| DraftUpdate.NewDraftIdempotent | src/components/customerService/CustomerServiceComposer.tsx:43-48 | stamping a draft twice with the same update and clock is stamping it once |
| DraftUpdate.PathLevels | src/components/customerService/CustomerServiceComposer.tsx:50-65 | each level along the path is the old level with the rebuilt child in place (the step `UpdateIdempotent` rests on) |
| DraftUpdate.UpdateIdempotent | src/components/customerService/CustomerServiceComposer.tsx:36-66 | writing the same update twice at the same clock is writing it once |
| StaticServer.FirstAvailableSpec | standalone-server.js:69-76 | the scan yields the least available port of the window, or nothing iff no port in it is available |
| StaticServer.FindAvailablePort | standalone-server.js:69-76 | the loop returns the least available port in `[start, start + 100]`, or fails iff none is available |
| StaticServer.RetryAsWrittenIgnoresFailedPort | standalone-server.js:138-145 | as written, the retry's port does not depend on which port failed |
| StaticServer.RetryAsWrittenRepeatsFailedPort | standalone-server.js:78-81 | as written, when port 3000 probes free but fails to listen, the retry listens on 3000 again |
| StaticServer.RetryMovesPastFailedPort | standalone-server.js:138-145 | the corrected retry picks the least available port above the failed one, within 101 ports |
| StaticServer.RetryPicksNextPort | standalone-server.js:140-143 | with every port free, the corrected retry moves to 3001 |
| StaticServer.Server.constructor | standalone-server.js:10-11 | `PORT` starts at 3000 |
| StaticServer.Server.StartFrom | standalone-server.js:78-82 | the server listens on the scan's result; a failed scan keeps the port |
| StaticServer.Server.Start | standalone-server.js:78-82 | the first start scans from 3000 |
| StaticServer.Server.OnListenError | standalone-server.js:138-145 | on `EADDRINUSE` the server restarts on the corrected retry port, above the failed one; on any other error nothing changes |
| StaticServer.ResolvePathname | standalone-server.js:89-91 | `/` is served as `/index.html`; every other path is kept |
| StaticServer.NameEndSpec | standalone-server.js:94 | the name ends before a run of trailing slashes |
| StaticServer.NameStartSpec | standalone-server.js:94 | the name starts just after the last slash before its end |
| StaticServer.BaseNameSpec | standalone-server.js:94 | the base name holds no slash |
| StaticServer.LastDotSpec | standalone-server.js:94 | the last dot of a range is found, or there is none |
| StaticServer.ExtNameSpec | standalone-server.js:94 | a non-empty extension is a dot, then no dot or slash, ending the base name after at least one other character; it is empty iff the base name has no dot, its only dot is its first character, or it is `..` |
| StaticServer.LowerChar | standalone-server.js:94 | ASCII capitals are lowered, everything else is kept |
| StaticServer.ToLower | standalone-server.js:94 | the string is lowered character by character |
| StaticServer.ToLowerOfLower | standalone-server.js:94 | a string without capitals is its own lower-case form |
| StaticServer.MimeTypeFor | standalone-server.js:94-95 | the type is the table's entry for the lower-cased extension, or `application/octet-stream` |
| StaticServer.MimeTypeKnown | standalone-server.js:17-31 | every type served is a table entry or the fallback |
| StaticServer.IndexIsHtml | standalone-server.js:89-95 | `/` is served as `text/html` |
| StaticServer.UpperCaseExtension | standalone-server.js:94-95 | `/app.JS` is served as `text/javascript` |
| StaticServer.DotFileIsOctetStream | standalone-server.js:94-95 | `/.json` has no extension and gets the fallback type |
| StaticServer.HandleRequestSpec | standalone-server.js:97-125 | the status is 404 iff the file is missing (`fs.access` fails) and the index cannot be read, 500 iff the file exists but cannot be read, else 200, with the file's (or for a missing file, the index's) content |
| StaticServer.MissingPathServesIndex | standalone-server.js:99-110 | a missing path gets the same answer as `/`, when the index can be read |

## Left out

- Local storage and JSON: `stored` stands for whatever `loadSettingsFromStorage` returns. A missing, unreadable or unparsable entry is `None`. The write is the `StoreSettings` effect, and its failure (caught and logged) is not modelled.
- Regular expressions: `new RegExp` and `test` are an abstract `RegexEngine`. The model does not know which texts a pattern matches or which patterns are valid. `RegExp.prototype.source` escaping is the engine's business, and the duplicate-source checks use whatever source it reports.
- The messaging API, `actions.sendMessage` and `actions.resetDraftReplyInfo` are returned as effects, not executed.
- `selectChat` is the set `knownChats`.
- The tab id and the multi-tab machinery: one tab is modelled.
- TriageActions.ClearCustomerServiceMessages: the order of its mark-read calls follows JavaScript's property order for `Object.entries`, which the model does not state; it states the set of calls and that no chat gets two.
- TriageActions.SendCustomerServiceReply: the handler re-reads the store with `getGlobal()` after dispatching `markCustomerServiceMessageReplied`. The model applies the marking reducer to the given state directly. This assumes the dispatched action has run by then, which the source does not show.
- Numbers: message ids, dates and the clock are unbounded integers, not IEEE doubles. `Math.max` over a very large spread (a `RangeError`) is not modelled.
- `messagesByChatId` is always present in the model. A state object missing that field would make the selectors throw.
- CompileAll: models a failing `new RegExp` only as "does not compile". The error object and the logging are not modelled.
- Assist mode: the form stores `mode`, but no code in these files reads it, so nothing behaves differently in it.
- `selectCustomerServiceState` returns the tab's `customerService` field as it is. The model reads that field directly and has no function for it.
- Selectors.SelectActiveCustomerServiceChatIds: returns a set. The source returns an array in `Object.keys` order, and the model does not state that order.
- `AUTO_REFRESH_INTERVAL` and `MESSAGE_EXPIRE_TIME` are declared but not used by the code here. They are constants only.
- The modal's rendering, sender-name formatting, reply previews, media, drag heuristics and the `mapStateToProps` lookups (`chatsById`, `usersById`) are presentation. Only the grouping and the replied mark are modelled.
- The settings form's user search (`searchResults`, sorted with `localeCompare`) and the chat and folder lists are not modelled. The shown group ids (`visible`) and the picked search result's id are parameters.
- SettingsEditor.SettingsEditor.RefreshAllSelected: React runs the all-selected effect after a render. The model makes it an explicit call, so the flag is only as fresh as its last refresh.
- SettingsEditor.SettingsEditor.Save: closing the modal and resetting the tag filter are UI and are left out.
- DraftUpdate.Sub: in JavaScript, spreading a truthy non-object level contributes its own enumerable properties. For a string these are its characters keyed by index. The model treats every non-record level as empty.
- DraftUpdate.ThreadKey: the property key of a thread is its id printed in decimal. JavaScript's number formatting of non-integers is not modelled.
- The composer's `Date.now()` is the parameter `now`; its rendering, API calls and `setGlobal` are left out.
- StaticServer.ToLower: lowers ASCII letters only. `String.prototype.toLowerCase` also lowers other letters, but no extension in the MIME table contains any.
- StaticServer.ExtName: models POSIX `path.extname` on the request path. `path.join` with the build directory (normalising `.` and `..` segments and repeated slashes) and Windows path rules are not modelled. Neither is `url.parse` of the request URL: the pathname is given.
- The HTTP server itself, `http.createServer`, the probe's real socket (the `available` predicate, which the model takes as fixed during a scan), `openBrowser`, the first-run `npm run build:dev`, the signal handlers and all console output are I/O.
- StaticServer.Server.OnListenError: models the corrected retry; the as-written one is `RetryPortAsWritten` (see Findings). A failed restart scan ends the process in the source, and here it only returns `None`.
- The bundling scripts under `scripts/` are build tooling and are not part of this model.

## Findings

| source | as written | input that shows it | evidently intended | confidence | as-written member | corrected member |
|---|---|---|---|---|---|---|
| standalone-server.js:138-145 | on `EADDRINUSE` the handler increments `PORT` and calls `startServer`, which overwrites `PORT` with a fresh scan from 3000 (line 81), so the increment is lost | a port the probe reports free but `listen` rejects with `EADDRINUSE`, say 3000: the retry scans from 3000 again, picks 3000, and fails again | restart with a scan that begins at the port after the failed one | not executed | StaticServer.RetryAsWrittenRepeatsFailedPort | StaticServer.RetryMovesPastFailedPort |
