/**
 * `updateDraftSafely` of the reply composer: writes a draft into
 * `global.messages.byChatId[chatId].draftsById[threadId]`, creating every missing
 * level on the way and copying every level it passes (object spread). The global
 * state is modelled as nested records; `now` is `Date.now()` in milliseconds.
 */
module DraftUpdate {
  import opened Common

  /** A value in the global state: a record, or a number, boolean or string. */
  datatype Value = Obj(fields: map<string, Value>) | Num(n: int) | Bool(b: bool) | Str(s: string)

  type Record = map<string, Value>

  /** `r[k] || {}`, where spreading a non-record contributes no fields. */
  function Sub(r: Record, k: string): (sub: Record)
    ensures k in r && r[k].Obj? ==> sub == r[k].fields
    ensures !(k in r && r[k].Obj?) ==> sub == map[]
  {
    if k in r && r[k].Obj? then r[k].fields else map[]
  }

  /** The property key a numeric thread id is stored under. */
  function ThreadKey(threadId: int): string {
    IntToString(threadId)
  }

  function Messages(global: Record): Record { Sub(global, "messages") }
  function ByChatId(global: Record): Record { Sub(Messages(global), "byChatId") }
  function ChatData(global: Record, chatId: string): Record { Sub(ByChatId(global), chatId) }
  function DraftsById(global: Record, chatId: string): Record { Sub(ChatData(global, chatId), "draftsById") }

  /** The draft at `[chatId][threadId]`; empty when it or any level above it is missing. */
  function Draft(global: Record, chatId: string, threadId: int): Record {
    Sub(DraftsById(global, chatId), ThreadKey(threadId))
  }

  /** `{ ...currentDraft, ...draftUpdate, date: Math.floor(now / 1000), isLocal: true }`. */
  function NewDraft(current: Record, update: Record, now: int): Record {
    (current + update)["date" := Num(now / 1000)]["isLocal" := Bool(true)]
  }

  function UpdateDraftSafely(global: Record, chatId: string, threadId: int, update: Record, now: int): Record {
    var messages := Messages(global);
    var byChatId := ByChatId(global);
    var chatData := ChatData(global, chatId);
    var draftsById := DraftsById(global, chatId);
    var draft := NewDraft(Draft(global, chatId, threadId), update, now);
    global["messages" := Obj(messages["byChatId" := Obj(byChatId[chatId := Obj(chatData[
      "draftsById" := Obj(draftsById[ThreadKey(threadId) := Obj(draft)])])])])]
  }

  /**
   * The new draft: `isLocal` is true and `date` is the clock in whole seconds,
   * whatever the update says; every other field comes from the update when it has
   * it, else from the old draft, else is absent.
   */
  lemma NewDraftFields(global: Record, chatId: string, threadId: int, update: Record, now: int)
    ensures var d := Draft(UpdateDraftSafely(global, chatId, threadId, update, now), chatId, threadId);
            var old_ := Draft(global, chatId, threadId);
            && d["isLocal"] == Bool(true)
            && d["date"] == Num(now / 1000)
            && now / 1000 * 1000 <= now < now / 1000 * 1000 + 1000
            && (forall k :: k != "date" && k != "isLocal" ==>
                  (k in d <==> k in update || k in old_))
            && (forall k :: k != "date" && k != "isLocal" && k in update ==> d[k] == update[k])
            && (forall k :: k != "date" && k != "isLocal" && k !in update && k in old_ ==> d[k] == old_[k])
  {
  }

  /** Every other thread of the chat keeps its draft entry. */
  lemma OtherThreadsUnchanged(global: Record, chatId: string, threadId: int, update: Record, now: int, other: int)
    requires ThreadKey(other) != ThreadKey(threadId)
    ensures var g := UpdateDraftSafely(global, chatId, threadId, update, now);
            && (ThreadKey(other) in DraftsById(g, chatId) <==> ThreadKey(other) in DraftsById(global, chatId))
            && (ThreadKey(other) in DraftsById(global, chatId) ==>
                  DraftsById(g, chatId)[ThreadKey(other)] == DraftsById(global, chatId)[ThreadKey(other)])
  {
  }

  /** Every other chat keeps its entry. */
  lemma OtherChatsUnchanged(global: Record, chatId: string, threadId: int, update: Record, now: int, other: string)
    requires other != chatId
    ensures var g := UpdateDraftSafely(global, chatId, threadId, update, now);
            && (other in ByChatId(g) <==> other in ByChatId(global))
            && (other in ByChatId(global) ==> ByChatId(g)[other] == ByChatId(global)[other])
  {
  }

  /** The chat record, `messages` and the top level keep every field they do not pass through. */
  lemma OtherFieldsUnchanged(global: Record, chatId: string, threadId: int, update: Record, now: int)
    ensures var g := UpdateDraftSafely(global, chatId, threadId, update, now);
            && g.Keys == global.Keys + {"messages"}
            && (forall k :: k in global && k != "messages" ==> g[k] == global[k])
            && Messages(g).Keys == Messages(global).Keys + {"byChatId"}
            && (forall k :: k in Messages(global) && k != "byChatId" ==> Messages(g)[k] == Messages(global)[k])
            && ChatData(g, chatId).Keys == ChatData(global, chatId).Keys + {"draftsById"}
            && (forall k :: k in ChatData(global, chatId) && k != "draftsById" ==>
                  ChatData(g, chatId)[k] == ChatData(global, chatId)[k])
  {
  }

  /**
   * With no `messages` at all, the result holds exactly one chat with exactly one
   * thread, whose draft is the update stamped with the clock.
   */
  lemma MissingLevelsStartEmpty(global: Record, chatId: string, threadId: int, update: Record, now: int)
    requires "messages" !in global
    ensures var g := UpdateDraftSafely(global, chatId, threadId, update, now);
            && Messages(g).Keys == {"byChatId"}
            && ByChatId(g).Keys == {chatId}
            && ChatData(g, chatId).Keys == {"draftsById"}
            && DraftsById(g, chatId).Keys == {ThreadKey(threadId)}
            && Draft(g, chatId, threadId) == update["date" := Num(now / 1000)]["isLocal" := Bool(true)]
  {
    assert Draft(global, chatId, threadId) == map[];
    assert map[] + update == update;
  }

  /** Stamping a draft twice with the same update and clock is stamping it once. */
  lemma NewDraftIdempotent(current: Record, update: Record, now: int)
    ensures var d := NewDraft(current, update, now); NewDraft(d, update, now) == d
  {
    var d := NewDraft(current, update, now);
    forall k ensures (k in NewDraft(d, update, now) <==> k in d) {
    }
    forall k | k in d ensures NewDraft(d, update, now)[k] == d[k] {
    }
  }

  /** The levels of the result along the path are the rebuilt levels; the step `UpdateIdempotent` rests on. */
  lemma PathLevels(global: Record, chatId: string, threadId: int, update: Record, now: int)
    ensures var g := UpdateDraftSafely(global, chatId, threadId, update, now);
            var d := NewDraft(Draft(global, chatId, threadId), update, now);
            && DraftsById(g, chatId) == DraftsById(global, chatId)[ThreadKey(threadId) := Obj(d)]
            && ChatData(g, chatId) == ChatData(global, chatId)["draftsById" := Obj(DraftsById(g, chatId))]
            && ByChatId(g) == ByChatId(global)[chatId := Obj(ChatData(g, chatId))]
            && Messages(g) == Messages(global)["byChatId" := Obj(ByChatId(g))]
            && g == global["messages" := Obj(Messages(g))]
            && Draft(g, chatId, threadId) == d
  {
  }

  /** Writing the same update twice at the same clock is writing it once. */
  lemma UpdateIdempotent(global: Record, chatId: string, threadId: int, update: Record, now: int)
    ensures var once := UpdateDraftSafely(global, chatId, threadId, update, now);
            UpdateDraftSafely(once, chatId, threadId, update, now) == once
  {
    var once := UpdateDraftSafely(global, chatId, threadId, update, now);
    var d := NewDraft(Draft(global, chatId, threadId), update, now);
    PathLevels(global, chatId, threadId, update, now);
    NewDraftIdempotent(Draft(global, chatId, threadId), update, now);
    var drafts := DraftsById(once, chatId);
    var chat := ChatData(once, chatId);
    var byChat := ByChatId(once);
    var messages := Messages(once);
    assert drafts[ThreadKey(threadId) := Obj(d)] == drafts;
    assert chat["draftsById" := Obj(drafts)] == chat;
    assert byChat[chatId := Obj(chat)] == byChat;
    assert messages["byChatId" := Obj(byChat)] == messages;
    assert once["messages" := Obj(messages)] == once;
  }
}
