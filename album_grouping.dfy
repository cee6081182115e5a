/**
 * How the triage modal lays out the queue: the `messages.reduce` that gathers
 * messages sharing a `groupedId` (an album) into one entry, wherever in the list
 * they occur, and the reading of `repliedMessageIds` that decides which entries
 * are shown as replied.
 */
module AlbumGrouping {
  import opened Common
  import opened CsTypes
  import Selectors
  import TriageActions

  /** One entry of the rendered list: a bare message, or an album (a JavaScript array). */
  datatype Entry = Single(message: Message) | Album(members: seq<Message>)

  /** `if (message.groupedId)`: present and not the empty string. */
  predicate HasGroup(m: Message) {
    m.groupedId.Some? && m.groupedId.value != ""
  }

  /** The `groupedId` of an album's first member; `None` for a bare message. */
  function AlbumKey(e: Entry): Option<string> {
    if e.Album? && e.members != [] then e.members[0].groupedId else None
  }

  /** `Array.isArray(group) && group[0].groupedId === g`. */
  predicate IsAlbumFor(e: Entry, g: Option<string>) {
    e.Album? && e.members != [] && e.members[0].groupedId == g
  }

  /** `grouped.find(...)` from position `from` on, as an index. */
  function FindAlbumFrom(grouped: seq<Entry>, g: Option<string>, from: nat): (r: Option<nat>)
    requires from <= |grouped|
    ensures r.Some? ==> from <= r.value < |grouped| && IsAlbumFor(grouped[r.value], g)
    ensures r.Some? ==> forall k :: from <= k < r.value ==> !IsAlbumFor(grouped[k], g)
    ensures r.None? ==> forall k :: from <= k < |grouped| ==> !IsAlbumFor(grouped[k], g)
    decreases |grouped| - from
  {
    if from == |grouped| then None
    else if IsAlbumFor(grouped[from], g) then Some(from)
    else FindAlbumFrom(grouped, g, from + 1)
  }

  function FindAlbum(grouped: seq<Entry>, g: Option<string>): Option<nat> {
    FindAlbumFrom(grouped, g, 0)
  }

  /** One step of the fold: join the first album with the same id, start one, or add a bare entry. */
  function GroupStep(grouped: seq<Entry>, m: Message): seq<Entry> {
    if HasGroup(m) then
      match FindAlbum(grouped, m.groupedId)
      case Some(k) => grouped[k := Album(grouped[k].members + [m])]
      case None => grouped + [Album([m])]
    else grouped + [Single(m)]
  }

  /** The fold over the whole list, left to right. */
  function GroupAll(s: seq<Message>): seq<Entry>
    decreases |s|
  {
    if s == [] then [] else GroupStep(GroupAll(s[..|s| - 1]), s[|s| - 1])
  }

  /** The fold as the modal runs it: an outer walk over the queue and an inner `find`. */
  method GroupMessages(messages: seq<Message>) returns (grouped: seq<Entry>)
    ensures grouped == GroupAll(messages)
  {
    grouped := [];
    for i := 0 to |messages|
      invariant grouped == GroupAll(messages[..i])
    {
      var m := messages[i];
      assert messages[..i + 1][..i] == messages[..i];
      if HasGroup(m) {
        var k := 0;
        while k < |grouped| && !IsAlbumFor(grouped[k], m.groupedId)
          invariant 0 <= k <= |grouped|
          invariant forall j :: 0 <= j < k ==> !IsAlbumFor(grouped[j], m.groupedId)
        {
          k := k + 1;
        }
        if k < |grouped| {
          grouped := grouped[k := Album(grouped[k].members + [m])];
        } else {
          grouped := grouped + [Album([m])];
        }
      } else {
        grouped := grouped + [Single(m)];
      }
    }
    assert messages[..|messages|] == messages;
  }

  // ---------------------------------------------------------------------------
  // What the layout is, stated on the input list.
  // ---------------------------------------------------------------------------

  /** The messages of `s` with album id `g`, in input order. */
  function AlbumOf(s: seq<Message>, g: Option<string>): (r: seq<Message>)
    ensures forall x :: x in r <==> x in s && x.groupedId == g
    decreases |s|
  {
    if s == [] then []
    else AlbumOf(s[..|s| - 1], g) + (if s[|s| - 1].groupedId == g then [s[|s| - 1]] else [])
  }

  /** The messages of `s` without an album id, in input order. */
  function Ungrouped(s: seq<Message>): seq<Message>
    decreases |s|
  {
    if s == [] then []
    else Ungrouped(s[..|s| - 1]) + (if HasGroup(s[|s| - 1]) then [] else [s[|s| - 1]])
  }

  /**
   * The messages that open an entry: every message without an album id, and the
   * first message of each album id.
   */
  function Openers(s: seq<Message>): seq<Message>
    decreases |s|
  {
    if s == [] then []
    else
      var p := s[..|s| - 1];
      var m := s[|s| - 1];
      Openers(p) + (if HasGroup(m) && AlbumOf(p, m.groupedId) != [] then [] else [m])
  }

  /** The bare messages of a layout, in order. */
  function Singles(grouped: seq<Entry>): seq<Message>
    decreases |grouped|
  {
    if grouped == [] then []
    else Singles(grouped[..|grouped| - 1]) +
         (if grouped[|grouped| - 1].Single? then [grouped[|grouped| - 1].message] else [])
  }

  predicate NoEmptyAlbum(grouped: seq<Entry>) {
    forall k :: 0 <= k < |grouped| ==> grouped[k].Album? ==> grouped[k].members != []
  }

  /** The message an entry is shown by: itself, or an album's first member. */
  function Head(e: Entry): Message
    requires e.Album? ==> e.members != []
  {
    if e.Single? then e.message else e.members[0]
  }

  function Heads(grouped: seq<Entry>): seq<Message>
    requires NoEmptyAlbum(grouped)
    decreases |grouped|
  {
    if grouped == [] then []
    else Heads(grouped[..|grouped| - 1]) + [Head(grouped[|grouped| - 1])]
  }

  /** Every message the layout shows, counted with multiplicity. */
  function Contents(grouped: seq<Entry>): multiset<Message>
    decreases |grouped|
  {
    if grouped == [] then multiset{}
    else Contents(grouped[..|grouped| - 1]) + EntryContents(grouped[|grouped| - 1])
  }

  function EntryContents(e: Entry): multiset<Message> {
    if e.Single? then multiset{e.message} else multiset(e.members)
  }

  /**
   * `grouped` lays out `s`: each album holds exactly the messages of its id in
   * input order; no two albums share an id; every album id of `s` has its album;
   * the bare entries are the messages without an id in order; the entries come
   * in the order of their opening messages; nothing is lost or repeated.
   */
  ghost predicate LaysOut(grouped: seq<Entry>, s: seq<Message>) {
    && AlbumsExact(grouped, s)
    && KeysDistinct(grouped)
    && Covered(grouped, s)
    && Singles(grouped) == Ungrouped(s)
    && Heads(grouped) == Openers(s)
    && Contents(grouped) == multiset(s)
  }

  lemma {:induction false} SinglesUpdate(grouped: seq<Entry>, k: nat, e: Entry)
    requires k < |grouped| && grouped[k].Album? && e.Album?
    ensures Singles(grouped[k := e]) == Singles(grouped)
    decreases |grouped|
  {
    var n := |grouped| - 1;
    if k < n {
      assert grouped[k := e][..n] == grouped[..n][k := e];
      SinglesUpdate(grouped[..n], k, e);
    } else {
      assert grouped[k := e][..n] == grouped[..n];
    }
  }

  lemma {:induction false} HeadsUpdate(grouped: seq<Entry>, k: nat, e: Entry)
    requires NoEmptyAlbum(grouped) && k < |grouped| && grouped[k].Album? && e.Album? && e.members != []
    requires e.members[0] == grouped[k].members[0]
    ensures NoEmptyAlbum(grouped[k := e]) && Heads(grouped[k := e]) == Heads(grouped)
    decreases |grouped|
  {
    var n := |grouped| - 1;
    if k < n {
      assert grouped[k := e][..n] == grouped[..n][k := e];
      HeadsUpdate(grouped[..n], k, e);
    } else {
      assert grouped[k := e][..n] == grouped[..n];
    }
  }

  lemma {:induction false} ContentsUpdate(grouped: seq<Entry>, k: nat, e: Entry)
    requires k < |grouped|
    ensures Contents(grouped[k := e]) == Contents(grouped) - EntryContents(grouped[k]) + EntryContents(e)
    decreases |grouped|
  {
    var n := |grouped| - 1;
    if k < n {
      assert grouped[k := e][..n] == grouped[..n][k := e];
      ContentsUpdate(grouped[..n], k, e);
      ContentsHas(grouped[..n], k);
    } else {
      assert grouped[k := e][..n] == grouped[..n];
    }
  }

  lemma {:induction false} ContentsHas(grouped: seq<Entry>, k: nat)
    requires k < |grouped|
    ensures EntryContents(grouped[k]) <= Contents(grouped)
    decreases |grouped|
  {
    var n := |grouped| - 1;
    if k < n {
      ContentsHas(grouped[..n], k);
    }
  }

  /** Appending a message to `s` adds it to its own album and to no other. */
  lemma AlbumOfSnoc(s: seq<Message>, m: Message, g: Option<string>)
    ensures AlbumOf(s + [m], g) == AlbumOf(s, g) + (if m.groupedId == g then [m] else [])
  {
    assert (s + [m])[..|s|] == s;
  }

  ghost predicate AlbumsExact(grouped: seq<Entry>, s: seq<Message>) {
    && NoEmptyAlbum(grouped)
    && forall k :: 0 <= k < |grouped| && grouped[k].Album? ==>
         HasGroup(grouped[k].members[0]) && grouped[k].members == AlbumOf(s, AlbumKey(grouped[k]))
  }

  ghost predicate KeysDistinct(grouped: seq<Entry>) {
    forall i, j :: 0 <= i < j < |grouped| && grouped[i].Album? && grouped[j].Album? ==>
      AlbumKey(grouped[i]) != AlbumKey(grouped[j])
  }

  ghost predicate Covered(grouped: seq<Entry>, s: seq<Message>) {
    forall m :: m in s && HasGroup(m) ==> FindAlbum(grouped, m.groupedId).Some?
  }

  /** Where an album for `g` sits, `FindAlbum` finds one. */
  lemma FoundAt(grouped: seq<Entry>, g: Option<string>, k: nat)
    requires k < |grouped| && IsAlbumFor(grouped[k], g)
    ensures FindAlbum(grouped, g).Some?
  {
  }

  lemma OpenersSnoc(s: seq<Message>, m: Message)
    ensures Openers(s + [m]) == Openers(s) + (if HasGroup(m) && AlbumOf(s, m.groupedId) != [] then [] else [m])
  {
    assert (s + [m])[..|s|] == s;
  }

  lemma UngroupedSnoc(s: seq<Message>, m: Message)
    ensures Ungrouped(s + [m]) == Ungrouped(s) + (if HasGroup(m) then [] else [m])
  {
    assert (s + [m])[..|s|] == s;
  }

  lemma EntriesSnoc(grouped: seq<Entry>, e: Entry)
    requires NoEmptyAlbum(grouped) && (e.Album? ==> e.members != [])
    ensures NoEmptyAlbum(grouped + [e])
    ensures Singles(grouped + [e]) == Singles(grouped) + (if e.Single? then [e.message] else [])
    ensures Heads(grouped + [e]) == Heads(grouped) + [Head(e)]
    ensures Contents(grouped + [e]) == Contents(grouped) + EntryContents(e)
  {
    assert (grouped + [e])[..|grouped|] == grouped;
  }

  /** The album for `m`'s id gains `m` as its last member. */
  lemma JoinAlbumsExact(grouped: seq<Entry>, s: seq<Message>, m: Message, k: nat)
    requires AlbumsExact(grouped, s) && KeysDistinct(grouped) && HasGroup(m)
    requires FindAlbum(grouped, m.groupedId) == Some(k)
    ensures AlbumsExact(grouped[k := Album(grouped[k].members + [m])], s + [m])
  {
    var grouped' := grouped[k := Album(grouped[k].members + [m])];
    forall j | 0 <= j < |grouped'| && grouped'[j].Album?
      ensures grouped'[j].members != [] && HasGroup(grouped'[j].members[0])
      ensures grouped'[j].members == AlbumOf(s + [m], AlbumKey(grouped'[j]))
    {
      AlbumOfSnoc(s, m, AlbumKey(grouped'[j]));
      if j < k {
        assert AlbumKey(grouped[j]) != AlbumKey(grouped[k]);
      } else if j > k {
        assert AlbumKey(grouped[k]) != AlbumKey(grouped[j]);
      }
    }
  }

  lemma JoinKeysDistinct(grouped: seq<Entry>, m: Message, k: nat)
    requires NoEmptyAlbum(grouped) && KeysDistinct(grouped)
    requires k < |grouped| && grouped[k].Album?
    ensures KeysDistinct(grouped[k := Album(grouped[k].members + [m])])
  {
    var grouped' := grouped[k := Album(grouped[k].members + [m])];
    assert forall j :: 0 <= j < |grouped| ==> AlbumKey(grouped'[j]) == AlbumKey(grouped[j]);
  }

  lemma JoinCovered(grouped: seq<Entry>, s: seq<Message>, m: Message, k: nat)
    requires Covered(grouped, s) && HasGroup(m)
    requires FindAlbum(grouped, m.groupedId) == Some(k)
    ensures Covered(grouped[k := Album(grouped[k].members + [m])], s + [m])
  {
    var grouped' := grouped[k := Album(grouped[k].members + [m])];
    forall x | x in s + [m] && HasGroup(x) ensures FindAlbum(grouped', x.groupedId).Some? {
      var kx := if x == m then k else FindAlbum(grouped, x.groupedId).value;
      FoundAt(grouped', x.groupedId, kx);
    }
  }

  lemma JoinSingles(grouped: seq<Entry>, s: seq<Message>, m: Message, k: nat)
    requires Singles(grouped) == Ungrouped(s) && HasGroup(m)
    requires k < |grouped| && grouped[k].Album?
    ensures Singles(grouped[k := Album(grouped[k].members + [m])]) == Ungrouped(s + [m])
  {
    SinglesUpdate(grouped, k, Album(grouped[k].members + [m]));
    UngroupedSnoc(s, m);
  }

  lemma JoinHeads(grouped: seq<Entry>, s: seq<Message>, m: Message, k: nat)
    requires AlbumsExact(grouped, s) && Heads(grouped) == Openers(s) && HasGroup(m)
    requires FindAlbum(grouped, m.groupedId) == Some(k)
    ensures NoEmptyAlbum(grouped[k := Album(grouped[k].members + [m])])
    ensures Heads(grouped[k := Album(grouped[k].members + [m])]) == Openers(s + [m])
  {
    HeadsUpdate(grouped, k, Album(grouped[k].members + [m]));
    OpenersSnoc(s, m);
    assert grouped[k].members[0] in AlbumOf(s, m.groupedId);
  }

  lemma JoinContents(grouped: seq<Entry>, s: seq<Message>, m: Message, k: nat)
    requires Contents(grouped) == multiset(s)
    requires k < |grouped| && grouped[k].Album?
    ensures Contents(grouped[k := Album(grouped[k].members + [m])]) == multiset(s + [m])
  {
    var e := Album(grouped[k].members + [m]);
    ContentsUpdate(grouped, k, e);
    ContentsHas(grouped, k);
    assert EntryContents(e) == EntryContents(grouped[k]) + multiset{m};
  }

  lemma JoinLaysOut(grouped: seq<Entry>, s: seq<Message>, m: Message, k: nat)
    requires LaysOut(grouped, s) && HasGroup(m)
    requires FindAlbum(grouped, m.groupedId) == Some(k)
    ensures LaysOut(GroupStep(grouped, m), s + [m])
  {
    assert GroupStep(grouped, m) == grouped[k := Album(grouped[k].members + [m])];
    JoinAlbumsExact(grouped, s, m, k);
    JoinKeysDistinct(grouped, m, k);
    JoinCovered(grouped, s, m, k);
    JoinSingles(grouped, s, m, k);
    JoinHeads(grouped, s, m, k);
    JoinContents(grouped, s, m, k);
  }

  /** No queued message has the id of an album that does not exist. */
  lemma NoAlbumNoMembers(grouped: seq<Entry>, s: seq<Message>, m: Message)
    requires Covered(grouped, s) && HasGroup(m)
    requires FindAlbum(grouped, m.groupedId).None?
    ensures AlbumOf(s, m.groupedId) == []
  {
    if AlbumOf(s, m.groupedId) != [] {
      var x := AlbumOf(s, m.groupedId)[0];
      assert x in AlbumOf(s, m.groupedId);
      assert x in s && HasGroup(x);
    }
  }

  lemma OpenAlbumsExact(grouped: seq<Entry>, s: seq<Message>, m: Message)
    requires AlbumsExact(grouped, s) && Covered(grouped, s) && HasGroup(m)
    requires FindAlbum(grouped, m.groupedId).None?
    ensures AlbumsExact(grouped + [Album([m])], s + [m])
  {
    var grouped' := grouped + [Album([m])];
    NoAlbumNoMembers(grouped, s, m);
    forall j | 0 <= j < |grouped'| && grouped'[j].Album?
      ensures grouped'[j].members != [] && HasGroup(grouped'[j].members[0])
      ensures grouped'[j].members == AlbumOf(s + [m], AlbumKey(grouped'[j]))
    {
      AlbumOfSnoc(s, m, AlbumKey(grouped'[j]));
      if j < |grouped| {
        assert !IsAlbumFor(grouped[j], m.groupedId);
      }
    }
  }

  lemma OpenKeysDistinct(grouped: seq<Entry>, m: Message)
    requires KeysDistinct(grouped) && HasGroup(m)
    requires FindAlbum(grouped, m.groupedId).None?
    ensures KeysDistinct(grouped + [Album([m])])
  {
    var grouped' := grouped + [Album([m])];
    forall i, j | 0 <= i < j < |grouped'| && grouped'[i].Album? && grouped'[j].Album?
      ensures AlbumKey(grouped'[i]) != AlbumKey(grouped'[j])
    {
      assert grouped'[i] == grouped[i];
      if j == |grouped| {
        assert !IsAlbumFor(grouped[i], m.groupedId);
      } else {
        assert grouped'[j] == grouped[j];
      }
    }
  }

  lemma AppendCovered(grouped: seq<Entry>, s: seq<Message>, m: Message, e: Entry)
    requires Covered(grouped, s)
    requires HasGroup(m) ==> IsAlbumFor(e, m.groupedId)
    ensures Covered(grouped + [e], s + [m])
  {
    var grouped' := grouped + [e];
    forall x | x in s + [m] && HasGroup(x) ensures FindAlbum(grouped', x.groupedId).Some? {
      var kx := if x == m then |grouped| else FindAlbum(grouped, x.groupedId).value;
      FoundAt(grouped', x.groupedId, kx);
    }
  }

  /** A message whose id has no album yet opens one at the end. */
  lemma OpenLaysOut(grouped: seq<Entry>, s: seq<Message>, m: Message)
    requires LaysOut(grouped, s) && HasGroup(m)
    requires FindAlbum(grouped, m.groupedId).None?
    ensures LaysOut(GroupStep(grouped, m), s + [m])
  {
    assert GroupStep(grouped, m) == grouped + [Album([m])];
    OpenAlbumsExact(grouped, s, m);
    OpenKeysDistinct(grouped, m);
    AppendCovered(grouped, s, m, Album([m]));
    NoAlbumNoMembers(grouped, s, m);
    EntriesSnoc(grouped, Album([m]));
    UngroupedSnoc(s, m);
    OpenersSnoc(s, m);
  }

  lemma SingleAlbumsExact(grouped: seq<Entry>, s: seq<Message>, m: Message)
    requires AlbumsExact(grouped, s) && !HasGroup(m)
    ensures AlbumsExact(grouped + [Single(m)], s + [m])
  {
    var grouped' := grouped + [Single(m)];
    forall j | 0 <= j < |grouped'| && grouped'[j].Album?
      ensures grouped'[j].members != [] && HasGroup(grouped'[j].members[0])
      ensures grouped'[j].members == AlbumOf(s + [m], AlbumKey(grouped'[j]))
    {
      AlbumOfSnoc(s, m, AlbumKey(grouped'[j]));
    }
  }

  /** A message without an id becomes a bare entry at the end. */
  lemma SingleLaysOut(grouped: seq<Entry>, s: seq<Message>, m: Message)
    requires LaysOut(grouped, s) && !HasGroup(m)
    ensures LaysOut(GroupStep(grouped, m), s + [m])
  {
    var grouped' := grouped + [Single(m)];
    assert GroupStep(grouped, m) == grouped';
    SingleAlbumsExact(grouped, s, m);
    assert KeysDistinct(grouped');
    AppendCovered(grouped, s, m, Single(m));
    EntriesSnoc(grouped, Single(m));
    UngroupedSnoc(s, m);
    OpenersSnoc(s, m);
  }

  /** The step keeps the layout of the list grown by one message. */
  lemma GroupStepLaysOut(grouped: seq<Entry>, s: seq<Message>, m: Message)
    requires LaysOut(grouped, s)
    ensures LaysOut(GroupStep(grouped, m), s + [m])
  {
    if !HasGroup(m) {
      SingleLaysOut(grouped, s, m);
    } else if FindAlbum(grouped, m.groupedId).Some? {
      JoinLaysOut(grouped, s, m, FindAlbum(grouped, m.groupedId).value);
    } else {
      OpenLaysOut(grouped, s, m);
    }
  }

  lemma {:induction false} GroupAllLaysOut(s: seq<Message>)
    ensures LaysOut(GroupAll(s), s)
    decreases |s|
  {
    if s != [] {
      var p := s[..|s| - 1];
      GroupAllLaysOut(p);
      GroupStepLaysOut(GroupAll(p), p, s[|s| - 1]);
      assert p + [s[|s| - 1]] == s;
    }
  }

  /**
   * The layout of the queue: a partition of it into bare messages and albums, in
   * which every album gathers all messages of one id (adjacent or not) in input
   * order, no id has two albums, a lone message with an id still forms an album,
   * the bare entries are the messages without an id in order, and entries come in
   * the order of their opening messages.
   */
  lemma GroupMessagesLayout(s: seq<Message>)
    ensures NoEmptyAlbum(GroupAll(s))
    ensures Contents(GroupAll(s)) == multiset(s)
    ensures forall k :: 0 <= k < |GroupAll(s)| && GroupAll(s)[k].Album? ==>
              && HasGroup(GroupAll(s)[k].members[0])
              && GroupAll(s)[k].members == AlbumOf(s, GroupAll(s)[k].members[0].groupedId)
    ensures forall i, j :: 0 <= i < j < |GroupAll(s)| && GroupAll(s)[i].Album? && GroupAll(s)[j].Album? ==>
              GroupAll(s)[i].members[0].groupedId != GroupAll(s)[j].members[0].groupedId
    ensures forall m :: m in s && HasGroup(m) ==>
              exists k :: 0 <= k < |GroupAll(s)| && IsAlbumFor(GroupAll(s)[k], m.groupedId)
    ensures Singles(GroupAll(s)) == Ungrouped(s)
    ensures Heads(GroupAll(s)) == Openers(s)
  {
    GroupAllLaysOut(s);
    var grouped := GroupAll(s);
    forall m | m in s && HasGroup(m)
      ensures exists k :: 0 <= k < |grouped| && IsAlbumFor(grouped[k], m.groupedId)
    {
      var k := FindAlbum(grouped, m.groupedId).value;
      assert IsAlbumFor(grouped[k], m.groupedId);
    }
  }

  // ---------------------------------------------------------------------------
  // Replied status.
  // ---------------------------------------------------------------------------

  /** `Object.values(o).filter(id => typeof id === 'string')`. */
  function StringValues(values: seq<PropertyValue>): (r: seq<string>)
    ensures forall x :: x in r <==> StringValue(x) in values
    ensures |r| <= |values|
  {
    if values == [] then []
    else
      assert values == [values[0]] + values[1..];
      (if values[0].StringValue? then [values[0].s] else []) + StringValues(values[1..])
  }

  /**
   * The list of replied keys the modal works with: an array as is, a `Set` as its
   * elements, another object as its string values, and nothing otherwise.
   */
  function NormaliseRepliedIds(ids: RepliedIds): (r: seq<string>)
    ensures ids.ArrayOf? ==> r == ids.ids
    ensures ids.SetOf? ==> r == ids.elements
    ensures ids.ObjectOf? ==> forall x :: x in r <==> StringValue(x) in ids.values
    ensures ids.Missing? || ids.Scalar? ==> r == []
  {
    match ids
    case ArrayOf(a) => a
    case SetOf(elements) => elements
    case ObjectOf(values) => StringValues(values)
    case _ => []
  }

  /** Whether the modal shows an entry as replied: by the key of the message it is shown by. */
  function EntryIsReplied(e: Entry, replied: seq<string>): (r: bool)
    requires e.Album? ==> e.members != []
    ensures e.Single? ==> (r <==> MessageKey(e.message.chatId, e.message.id) in replied)
    ensures e.Album? ==> (r <==> MessageKey(e.members[0].chatId, e.members[0].id) in replied)
  {
    MessageKey(Head(e).chatId, Head(e).id) in replied
  }

  /** For the array form the modal and `selectIsMessageReplied` agree. */
  lemma ModalAgreesWithSelector(tab: TabState, e: Entry)
    requires e.Album? ==> e.members != []
    requires tab.customerService.Some? && tab.customerService.value.repliedMessageIds.ArrayOf?
    ensures EntryIsReplied(e, NormaliseRepliedIds(tab.customerService.value.repliedMessageIds)) ==
              Selectors.SelectIsMessageReplied(tab, Head(e).chatId, Head(e).id)
  {
  }

  /** Recording the reply to an entry's first message makes the modal show the entry as replied. */
  lemma RepliedAfterMark(tab: TabState, e: Entry, now: int)
    requires e.Album? ==> e.members != []
    ensures var marked := TriageActions.MarkCustomerServiceMessageReplied(tab, Head(e).chatId, Head(e).id, now);
            EntryIsReplied(e, NormaliseRepliedIds(marked.customerService.value.repliedMessageIds))
  {
  }
}
