/**
 * `list.sort((a, b) => (b.date || 0) - (a.date || 0)).slice(0, cap)`: the stable
 * (ECMAScript 2019 and later) date-descending sort the triage store applies on
 * every insert, and the cut to the newest `cap` messages.
 */
module DateOrder {
  import opened Common
  import opened CsTypes

  /** `message.date || 0`. */
  function DateKey(m: Message): int {
    m.date.GetOr(0)
  }

  ghost predicate SortedByDateDesc(s: seq<Message>) {
    forall i, j :: 0 <= i < j < |s| ==> DateKey(s[i]) >= DateKey(s[j])
  }

  /** The messages of `s` whose date key is `d`, in their order in `s`. */
  function WithDate(s: seq<Message>, d: int): (r: seq<Message>)
    ensures |r| <= |s|
  {
    if s == [] then []
    else (if DateKey(s[0]) == d then [s[0]] else []) + WithDate(s[1..], d)
  }

  /** Putting a message no older than the head in front keeps a list sorted. */
  lemma SortedCons(x: Message, s: seq<Message>)
    requires SortedByDateDesc(s)
    requires s == [] || DateKey(x) >= DateKey(s[0])
    ensures SortedByDateDesc([x] + s)
  {
    var r := [x] + s;
    forall i, j | 0 <= i < j < |r| ensures DateKey(r[i]) >= DateKey(r[j]) {
      if i == 0 {
        assert r[j] == s[j - 1];
        assert DateKey(s[0]) >= DateKey(s[j - 1]);
      } else {
        assert r[i] == s[i - 1] && r[j] == s[j - 1];
      }
    }
  }

  /** The tail of a sorted list is sorted, and its head is no newer than the old head. */
  lemma SortedTail(s: seq<Message>)
    requires s != [] && SortedByDateDesc(s)
    ensures SortedByDateDesc(s[1..])
    ensures |s| > 1 ==> DateKey(s[0]) >= DateKey(s[1])
  {
    forall i, j | 0 <= i < j < |s| - 1 ensures DateKey(s[1..][i]) >= DateKey(s[1..][j]) {
      assert s[1..][i] == s[i + 1] && s[1..][j] == s[j + 1];
    }
  }

  /** Places `m` before the first element that is not newer than it. */
  function Insert(m: Message, s: seq<Message>): (r: seq<Message>)
    ensures |r| == |s| + 1
    ensures multiset(r) == multiset(s) + multiset{m}
  {
    if s == [] then [m]
    else if DateKey(m) >= DateKey(s[0]) then [m] + s
    else
      assert s == [s[0]] + s[1..];
      [s[0]] + Insert(m, s[1..])
  }

  /** Inserting into a newest-first list keeps it newest first. */
  lemma {:induction false} InsertSorted(m: Message, s: seq<Message>)
    requires SortedByDateDesc(s)
    ensures SortedByDateDesc(Insert(m, s))
    ensures Insert(m, s)[0] == m || (s != [] && Insert(m, s)[0] == s[0])
  {
    if s != [] {
      if DateKey(m) >= DateKey(s[0]) {
        SortedCons(m, s);
      } else {
        SortedTail(s);
        InsertSorted(m, s[1..]);
        SortedCons(s[0], Insert(m, s[1..]));
      }
    }
  }

  function SortByDateDesc(s: seq<Message>): (r: seq<Message>)
    ensures SortedByDateDesc(r)
    ensures multiset(r) == multiset(s)
    ensures |r| == |s|
  {
    if s == [] then []
    else
      assert s == [s[0]] + s[1..];
      var sorted := SortByDateDesc(s[1..]);
      InsertSorted(s[0], sorted);
      Insert(s[0], sorted)
  }

  /** The `cap` newest messages of `s`, newest first. */
  function Newest(s: seq<Message>, cap: nat): seq<Message> {
    var sorted := SortByDateDesc(s);
    if |sorted| <= cap then sorted else sorted[..cap]
  }

  lemma {:induction false} WithDateInsert(m: Message, s: seq<Message>, d: int)
    ensures WithDate(Insert(m, s), d) == if DateKey(m) == d then [m] + WithDate(s, d) else WithDate(s, d)
  {
    if s == [] {
    } else if DateKey(m) >= DateKey(s[0]) {
      assert ([m] + s)[1..] == s;
    } else {
      WithDateInsert(m, s[1..], d);
      assert ([s[0]] + Insert(m, s[1..]))[1..] == Insert(m, s[1..]);
      assert DateKey(m) == d ==> DateKey(s[0]) != d;
    }
  }

  /**
   * The sort is stable: the messages sharing any one date key keep their
   * relative input order.
   */
  lemma {:induction false} SortIsStable(s: seq<Message>, d: int)
    ensures WithDate(SortByDateDesc(s), d) == WithDate(s, d)
  {
    if s != [] {
      SortIsStable(s[1..], d);
      WithDateInsert(s[0], SortByDateDesc(s[1..]), d);
    }
  }

  /** Sorting an already sorted list changes nothing. */
  lemma {:induction false} SortOfSorted(s: seq<Message>)
    requires SortedByDateDesc(s)
    ensures SortByDateDesc(s) == s
  {
    if s != [] {
      SortedTail(s);
      SortOfSorted(s[1..]);
    }
  }

  /** Cutting a newest-first list after `cap` entries keeps it newest first and drops only older ones. */
  lemma CutSpec(sorted: seq<Message>, cap: nat)
    requires SortedByDateDesc(sorted) && cap < |sorted|
    ensures SortedByDateDesc(sorted[..cap])
    ensures multiset(sorted[..cap]) <= multiset(sorted)
    ensures forall x, k :: x in multiset(sorted) - multiset(sorted[..cap]) && 0 <= k < cap ==>
              DateKey(sorted[..cap][k]) >= DateKey(x)
  {
    var kept, dropped := sorted[..cap], sorted[cap..];
    assert sorted == kept + dropped;
    assert multiset(sorted) == multiset(kept) + multiset(dropped);
    forall i, j | 0 <= i < j < cap ensures DateKey(kept[i]) >= DateKey(kept[j]) {
      assert kept[i] == sorted[i] && kept[j] == sorted[j];
    }
    forall x, k | x in multiset(sorted) - multiset(kept) && 0 <= k < cap
      ensures DateKey(kept[k]) >= DateKey(x)
    {
      assert x in multiset(dropped);
      var j :| 0 <= j < |dropped| && dropped[j] == x;
      assert sorted[cap + j] == x && sorted[k] == kept[k];
    }
  }

  /**
   * What one insert keeps: at most `cap` messages, newest first, all taken from
   * the input, all of them when the input fits, and none older than a dropped one.
   */
  lemma NewestSpec(s: seq<Message>, cap: nat)
    ensures |Newest(s, cap)| == if |s| <= cap then |s| else cap
    ensures SortedByDateDesc(Newest(s, cap))
    ensures multiset(Newest(s, cap)) <= multiset(s)
    ensures |s| <= cap ==> multiset(Newest(s, cap)) == multiset(s)
    ensures forall x, k :: x in multiset(s) - multiset(Newest(s, cap)) && 0 <= k < |Newest(s, cap)| ==>
              DateKey(Newest(s, cap)[k]) >= DateKey(x)
  {
    var sorted := SortByDateDesc(s);
    if |sorted| > cap {
      CutSpec(sorted, cap);
    }
  }

  /** `s.filter(keep)`. */
  function KeepWhere(s: seq<Message>, keep: Message -> bool): (r: seq<Message>)
    ensures forall x :: x in r <==> x in s && keep(x)
    ensures |r| <= |s|
  {
    if s == [] then []
    else
      assert s == [s[0]] + s[1..];
      (if keep(s[0]) then [s[0]] else []) + KeepWhere(s[1..], keep)
  }

  /** `filter` keeps the survivors in order and with their copies: filtering a concatenation filters each part. */
  lemma {:induction false} KeepWhereAppend(a: seq<Message>, b: seq<Message>, keep: Message -> bool)
    ensures KeepWhere(a + b, keep) == KeepWhere(a, keep) + KeepWhere(b, keep)
  {
    if a == [] {
      assert a + b == b;
    } else {
      assert (a + b)[1..] == a[1..] + b;
      KeepWhereAppend(a[1..], b, keep);
    }
  }

  /** Dropping messages from a date-descending list keeps it date-descending. */
  lemma {:induction false} KeepWhereStaysSorted(s: seq<Message>, keep: Message -> bool)
    requires SortedByDateDesc(s)
    ensures SortedByDateDesc(KeepWhere(s, keep))
  {
    if s != [] {
      SortedTail(s);
      KeepWhereStaysSorted(s[1..], keep);
      var rest := KeepWhere(s[1..], keep);
      if keep(s[0]) {
        if rest != [] {
          assert rest[0] in s[1..];
          var j :| 0 <= j < |s| - 1 && s[1..][j] == rest[0];
          assert s[j + 1] == rest[0];
        }
        SortedCons(s[0], rest);
      }
    }
  }
}
