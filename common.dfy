/** Small value types and JavaScript string and array helpers shared by the whole model. */
module Common {

  datatype Option<+T> = None | Some(value: T) {
    /** The `x || d` / `x ?? d` default of the source. */
    function GetOr(default: T): T {
      if Some? then value else default
    }
  }

  /** A JavaScript call that either returns a value or throws. */
  datatype Result<+T> = Ok(value: T) | Err(error: string)

  // ---------------------------------------------------------------------------
  // Whitespace: the ECMAScript WhiteSpace and LineTerminator characters, which are
  // both what `String.prototype.trim` removes and what the regex class `\s` matches.
  // ---------------------------------------------------------------------------

  predicate IsWhitespace(c: char) {
    || c == ' ' || c == '\t' || c == '\n' || c == '\r' || c == '\U{000B}' || c == '\U{000C}'
    || c == '\U{00A0}' || c == '\U{1680}' || ('\U{2000}' <= c <= '\U{200A}')
    || c == '\U{2028}' || c == '\U{2029}' || c == '\U{202F}' || c == '\U{205F}'
    || c == '\U{3000}' || c == '\U{FEFF}'
  }

  predicate AllWhitespace(s: string) {
    forall i :: 0 <= i < |s| ==> IsWhitespace(s[i])
  }

  predicate NoWhitespace(s: string) {
    forall i :: 0 <= i < |s| ==> !IsWhitespace(s[i])
  }

  function TrimLeft(s: string): (r: string)
    ensures |r| <= |s|
    ensures r == [] || !IsWhitespace(r[0])
  {
    if s != [] && IsWhitespace(s[0]) then TrimLeft(s[1..]) else s
  }

  function TrimRight(s: string): (r: string)
    ensures |r| <= |s|
  {
    if s != [] && IsWhitespace(s[|s| - 1]) then TrimRight(s[..|s| - 1]) else s
  }

  /** `String.prototype.trim`. */
  function Trim(s: string): (r: string)
    ensures |r| <= |s|
  {
    TrimRight(TrimLeft(s))
  }

  /** `TrimLeft` drops exactly the leading whitespace. */
  lemma {:induction false} TrimLeftSpec(s: string)
    ensures TrimLeft(s) == s[|s| - |TrimLeft(s)|..]
    ensures AllWhitespace(s[..|s| - |TrimLeft(s)|])
  {
    if s != [] && IsWhitespace(s[0]) {
      TrimLeftSpec(s[1..]);
      var r := TrimLeft(s);
      assert s[1..][..|s| - 1 - |r|] == s[1..|s| - |r|];
    }
  }

  /** `TrimRight` drops exactly the trailing whitespace. */
  lemma {:induction false} TrimRightSpec(s: string)
    ensures TrimRight(s) == s[..|TrimRight(s)|]
    ensures AllWhitespace(s[|TrimRight(s)|..])
    ensures TrimRight(s) == [] || !IsWhitespace(TrimRight(s)[|TrimRight(s)| - 1])
  {
    if s != [] && IsWhitespace(s[|s| - 1]) {
      TrimRightSpec(s[..|s| - 1]);
      var r := TrimRight(s);
      assert s[..|s| - 1][|r|..] == s[|r|..|s| - 1];
    }
  }

  /**
   * `trim` removes the whitespace at both ends and nothing else: the result is a
   * slice of `s` between two all-whitespace margins, it neither starts nor ends
   * with whitespace, and it is empty exactly when `s` is all whitespace.
   */
  lemma TrimSpec(s: string)
    ensures var r := Trim(s);
            exists k :: 0 <= k <= |s| - |r| && r == s[k..k + |r|]
                        && AllWhitespace(s[..k]) && AllWhitespace(s[k + |r|..])
    ensures Trim(s) == [] || (!IsWhitespace(Trim(s)[0]) && !IsWhitespace(Trim(s)[|Trim(s)| - 1]))
    ensures Trim(s) == [] <==> AllWhitespace(s)
  {
    var l := TrimLeft(s);
    var r := Trim(s);
    TrimLeftSpec(s);
    TrimRightSpec(l);
    var k := |s| - |l|;
    assert r == s[k..k + |r|];
    assert s[k + |r|..] == l[|r|..];
    if r != [] {
      assert r[0] == l[0];
    } else {
      assert s == s[..k] + l;
    }
  }

  /** Length of the leading run of non-whitespace characters. */
  function WordLength(s: string): (n: nat)
    ensures n <= |s|
    ensures NoWhitespace(s[..n])
    ensures n == |s| || IsWhitespace(s[n])
  {
    if s == [] || IsWhitespace(s[0]) then 0
    else
      var n := WordLength(s[1..]);
      assert s[..n + 1] == [s[0]] + s[1..][..n];
      n + 1
  }

  /**
   * `s.split(/\s+/).filter(id => id.trim())`: the maximal runs of
   * non-whitespace characters, in order.
   */
  function Tokens(s: string): (r: seq<string>)
    ensures forall i :: 0 <= i < |r| ==> r[i] != [] && NoWhitespace(r[i])
    decreases |s|
  {
    var t := TrimLeft(s);
    if t == [] then []
    else
      var n := WordLength(t);
      [t[..n]] + Tokens(t[n..])
  }

  /** The length of the leading word is the first whitespace position (or `|s|`). */
  lemma {:induction false} WordLengthIsFirstWhitespace(s: string, m: nat)
    requires m <= |s| && NoWhitespace(s[..m]) && (m == |s| || IsWhitespace(s[m]))
    ensures WordLength(s) == m
  {
    if m > 0 {
      assert s[..m][0] == s[0];
      assert s[1..][..m - 1] == s[1..m];
      WordLengthIsFirstWhitespace(s[1..], m - 1);
    }
  }

  /** A string of whitespace only has no tokens. */
  lemma TokensOfWhitespace(s: string)
    requires AllWhitespace(s)
    ensures Tokens(s) == []
  {
    TrimLeftSpec(s);
  }

  /** A non-empty string without whitespace is a single token. */
  lemma TokensOfWord(t: string)
    requires t != [] && NoWhitespace(t)
    ensures Tokens(t) == [t]
  {
    assert TrimLeft(t) == t;
    assert t[..|t|] == t;
    WordLengthIsFirstWhitespace(t, |t|);
    assert t[|t|..] == [];
  }

  /** Leading whitespace does not produce a token. */
  lemma TokensSkipsLeadingWhitespace(w: char, s: string)
    requires IsWhitespace(w)
    ensures Tokens([w] + s) == Tokens(s)
  {
    assert ([w] + s)[1..] == s;
    assert TrimLeft([w] + s) == TrimLeft(s);
  }

  /** A whitespace character separates tokens: the tokens of both sides, in order. */
  lemma {:induction false} TokensSplit(a: string, w: char, b: string)
    requires IsWhitespace(w)
    ensures Tokens(a + [w] + b) == Tokens(a) + Tokens(b)
    decreases |a|
  {
    var s := a + [w] + b;
    if a == [] {
      assert s == [w] + b;
      TokensSkipsLeadingWhitespace(w, b);
    } else if IsWhitespace(a[0]) {
      assert s == [a[0]] + (a[1..] + [w] + b);
      assert a == [a[0]] + a[1..];
      TokensSkipsLeadingWhitespace(a[0], a[1..] + [w] + b);
      TokensSkipsLeadingWhitespace(a[0], a[1..]);
      TokensSplit(a[1..], w, b);
    } else {
      assert TrimLeft(s) == s;
      assert TrimLeft(a) == a;
      var m := WordLength(a);
      assert s[..m] == a[..m];
      assert m == |a| || s[m] == a[m];
      assert m < |a| || s[m] == w;
      WordLengthIsFirstWhitespace(s, m);
      assert s[m..] == a[m..] + [w] + b;
      assert m > 0;
      TokensSplit(a[m..], w, b);
    }
  }

  // ---------------------------------------------------------------------------
  // Decimal rendering of numbers, as in a template literal `${n}`.
  // ---------------------------------------------------------------------------

  predicate IsDigit(c: char) {
    '0' <= c <= '9'
  }

  function DigitChar(d: nat): (c: char)
    requires d < 10
    ensures IsDigit(c) && c as int - '0' as int == d
  {
    ('0' as int + d) as char
  }

  function NatToString(n: nat): (r: string)
    ensures r != [] && forall i :: 0 <= i < |r| ==> IsDigit(r[i])
  {
    if n < 10 then [DigitChar(n)] else NatToString(n / 10) + [DigitChar(n % 10)]
  }

  function IntToString(i: int): string {
    if i < 0 then "-" + NatToString(-i) else NatToString(i)
  }

  /** The number a string of decimal digits denotes, most significant digit first. */
  function DecimalValue(s: string): nat
    requires forall i :: 0 <= i < |s| ==> IsDigit(s[i])
  {
    if s == [] then 0
    else
      var p := s[..|s| - 1];
      assert forall i :: 0 <= i < |p| ==> p[i] == s[i];
      assert IsDigit(s[|s| - 1]);
      DecimalValue(p) * 10 + (s[|s| - 1] as int - '0' as int)
  }

  /** `${n}` reads back as `n`. */
  lemma {:induction false} NatToStringValue(n: nat)
    ensures DecimalValue(NatToString(n)) == n
  {
    if n >= 10 {
      var r := NatToString(n);
      assert r[..|r| - 1] == NatToString(n / 10);
      NatToStringValue(n / 10);
    }
  }

  /** Different numbers render differently. */
  lemma NatToStringInjective(a: nat, b: nat)
    ensures NatToString(a) == NatToString(b) ==> a == b
  {
    NatToStringValue(a);
    NatToStringValue(b);
  }

  /** `${i}` starts with a minus sign exactly for negative `i`. */
  lemma IntToStringSign(i: int)
    ensures IntToString(i) != [] && (IntToString(i)[0] == '-' <==> i < 0)
  {
    if i >= 0 {
      assert IsDigit(NatToString(i)[0]);
    }
  }

  /** Different integers render differently. */
  lemma IntToStringInjective(a: int, b: int)
    ensures IntToString(a) == IntToString(b) ==> a == b
  {
    IntToStringSign(a);
    IntToStringSign(b);
    if IntToString(a) == IntToString(b) {
      if a < 0 {
        assert IntToString(a)[1..] == NatToString(-a);
        assert IntToString(b)[1..] == NatToString(-b);
        NatToStringInjective(-a, -b);
      } else {
        NatToStringInjective(a, b);
      }
    }
  }

  // ---------------------------------------------------------------------------
  // Sequences used as JavaScript arrays.
  // ---------------------------------------------------------------------------

  predicate NoDuplicates<T(==,!new)>(s: seq<T>) {
    forall i, j :: 0 <= i < j < |s| ==> s[i] != s[j]
  }

  /** `s.filter(y => y !== x)`. */
  function RemoveAll<T(==,!new)>(s: seq<T>, x: T): (r: seq<T>)
    ensures x !in r
    ensures forall y :: y != x ==> (y in r <==> y in s)
    ensures multiset(r) == multiset(s)[x := 0]
  {
    if s == [] then []
    else
      var rest := RemoveAll(s[1..], x);
      assert s == [s[0]] + s[1..];
      if s[0] == x then rest else [s[0]] + rest
  }

  /**
   * `filter` keeps the survivors in order: removing from a concatenation removes
   * from each part.
   */
  lemma {:induction false} RemoveAllAppend<T(!new)>(a: seq<T>, b: seq<T>, x: T)
    ensures RemoveAll(a + b, x) == RemoveAll(a, x) + RemoveAll(b, x)
  {
    if a == [] {
      assert a + b == b;
    } else {
      assert (a + b)[1..] == a[1..] + b;
      RemoveAllAppend(a[1..], b, x);
    }
  }

  lemma {:induction false} RemoveAllAbsent<T(!new)>(s: seq<T>, x: T)
    requires x !in s
    ensures RemoveAll(s, x) == s
  {
    if s != [] {
      assert x !in s[1..] by { assert forall y :: y in s[1..] ==> y in s; }
      RemoveAllAbsent(s[1..], x);
      assert s == [s[0]] + s[1..];
    }
  }

  /** `s.filter(y => !xs.includes(y))`. */
  function RemoveEach<T(==,!new)>(s: seq<T>, xs: seq<T>): (r: seq<T>)
    ensures forall y :: y in r <==> y in s && y !in xs
    ensures |r| <= |s|
  {
    if s == [] then []
    else
      var rest := RemoveEach(s[1..], xs);
      assert s == [s[0]] + s[1..];
      if s[0] in xs then rest else [s[0]] + rest
  }

  /** `filter` keeps the survivors in order: filtering a concatenation filters each part. */
  lemma {:induction false} RemoveEachAppend<T(!new)>(a: seq<T>, b: seq<T>, xs: seq<T>)
    ensures RemoveEach(a + b, xs) == RemoveEach(a, xs) + RemoveEach(b, xs)
  {
    if a == [] {
      assert a + b == b;
    } else {
      assert (a + b)[1..] == a[1..] + b;
      RemoveEachAppend(a[1..], b, xs);
    }
  }

  /** Filtering a duplicate-free sequence leaves it duplicate-free. */
  lemma {:induction false} RemoveEachDistinct<T(!new)>(s: seq<T>, xs: seq<T>)
    requires NoDuplicates(s)
    ensures NoDuplicates(RemoveEach(s, xs))
  {
    if s != [] {
      assert NoDuplicates(s[1..]);
      RemoveEachDistinct(s[1..], xs);
      assert s[0] !in s[1..];
    }
  }

  /** `new Set` meets one more element: it is appended unless it was seen. */
  lemma DedupSnoc<T(!new)>(s: seq<T>, x: T)
    ensures Dedup(s + [x]) == if x in s then Dedup(s) else Dedup(s) + [x]
  {
    assert (s + [x])[..|s + [x]| - 1] == s;
  }

  lemma AppendOneAssoc<T>(p: seq<T>, q: seq<T>, y: T)
    ensures p + (q + [y]) == (p + q) + [y]
  {
  }

  /** One more element of `b` extends both sides of `DedupAppend` alike. */
  lemma DedupAppendStep<T(!new)>(a: seq<T>, b: seq<T>, x: T)
    requires Dedup(a + b) == Dedup(a) + Dedup(RemoveEach(b, a))
    ensures Dedup(a + (b + [x])) == Dedup(a) + Dedup(RemoveEach(b + [x], a))
  {
    var ab, r := a + b, RemoveEach(b, a);
    AppendOneAssoc(a, b, x);
    DedupSnoc(ab, x);
    RemoveEachAppend(b, [x], a);
    if x in a {
      assert x in ab;
      assert RemoveEach([x], a) == [];
      calc {
        Dedup(a + (b + [x]));
        Dedup(ab + [x]);
        Dedup(ab);
        Dedup(a) + Dedup(r);
        { assert RemoveEach(b + [x], a) == r; }
        Dedup(a) + Dedup(RemoveEach(b + [x], a));
      }
    } else {
      assert RemoveEach([x], a) == [x];
      assert RemoveEach(b + [x], a) == r + [x];
      DedupSnoc(r, x);
      var d, e := Dedup(a), Dedup(r);
      if x in b {
        assert x in r && x in ab;
        assert Dedup(ab + [x]) == d + e;
        assert Dedup(r + [x]) == e;
      } else {
        assert x !in r && x !in ab;
        assert Dedup(ab + [x]) == (d + e) + [x];
        assert Dedup(r + [x]) == e + [x];
        AppendOneAssoc(d, e, x);
      }
    }
  }

  /**
   * `[...new Set([...a, ...b])]` is the first occurrences of `a` followed by the
   * first occurrences of the elements of `b` that are not in `a`, in order.
   */
  lemma {:induction false} DedupAppend<T(!new)>(a: seq<T>, b: seq<T>)
    ensures Dedup(a + b) == Dedup(a) + Dedup(RemoveEach(b, a))
  {
    if b == [] {
      assert a + b == a;
    } else {
      var b' := b[..|b| - 1];
      assert b == b' + [b[|b| - 1]];
      DedupAppend(a, b');
      DedupAppendStep(a, b', b[|b| - 1]);
    }
  }

  /** `s.filter(y => xs.includes(y))`. */
  function KeepEach<T(==,!new)>(s: seq<T>, xs: seq<T>): (r: seq<T>)
    ensures forall y :: y in r <==> y in s && y in xs
    ensures |r| <= |s|
  {
    if s == [] then []
    else
      var rest := KeepEach(s[1..], xs);
      assert s == [s[0]] + s[1..];
      if s[0] in xs then [s[0]] + rest else rest
  }

  /** `filter` keeps the survivors in order and with their copies: filtering a concatenation filters each part. */
  lemma {:induction false} KeepEachAppend<T(!new)>(a: seq<T>, b: seq<T>, xs: seq<T>)
    ensures KeepEach(a + b, xs) == KeepEach(a, xs) + KeepEach(b, xs)
  {
    if a == [] {
      assert a + b == b;
    } else {
      assert (a + b)[1..] == a[1..] + b;
      KeepEachAppend(a[1..], b, xs);
    }
  }

  /** `[...new Set(s)]`: the first occurrence of every element, in order. */
  function Dedup<T(==,!new)>(s: seq<T>): (r: seq<T>)
    ensures NoDuplicates(r)
    ensures forall x :: x in r <==> x in s
  {
    if s == [] then []
    else
      var d := Dedup(s[..|s| - 1]);
      assert forall x :: x in s <==> x in s[..|s| - 1] || x == s[|s| - 1] by {
        assert s == s[..|s| - 1] + [s[|s| - 1]];
      }
      if s[|s| - 1] in d then d else d + [s[|s| - 1]]
  }

  /** A duplicate-free sequence is already its own `[...new Set(s)]`. */
  lemma {:induction false} DedupOfDistinct<T(!new)>(s: seq<T>)
    requires NoDuplicates(s)
    ensures Dedup(s) == s
  {
    if s != [] {
      var p := s[..|s| - 1];
      assert NoDuplicates(p);
      DedupOfDistinct(p);
      assert s[|s| - 1] !in p;
      assert s == p + [s[|s| - 1]];
    }
  }

  /** `[...new Set([...a, ...b])]` keeps `a` in front when `a` is duplicate-free. */
  lemma {:induction false} DedupKeepsDistinctPrefix<T(!new)>(a: seq<T>, b: seq<T>)
    requires NoDuplicates(a)
    ensures |Dedup(a + b)| >= |a| && Dedup(a + b)[..|a|] == a
  {
    if b == [] {
      assert a + b == a;
      DedupOfDistinct(a);
    } else {
      var b' := b[..|b| - 1];
      assert (a + b)[..|a + b| - 1] == a + b';
      DedupKeepsDistinctPrefix(a, b');
    }
  }
}
