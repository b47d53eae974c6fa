/** Python string operations the downloader relies on, over `string` (a sequence of code
    points): prefix and suffix tests, `str.split(sep)[0]`, `sep.join`, `str(n)` for a
    natural number, `str.upper` restricted to ASCII, and the code-point order that
    `sorted` applies to dictionary keys. */
module Text {

  predicate StartsWith(s: string, prefix: string)
  {
    |prefix| <= |s| && s[..|prefix|] == prefix
  }

  predicate EndsWith(s: string, suffix: string)
  {
    |suffix| <= |s| && s[|s| - |suffix|..] == suffix
  }

  /** `sub in s` */
  predicate Contains(s: string, sub: string)
  {
    exists i :: 0 <= i <= |s| && OccursAt(s, sub, i)
  }

  predicate OccursAt(s: string, sub: string, i: int)
  {
    0 <= i <= |s| - |sub| && s[i..i + |sub|] == sub
  }

  /** `s.split(sep)[0]`: the text before the first occurrence of `sep`, or all of `s` when
      `sep` does not occur. For a separator no proper prefix of which is also a suffix of it,
      such as `?tag`, occurrences cannot overlap, so `rsplit` cuts at the same places as
      `split` and `s.rsplit(sep)[0]` is this value too. */
  function BeforeFirst(s: string, sep: string): (r: string)
    requires |sep| > 0
    ensures StartsWith(s, r)
    ensures !Contains(r, sep)
    ensures r == s || StartsWith(s[|r|..], sep)
    decreases |s|
  {
    if |s| < |sep| then
      NoOccurrenceInShort(s, sep);
      s
    else if s[..|sep|] == sep then
      assert !Contains("", sep);
      ""
    else
      var rest := BeforeFirst(s[1..], sep);
      var r := [s[0]] + rest;
      assert s == [s[0]] + s[1..];
      assert r == s[..|r|];
      NoOccurrenceAfterMismatch(s, sep, rest);
      r
  }

  lemma NoOccurrenceInShort(s: string, sep: string)
    requires |s| < |sep|
    ensures !Contains(s, sep)
  {
  }

  /** Prepending the first character of `s` to an occurrence-free prefix of `s[1..]` creates
      no occurrence, provided `s` itself does not start with `sep`. */
  lemma NoOccurrenceAfterMismatch(s: string, sep: string, rest: string)
    requires |sep| > 0 && |s| >= |sep| && s[..|sep|] != sep
    requires StartsWith(s[1..], rest) && !Contains(rest, sep)
    ensures !Contains([s[0]] + rest, sep)
  {
    var r := [s[0]] + rest;
    assert r == s[..|r|];
    if Contains(r, sep) {
      var i :| 0 <= i <= |r| && OccursAt(r, sep, i);
      assert 0 <= i <= |r| - |sep|;
      if i == 0 {
        assert false;
      } else {
        assert rest[i - 1..i - 1 + |sep|] == r[i..i + |sep|];
        assert OccursAt(rest, sep, i - 1);
        assert false;
      }
    }
  }

  /** When `a` has no `c`, the text before the first `c` of `a + [c] + b` is `a`. */
  lemma {:induction false} BeforeFirstOfConcat(a: string, c: char, b: string)
    requires forall i :: 0 <= i < |a| ==> a[i] != c
    ensures BeforeFirst(a + [c] + b, [c]) == a
    decreases |a|
  {
    var s := a + [c] + b;
    if |a| > 0 {
      assert s[..1] != [c] by {
        assert s[0] == a[0];
      }
      assert s[1..] == a[1..] + [c] + b;
      BeforeFirstOfConcat(a[1..], c, b);
      assert [s[0]] + a[1..] == a;
    } else {
      assert s[..1] == [c];
    }
  }

  /** `m + [c] + u + [c] + q` with no `c` in `m` or `u` splits back at its `c`s into `m`, `u`
      and `q`. */
  lemma SplitAtSeparators(m: string, u: string, q: string, c: char)
    requires forall i :: 0 <= i < |m| ==> m[i] != c
    requires forall i :: 0 <= i < |u| ==> u[i] != c
    ensures var s := m + [c] + u + [c] + q;
            BeforeFirst(s, [c]) == m &&
            BeforeFirst(s[|m| + 1..], [c]) == u &&
            s[|m| + 1 + |u| + 1..] == q
  {
    var s := m + [c] + u + [c] + q;
    assert s == m + [c] + (u + [c] + q);
    BeforeFirstOfConcat(m, c, u + [c] + q);
    assert s[|m| + 1..] == u + [c] + q;
    BeforeFirstOfConcat(u, c, q);
  }

  /** `sep.join(parts)` */
  function Join(parts: seq<string>, sep: string): string
    decreases |parts|
  {
    if |parts| == 0 then ""
    else if |parts| == 1 then parts[0]
    else parts[0] + sep + Join(parts[1..], sep)
  }

  /** The text a loop builds by appending `part + sep` for every part in turn. */
  function ConcatEachWith(parts: seq<string>, sep: string): string
    decreases |parts|
  {
    if |parts| == 0 then "" else parts[0] + sep + ConcatEachWith(parts[1..], sep)
  }

  /** Appending a separator after every part and then cutting the last separator off is
      joining the parts with that separator. */
  lemma {:induction false} ConcatEachWithIsJoinPlusSep(parts: seq<string>, sep: string)
    requires |parts| > 0
    ensures ConcatEachWith(parts, sep) == Join(parts, sep) + sep
    decreases |parts|
  {
    if |parts| > 1 {
      ConcatEachWithIsJoinPlusSep(parts[1..], sep);
    }
  }

  /** Joining a non-empty list appends the joined tail after the first part and one separator,
      and joining one more part at the end adds it after one separator. */
  lemma {:induction false} JoinSnoc(parts: seq<string>, last: string, sep: string)
    requires |parts| > 0
    ensures Join(parts + [last], sep) == Join(parts, sep) + sep + last
    decreases |parts|
  {
    if |parts| == 1 {
      assert (parts + [last])[1..] == [last];
    } else {
      assert (parts + [last])[1..] == parts[1..] + [last];
      JoinSnoc(parts[1..], last, sep);
    }
  }

  predicate IsDigit(c: char)
  {
    '0' <= c <= '9'
  }

  function DigitChar(d: nat): (c: char)
    requires d < 10
    ensures IsDigit(c)
  {
    ['0', '1', '2', '3', '4', '5', '6', '7', '8', '9'][d]
  }

  /** `str(n)` for a natural number: its decimal digits, most significant first, with no
      leading zero. */
  function Decimal(n: nat): (r: string)
    ensures |r| > 0
    ensures forall i :: 0 <= i < |r| ==> IsDigit(r[i])
    ensures r[0] == '0' ==> n == 0
    decreases n
  {
    if n < 10 then [DigitChar(n)] else Decimal(n / 10) + [DigitChar(n % 10)]
  }

  /** `str.upper` on the ASCII letters; other characters are left as they are. */
  function AsciiUpper(s: string): (r: string)
    ensures |r| == |s|
    ensures forall i :: 0 <= i < |s| ==> !('a' <= r[i] <= 'z')
    ensures forall i :: 0 <= i < |s| && !('a' <= s[i] <= 'z') ==> r[i] == s[i]
    ensures forall i :: 0 <= i < |s| && 'a' <= s[i] <= 'z' ==> r[i] == (s[i] as int - 32) as char
    decreases |s|
  {
    if |s| == 0 then ""
    else
      var c := s[0];
      var u := if 'a' <= c <= 'z' then (c as int - 32) as char else c;
      [u] + AsciiUpper(s[1..])
  }

  // ---------------------------------------------------------------------------
  // The order `sorted` puts strings in: lexicographic by code point, a proper prefix first.

  predicate Less(a: string, b: string)
    decreases |a|
  {
    if |a| == 0 then |b| > 0
    else if |b| == 0 then false
    else a[0] < b[0] || (a[0] == b[0] && Less(a[1..], b[1..]))
  }

  lemma {:induction false} LessIrreflexive(a: string)
    ensures !Less(a, a)
    decreases |a|
  {
    if |a| > 0 {
      LessIrreflexive(a[1..]);
    }
  }

  lemma {:induction false} LessTransitive(a: string, b: string, c: string)
    requires Less(a, b) && Less(b, c)
    ensures Less(a, c)
    decreases |a|
  {
    if |a| > 0 && a[0] == b[0] && b[0] == c[0] {
      LessTransitive(a[1..], b[1..], c[1..]);
    }
  }

  lemma {:induction false} LessTotal(a: string, b: string)
    ensures a == b || Less(a, b) || Less(b, a)
    decreases |a|
  {
    if |a| > 0 && |b| > 0 && a[0] == b[0] {
      LessTotal(a[1..], b[1..]);
      if a[1..] == b[1..] {
        assert a == [a[0]] + a[1..] && b == [b[0]] + b[1..];
      }
    }
  }

  /** Strictly increasing in the code-point order, hence also free of duplicates. */
  predicate StrictlySorted(s: seq<string>)
  {
    forall i, j :: 0 <= i < j < |s| ==> Less(s[i], s[j])
  }

  predicate IsMinimum(m: string, ks: set<string>)
  {
    m in ks && forall k :: k in ks && k != m ==> Less(m, k)
  }

  lemma {:induction false} MinimumExists(ks: set<string>) returns (m: string)
    requires ks != {}
    ensures IsMinimum(m, ks)
    decreases |ks|
  {
    var x :| x in ks;
    if ks == {x} {
      m := x;
    } else {
      var rest := MinimumExists(ks - {x});
      LessTotal(x, rest);
      if Less(x, rest) {
        m := x;
        forall k | k in ks && k != m ensures Less(m, k) {
          if k != rest {
            LessTransitive(x, rest, k);
          }
        }
      } else {
        m := rest;
      }
    }
  }

  lemma MinimumUnique(m1: string, m2: string, ks: set<string>)
    requires IsMinimum(m1, ks) && IsMinimum(m2, ks)
    ensures m1 == m2
  {
    if m1 != m2 {
      LessTransitive(m1, m2, m1);
      LessIrreflexive(m1);
    }
  }

  predicate IsMaximum(m: string, ks: set<string>)
  {
    m in ks && forall k :: k in ks && k != m ==> Less(k, m)
  }

  lemma MaximumUnique(m1: string, m2: string, ks: set<string>)
    requires IsMaximum(m1, ks) && IsMaximum(m2, ks)
    ensures m1 == m2
  {
    if m1 != m2 {
      LessTransitive(m1, m2, m1);
      LessIrreflexive(m1);
    }
  }

  /** The first and the last element of a strictly sorted listing of `ks` are its least and its
      greatest element. */
  lemma SortedEnds(s: seq<string>, ks: set<string>)
    requires StrictlySorted(s) && |s| > 0
    requires forall i :: 0 <= i < |s| ==> s[i] in ks
    requires forall k :: k in ks ==> k in s
    ensures IsMinimum(s[0], ks) && IsMaximum(s[|s| - 1], ks)
  {
    forall k | k in ks && k != s[0] ensures Less(s[0], k) {
      var j :| 0 <= j < |s| && s[j] == k;
    }
    forall k | k in ks && k != s[|s| - 1] ensures Less(k, s[|s| - 1]) {
      var j :| 0 <= j < |s| && s[j] == k;
    }
  }

  lemma HasMinimum(ks: set<string>)
    requires ks != {}
    ensures exists m :: IsMinimum(m, ks)
  {
    var m := MinimumExists(ks);
  }

  ghost function Minimum(ks: set<string>): (m: string)
    requires ks != {}
    ensures IsMinimum(m, ks)
  {
    HasMinimum(ks);
    var m :| IsMinimum(m, ks);
    m
  }

  /** `sorted(ks)`: the elements of `ks` in increasing code-point order (see `SortedKeysSorted`). */
  ghost function SortedKeys(ks: set<string>): seq<string>
    decreases |ks|
  {
    if ks == {} then []
    else
      var m := Minimum(ks);
      [m] + SortedKeys(ks - {m})
  }

  /** `SortedKeys(ks)` lists every element of `ks` once, in strictly increasing order. */
  lemma {:induction false} SortedKeysSorted(ks: set<string>)
    ensures var r := SortedKeys(ks);
            |r| == |ks| &&
            (forall i :: 0 <= i < |r| ==> r[i] in ks) &&
            (forall k :: k in ks ==> k in r) &&
            StrictlySorted(r)
    decreases |ks|
  {
    if ks != {} {
      var m := Minimum(ks);
      SortedKeysSorted(ks - {m});
      ConsMinimumSorted(m, ks, SortedKeys(ks - {m}));
    }
  }

  /** The least element of `ks` followed by a sorted listing of the others is a sorted listing
      of `ks`. */
  lemma ConsMinimumSorted(m: string, ks: set<string>, rest: seq<string>)
    requires IsMinimum(m, ks)
    requires |rest| == |ks - {m}| && StrictlySorted(rest)
    requires forall i :: 0 <= i < |rest| ==> rest[i] in ks - {m}
    requires forall k :: k in ks - {m} ==> k in rest
    ensures var r := [m] + rest;
            |r| == |ks| &&
            (forall i :: 0 <= i < |r| ==> r[i] in ks) &&
            (forall k :: k in ks ==> k in r) &&
            StrictlySorted(r)
  {
    var r := [m] + rest;
    assert forall i :: 1 <= i < |r| ==> r[i] == rest[i - 1];
    forall i, j | 0 <= i < j < |r| ensures Less(r[i], r[j]) {
      assert r[j] in ks - {m};
    }
  }

  /** There is only one strictly sorted arrangement of a set of strings. */
  lemma {:induction false} StrictlySortedUnique(a: seq<string>, b: seq<string>)
    requires StrictlySorted(a) && StrictlySorted(b)
    requires forall i :: 0 <= i < |a| ==> a[i] in b
    requires forall i :: 0 <= i < |b| ==> b[i] in a
    ensures a == b
    decreases |a|
  {
    assert |a| > 0 ==> a[0] in b;
    assert |b| > 0 ==> b[0] in a;
    if |a| > 0 && |b| > 0 {
      SortedHeadsEqual(a, b);
      SortedTailMembers(a, b);
      SortedTailMembers(b, a);
      StrictlySortedUnique(a[1..], b[1..]);
      assert a == [a[0]] + a[1..] && b == [b[0]] + b[1..];
    }
  }

  /** Two strictly sorted sequences holding each other's elements start alike. */
  lemma SortedHeadsEqual(a: seq<string>, b: seq<string>)
    requires StrictlySorted(a) && StrictlySorted(b) && |a| > 0 && |b| > 0
    requires a[0] in b && b[0] in a
    ensures a[0] == b[0]
  {
    var j :| 0 <= j < |b| && b[j] == a[0];
    var i :| 0 <= i < |a| && a[i] == b[0];
    if a[0] != b[0] {
      assert Less(b[0], a[0]) && Less(a[0], b[0]);
      LessTransitive(a[0], b[0], a[0]);
      LessIrreflexive(a[0]);
    }
  }

  /** Past a common first element, the rest of `a` lies in the rest of `b`. */
  lemma SortedTailMembers(a: seq<string>, b: seq<string>)
    requires StrictlySorted(a) && |a| > 0 && |b| > 0 && a[0] == b[0]
    requires forall i :: 0 <= i < |a| ==> a[i] in b
    ensures forall i :: 0 <= i < |a[1..]| ==> a[1..][i] in b[1..]
  {
    forall k | 0 <= k < |a| - 1 ensures a[1..][k] in b[1..] {
      var x := a[k + 1];
      assert Less(a[0], x);
      LessIrreflexive(x);
      var n :| 0 <= n < |b| && b[n] == x;
      assert b[1..][n - 1] == x;
    }
  }

  /** `sorted(ks)` computed by repeatedly taking the least remaining key. */
  method SortKeys(ks: set<string>) returns (r: seq<string>)
    ensures r == SortedKeys(ks)
  {
    r := [];
    var remaining := ks;
    while remaining != {}
      invariant remaining <= ks
      invariant SortedKeys(ks) == r + SortedKeys(remaining)
      decreases |remaining|
    {
      var w := MinimumExists(remaining);
      var m :| m in remaining && forall k :: k in remaining && k != m ==> Less(m, k);
      MinimumUnique(m, Minimum(remaining), remaining);
      r := r + [m];
      remaining := remaining - {m};
    }
  }

  /** `s` is strictly sorted as soon as each element is less than the next. */
  lemma StrictlySortedFromAdjacent(s: seq<string>)
    requires forall i :: 0 <= i < |s| - 1 ==> Less(s[i], s[i + 1])
    ensures StrictlySorted(s)
  {
    forall i, j | 0 <= i < j < |s| ensures Less(s[i], s[j]) {
      LessChain(s, i, j);
    }
  }

  lemma {:induction false} LessChain(s: seq<string>, i: int, j: int)
    requires forall i :: 0 <= i < |s| - 1 ==> Less(s[i], s[i + 1])
    requires 0 <= i < j < |s|
    ensures Less(s[i], s[j])
    decreases j - i
  {
    if j > i + 1 {
      LessChain(s, i + 1, j);
      LessTransitive(s[i], s[i + 1], s[j]);
    }
  }

  /** A common prefix does not change how two strings compare. */
  lemma {:induction false} LessAfterPrefix(prefix: string, a: string, b: string)
    requires Less(a, b)
    ensures Less(prefix + a, prefix + b)
    decreases |prefix|
  {
    if |prefix| > 0 {
      LessAfterPrefix(prefix[1..], a, b);
      var x, y := prefix + a, prefix + b;
      assert x[1..] == prefix[1..] + a;
      assert y[1..] == prefix[1..] + b;
      assert |x| > 0 && |y| > 0 && x[0] == y[0];
      assert Less(x[1..], y[1..]);
    } else {
      assert prefix + a == a && prefix + b == b;
    }
  }

  /** A strictly sorted sequence holding exactly the strings of `ks` is `SortedKeys(ks)`. */
  lemma SortedKeysOfSorted(ks: set<string>, o: seq<string>)
    requires StrictlySorted(o)
    requires forall k :: k in ks <==> k in o
    ensures SortedKeys(ks) == o
  {
    SortedKeysSorted(ks);
    StrictlySortedUnique(SortedKeys(ks), o);
  }
}
