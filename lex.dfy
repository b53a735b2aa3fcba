/**
 * Code-point order on strings, which is both Python's `<` on `str` and SQLite's BINARY collation
 * on UTF-8 text, and the sorting done with it (`sorted(...)`, `ORDER BY ... DESC`).
 */
module Lex {

  /** `a < b` on Python strings: lexicographic by code point, a proper prefix first. */
  predicate Less(a: string, b: string)
    decreases |a|
  {
    if a == [] then b != []
    else if b == [] then false
    else a[0] < b[0] || (a[0] == b[0] && Less(a[1..], b[1..]))
  }

  predicate LessEq(a: string, b: string) {
    a == b || Less(a, b)
  }

  lemma {:induction false} LessIrreflexive(a: string)
    ensures !Less(a, a)
    decreases |a|
  {
    if a != [] {
      LessIrreflexive(a[1..]);
    }
  }

  lemma {:induction false} LessTransitive(a: string, b: string, c: string)
    requires Less(a, b) && Less(b, c)
    ensures Less(a, c)
    decreases |a|
  {
    if a != [] && b != [] && c != [] && a[0] == b[0] == c[0] {
      LessTransitive(a[1..], b[1..], c[1..]);
    }
  }

  /** Any two different strings are ordered one way or the other, and never both. */
  lemma {:induction false} LessTotal(a: string, b: string)
    ensures a == b || Less(a, b) || Less(b, a)
    ensures !(Less(a, b) && Less(b, a))
    decreases |a|
  {
    if a != [] && b != [] && a[0] == b[0] {
      LessTotal(a[1..], b[1..]);
      if a[1..] == b[1..] {
        assert a == [a[0]] + a[1..] && b == [b[0]] + b[1..];
      }
    }
  }

  /** Comparing two strings cut at the same length: the first parts decide unless they are equal. */
  lemma {:induction false} LessConcat(a1: string, a2: string, b1: string, b2: string)
    requires |a1| == |b1|
    ensures Less(a1 + a2, b1 + b2) <==> Less(a1, b1) || (a1 == b1 && Less(a2, b2))
    decreases |a1|
  {
    if a1 == [] {
      assert a1 + a2 == a2 && b1 + b2 == b2;
    } else {
      assert (a1 + a2)[0] == a1[0] && (b1 + b2)[0] == b1[0];
      assert (a1 + a2)[1..] == a1[1..] + a2 && (b1 + b2)[1..] == b1[1..] + b2;
      LessConcat(a1[1..], a2, b1[1..], b2);
      if a1[0] == b1[0] && a1[1..] == b1[1..] {
        assert a1 == [a1[0]] + a1[1..] && b1 == [b1[0]] + b1[1..];
      }
    }
  }

  // ---------------------------------------------------------------------------
  // Sorting by a string key
  // ---------------------------------------------------------------------------

  /** `x` may come before `y`: ascending, or (when `desc`) descending, by `key`. */
  predicate InOrder<T>(x: T, y: T, key: T -> string, desc: bool) {
    if desc then LessEq(key(y), key(x)) else LessEq(key(x), key(y))
  }

  predicate SortedBy<T>(s: seq<T>, key: T -> string, desc: bool) {
    forall i, j :: 0 <= i < j < |s| ==> InOrder(s[i], s[j], key, desc)
  }

  lemma InOrderTotal<T>(x: T, y: T, key: T -> string, desc: bool)
    ensures InOrder(x, y, key, desc) || InOrder(y, x, key, desc)
  {
    LessTotal(key(x), key(y));
  }

  lemma InOrderTransitive<T>(x: T, y: T, z: T, key: T -> string, desc: bool)
    requires InOrder(x, y, key, desc) && InOrder(y, z, key, desc)
    ensures InOrder(x, z, key, desc)
  {
    if key(x) != key(y) && key(y) != key(z) {
      if desc {
        LessTransitive(key(z), key(y), key(x));
      } else {
        LessTransitive(key(x), key(y), key(z));
      }
    }
  }

  /** Whatever `h` may precede, it may precede in any rearrangement too. */
  lemma InOrderAll<T>(h: T, s: seq<T>, r: seq<T>, key: T -> string, desc: bool)
    requires forall j :: 0 <= j < |s| ==> InOrder(h, s[j], key, desc)
    requires multiset(r) == multiset(s)
    ensures forall k :: 0 <= k < |r| ==> InOrder(h, r[k], key, desc)
  {
    forall k | 0 <= k < |r| ensures InOrder(h, r[k], key, desc) {
      assert r[k] in multiset(r);
      var j :| 0 <= j < |s| && s[j] == r[k];
    }
  }

  /** An element that may precede every element of a sorted sequence may head it. */
  lemma ConsSorted<T>(h: T, s: seq<T>, key: T -> string, desc: bool)
    requires SortedBy(s, key, desc)
    requires forall k :: 0 <= k < |s| ==> InOrder(h, s[k], key, desc)
    ensures SortedBy([h] + s, key, desc)
  {
    var r := [h] + s;
    forall i, j | 0 <= i < j < |r|
      ensures InOrder(r[i], r[j], key, desc)
    {
      assert r[j] == s[j - 1];
      if i > 0 {
        assert r[i] == s[i - 1];
      }
    }
  }

  /** Inserts `x` before the first element it may precede. */
  function InsertBy<T>(x: T, s: seq<T>, key: T -> string, desc: bool): (r: seq<T>)
    requires SortedBy(s, key, desc)
    ensures multiset(r) == multiset(s) + multiset{x}
    ensures SortedBy(r, key, desc)
    decreases |s|
  {
    if s == [] then [x]
    else if InOrder(x, s[0], key, desc) then
      assert forall j :: 0 <= j < |s| ==> InOrder(x, s[j], key, desc) by {
        forall j | 0 < j < |s| ensures InOrder(x, s[j], key, desc) {
          InOrderTransitive(x, s[0], s[j], key, desc);
        }
      }
      ConsSorted(x, s, key, desc);
      [x] + s
    else
      var tail := s[1..];
      assert SortedBy(tail, key, desc) by {
        forall i, j | 0 <= i < j < |tail| ensures InOrder(tail[i], tail[j], key, desc) {
          assert tail[i] == s[i + 1] && tail[j] == s[j + 1];
        }
      }
      var rest := InsertBy(x, tail, key, desc);
      var more := tail + [x];
      assert forall j :: 0 <= j < |more| ==> InOrder(s[0], more[j], key, desc) by {
        InOrderTotal(x, s[0], key, desc);
        forall j | 0 <= j < |more| ensures InOrder(s[0], more[j], key, desc) {
          if j < |tail| {
            assert more[j] == s[j + 1];
          }
        }
      }
      assert multiset(rest) == multiset(more);
      InOrderAll(s[0], more, rest, key, desc);
      ConsSorted(s[0], rest, key, desc);
      assert s == [s[0]] + tail;
      [s[0]] + rest
  }

  /** Stable insertion sort by `key`: the same elements, in order. */
  function SortBy<T>(s: seq<T>, key: T -> string, desc: bool): (r: seq<T>)
    ensures multiset(r) == multiset(s)
    ensures SortedBy(r, key, desc)
    decreases |s|
  {
    if s == [] then []
    else
      assert s == [s[0]] + s[1..];
      InsertBy(s[0], SortBy(s[1..], key, desc), key, desc)
  }

  function Id(s: string): string {
    s
  }

  /** Python's `sorted(...)` on a list of strings. */
  function Sorted(s: seq<string>): (r: seq<string>)
    ensures multiset(r) == multiset(s)
    ensures forall i, j :: 0 <= i < j < |r| ==> LessEq(r[i], r[j])
  {
    var r := SortBy(s, Id, false);
    assert forall i, j :: 0 <= i < j < |r| ==> InOrder(r[i], r[j], Id, false);
    r
  }
}
