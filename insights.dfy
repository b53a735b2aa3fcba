/**
 * The insight table: an append-only SQLite table `insights(id, date, topic, question, answer,
 * tags)` with one insert and two read-only queries. The table is a sequence of rows in insertion
 * order; SQLite's `LIKE`, `ORDER BY ... DESC` and `DISTINCT` are spelled out on it.
 */
module Insights {
  import opened Wrappers
  import opened Text
  import opened Lex
  import opened Dates

  /** A stored insight. The `id` column is assigned by SQLite and read by no query here. */
  datatype Row = Row(date: string, topic: string, question: string, answer: string, tags: string)

  /** A row of `SELECT date, question, answer, tags`. */
  datatype Hit = Hit(date: string, question: string, answer: string, tags: string)

  /** The stored tags value: `",".join(tags or [])`. */
  function TagsText(tags: Option<seq<string>>): string {
    Join(",", if tags.Some? then tags.value else [])
  }

  /** A tag string split at commas and stored again is the string it came from. */
  lemma TagsRoundTrip(s: string)
    ensures TagsText(Some(Split(s, ','))) == s
  {
    JoinSplit(s, ',');
  }

  // ---------------------------------------------------------------------------
  // LIKE
  // ---------------------------------------------------------------------------

  /**
   * SQLite's `s LIKE p` without an ESCAPE clause: `%` matches any run of characters, `_` any one
   * character, and other characters match themselves with ASCII letters compared case-insensitively.
   */
  function Like(s: string, p: string): bool
    decreases |p|, |s|
  {
    if p == [] then s == []
    else if p[0] == '%' then Like(s, p[1..]) || (s != [] && Like(s[1..], p))
    else s != [] && (p[0] == '_' || LowerChar(p[0]) == LowerChar(s[0])) && Like(s[1..], p[1..])
  }

  predicate NoWildcards(t: string) {
    '%' !in t && '_' !in t
  }

  /** `t` occurs in `s` at position `i`, ignoring the case of ASCII letters. */
  predicate OccursAt(s: string, t: string, i: int) {
    0 <= i && i + |t| <= |s| && Lower(s[i..i + |t|]) == Lower(t)
  }

  lemma LowerCons(s: string)
    requires s != []
    ensures Lower(s) == [LowerChar(s[0])] + Lower(s[1..])
  {
  }

  lemma {:induction false} LikeAnything(s: string)
    ensures Like(s, "%")
    decreases |s|
  {
    assert "%"[1..] == [];
    if s != [] {
      LikeAnything(s[1..]);
    }
  }

  /** A pattern that starts with wildcard-free text matches exactly when `s` starts with that text. */
  lemma {:induction false} LikeLiteralPrefix(s: string, t: string, q: string)
    requires NoWildcards(t)
    ensures Like(s, t + q) <==> |t| <= |s| && Lower(s[..|t|]) == Lower(t) && Like(s[|t|..], q)
    decreases |t|
  {
    if t == [] {
      assert t + q == q && s[..0] == [] && s[0..] == s;
    } else {
      var p := t + q;
      assert p[0] == t[0] && p[1..] == t[1..] + q;
      assert t[0] in t;
      assert forall k :: 0 <= k < |t| - 1 ==> t[1..][k] == t[k + 1];
      if s != [] {
        LikeLiteralPrefix(s[1..], t[1..], q);
        LowerCons(t);
        if |t| <= |s| {
          var a := s[..|t|];
          LowerCons(a);
          assert a[0] == s[0] && a[1..] == s[1..][..|t| - 1];
          assert s[1..][|t| - 1..] == s[|t|..];
          assert Lower(a) == Lower(t) <==> LowerChar(a[0]) == LowerChar(t[0]) && Lower(a[1..]) == Lower(t[1..]) by {
            if Lower(a) == Lower(t) {
              assert Lower(a)[0] == Lower(t)[0] && Lower(a)[1..] == Lower(t)[1..];
            }
          }
        } else {
          assert !Like(s[1..], t[1..] + q);
        }
      }
    }
  }

  /** `s LIKE '%t%'` holds exactly when `t` occurs in `s` ignoring ASCII case, for wildcard-free `t`. */
  lemma {:induction false} LikeContains(s: string, t: string)
    requires NoWildcards(t)
    ensures Like(s, "%" + t + "%") <==> exists i :: OccursAt(s, t, i)
    decreases |s|
  {
    var u := t + "%";
    assert "%" + t + "%" == "%" + u;
    assert ("%" + u)[0] == '%' && ("%" + u)[1..] == u;
    LikeLiteralPrefix(s, t, "%");
    if |t| <= |s| {
      LikeAnything(s[|t|..]);
      assert s[0..|t|] == s[..|t|];
      if Lower(s[..|t|]) == Lower(t) {
        assert OccursAt(s, t, 0);
      }
    }
    if s == [] {
      if exists i :: OccursAt(s, t, i) {
        var i :| OccursAt(s, t, i);
        assert i == 0;
      }
    } else {
      LikeContains(s[1..], t);
      assert "%" + t + "%" == "%" + u;
      if exists i :: OccursAt(s, t, i) {
        var i :| OccursAt(s, t, i);
        if i > 0 {
          assert s[1..][i - 1..i - 1 + |t|] == s[i..i + |t|];
          assert OccursAt(s[1..], t, i - 1);
        }
      }
      if exists i :: OccursAt(s[1..], t, i) {
        var i :| OccursAt(s[1..], t, i);
        assert s[1..][i..i + |t|] == s[i + 1..i + 1 + |t|];
        assert OccursAt(s, t, i + 1);
      }
    }
  }

  /** The wildcards of `LIKE` stay active inside a searched topic: `a_c` finds `abc`. */
  lemma UnderscoreInTopicIsWildcard()
    ensures Like("abc", "%" + "a_c" + "%")
    ensures !exists i :: OccursAt("abc", "a_c", i)
  {
    var p := "%" + "a_c" + "%";
    assert p[1..] == "a_c%";
    assert Like("", "%");
    assert Like("abc", "a_c%");
    forall i: int ensures !OccursAt("abc", "a_c", i) {
      if i == 0 {
        assert "abc"[0..3] == "abc";
        assert Lower("abc")[1] == 'b' && Lower("a_c")[1] == '_';
      }
    }
  }

  // ---------------------------------------------------------------------------
  // Queries
  // ---------------------------------------------------------------------------

  function Project(r: Row): Hit {
    Hit(r.date, r.question, r.answer, r.tags)
  }

  function HitDate(h: Hit): string {
    h.date
  }

  /** The rows `WHERE topic LIKE '%topic%'` selects, as selected columns, in table order. */
  function Matching(rows: seq<Row>, topic: string): seq<Hit>
    decreases |rows|
  {
    if rows == [] then []
    else
      var last := rows[|rows| - 1];
      Matching(rows[..|rows| - 1], topic) + (if Like(last.topic, "%" + topic + "%") then [Project(last)] else [])
  }

  /** The insight store. */
  class InsightDB {
    var rows: seq<Row>

    /** `CREATE TABLE IF NOT EXISTS` on a new database file. */
    constructor()
      ensures rows == []
    {
      rows := [];
    }

    /** `add_insight`: one more row, never merged with an equal one, dated to the second. */
    method AddInsight(topic: string, question: string, answer: string, tags: Option<seq<string>>, now: Instant)
      requires ValidInstant(now)
      modifies this
      ensures rows == old(rows) + [Row(FormatDateTime(now), topic, question, answer, TagsText(tags))]
    {
      rows := rows + [Row(FormatDateTime(now), topic, question, answer, TagsText(tags))];
    }

    /**
     * `query_by_topic`: the selected columns of exactly the rows whose topic is `LIKE '%topic%'`,
     * newest date first (rows with equal dates may come in any order).
     */
    method QueryByTopic(topic: string) returns (hits: seq<Hit>)
      ensures multiset(hits) == multiset(Matching(rows, topic))
      ensures SortedBy(hits, HitDate, true)
    {
      var found: seq<Hit> := [];
      var i := 0;
      while i < |rows|
        invariant 0 <= i <= |rows|
        invariant found == Matching(rows[..i], topic)
      {
        assert rows[..i + 1][..i] == rows[..i];
        if Like(rows[i].topic, "%" + topic + "%") {
          found := found + [Project(rows[i])];
        }
        i := i + 1;
      }
      assert rows[..|rows|] == rows;
      hits := SortBy(found, HitDate, true);
    }

    /** `list_topics`: every topic in the table, each once, and nothing else. */
    method ListTopics() returns (topics: seq<string>)
      ensures forall a, b :: 0 <= a < b < |topics| ==> topics[a] != topics[b]
      ensures forall t :: t in topics <==> exists j :: 0 <= j < |rows| && rows[j].topic == t
    {
      topics := [];
      var i := 0;
      while i < |rows|
        invariant 0 <= i <= |rows|
        invariant forall a, b :: 0 <= a < b < |topics| ==> topics[a] != topics[b]
        invariant forall t :: t in topics <==> exists j :: 0 <= j < i && rows[j].topic == t
      {
        if rows[i].topic !in topics {
          topics := topics + [rows[i].topic];
        }
        i := i + 1;
      }
    }
  }

  /** A hit comes from a row of the table whose topic matches. */
  lemma {:induction false} MatchingFromRows(rows: seq<Row>, topic: string, h: Hit)
    requires h in Matching(rows, topic)
    ensures exists j :: 0 <= j < |rows| && Project(rows[j]) == h && Like(rows[j].topic, "%" + topic + "%")
    decreases |rows|
  {
    var init := rows[..|rows| - 1];
    if h in Matching(init, topic) {
      MatchingFromRows(init, topic, h);
      var j :| 0 <= j < |init| && Project(init[j]) == h && Like(init[j].topic, "%" + topic + "%");
      assert init[j] == rows[j];
    } else {
      assert Project(rows[|rows| - 1]) == h;
    }
  }

  /** Every matching row is returned. */
  lemma {:induction false} MatchingHasRows(rows: seq<Row>, topic: string, j: int)
    requires 0 <= j < |rows| && Like(rows[j].topic, "%" + topic + "%")
    ensures Project(rows[j]) in Matching(rows, topic)
    decreases |rows|
  {
    if j < |rows| - 1 {
      MatchingHasRows(rows[..|rows| - 1], topic, j);
    }
  }

  /** Query results are newest first: a later position never holds a later stored time. */
  lemma NewestFirst(hits: seq<Hit>, i: int, j: int, a: Instant, b: Instant)
    requires SortedBy(hits, HitDate, true) && 0 <= i < j < |hits|
    requires ValidInstant(a) && ValidInstant(b)
    requires hits[i].date == FormatDateTime(a) && hits[j].date == FormatDateTime(b)
    ensures !SecondBefore(a, b)
  {
    assert InOrder(hits[i], hits[j], HitDate, true);
    DateTimeOrder(a, b);
    LessTotal(FormatDateTime(a), FormatDateTime(b));
  }
}
