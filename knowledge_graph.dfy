/**
 * The word-adjacency knowledge graph: every note file (`.md` or `.txt`) is scanned with the pattern
 * `\b[A-Za-z]{5,}\b`, and each pair of consecutive words found in one file becomes an undirected
 * edge between their lower-cased forms, as `networkx.Graph.add_edge` records it.
 */
module KnowledgeGraph {
  import opened Wrappers
  import opened Text
  import opened Files

  const DefaultNotesDir := "./data/notes"

  // ---------------------------------------------------------------------------
  // The pattern \b[A-Za-z]{5,}\b
  // ---------------------------------------------------------------------------

  /**
   * Python's `\w` on a string pattern: a character for which `str.isalnum()` holds, or `_`. Here
   * spelled out for ASCII, Latin-1 and Latin Extended-A; later code points count as non-word.
   */
  predicate IsWordChar(c: char) {
    IsAsciiLetter(c) || IsAsciiDigit(c) || c == '_'
    || c == 'ª' || c == '²' || c == '³' || c == 'µ' || c == '¹' || c == 'º'
    || ('¼' <= c <= '¾')
    || ('À' <= c <= 'ÿ' && c != '×' && c != '÷')
    || ('Ā' <= c <= 'ſ')
  }

  /** `\b` at position `k`: exactly one of the characters around it is a word character. */
  predicate Boundary(s: string, k: int)
    requires 0 <= k <= |s|
  {
    (k > 0 && IsWordChar(s[k - 1])) != (k < |s| && IsWordChar(s[k]))
  }

  /** The end of the run of ASCII letters that starts at `i`. */
  function LetterRunEnd(s: string, i: nat): (j: nat)
    requires i <= |s|
    ensures i <= j <= |s|
    ensures j == |s| || !IsAsciiLetter(s[j])
    decreases |s| - i
  {
    if i < |s| && IsAsciiLetter(s[i]) then LetterRunEnd(s, i + 1) else i
  }

  lemma {:induction false} LetterRunLetters(s: string, i: nat, k: nat)
    requires i <= |s| && i <= k < LetterRunEnd(s, i)
    ensures IsAsciiLetter(s[k])
    decreases |s| - i
  {
    if k > i {
      LetterRunLetters(s, i + 1, k);
    }
  }

  /** The backtracking of the greedy `{5,}`: ends `j`, `j - 1`, ... down to `i + 5`, the first with `\b`. */
  function BacktrackEnd(s: string, i: nat, j: nat): (r: Option<nat>)
    requires i <= j <= |s|
    ensures r.Some? ==> i + 5 <= r.value <= j
    decreases j
  {
    if j < i + 5 then None
    else if Boundary(s, j) then Some(j)
    else BacktrackEnd(s, i, j - 1)
  }

  /** The end of the match that starts at `i`, if the pattern matches there. */
  function MatchAt(s: string, i: nat): (r: Option<nat>)
    requires i <= |s|
    ensures r.Some? ==> i + 5 <= r.value <= |s|
  {
    if Boundary(s, i) then BacktrackEnd(s, i, LetterRunEnd(s, i)) else None
  }

  /** `re.findall` from position `i`: leftmost matches, each search resuming where the last match ended. */
  function FindAll(s: string, i: nat): seq<string>
    requires i <= |s|
    decreases |s| - i
  {
    if i == |s| then []
    else match MatchAt(s, i)
      case Some(j) => [s[i..j]] + FindAll(s, j)
      case None => FindAll(s, i + 1)
  }

  function Words(text: string): seq<string> {
    FindAll(text, 0)
  }

  /** Five or more ASCII letters. */
  predicate IsToken(w: string) {
    |w| >= 5 && forall k :: 0 <= k < |w| ==> IsAsciiLetter(w[k])
  }

  /** Backtracking never stops inside a run of letters: each shorter end lies between two letters. */
  lemma {:induction false} BacktrackInsideRun(s: string, i: nat, j: nat)
    requires i <= |s| && i <= j < LetterRunEnd(s, i)
    ensures BacktrackEnd(s, i, j) == None
    decreases j
  {
    if j >= i + 5 {
      LetterRunLetters(s, i, j);
      LetterRunLetters(s, i, j - 1);
      BacktrackInsideRun(s, i, j - 1);
    }
  }

  /**
   * A match is a whole run of word characters made of ASCII letters only: it starts after a
   * non-word character (or at the start), ends before one (or at the end) and has five letters or more.
   */
  lemma MatchIsWholeRun(s: string, i: nat)
    requires i <= |s| && MatchAt(s, i).Some?
    ensures var j := MatchAt(s, i).value;
      j == LetterRunEnd(s, i) && IsToken(s[i..j])
      && (i == 0 || !IsWordChar(s[i - 1])) && (j == |s| || !IsWordChar(s[j]))
  {
    var e := LetterRunEnd(s, i);
    assert BacktrackEnd(s, i, e).Some?;
    assert Boundary(s, e) by {
      if !Boundary(s, e) {
        assert BacktrackEnd(s, i, e) == BacktrackEnd(s, i, e - 1);
        BacktrackInsideRun(s, i, e - 1);
        assert false;
      }
    }
    var j := MatchAt(s, i).value;
    assert j == e;
    forall k | 0 <= k < j - i
      ensures IsAsciiLetter(s[i..j][k])
    {
      LetterRunLetters(s, i, i + k);
    }
    LetterRunLetters(s, i, i);
  }

  /** Conversely, such a run is matched at its start. */
  lemma RunIsMatched(s: string, i: nat)
    requires i <= |s| && i + 5 <= LetterRunEnd(s, i)
    requires i == 0 || !IsWordChar(s[i - 1])
    requires LetterRunEnd(s, i) == |s| || !IsWordChar(s[LetterRunEnd(s, i)])
    ensures MatchAt(s, i) == Some(LetterRunEnd(s, i))
  {
    var e := LetterRunEnd(s, i);
    LetterRunLetters(s, i, i);
    LetterRunLetters(s, i, e - 1);
  }

  /** A run of letters followed by a digit, `_` or another word character is not matched at all. */
  lemma AttachedRunIgnored(s: string, i: nat)
    requires i <= |s| && LetterRunEnd(s, i) < |s| && IsWordChar(s[LetterRunEnd(s, i)])
    ensures MatchAt(s, i) == None
  {
    if MatchAt(s, i).Some? {
      MatchIsWholeRun(s, i);
    }
  }

  /** Every word found is five or more ASCII letters. */
  lemma {:induction false} FindAllTokens(s: string, i: nat, w: string)
    requires i <= |s| && w in FindAll(s, i)
    ensures IsToken(w)
    decreases |s| - i
  {
    if i < |s| {
      match MatchAt(s, i)
      case Some(j) =>
        if w == s[i..j] {
          MatchIsWholeRun(s, i);
        } else {
          FindAllTokens(s, j, w);
        }
      case None =>
        FindAllTokens(s, i + 1, w);
    }
  }

  /** No match starts strictly inside another: the characters on both sides are letters, so there is no `\b`. */
  lemma InsideMatchNone(s: string, i: nat, k: nat)
    requires i <= |s| && MatchAt(s, i).Some? && i < k < MatchAt(s, i).value
    ensures MatchAt(s, k) == None
  {
    MatchIsWholeRun(s, i);
    LetterRunLetters(s, i, k - 1);
    LetterRunLetters(s, i, k);
  }

  /** Every match at or after `i` is found by the scan from `i`. */
  lemma {:induction false} FindAllComplete(s: string, i: nat, k: nat)
    requires i <= k <= |s| && MatchAt(s, k).Some?
    ensures s[k..MatchAt(s, k).value] in FindAll(s, i)
    decreases |s| - i
  {
    if i < k {
      match MatchAt(s, i)
      case Some(j) =>
        if j <= k {
          FindAllComplete(s, j, k);
        } else {
          InsideMatchNone(s, i, k);
        }
      case None =>
        FindAllComplete(s, i + 1, k);
    }
  }

  /** Every word found from `i` is the match at some position at or after `i`. */
  lemma {:induction false} FindAllSound(s: string, i: nat, w: string)
    requires i <= |s| && w in FindAll(s, i)
    ensures exists k :: i <= k <= |s| && MatchAt(s, k).Some? && w == s[k..MatchAt(s, k).value]
    decreases |s| - i
  {
    if i < |s| {
      match MatchAt(s, i)
      case Some(j) =>
        if w != s[i..j] {
          FindAllSound(s, j, w);
        }
      case None =>
        FindAllSound(s, i + 1, w);
    }
  }

  /**
   * A free-standing run at `k`: five or more ASCII letters, with no word character just before
   * or just after it.
   */
  predicate FreeRun(s: string, k: nat)
    requires k <= |s|
  {
    var e := LetterRunEnd(s, k);
    k + 5 <= e && (k == 0 || !IsWordChar(s[k - 1])) && (e == |s| || !IsWordChar(s[e]))
  }

  /**
   * The tokens of a text are exactly its free-standing runs of five or more letters: shorter runs
   * and runs attached to digits, `_` or other word characters are never found.
   */
  lemma WordsAreFreeRuns(s: string, w: string)
    ensures w in Words(s) <==> exists k :: 0 <= k <= |s| && FreeRun(s, k) && w == s[k..LetterRunEnd(s, k)]
  {
    if w in Words(s) {
      FindAllSound(s, 0, w);
      var k :| 0 <= k <= |s| && MatchAt(s, k).Some? && w == s[k..MatchAt(s, k).value];
      MatchIsWholeRun(s, k);
      assert FreeRun(s, k);
    }
    if exists k :: 0 <= k <= |s| && FreeRun(s, k) && w == s[k..LetterRunEnd(s, k)] {
      var k :| 0 <= k <= |s| && FreeRun(s, k) && w == s[k..LetterRunEnd(s, k)];
      RunIsMatched(s, k);
      FindAllComplete(s, 0, k);
    }
  }

  // ---------------------------------------------------------------------------
  // The graph
  // ---------------------------------------------------------------------------

  /** A `networkx.Graph`'s adjacency: each node with its neighbours in the order first linked. */
  type Adjacency = map<string, seq<string>>

  predicate Edge(adj: Adjacency, x: string, y: string) {
    x in adj && y in adj[x]
  }

  /** `add_edge(u, v)`: each node added if new, each recorded as the other's neighbour unless it already is. */
  function Linked(adj: Adjacency, u: string, v: string): Adjacency {
    var a1 := if u in adj then adj else adj[u := []];
    var a2 := if v in a1 then a1 else a1[v := []];
    var a3 := if v in a2[u] then a2 else a2[u := a2[u] + [v]];
    if u in a3[v] then a3 else a3[v := a3[v] + [u]]
  }

  /** Linking adds the edge in both directions and nothing else. */
  lemma LinkedEdge(adj: Adjacency, u: string, v: string, x: string, y: string)
    ensures Edge(Linked(adj, u, v), x, y) <==> Edge(adj, x, y) || (x == u && y == v) || (x == v && y == u)
    ensures x in Linked(adj, u, v) <==> x in adj || x == u || x == v
  {
  }

  /** No neighbour is listed twice. */
  predicate DistinctNeighbours(adj: Adjacency) {
    forall x :: x in adj ==> forall a, b :: 0 <= a < b < |adj[x]| ==> adj[x][a] != adj[x][b]
  }

  lemma LinkedDistinct(adj: Adjacency, u: string, v: string)
    requires DistinctNeighbours(adj)
    ensures DistinctNeighbours(Linked(adj, u, v))
  {
  }

  /** The consecutive words at `i` and `i + 1`, lower-cased, are `x` and `y`. */
  predicate PairAt(words: seq<string>, i: int, x: string, y: string) {
    0 <= i < |words| - 1 && Lower(words[i]) == x && Lower(words[i + 1]) == y
  }

  predicate PairIn(words: seq<string>, x: string, y: string) {
    exists i :: 0 <= i < |words| - 1 && PairAt(words, i, x, y)
  }

  /** The inner loop of `build`: one `add_edge` per consecutive pair of words, lower-cased. */
  function AddPairs(adj: Adjacency, words: seq<string>): Adjacency
    decreases |words|
  {
    if |words| < 2 then adj
    else
      var n := |words| - 1;
      Linked(AddPairs(adj, words[..n]), Lower(words[n - 1]), Lower(words[n]))
  }

  lemma PairInSnoc(words: seq<string>, x: string, y: string)
    requires |words| >= 2
    ensures var n := |words| - 1;
      PairIn(words, x, y) <==> PairIn(words[..n], x, y) || (Lower(words[n - 1]) == x && Lower(words[n]) == y)
  {
    var n := |words| - 1;
    if PairIn(words, x, y) {
      var i :| 0 <= i < |words| - 1 && PairAt(words, i, x, y);
      if i < n - 1 {
        assert words[..n][i] == words[i] && words[..n][i + 1] == words[i + 1];
        assert PairAt(words[..n], i, x, y);
      }
    }
    if PairIn(words[..n], x, y) {
      var i :| 0 <= i < n - 1 && PairAt(words[..n], i, x, y);
      assert words[..n][i] == words[i] && words[..n][i + 1] == words[i + 1];
      assert PairAt(words, i, x, y);
    }
    if Lower(words[n - 1]) == x && Lower(words[n]) == y {
      assert PairAt(words, n - 1, x, y);
    }
  }

  /** The edges after one file are the earlier ones and its consecutive pairs, in either direction. */
  lemma {:induction false} AddPairsEdge(adj: Adjacency, words: seq<string>, x: string, y: string)
    ensures Edge(AddPairs(adj, words), x, y) <==> Edge(adj, x, y) || PairIn(words, x, y) || PairIn(words, y, x)
    decreases |words|
  {
    if |words| < 2 {
      assert !PairIn(words, x, y) && !PairIn(words, y, x);
    } else {
      var n := |words| - 1;
      AddPairsEdge(adj, words[..n], x, y);
      LinkedEdge(AddPairs(adj, words[..n]), Lower(words[n - 1]), Lower(words[n]), x, y);
      PairInSnoc(words, x, y);
      PairInSnoc(words, y, x);
    }
  }

  /** Some word of a file with at least two words lower-cases to `x`. */
  predicate WordOf(words: seq<string>, x: string) {
    |words| >= 2 && exists i :: 0 <= i < |words| && Lower(words[i]) == x
  }

  /** The nodes after one file are the earlier ones and its words, if it has two or more. */
  lemma {:induction false} AddPairsNode(adj: Adjacency, words: seq<string>, x: string)
    ensures x in AddPairs(adj, words) <==> x in adj || WordOf(words, x)
    decreases |words|
  {
    if |words| >= 2 {
      var n := |words| - 1;
      AddPairsNode(adj, words[..n], x);
      LinkedEdge(AddPairs(adj, words[..n]), Lower(words[n - 1]), Lower(words[n]), x, x);
      if WordOf(words, x) {
        var i :| 0 <= i < |words| && Lower(words[i]) == x;
        if i < n && n >= 2 {
          assert Lower(words[..n][i]) == x;
        }
      }
      if WordOf(words[..n], x) {
        var i :| 0 <= i < n && Lower(words[..n][i]) == x;
        assert Lower(words[i]) == x;
      }
    }
  }

  lemma {:induction false} AddPairsDistinct(adj: Adjacency, words: seq<string>)
    requires DistinctNeighbours(adj)
    ensures DistinctNeighbours(AddPairs(adj, words))
    decreases |words|
  {
    if |words| >= 2 {
      var n := |words| - 1;
      AddPairsDistinct(adj, words[..n]);
      LinkedDistinct(AddPairs(adj, words[..n]), Lower(words[n - 1]), Lower(words[n]));
    }
  }

  // ---------------------------------------------------------------------------
  // Building from the notes directory
  // ---------------------------------------------------------------------------

  /** `file.endswith((".md", ".txt"))`. */
  predicate IsNoteName(name: string) {
    EndsWith(name, ".md") || EndsWith(name, ".txt")
  }

  /** Every listed note name is a readable file. */
  predicate NotesPresent(m: map<string, string>, dir: string, names: seq<string>) {
    forall k :: 0 <= k < |names| && IsNoteName(names[k]) ==> PathJoin(dir, names[k]) in m
  }

  /** The words of a note; a missing file is excluded by `NotesPresent` wherever this is used. */
  function FileWords(m: map<string, string>, dir: string, name: string): seq<string> {
    var p := PathJoin(dir, name);
    if p in m then Words(ReadText(m, p)) else []
  }

  /** The outer loop of `build`, over the names `os.listdir` returned, in that order. */
  function Built(adj: Adjacency, m: map<string, string>, dir: string, names: seq<string>): Adjacency
    decreases |names|
  {
    if names == [] then adj
    else
      var n := |names| - 1;
      var prev := Built(adj, m, dir, names[..n]);
      if IsNoteName(names[n]) then AddPairs(prev, FileWords(m, dir, names[n])) else prev
  }

  /** `x` and `y` are consecutive words, in either order, of the note `name`. */
  predicate FilePair(m: map<string, string>, dir: string, name: string, x: string, y: string) {
    IsNoteName(name) && (PairIn(FileWords(m, dir, name), x, y) || PairIn(FileWords(m, dir, name), y, x))
  }

  /** Some note among `names` has `x` and `y` as consecutive words. */
  predicate SomeFilePair(m: map<string, string>, dir: string, names: seq<string>, x: string, y: string) {
    exists k :: 0 <= k < |names| && FilePair(m, dir, names[k], x, y)
  }

  lemma SomeFilePairSnoc(m: map<string, string>, dir: string, names: seq<string>, x: string, y: string)
    requires names != []
    ensures var n := |names| - 1;
      SomeFilePair(m, dir, names, x, y) <==> SomeFilePair(m, dir, names[..n], x, y) || FilePair(m, dir, names[n], x, y)
  {
    AnySnoc(names, name => FilePair(m, dir, name, x, y));
  }

  /** Some element of a non-empty sequence satisfies `P` exactly when one before the last does, or the last does. */
  lemma AnySnoc(names: seq<string>, P: string -> bool)
    requires names != []
    ensures var n := |names| - 1;
      (exists k :: 0 <= k < |names| && P(names[k]))
      <==> (exists k :: 0 <= k < |names[..n]| && P(names[..n][k])) || P(names[n])
  {
    var n := |names| - 1;
    if exists k :: 0 <= k < |names| && P(names[k]) {
      var k :| 0 <= k < |names| && P(names[k]);
      if k < n {
        assert names[..n][k] == names[k];
      }
    }
    if exists k :: 0 <= k < |names[..n]| && P(names[..n][k]) {
      var k :| 0 <= k < n && P(names[..n][k]);
      assert names[k] == names[..n][k];
    }
  }

  /**
   * Edges come only from consecutive words within one note file, never across files, and every
   * such pair is an edge.
   */
  lemma {:induction false} BuiltEdge(adj: Adjacency, m: map<string, string>, dir: string, names: seq<string>,
                                     x: string, y: string)
    ensures Edge(Built(adj, m, dir, names), x, y) <==> Edge(adj, x, y) || SomeFilePair(m, dir, names, x, y)
    decreases |names|
  {
    if names != [] {
      var n := |names| - 1;
      var init := names[..n];
      BuiltEdge(adj, m, dir, init, x, y);
      if IsNoteName(names[n]) {
        AddPairsEdge(Built(adj, m, dir, init), FileWords(m, dir, names[n]), x, y);
      }
      SomeFilePairSnoc(m, dir, names, x, y);
    }
  }

  /** `x` is a word of the note `name`, which has at least two words. */
  predicate FileWord(m: map<string, string>, dir: string, name: string, x: string) {
    IsNoteName(name) && WordOf(FileWords(m, dir, name), x)
  }

  /** Some note among `names` with two or more words has `x` as a word. */
  predicate SomeFileWord(m: map<string, string>, dir: string, names: seq<string>, x: string) {
    exists k :: 0 <= k < |names| && FileWord(m, dir, names[k], x)
  }

  lemma SomeFileWordSnoc(m: map<string, string>, dir: string, names: seq<string>, x: string)
    requires names != []
    ensures var n := |names| - 1;
      SomeFileWord(m, dir, names, x) <==> SomeFileWord(m, dir, names[..n], x) || FileWord(m, dir, names[n], x)
  {
    AnySnoc(names, name => FileWord(m, dir, name, x));
  }

  /** Nodes are the words of the notes with two or more words; a note with fewer adds nothing. */
  lemma {:induction false} BuiltNode(adj: Adjacency, m: map<string, string>, dir: string, names: seq<string>, x: string)
    ensures x in Built(adj, m, dir, names) <==> x in adj || SomeFileWord(m, dir, names, x)
    decreases |names|
  {
    if names != [] {
      var n := |names| - 1;
      var init := names[..n];
      BuiltNode(adj, m, dir, init, x);
      if IsNoteName(names[n]) {
        AddPairsNode(Built(adj, m, dir, init), FileWords(m, dir, names[n]), x);
      }
      SomeFileWordSnoc(m, dir, names, x);
    }
  }

  lemma {:induction false} BuiltDistinct(adj: Adjacency, m: map<string, string>, dir: string, names: seq<string>)
    requires DistinctNeighbours(adj)
    ensures DistinctNeighbours(Built(adj, m, dir, names))
    decreases |names|
  {
    if names != [] {
      var n := |names| - 1;
      BuiltDistinct(adj, m, dir, names[..n]);
      if IsNoteName(names[n]) {
        AddPairsDistinct(Built(adj, m, dir, names[..n]), FileWords(m, dir, names[n]));
      }
    }
  }

  /** A listed name that is not a note, or a note with fewer than two words, leaves the graph as it was. */
  lemma IgnoredFile(adj: Adjacency, m: map<string, string>, dir: string, names: seq<string>, name: string)
    requires !IsNoteName(name) || |FileWords(m, dir, name)| < 2
    ensures Built(adj, m, dir, names + [name]) == Built(adj, m, dir, names)
  {
    assert (names + [name])[..|names|] == names;
  }

  /** Edges in both directions. */
  ghost predicate Symmetric(adj: Adjacency) {
    forall x, y :: Edge(adj, x, y) ==> Edge(adj, y, x)
  }

  /** Building keeps the graph undirected. */
  lemma BuiltSymmetric(adj: Adjacency, m: map<string, string>, dir: string, names: seq<string>)
    requires Symmetric(adj)
    ensures Symmetric(Built(adj, m, dir, names))
  {
    forall x, y | Edge(Built(adj, m, dir, names), x, y)
      ensures Edge(Built(adj, m, dir, names), y, x)
    {
      BuiltEdge(adj, m, dir, names, x, y);
      BuiltEdge(adj, m, dir, names, y, x);
      if !Edge(adj, x, y) {
        var k :| 0 <= k < |names| && FilePair(m, dir, names[k], x, y);
        assert FilePair(m, dir, names[k], y, x);
      }
    }
  }

  /** A node name: five or more lower-case ASCII letters. */
  predicate IsNodeName(x: string) {
    |x| >= 5 && forall k :: 0 <= k < |x| ==> IsAsciiLower(x[k])
  }

  lemma LowerToken(w: string)
    requires IsToken(w)
    ensures IsNodeName(Lower(w)) && Lower(Lower(w)) == Lower(w)
  {
    assert forall k :: 0 <= k < |w| ==> IsAsciiLetter(w[k]);
  }

  /** Every node of a graph built from scratch is a lower-case word of at least five letters. */
  lemma BuiltNodeName(m: map<string, string>, dir: string, names: seq<string>, x: string)
    requires x in Built(map[], m, dir, names)
    ensures IsNodeName(x) && Lower(x) == x
  {
    BuiltNode(map[], m, dir, names, x);
    var k :| 0 <= k < |names| && FileWord(m, dir, names[k], x);
    var words := FileWords(m, dir, names[k]);
    var i :| 0 <= i < |words| && Lower(words[i]) == x;
    var p := PathJoin(dir, names[k]);
    assert p in m;
    assert words[i] in FindAll(ReadText(m, p), 0);
    FindAllTokens(ReadText(m, p), 0, words[i]);
    LowerToken(words[i]);
  }

  /** Every node of a graph built from scratch has a neighbour: nodes exist only as edge endpoints. */
  lemma BuiltNodeLinked(m: map<string, string>, dir: string, names: seq<string>, x: string)
    requires x in Built(map[], m, dir, names)
    ensures |Built(map[], m, dir, names)[x]| > 0
  {
    var g := Built(map[], m, dir, names);
    BuiltNode(map[], m, dir, names, x);
    var k :| 0 <= k < |names| && FileWord(m, dir, names[k], x);
    var words := FileWords(m, dir, names[k]);
    var i :| 0 <= i < |words| && Lower(words[i]) == x;
    var j := if i + 1 < |words| then i + 1 else i - 1;
    var y := Lower(words[j]);
    if j == i + 1 {
      assert PairAt(words, i, x, y);
    } else {
      assert PairAt(words, j, y, x);
    }
    assert FilePair(m, dir, names[k], x, y);
    BuiltEdge(map[], m, dir, names, x, y);
  }

  /** Two equal consecutive words in a note make that word its own neighbour. */
  lemma RepeatedWordSelfLoop(m: map<string, string>, dir: string, names: seq<string>, k: int, i: int)
    requires 0 <= k < |names| && IsNoteName(names[k])
    requires 0 <= i < |FileWords(m, dir, names[k])| - 1
    requires FileWords(m, dir, names[k])[i] == FileWords(m, dir, names[k])[i + 1]
    ensures var w := Lower(FileWords(m, dir, names[k])[i]);
      Edge(Built(map[], m, dir, names), w, w)
  {
    var w := Lower(FileWords(m, dir, names[k])[i]);
    assert PairAt(FileWords(m, dir, names[k]), i, w, w);
    assert FilePair(m, dir, names[k], w, w);
    BuiltEdge(map[], m, dir, names, w, w);
  }

  // ---------------------------------------------------------------------------
  // related
  // ---------------------------------------------------------------------------

  /** `related(concept)`: the neighbours of the lower-cased concept, or none for an unknown one. */
  function Neighbours(adj: Adjacency, concept: string): seq<string> {
    var c := Lower(concept);
    if c in adj then adj[c] else []
  }

  /** Lookup ignores ASCII case. */
  lemma NeighboursIgnoreCase(adj: Adjacency, concept: string)
    ensures Neighbours(adj, concept) == Neighbours(adj, Lower(concept))
    ensures forall y :: y in Neighbours(adj, concept) <==> Edge(adj, Lower(concept), y)
  {
    var c := Lower(concept);
    assert Lower(c) == c;
  }

  /**
   * In a graph built from scratch, `b` is related to `a` exactly when `b` is a node name (already
   * lower case) and `a`, lower-cased, is related to `b`.
   */
  lemma RelatedSymmetric(m: map<string, string>, dir: string, names: seq<string>, a: string, b: string)
    ensures var g := Built(map[], m, dir, names);
      b in Neighbours(g, a) <==> Lower(b) == b && Lower(a) in Neighbours(g, b)
  {
    var g := Built(map[], m, dir, names);
    BuiltSymmetric(map[], m, dir, names);
    LowerIdempotent(a);
    if b in Neighbours(g, a) {
      assert Edge(g, Lower(a), b);
      assert Edge(g, b, Lower(a));
      BuiltNodeName(m, dir, names, b);
    }
    if Lower(b) == b && Lower(a) in Neighbours(g, b) {
      assert Edge(g, b, Lower(a));
      assert Edge(g, Lower(a), b);
    }
  }

  lemma LowerIdempotent(s: string)
    ensures Lower(Lower(s)) == Lower(s)
  {
  }

  // ---------------------------------------------------------------------------
  // The class
  // ---------------------------------------------------------------------------

  class KnowledgeGraph {
    const notesDir: string
    const fs: FileSystem
    var graph: Adjacency

    /** `KnowledgeGraph(notes_dir)`: an empty `networkx.Graph`. */
    constructor(notesDir: string, fs: FileSystem)
      ensures this.notesDir == notesDir && this.fs == fs && graph == map[]
    {
      this.notesDir := notesDir;
      this.fs := fs;
      graph := map[];
    }

    /** `self.graph.add_edge(u, v)`. */
    method AddEdge(u: string, v: string)
      modifies this
      ensures graph == Linked(old(graph), u, v)
    {
      if u !in graph {
        graph := graph[u := []];
      }
      if v !in graph {
        graph := graph[v := []];
      }
      if v !in graph[u] {
        graph := graph[u := graph[u] + [v]];
      }
      if u !in graph[v] {
        graph := graph[v := graph[v] + [u]];
      }
    }

    /** The pair loop over one file's words. */
    method AddWordPairs(words: seq<string>)
      modifies this
      ensures graph == AddPairs(old(graph), words)
    {
      var i := 0;
      while i < |words| - 1
        invariant 0 <= i <= if |words| == 0 then 0 else |words| - 1
        invariant graph == AddPairs(old(graph), words[..if |words| == 0 then 0 else i + 1])
      {
        assert words[..i + 2][..i + 1] == words[..i + 1];
        AddEdge(Lower(words[i]), Lower(words[i + 1]));
        i := i + 1;
      }
      assert words[..if |words| == 0 then 0 else i + 1] == words;
    }

    /** `build()`, over the names the directory listing returned. */
    method Build(listing: seq<string>)
      requires NotesPresent(fs.files, notesDir, listing)
      modifies this
      ensures graph == Built(old(graph), fs.files, notesDir, listing)
    {
      var k := 0;
      while k < |listing|
        invariant 0 <= k <= |listing|
        invariant graph == Built(old(graph), fs.files, notesDir, listing[..k])
      {
        assert listing[..k + 1][..k] == listing[..k];
        if IsNoteName(listing[k]) {
          var text := ReadText(fs.files, PathJoin(notesDir, listing[k]));
          AddWordPairs(Words(text));
        }
        k := k + 1;
      }
      assert listing[..|listing|] == listing;
    }

    /** `related(concept)`. */
    method Related(concept: string) returns (r: seq<string>)
      ensures r == Neighbours(graph, concept)
    {
      var c := Lower(concept);
      if c in graph {
        r := graph[c];
      } else {
        r := [];
      }
    }
  }
}
