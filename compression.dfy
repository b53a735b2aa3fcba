/**
 * Compression of old reflections: the reflection files dated before a cutoff are summarised by the
 * language model into one `compressed_<date>.md` file, the summary is stored as an insight, and
 * each summarised file is archived by rewriting `reflections/` to `reflections/archived_` in its path.
 */
module Compression {
  import opened Wrappers
  import opened Text
  import opened Dates
  import opened Files
  import opened Prompts
  import opened Insights

  const DefaultCompressedDir := "./data/compressed"

  // ---------------------------------------------------------------------------
  // The date key of a file name
  // ---------------------------------------------------------------------------

  /** `file.split("_")[-1].split(".")[0]`: the text after the last `_`, up to the next `.`. */
  function DateKey(path: string): string {
    var pieces := Split(path, '_');
    Split(pieces[|pieces| - 1], '.')[0]
  }

  lemma FormatDateShape(d: Date)
    requires ValidDate(d)
    ensures '_' !in FormatDate(d) && '.' !in FormatDate(d) && '/' !in FormatDate(d)
  {
    var s := FormatDate(d);
    assert forall k :: 0 <= k < |s| ==> IsAsciiDigit(s[k]) || s[k] == '-';
  }

  /** The reflection file of a date yields that date as its key, whatever the directory. */
  lemma DateKeyOfReflection(dir: string, d: Date)
    requires ValidDate(d)
    ensures DateKey(PathJoin(dir, "reflection_" + FormatDate(d) + ".md")) == FormatDate(d)
    ensures ParseDate(DateKey(PathJoin(dir, "reflection_" + FormatDate(d) + ".md"))) == Some(d)
  {
    var f := FormatDate(d);
    var b := f + ".md";
    var a := DirPrefix(dir) + "reflection";
    FormatDateShape(d);
    assert PathJoin(dir, "reflection_" + f + ".md") == a + ['_'] + b;
    SplitAround(a, b, '_');
    assert '_' !in b;
    SplitNone(b, '_');
    assert b == f + ['.'] + "md";
    SplitAround(f, "md", '.');
    SplitNone(f, '.');
    ParseFormatDate(d);
  }

  // ---------------------------------------------------------------------------
  // The cutoff
  // ---------------------------------------------------------------------------

  const DayMicros := 86400000000

  /**
   * The day number of `datetime.now() - timedelta(days=days)`; `None` when that moment falls
   * outside the years 1 to 9999, where Python raises `OverflowError`.
   */
  function CutoffDay(now: Instant, days: int): Option<int>
    requires ValidInstant(now)
  {
    var o := Ordinal(now.date) - days;
    if 1 <= o <= MaxOrdinal then Some(o) else None
  }

  /** `datetime(d) < cutoff`: midnight of `d` against the cutoff day at the time of day of `now`. */
  predicate OlderThan(d: Date, now: Instant, cutoff: int)
    requires ValidDate(d)
  {
    Ordinal(d) < cutoff || (Ordinal(d) == cutoff && TimeOfDay(now) > 0)
  }

  /** On a timeline counted in microseconds, `OlderThan` is "midnight of `d` comes before `now` minus `days` days". */
  lemma OlderThanTimeline(d: Date, now: Instant, days: int)
    requires ValidDate(d) && ValidInstant(now) && CutoffDay(now, days).Some?
    ensures OlderThan(d, now, CutoffDay(now, days).value)
            <==> Ordinal(d) * DayMicros < Ordinal(now.date) * DayMicros + TimeOfDay(now) - days * DayMicros
  {
    var t := TimeOfDay(now);
    assert 0 <= t < DayMicros;
  }

  // ---------------------------------------------------------------------------
  // Selection
  // ---------------------------------------------------------------------------

  /** The file's key parses as a date and that date is older than the cutoff. */
  predicate IsOld(path: string, now: Instant, cutoff: int) {
    var key := ParseDate(DateKey(path));
    key.Some? && OlderThan(key.value, now, cutoff)
  }

  /** The files the selection loop keeps, in listing order. */
  function Selected(listing: seq<string>, now: Instant, cutoff: int): (r: seq<string>)
    ensures |r| <= |listing|
    decreases |listing|
  {
    if listing == [] then []
    else
      var n := |listing| - 1;
      Selected(listing[..n], now, cutoff) + if IsOld(listing[n], now, cutoff) then [listing[n]] else []
  }

  /** A file is selected exactly when it is listed and old. */
  lemma {:induction false} SelectedIff(listing: seq<string>, now: Instant, cutoff: int, p: string)
    ensures p in Selected(listing, now, cutoff) <==> p in listing && IsOld(p, now, cutoff)
    decreases |listing|
  {
    if listing != [] {
      var n := |listing| - 1;
      SelectedIff(listing[..n], now, cutoff, p);
      assert listing == listing[..n] + [listing[n]];
    }
  }

  /** Selection keeps the listing's entries distinct. */
  lemma {:induction false} SelectedDistinct(listing: seq<string>, now: Instant, cutoff: int)
    requires forall i, j :: 0 <= i < j < |listing| ==> listing[i] != listing[j]
    ensures var r := Selected(listing, now, cutoff);
      forall i, j :: 0 <= i < j < |r| ==> r[i] != r[j]
    decreases |listing|
  {
    if listing != [] {
      var n := |listing| - 1;
      var init := listing[..n];
      SelectedDistinct(init, now, cutoff);
      if IsOld(listing[n], now, cutoff) {
        SelectedIff(init, now, cutoff, listing[n]);
        assert listing[n] !in init;
      }
    }
  }

  /** The selected files all exist. */
  lemma SelectedExist(m: map<string, string>, dir: string, listing: seq<string>, now: Instant, cutoff: int)
    requires Enumerates(listing, ReflectionGlob(m, dir))
    ensures forall p :: p in Selected(listing, now, cutoff) ==> p in m
  {
    forall p | p in Selected(listing, now, cutoff)
      ensures p in m
    {
      SelectedIff(listing, now, cutoff, p);
    }
  }

  // ---------------------------------------------------------------------------
  // The request, the summary file, the insight and the archive
  // ---------------------------------------------------------------------------

  /**
   * `content` after the reading loop: each file's text followed by a newline, in order. The loop
   * only reads existing files (see `SelectedExist`), so a missing file is never read here.
   */
  function Gathered(m: map<string, string>, files: seq<string>): string
    decreases |files|
  {
    if files == [] then []
    else
      var n := |files| - 1;
      Gathered(m, files[..n]) + (Translate(ContentOr(m, files[n])) + "\n")
  }

  /** Reading two runs of files gives the content of the first run followed by that of the second. */
  lemma {:induction false} GatheredAppend(m: map<string, string>, a: seq<string>, b: seq<string>)
    ensures Gathered(m, a + b) == Gathered(m, a) + Gathered(m, b)
    decreases |b|
  {
    if b == [] {
      assert a + b == a;
    } else {
      var n := |b| - 1;
      var text := Translate(ContentOr(m, b[n])) + "\n";
      GatheredAppend(m, a, b[..n]);
      Snoc(a, b);
      Assoc(Gathered(m, a), Gathered(m, b[..n]), text);
    }
  }

  /** `os.path.join(compressed_dir, f"compressed_{datetime.now():%Y-%m-%d}.md")`. */
  function OutFile(compressedDir: string, stamp: Instant): string
    requires ValidInstant(stamp)
  {
    PathJoin(compressedDir, "compressed_" + FormatDate(stamp.date) + ".md")
  }

  /** The insight recorded for a summary. */
  function SummaryRow(days: int, summary: string, rowTime: Instant): Row
    requires ValidInstant(rowTime)
  {
    Row(FormatDateTime(rowTime), "long_term_summary",
        "Summary of reflections older than " + IntToString(days) + " days", summary,
        TagsText(Some(["compressed", "summary"])))
  }

  /** The stored tags of the summary insight. */
  lemma SummaryTags(days: int, summary: string, rowTime: Instant)
    requires ValidInstant(rowTime)
    ensures SummaryRow(days, summary, rowTime).tags == "compressed,summary"
  {
    assert ["compressed", "summary"][1..] == ["summary"];
  }

  /** `f.replace("reflections/", "reflections/archived_")`. */
  function ArchivePath(p: string): string {
    Replace(p, "reflections/", "reflections/archived_")
  }

  /** The renaming loop: each file in turn moved to its archive path. */
  function RenameAll(m: map<string, string>, paths: seq<string>): map<string, string>
    decreases |paths|
  {
    if paths == [] then m
    else
      var n := |paths| - 1;
      var prev := RenameAll(m, paths[..n]);
      if paths[n] in prev then Renamed(prev, paths[n], ArchivePath(paths[n])) else prev
  }

  /** A file no earlier rename moved away is still there. */
  lemma {:induction false} RenameAllKeeps(m: map<string, string>, paths: seq<string>, p: string)
    requires p in m && p !in paths
    ensures p in RenameAll(m, paths)
    decreases |paths|
  {
    if paths != [] {
      var n := |paths| - 1;
      assert p !in paths[..n] by {
        assert forall q :: q in paths[..n] ==> q in paths;
      }
      RenameAllKeeps(m, paths[..n], p);
    }
  }

  /**
   * `compress_old_reflections`' possible failures after the summary is made: `open(out_file, "w")`
   * raises; or the open succeeds, creating or truncating the file, and the write raises after
   * `written` characters have reached it (an encoding error, a full disk); or the insert raises.
   */
  datatype Fault = NoFault | OpenFails | WriteFails(written: nat) | InsertFails

  /** What a write that fails after `k` characters leaves in the file. */
  function WrittenPrefix(s: string, k: nat): (r: string)
    ensures r <= s && |r| <= k
    ensures |r| == k || r == s
  {
    if k < |s| then s[..k] else s
  }

  /** The result, the files and the new insight rows of one run. */
  datatype Outcome = Outcome(result: Result<Option<string>, string>, files: map<string, string>, added: seq<Row>)

  /**
   * One run of `compress_old_reflections(days)` on the files `m`: nothing happens when the cutoff
   * overflows or no file is old; otherwise the summary file is written, then the insight stored,
   * then every selected file archived, each step only if the one before succeeded.
   */
  function Compress(m: map<string, string>, dir: string, compressedDir: string, listing: seq<string>, days: int,
                    ask: Prompt -> string, now: Instant, stamp: Instant, rowTime: Instant, fault: Fault): Outcome
    requires Enumerates(listing, ReflectionGlob(m, dir))
    requires ValidInstant(now) && ValidInstant(stamp) && ValidInstant(rowTime)
  {
    match CutoffDay(now, days)
    case None => Outcome(Raised("OverflowError"), m, [])
    case Some(cutoff) =>
      var files := Selected(listing, now, cutoff);
      if files == [] then Outcome(Done(None), m, [])
      else
        SelectedExist(m, dir, listing, now, cutoff);
        var summary := ask(CompressReflections(|files|, Gathered(m, files)));
        var out := OutFile(compressedDir, stamp);
        if fault == OpenFails then Outcome(Raised("OSError"), m, [])
        else if fault.WriteFails? then Outcome(Raised("OSError"), m[out := WrittenPrefix(summary, fault.written)], [])
        else if fault == InsertFails then Outcome(Raised("sqlite3.Error"), m[out := summary], [])
        else Outcome(Done(Some(out)), RenameAll(m[out := summary], files), [SummaryRow(days, summary, rowTime)])
  }

  /** Nothing is written, stored or archived unless some file is old. */
  lemma NothingOldNothingDone(m: map<string, string>, dir: string, compressedDir: string, listing: seq<string>,
                              days: int, ask: Prompt -> string, now: Instant, stamp: Instant, rowTime: Instant,
                              fault: Fault)
    requires Enumerates(listing, ReflectionGlob(m, dir))
    requires ValidInstant(now) && ValidInstant(stamp) && ValidInstant(rowTime)
    requires forall p :: p in listing ==> CutoffDay(now, days).None? || !IsOld(p, now, CutoffDay(now, days).value)
    ensures var o := Compress(m, dir, compressedDir, listing, days, ask, now, stamp, rowTime, fault);
      o.files == m && o.added == [] && (o.result.Done? ==> o.result.value == None)
  {
    if CutoffDay(now, days).Some? {
      var cutoff := CutoffDay(now, days).value;
      if Selected(listing, now, cutoff) != [] {
        var p := Selected(listing, now, cutoff)[0];
        SelectedIff(listing, now, cutoff, p);
      }
    }
  }

  /** A failed open changes nothing and stores nothing. */
  lemma OpenFailureChangesNothing(m: map<string, string>, dir: string, compressedDir: string, listing: seq<string>,
                                  days: int, ask: Prompt -> string, now: Instant, stamp: Instant, rowTime: Instant)
    requires Enumerates(listing, ReflectionGlob(m, dir))
    requires ValidInstant(now) && ValidInstant(stamp) && ValidInstant(rowTime)
    ensures var o := Compress(m, dir, compressedDir, listing, days, ask, now, stamp, rowTime, OpenFails);
      o.files == m && o.added == [] && (o.result.Raised? || o.result == Done(None))
  {
  }

  /**
   * A write that fails after the open stores nothing and archives nothing, but the summary file
   * is left holding at most the first `k` characters of the summary, empty when `k` is 0.
   */
  lemma WriteFailureArchivesNothing(m: map<string, string>, dir: string, compressedDir: string,
                                    listing: seq<string>, days: int, ask: Prompt -> string, now: Instant,
                                    stamp: Instant, rowTime: Instant, k: nat)
    requires Enumerates(listing, ReflectionGlob(m, dir))
    requires ValidInstant(now) && ValidInstant(stamp) && ValidInstant(rowTime)
    ensures var o := Compress(m, dir, compressedDir, listing, days, ask, now, stamp, rowTime, WriteFails(k));
      && o.added == []
      && (o.result.Raised? || o.result == Done(None))
      && o.files.Keys <= m.Keys + {OutFile(compressedDir, stamp)}
      && (forall p :: p in m && p != OutFile(compressedDir, stamp) ==> p in o.files && o.files[p] == m[p])
    ensures var o := Compress(m, dir, compressedDir, listing, days, ask, now, stamp, rowTime, WriteFails(k));
      CutoffDay(now, days).Some? && o.result.Raised? ==>
        var files := Selected(listing, now, CutoffDay(now, days).value);
        var summary := ask(CompressReflections(|files|, Gathered(m, files)));
        && OutFile(compressedDir, stamp) in o.files
        && o.files[OutFile(compressedDir, stamp)] <= summary
        && |o.files[OutFile(compressedDir, stamp)]| <= k
  {
  }

  /** A run that returns a summary path has written that file and stored exactly one summary insight. */
  lemma SuccessWritesAndStores(m: map<string, string>, dir: string, compressedDir: string, listing: seq<string>,
                               days: int, ask: Prompt -> string, now: Instant, stamp: Instant, rowTime: Instant,
                               fault: Fault)
    requires Enumerates(listing, ReflectionGlob(m, dir))
    requires ValidInstant(now) && ValidInstant(stamp) && ValidInstant(rowTime)
    requires Compress(m, dir, compressedDir, listing, days, ask, now, stamp, rowTime, fault).result.Done?
    requires Compress(m, dir, compressedDir, listing, days, ask, now, stamp, rowTime, fault).result.value.Some?
    ensures fault == NoFault && CutoffDay(now, days).Some?
    ensures var o := Compress(m, dir, compressedDir, listing, days, ask, now, stamp, rowTime, fault);
      var files := Selected(listing, now, CutoffDay(now, days).value);
      var summary := ask(CompressReflections(|files|, Gathered(m, files)));
      && files != []
      && o.result.value.value == OutFile(compressedDir, stamp)
      && o.files == RenameAll(m[OutFile(compressedDir, stamp) := summary], files)
      && o.added == [SummaryRow(days, summary, rowTime)] && o.added[0].topic == "long_term_summary"
  {
  }

  /**
   * A failed insert leaves the summary file written but archives nothing: every other file keeps
   * its path and content, and no insight is stored.
   */
  lemma InsertFailureArchivesNothing(m: map<string, string>, dir: string, compressedDir: string,
                                     listing: seq<string>, days: int, ask: Prompt -> string, now: Instant,
                                     stamp: Instant, rowTime: Instant)
    requires Enumerates(listing, ReflectionGlob(m, dir))
    requires ValidInstant(now) && ValidInstant(stamp) && ValidInstant(rowTime)
    ensures var o := Compress(m, dir, compressedDir, listing, days, ask, now, stamp, rowTime, InsertFails);
      && o.added == []
      && (o.result.Raised? || o.result == Done(None))
      && o.files.Keys <= m.Keys + {OutFile(compressedDir, stamp)}
      && (forall p :: p in m && p != OutFile(compressedDir, stamp) ==> p in o.files && o.files[p] == m[p])
  {
  }

  // ---------------------------------------------------------------------------
  // Archiving leaves the reflection glob
  // ---------------------------------------------------------------------------

  lemma ReplaceSkipChar(c: char, s: string, pat: string, rep: string)
    requires |pat| > 0 && c != pat[0]
    ensures Replace([c] + s, pat, rep) == [c] + Replace(s, pat, rep)
  {
    var t := [c] + s;
    assert t[1..] == s;
    if |t| >= |pat| {
      assert t[..|pat|][0] == c;
    }
  }

  /** A prefix without the pattern's first character passes through `Replace` unchanged. */
  lemma {:induction false} ReplaceSkip(pre: string, s: string, pat: string, rep: string)
    requires |pat| > 0 && pat[0] !in pre
    ensures Replace(pre + s, pat, rep) == pre + Replace(s, pat, rep)
    decreases |pre|
  {
    if pre == [] {
      assert pre + s == s;
    } else {
      var c := pre[0];
      var rest := pre[1..];
      assert c in pre;
      assert forall x :: x in rest ==> x in pre;
      ReplaceSkip(rest, s, pat, rep);
      assert pre + s == [c] + (rest + s);
      ReplaceSkipChar(c, rest + s, pat, rep);
      assert pre == [c] + rest;
      Assoc([c], rest, Replace(s, pat, rep));
    }
  }

  lemma ReplaceHit(pat: string, s: string, rep: string)
    requires |pat| > 0
    ensures Replace(pat + s, pat, rep) == rep + Replace(s, pat, rep)
  {
    var t := pat + s;
    assert t[..|pat|] == pat && t[|pat|..] == s;
  }

  /** The archive path of `<pre>reflections/<name>`, for a `pre` without `r` and a plain name. */
  lemma ArchivePathOf(pre: string, name: string)
    requires 'r' !in pre && '/' !in name
    ensures ArchivePath(pre + "reflections/" + name) == pre + "reflections/archived_" + name
  {
    ReplaceSkip(pre, "reflections/" + name, "reflections/", "reflections/archived_");
    ReplaceHit("reflections/", name, "reflections/archived_");
    ReplaceAbsent(name, "reflections/", "reflections/archived_", '/');
    Assoc(pre, "reflections/", name);
    Assoc(pre, "reflections/archived_", name);
  }

  /**
   * In a directory named `.../reflections` whose leading part has no `r` (the default
   * `./data/reflections`, say), the archive path of a reflection file is the same directory with
   * `archived_` put in front of the name, which the reflection glob no longer matches.
   */
  lemma ArchivedLeavesGlob(pre: string, p: string)
    requires 'r' !in pre
    requires IsReflectionPath(pre + "reflections", p)
    ensures ArchivePath(p) == PathJoin(pre + "reflections", "archived_" + NameIn(pre + "reflections", p).value)
    ensures !IsReflectionPath(pre + "reflections", ArchivePath(p))
  {
    var dir := pre + "reflections";
    var name := NameIn(dir, p).value;
    var a := "archived_" + name;
    assert DirPrefix(dir) == pre + "reflections/";
    assert p == pre + "reflections/" + name by {
      assert p == p[..|DirPrefix(dir)|] + p[|DirPrefix(dir)|..];
    }
    ArchivePathOf(pre, name);
    Assoc(pre + "reflections/", "archived_", name);
    assert ArchivePath(p) == PathJoin(dir, a);
    NameInJoin(dir, a);
    assert !StartsWith(a, "reflection_") by {
      assert a[0] == 'a';
    }
  }

  /** A path other than the target that is present after a real move was present before and is not the source. */
  lemma RenamedBack(m: map<string, string>, src: string, dst: string, q: string)
    requires src in m && src != dst && q != dst && q in Renamed(m, src, dst)
    ensures q in m && q != src
  {
  }

  /** With archive paths outside the glob, the renames leave only unselected reflection files. */
  lemma {:induction false} RenameAllGlob(m: map<string, string>, dir: string, paths: seq<string>, q: string)
    requires forall p :: p in paths ==> IsReflectionPath(dir, p) && !IsReflectionPath(dir, ArchivePath(p))
    requires q in RenameAll(m, paths) && IsReflectionPath(dir, q)
    ensures q in m && q !in paths
    decreases |paths|
  {
    if paths != [] {
      var n := |paths| - 1;
      var s := paths[n];
      var init := paths[..n];
      assert paths == init + [s];
      assert IsReflectionPath(dir, s) && !IsReflectionPath(dir, ArchivePath(s)) by {
        assert s in paths;
      }
      var prev := RenameAll(m, init);
      assert q in prev && q != s by {
        if s in prev {
          RenamedBack(prev, s, ArchivePath(s), q);
        }
      }
      assert forall p :: p in init ==> p in paths;
      RenameAllGlob(m, dir, init, q);
    }
  }

  /**
   * After a successful run in such a directory, with the summary file outside the glob, every
   * reflection file left was there before and was not selected.
   */
  lemma CompressedGlob(m: map<string, string>, pre: string, compressedDir: string, listing: seq<string>,
                       days: int, ask: Prompt -> string, now: Instant, stamp: Instant, rowTime: Instant, q: string)
    requires 'r' !in pre
    requires Enumerates(listing, ReflectionGlob(m, pre + "reflections"))
    requires ValidInstant(now) && ValidInstant(stamp) && ValidInstant(rowTime)
    requires !IsReflectionPath(pre + "reflections", OutFile(compressedDir, stamp))
    requires CutoffDay(now, days).Some?
    requires q in Compress(m, pre + "reflections", compressedDir, listing, days, ask, now, stamp, rowTime, NoFault).files
    requires IsReflectionPath(pre + "reflections", q)
    ensures q in m && q !in Selected(listing, now, CutoffDay(now, days).value)
  {
    var dir := pre + "reflections";
    var cutoff := CutoffDay(now, days).value;
    var files := Selected(listing, now, cutoff);
    if files != [] {
      SelectedExist(m, dir, listing, now, cutoff);
      var out := OutFile(compressedDir, stamp);
      forall p | p in files
        ensures IsReflectionPath(dir, p) && !IsReflectionPath(dir, ArchivePath(p))
      {
        SelectedIff(listing, now, cutoff, p);
        ArchivedLeavesGlob(pre, p);
      }
      RenameAllGlob(m[out := ask(CompressReflections(|files|, Gathered(m, files)))], dir, files, q);
    }
  }

  /**
   * Idempotence: after a successful run in such a directory, with the summary file outside the
   * glob, running again at the same moment selects nothing.
   */
  lemma RerunFindsNothing(m: map<string, string>, pre: string, compressedDir: string, listing: seq<string>,
                          days: int, ask: Prompt -> string, now: Instant, stamp: Instant, rowTime: Instant,
                          listing2: seq<string>)
    requires 'r' !in pre
    requires Enumerates(listing, ReflectionGlob(m, pre + "reflections"))
    requires ValidInstant(now) && ValidInstant(stamp) && ValidInstant(rowTime)
    requires !IsReflectionPath(pre + "reflections", OutFile(compressedDir, stamp))
    requires Enumerates(listing2, ReflectionGlob(
               Compress(m, pre + "reflections", compressedDir, listing, days, ask, now, stamp, rowTime, NoFault).files,
               pre + "reflections"))
    requires CutoffDay(now, days).Some?
    ensures Selected(listing2, now, CutoffDay(now, days).value) == []
  {
    var cutoff := CutoffDay(now, days).value;
    if Selected(listing2, now, cutoff) != [] {
      var q := Selected(listing2, now, cutoff)[0];
      SelectedIff(listing2, now, cutoff, q);
      CompressedGlob(m, pre, compressedDir, listing, days, ask, now, stamp, rowTime, q);
      SelectedIff(listing, now, cutoff, q);
    }
  }

  /** With the default directories the summary file is outside the reflection glob. */
  lemma DefaultOutFileOutsideGlob(stamp: Instant)
    requires ValidInstant(stamp)
    ensures !IsReflectionPath("./data/reflections", OutFile(DefaultCompressedDir, stamp))
  {
    var out := OutFile(DefaultCompressedDir, stamp);
    var pre := DirPrefix("./data/reflections");
    assert pre == "./data/reflections/";
    assert out[7] == 'c';
    assert !StartsWith(out, pre) by {
      assert out[7] != pre[7];
    }
  }

  // ---------------------------------------------------------------------------
  // The compressor
  // ---------------------------------------------------------------------------

  class MemoryCompressor {
    const reflectionsDir: string
    const compressedDir: string
    const fs: FileSystem
    const db: InsightDB

    constructor(reflectionsDir: string, compressedDir: string, fs: FileSystem, db: InsightDB)
      ensures this.reflectionsDir == reflectionsDir && this.compressedDir == compressedDir
      ensures this.fs == fs && this.db == db
    {
      this.reflectionsDir := reflectionsDir;
      this.compressedDir := compressedDir;
      this.fs := fs;
      this.db := db;
    }

    /** The selection loop: the listed files whose date key names a day before the cutoff. */
    static method SelectOld(listing: seq<string>, now: Instant, cutoff: int) returns (files: seq<string>)
      ensures files == Selected(listing, now, cutoff)
    {
      files := [];
      var i := 0;
      while i < |listing|
        invariant 0 <= i <= |listing|
        invariant files == Selected(listing[..i], now, cutoff)
      {
        assert listing[..i + 1][..i] == listing[..i];
        if IsOld(listing[i], now, cutoff) {
          files := files + [listing[i]];
        }
        i := i + 1;
      }
      assert listing[..|listing|] == listing;
    }

    /** The reading loop: each file's text and a newline, in order. */
    method Gather(files: seq<string>) returns (content: string)
      requires forall p :: p in files ==> p in fs.files
      ensures content == Gathered(fs.files, files)
    {
      content := "";
      var j := 0;
      while j < |files|
        invariant 0 <= j <= |files|
        invariant content == Gathered(fs.files, files[..j])
      {
        assert files[..j + 1][..j] == files[..j];
        assert files[j] in files;
        content := content + (ReadText(fs.files, files[j]) + "\n");
        j := j + 1;
      }
      assert files[..|files|] == files;
    }

    /** The renaming loop: every selected file moved to its archive path, in order. */
    method ArchiveAll(files: seq<string>)
      requires forall i, j :: 0 <= i < j < |files| ==> files[i] != files[j]
      requires forall p :: p in files ==> p in fs.files
      modifies fs
      ensures fs.files == RenameAll(old(fs.files), files)
    {
      ghost var m1 := fs.files;
      var k := 0;
      while k < |files|
        invariant 0 <= k <= |files|
        invariant fs.files == RenameAll(m1, files[..k])
      {
        assert files[..k + 1][..k] == files[..k];
        assert files[k] !in files[..k];
        RenameAllKeeps(m1, files[..k], files[k]);
        fs.Rename(files[k], ArchivePath(files[k]));
        k := k + 1;
      }
      assert files[..|files|] == files;
    }

    /** `compress_old_reflections(days)`, with the clock readings and the failure, if any, as inputs. */
    method CompressOldReflections(days: int, listing: seq<string>, ask: Prompt -> string, now: Instant,
                                  stamp: Instant, rowTime: Instant, fault: Fault)
      returns (r: Result<Option<string>, string>)
      requires Enumerates(listing, ReflectionGlob(fs.files, reflectionsDir))
      requires ValidInstant(now) && ValidInstant(stamp) && ValidInstant(rowTime)
      modifies fs, db
      ensures var o := Compress(old(fs.files), reflectionsDir, compressedDir, listing, days, ask, now, stamp, rowTime,
                                fault);
        r == o.result && fs.files == o.files && db.rows == old(db.rows) + o.added
    {
      var cut := CutoffDay(now, days);
      if cut.None? {
        return Raised("OverflowError");
      }
      var cutoff := cut.value;
      ghost var m0 := fs.files;
      var files := SelectOld(listing, now, cutoff);
      if files == [] {
        return Done(None);
      }
      SelectedExist(m0, reflectionsDir, listing, now, cutoff);
      SelectedDistinct(listing, now, cutoff);
      var content := Gather(files);
      var summary := ask(CompressReflections(|files|, content));
      var out := OutFile(compressedDir, stamp);
      if fault == OpenFails {
        return Raised("OSError");
      }
      if fault.WriteFails? {
        fs.Write(out, WrittenPrefix(summary, fault.written));
        return Raised("OSError");
      }
      fs.Write(out, summary);
      if fault == InsertFails {
        return Raised("sqlite3.Error");
      }
      db.AddInsight("long_term_summary", "Summary of reflections older than " + IntToString(days) + " days", summary,
                    Some(["compressed", "summary"]), rowTime);
      ArchiveAll(files);
      r := Done(Some(out));
    }
  }
}
