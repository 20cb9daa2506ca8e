/** The session browser's view of the output directory: the list of
    session files, newest first, and the date and title each sidebar entry
    shows, read back from the names `SessionManager` gives its files. */
module SessionBrowser {
  import opened Strings
  import opened Clock
  import opened SessionSpec

  /** A file the directory listing found, with the time and size `os.stat`
      reports for it. */
  datatype FoundFile = FoundFile(path: string, modified: DateTime, size: nat)

  /** One entry of the session list: the `path`, `name`, `modified` and
      `size` keys. */
  datatype SessionFile = SessionFile(path: string, name: string, modified: DateTime, size: nat)

  // ---------------------------------------------------------------------
  // Listing
  // ---------------------------------------------------------------------

  /** `os.path.basename(path)`: what follows the last `/`. */
  function Basename(path: string): (name: string)
    ensures '/' !in name
  {
    if path == [] || path[|path| - 1] == '/' then []
    else Basename(path[..|path| - 1]) + [path[|path| - 1]]
  }

  /** The base name is the path's last component: a suffix of the path,
      free of `/`, that is the whole path or follows a `/`. */
  lemma {:induction false} BasenameIsLastComponent(path: string)
    ensures HasSuffix(Basename(path), path)
    ensures var n := |Basename(path)|; n == |path| || path[|path| - n - 1] == '/'
  {
    if path != [] && path[|path| - 1] != '/' {
      var init := path[..|path| - 1];
      BasenameIsLastComponent(init);
      var b := Basename(init);
      assert Basename(path) == b + [path[|path| - 1]];
      assert path == init + [path[|path| - 1]];
      SliceOfAppend(init, [path[|path| - 1]], |init| - |b|);
      if |b| < |init| {
        assert path[|path| - |b| - 2] == init[|init| - |b| - 1];
      }
    }
  }

  /** The base name of a path built by `os.path.join` from a directory and
      a name without `/` is that name. */
  lemma {:induction false} BasenameOfJoin(dir: string, name: string)
    requires '/' !in name
    ensures Basename(JoinPath(dir, name)) == name
  {
    var prefix := if dir == [] || dir[|dir| - 1] == '/' then dir else dir + "/";
    assert JoinPath(dir, name) == prefix + name;
    BasenameAfterSlash(prefix, name);
  }

  lemma {:induction false} BasenameAfterSlash(prefix: string, name: string)
    requires '/' !in name
    requires prefix == [] || prefix[|prefix| - 1] == '/'
    ensures Basename(prefix + name) == name
    decreases |name|
  {
    var path := prefix + name;
    if name == [] {
      assert path == prefix;
    } else {
      assert path[..|path| - 1] == prefix + name[..|name| - 1];
      assert path[|path| - 1] == name[|name| - 1];
      BasenameAfterSlash(prefix, name[..|name| - 1]);
      assert name == name[..|name| - 1] + [name[|name| - 1]];
    }
  }

  function Describe(f: FoundFile): SessionFile {
    SessionFile(f.path, Basename(f.path), f.modified, f.size)
  }

  /** The entries the listing loop builds, one per file found, in the
      listing's order. */
  function Described(found: seq<FoundFile>): (entries: seq<SessionFile>)
    ensures |entries| == |found|
    ensures forall i :: 0 <= i < |found| ==> entries[i] == Describe(found[i])
  {
    seq(|found|, i requires 0 <= i < |found| => Describe(found[i]))
  }

  /** Newest first: no entry is older than one after it. */
  predicate NewestFirst(s: seq<SessionFile>) {
    forall i, j :: 0 <= i < j < |s| ==> !Before(s[i].modified, s[j].modified)
  }

  /** The entries last modified at time `t`, in order. */
  function ModifiedAt(s: seq<SessionFile>, t: DateTime): seq<SessionFile> {
    if s == [] then []
    else (if s[0].modified == t then [s[0]] else []) + ModifiedAt(s[1..], t)
  }

  /** Put `x` into a newest-first list after every entry at least as new
      as it, so that among equal times earlier insertions stay first. */
  function Insert(x: SessionFile, s: seq<SessionFile>): seq<SessionFile> {
    if s == [] then [x]
    else if Before(s[0].modified, x.modified) then [x] + s
    else [s[0]] + Insert(x, s[1..])
  }

  /** `sorted(entries, key=lambda x: x["modified"], reverse=True)`. */
  function SortNewestFirst(s: seq<SessionFile>): seq<SessionFile>
    decreases |s|
  {
    if s == [] then [] else Insert(s[|s| - 1], SortNewestFirst(s[..|s| - 1]))
  }

  lemma InsertPermutes(x: SessionFile, s: seq<SessionFile>)
    ensures multiset(Insert(x, s)) == multiset(s) + multiset{x}
  {
    if s != [] && !Before(s[0].modified, x.modified) {
      InsertPermutes(x, s[1..]);
      assert s == [s[0]] + s[1..];
    }
  }

  lemma {:induction false} InsertKeepsOrder(x: SessionFile, s: seq<SessionFile>)
    requires NewestFirst(s)
    ensures NewestFirst(Insert(x, s))
  {
    if s == [] {
    } else if Before(s[0].modified, x.modified) {
      var r := Insert(x, s);
      forall i, j | 0 <= i < j < |r| ensures !Before(r[i].modified, r[j].modified) {
        if i == 0 {
          var a, b := x.modified, s[j - 1].modified;
          BeforeStrictTotal(b, s[0].modified, a);
          BeforeStrictTotal(s[0].modified, b, a);
          BeforeStrictTotal(a, b, s[0].modified);
        }
      }
    } else {
      var tail := Insert(x, s[1..]);
      InsertKeepsOrder(x, s[1..]);
      InsertPermutes(x, s[1..]);
      var r := [s[0]] + tail;
      forall i, j | 0 <= i < j < |r| ensures !Before(r[i].modified, r[j].modified) {
        if i == 0 {
          assert r[j] in multiset(tail);
          assert r[j] == x || r[j] in s[1..];
        }
      }
    }
  }

  /** Inserting `x` into a newest-first list adds it to the end of the
      entries of its own time and leaves every other time's entries alone. */
  lemma {:induction false} InsertModifiedAt(x: SessionFile, s: seq<SessionFile>, t: DateTime)
    requires NewestFirst(s)
    ensures ModifiedAt(Insert(x, s), t) == ModifiedAt(s, t) + (if x.modified == t then [x] else [])
  {
    if s == [] {
    } else if Before(s[0].modified, x.modified) {
      if x.modified == t {
        OlderThanHeadNotAt(s, t);
      }
      assert Insert(x, s) == [x] + s;
      assert ([x] + s)[1..] == s;
    } else {
      NewestFirstTail(s);
      var rest := Insert(x, s[1..]);
      InsertModifiedAt(x, s[1..], t);
      assert Insert(x, s) == [s[0]] + rest;
      assert ([s[0]] + rest)[1..] == rest;
    }
  }

  lemma NewestFirstTail(s: seq<SessionFile>)
    requires NewestFirst(s) && s != []
    ensures NewestFirst(s[1..])
  {
    forall i, j | 0 <= i < j < |s| - 1 ensures !Before(s[1..][i].modified, s[1..][j].modified) {
      assert s[1..][i] == s[i + 1] && s[1..][j] == s[j + 1];
    }
  }

  /** In a newest-first list whose first entry is older than `t`, no entry
      has time `t`. */
  lemma {:induction false} OlderThanHeadNotAt(s: seq<SessionFile>, t: DateTime)
    requires NewestFirst(s) && s != [] && Before(s[0].modified, t)
    ensures ModifiedAt(s, t) == []
    decreases |s|
  {
    BeforeStrictTotal(s[0].modified, t, t);
    if |s| > 1 {
      BeforeStrictTotal(s[1].modified, s[0].modified, t);
      BeforeStrictTotal(s[0].modified, s[1].modified, t);
      NewestFirstTail(s);
      OlderThanHeadNotAt(s[1..], t);
    }
  }

  lemma {:induction false} ModifiedAtSnoc(s: seq<SessionFile>, x: SessionFile, t: DateTime)
    ensures ModifiedAt(s + [x], t) == ModifiedAt(s, t) + (if x.modified == t then [x] else [])
  {
    if s != [] {
      assert (s + [x])[1..] == s[1..] + [x];
      ModifiedAtSnoc(s[1..], x, t);
    } else {
      assert [] + [x] == [x];
    }
  }

  /** The sort puts the newest entries first, loses and adds nothing, and
      is stable: the entries of any one time keep their listing order. */
  lemma {:induction false} SortNewestFirstCorrect(s: seq<SessionFile>)
    ensures NewestFirst(SortNewestFirst(s))
    ensures multiset(SortNewestFirst(s)) == multiset(s)
    ensures forall t :: ModifiedAt(SortNewestFirst(s), t) == ModifiedAt(s, t)
    decreases |s|
  {
    if s != [] {
      var init, last := s[..|s| - 1], s[|s| - 1];
      assert s == init + [last];
      SortNewestFirstCorrect(init);
      InsertKeepsOrder(last, SortNewestFirst(init));
      InsertPermutes(last, SortNewestFirst(init));
      forall t ensures ModifiedAt(SortNewestFirst(s), t) == ModifiedAt(s, t) {
        InsertModifiedAt(last, SortNewestFirst(init), t);
        ModifiedAtSnoc(init, last, t);
      }
    }
  }

  /** `get_sessions()` over the files the listing found: one entry per
      file, then sorted newest first. */
  method GetSessions(found: seq<FoundFile>) returns (sessions: seq<SessionFile>)
    ensures sessions == SortNewestFirst(Described(found))
    ensures NewestFirst(sessions)
    ensures multiset(sessions) == multiset(Described(found))
    ensures forall t :: ModifiedAt(sessions, t) == ModifiedAt(Described(found), t)
  {
    var entries: seq<SessionFile> := [];
    var i := 0;
    while i < |found|
      invariant 0 <= i <= |found|
      invariant |entries| == i
      invariant forall k :: 0 <= k < i ==> entries[k] == Describe(found[k])
    {
      entries := entries + [Describe(found[i])];
      i := i + 1;
    }
    assert entries == Described(found);
    sessions := SortNewestFirst(entries);
    SortNewestFirstCorrect(entries);
  }

  // ---------------------------------------------------------------------
  // Reading a session's name
  // ---------------------------------------------------------------------

  /** `name.replace(".md", "")` */
  function DisplayName(name: string): string {
    ReplaceAll(name, ".md", "")
  }

  /** The date and the title a sidebar entry shows. */
  datatype SessionLabel = SessionLabel(date: string, title: string)

  /** The name is split at its first two `_`. With both present the date is
      the text before the first and the title the text after the second,
      its `_` turned into spaces; with fewer the date is the modification
      day and the title the whole display name. */
  function ParseSessionName(name: string, modified: DateTime): (shown: SessionLabel)
    ensures Count(DisplayName(name), '_') < 2 ==>
              shown == SessionLabel(DateStamp(modified), DisplayName(name))
    ensures Count(DisplayName(name), '_') >= 2 ==>
              && '_' !in shown.date && '_' !in shown.title
              && HasPrefix(shown.date + "_", DisplayName(name))
              && |shown.date| + |shown.title| + 2 <= |DisplayName(name)|
  {
    var display := DisplayName(name);
    var parts := Split(display, '_', 2);
    SplitTwiceParts(display, '_');
    if |parts| >= 3 then
      assert display == parts[0] + "_" + (parts[1] + "_" + parts[2]);
      assert display[..|parts[0]| + 1] == parts[0] + "_";
      SessionLabel(parts[0], ReplaceChar(parts[2], '_', ' '))
    else
      SessionLabel(DateStamp(modified), display)
  }

  /** The text of the sidebar button: a document icon, at most the first 25
      characters of the title, and an ellipsis, which is there even when
      nothing was cut. */
  function SidebarLabel(title: string): (button: string)
    ensures |button| == 5 + (if |title| < 25 then |title| else 25)
    ensures button[..2] == "\U{1F4C4} " && button[|button| - 3..] == "..."
    ensures button[2..|button| - 3] == title[..|button| - 5]
  {
    "\U{1F4C4} " + Take(title, 25) + "..."
  }

  // ---------------------------------------------------------------------
  // The names SessionManager writes read back
  // ---------------------------------------------------------------------

  /** Stamp text holds none of the characters the name parsing and the
      path handling look for. */
  lemma StampTextPlain(s: string)
    requires StampText(s)
    ensures '_' !in s && '.' !in s && '/' !in s
  {
    assert forall i :: 0 <= i < |s| ==> s[i] != '_' && s[i] != '.' && s[i] != '/';
  }

  /** A `%Y-%m-%d_%H-%M` stamp is the date, `_` and the time of day, with
      no `_`, `.` or `/` in either part. */
  lemma FileStampParts(d: DateTime)
    ensures FileStamp(d) == DateStamp(d) + "_" + HourMinute(d)
    ensures '_' !in DateStamp(d) && '.' !in DateStamp(d) && '/' !in DateStamp(d)
    ensures '_' !in HourMinute(d) && '.' !in HourMinute(d) && '/' !in HourMinute(d)
  {
    DateStampChars(d);
    HourMinuteChars(d);
    StampTextPlain(DateStamp(d));
    StampTextPlain(HourMinute(d));
  }

  /** Removing `.md` from a name whose stem has no `.` leaves the stem. */
  lemma DisplayNameOfStem(stem: string)
    requires '.' !in stem
    ensures DisplayName(stem + ".md") == stem
  {
    ReplaceAllTrailing(stem, ".md", "");
  }

  lemma SplitStem(date: string, time: string, part: string)
    requires '_' !in date && '_' !in time
    ensures Split(date + "_" + time + "_" + part, '_', 2) == [date, time, part]
  {
    assert date + "_" + time + "_" + part == date + ['_'] + (time + ['_'] + part);
    SplitFirst(date, '_', time + ['_'] + part, 2);
    SplitFirst(time, '_', part, 1);
  }

  /** Any name whose display name is `<date>_<time>_<part>`, with no `_`
      in the date or the time, shows that date and the part with `_`
      turned into spaces, whatever else the name holds. */
  lemma ParseSessionNameTitle(name: string, modified: DateTime, date: string, time: string, part: string)
    requires '_' !in date && '_' !in time
    requires DisplayName(name) == date + "_" + time + "_" + part
    ensures ParseSessionName(name, modified) == SessionLabel(date, ReplaceChar(part, '_', ' '))
  {
    SplitStem(date, time, part);
  }

  /** A name `<date>_<time>_<part>.md` with no `_` in the date or the time
      and no `.` before the extension reads back as the date and the part
      with `_` turned into spaces. */
  lemma ParseThreeParts(date: string, time: string, part: string, modified: DateTime)
    requires '_' !in date && '_' !in time
    requires '.' !in date && '.' !in time && '.' !in part
    ensures ParseSessionName(date + "_" + time + "_" + part + ".md", modified)
            == SessionLabel(date, ReplaceChar(part, '_', ' '))
  {
    var stem := date + "_" + time + "_" + part;
    DisplayNameOfStem(stem);
    SplitStem(date, time, part);
  }

  /** A session file name `<stamp>_<part>.md` whose part has no `.` or
      `/`, found in any directory, reads back as the stamp's date and the
      part with `_` turned into spaces. */
  lemma ParseSessionFileName(outputDir: string, start: DateTime, part: string, modified: DateTime)
    requires '.' !in part && '/' !in part
    ensures ParseSessionName(Basename(JoinPath(outputDir, SessionFileName(start, part))), modified)
            == SessionLabel(DateStamp(start), ReplaceChar(part, '_', ' '))
  {
    SessionFileNameParts(start, part);
    BasenameOfJoin(outputDir, SessionFileName(start, part));
    ParseThreeParts(DateStamp(start), HourMinute(start), part, modified);
  }

  lemma SessionFileNameParts(start: DateTime, part: string)
    requires '/' !in part
    ensures SessionFileName(start, part) == DateStamp(start) + "_" + HourMinute(start) + "_" + part + ".md"
    ensures '_' !in DateStamp(start) && '.' !in DateStamp(start)
    ensures '_' !in HourMinute(start) && '.' !in HourMinute(start)
    ensures '/' !in SessionFileName(start, part)
  {
    FileStampParts(start);
  }

  /** A new session's file, found in any directory, reads back as its start
      date and the title "session". */
  lemma ParseProvisionalName(outputDir: string, start: DateTime, modified: DateTime)
    ensures ParseSessionName(Basename(JoinPath(outputDir, ProvisionalName(start))), modified)
            == SessionLabel(DateStamp(start), "session")
  {
    var part := "session";
    assert forall i :: 0 <= i < |part| ==> 'a' <= part[i] <= 'z';
    ParseSessionFileName(outputDir, start, part, modified);
    ReplaceCharAbsent(part, '_', ' ');
  }

  /** A titled session's file reads back as its start date and its safe
      title with `_` turned into spaces: the title as inferred, minus the
      characters the filter drops and cut to 30 characters. */
  lemma ParseTitledName(outputDir: string, start: DateTime, title: string, modified: DateTime)
    ensures ParseSessionName(Basename(JoinPath(outputDir, TitledName(start, title))), modified)
            == SessionLabel(DateStamp(start), ReplaceChar(SafeTitle(title), '_', ' '))
  {
    var safe := SafeTitle(title);
    assert '.' !in safe && '/' !in safe by {
      assert forall i :: 0 <= i < |safe| ==> IsTitleChar(safe[i]);
    }
    ParseSessionFileName(outputDir, start, safe, modified);
  }

  /** A titled session's file shows exactly its title when the title has at
      most 30 word, whitespace and hyphen characters and no `_`. */
  lemma ParseShortTitle(outputDir: string, start: DateTime, title: string, modified: DateTime)
    requires AllTitleChars(title) && |title| <= 30 && '_' !in title
    ensures ParseSessionName(Basename(JoinPath(outputDir, TitledName(start, title))), modified)
            == SessionLabel(DateStamp(start), title)
  {
    ParseTitledName(outputDir, start, title, modified);
    SafeTitleRoundTrip(title);
  }
}
