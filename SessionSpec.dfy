/** The session document as values: what a `SessionManager` holds and what
    its backing file says, and how each operation changes them. The class in
    SessionManager.dfy is proved to follow these functions step for step;
    the lemmas here state what the document promises over its whole life. */
module SessionSpec {
  import opened Wrappers
  import opened Strings
  import opened Clock
  import opened Completion
  import opened FileSystem

  /** The title a session has until one is inferred. */
  const Placeholder: string := "Untitled Session"

  /** `OUTPUT_DIR` when the environment does not set it. */
  const DefaultOutputDir: string := "sessions"

  /** One entry of `transcriptions`: the `time`, `raw` and `cleaned` keys. */
  datatype Transcription = Transcription(time: string, raw: string, cleaned: string)

  /** A session manager's state together with the file system it writes to.
      `requests` lists, in order, every prompt the session has sent to the
      completion service. */
  datatype Session = Session(
    outputDir: string,
    start: DateTime,
    transcriptions: seq<Transcription>,
    title: string,
    filepath: string,
    files: map<string, string>,
    requests: seq<Prompt>)

  // ---------------------------------------------------------------------
  // Names and fixed texts
  // ---------------------------------------------------------------------

  /** `output_dir or OUTPUT_DIR` */
  function ResolveOutputDir(outputDir: Option<string>): (dir: string)
    ensures dir != ""
  {
    if outputDir.Some? && outputDir.value != "" then outputDir.value else DefaultOutputDir
  }

  /** `os.path.join(dir, name)` for a relative `name`. */
  function JoinPath(dir: string, name: string): string {
    if dir == [] || dir[|dir| - 1] == '/' then dir + name else dir + "/" + name
  }

  /** The title as a file-name part: the title's word, whitespace and hyphen
      characters, spaces turned into `_`, at most 30 characters. */
  function SafeTitle(title: string): (safe: string)
    ensures |safe| <= 30 && AllTitleChars(safe)
    ensures ' ' !in safe
  {
    var kept := KeepTitleChars(title);
    var underscored := ReplaceChar(kept, ' ', '_');
    assert AllTitleChars(underscored) by {
      forall i | 0 <= i < |underscored| ensures IsTitleChar(underscored[i]) {
        assert IsTitleChar(kept[i]);
      }
    }
    Take(underscored, 30)
  }

  /** A title of at most 30 word, whitespace and hyphen characters with no
      `_` in it survives the file-name form: turning its `_` back into
      spaces gives the title again. */
  lemma SafeTitleRoundTrip(title: string)
    requires AllTitleChars(title) && |title| <= 30 && '_' !in title
    ensures ReplaceChar(SafeTitle(title), '_', ' ') == title
  {
    assert KeepTitleChars(title) == title;
    var safe := SafeTitle(title);
    assert safe == ReplaceChar(title, ' ', '_');
  }

  /** `<timestamp>_<part>.md`, the shape of every session file name. */
  function SessionFileName(start: DateTime, part: string): string {
    FileStamp(start) + "_" + part + ".md"
  }

  /** `<timestamp>_session.md` */
  function ProvisionalName(start: DateTime): string {
    SessionFileName(start, "session")
  }

  /** `<timestamp>_<safe title>.md` */
  function TitledName(start: DateTime, title: string): string {
    SessionFileName(start, SafeTitle(title))
  }

  /** The line recording when the session started, with the blank line
      before it. */
  function StartedLine(start: DateTime): (line: string)
    ensures |line| > 0 && line[0] == '\n'
  {
    "\n\n**Session Started:** " + MinuteStamp(start)
  }

  /** The rule and the heading under which the entries are appended. */
  const RawHeading: string := "\n\n---\n\n## Raw Transcription\n\n"

  /** Everything the header holds after its title line. */
  function HeaderRest(start: DateTime): (rest: string)
    ensures |rest| > 0 && rest[0] == '\n'
  {
    StartedLine(start) + RawHeading
  }

  /** A session titled "session" keeps its provisional name: the rename
      after the title step then moves the file onto itself. */
  lemma TitledNameCanBeProvisional(start: DateTime)
    ensures TitledName(start, "session") == ProvisionalName(start)
  {
    var w := "session";
    assert forall i :: 0 <= i < |w| ==> 'a' <= w[i] <= 'z';
    assert AllTitleChars(w);
    ReplaceCharAbsent(w, ' ', '_');
  }

  /** The header written when the session is created. */
  function Header(title: string, start: DateTime): string {
    "# " + title + HeaderRest(start)
  }

  function EntryBlock(time: string, entry: string): string {
    "**[" + time + "]** " + entry + "\n\n"
  }

  function SummaryHeading(): string {
    "\n---\n\n## Organized Summary\n\n"
  }

  function Footer(now: DateTime): string {
    "\n\n---\n\n*Session ended: " + MinuteStamp(now) + "*\n"
  }

  // ---------------------------------------------------------------------
  // Creation
  // ---------------------------------------------------------------------

  /** `_create_session_file`: the provisional path, truncated to the header. */
  function WithSessionFile(s: Session): (r: Session)
    ensures r.filepath == JoinPath(s.outputDir, ProvisionalName(s.start))
    ensures r.files == s.files[r.filepath := Header(s.title, s.start)]
    ensures r == s.(filepath := r.filepath, files := r.files)
  {
    var path := JoinPath(s.outputDir, ProvisionalName(s.start));
    s.(filepath := path, files := s.files[path := Header(s.title, s.start)])
  }

  /** `SessionManager(output_dir)` at time `now`. */
  function Create(outputDir: Option<string>, now: DateTime, files: map<string, string>): Session {
    WithSessionFile(Session(ResolveOutputDir(outputDir), now, [], Placeholder, "", files, []))
  }

  /** A new session: placeholder title, no entries, no service calls, the
      provisional path, and a file whose first line is `# Untitled Session`
      and which ends with the Raw Transcription heading. No other file is
      touched. */
  lemma CreateShape(outputDir: Option<string>, now: DateTime, files: map<string, string>)
    ensures var s := Create(outputDir, now, files);
            && s.title == Placeholder && s.transcriptions == [] && s.requests == []
            && s.filepath == JoinPath(ResolveOutputDir(outputDir), ProvisionalName(now))
            && s.filepath in s.files
            && HasPrefix("# " + Placeholder + "\n", s.files[s.filepath])
            && HasSuffix(RawHeading, s.files[s.filepath])
            && forall p :: p != s.filepath ==>
                 (p in s.files <==> p in files) && (p in files ==> s.files[p] == files[p])
  {
    var s := Create(outputDir, now, files);
    var line := "# " + Placeholder;
    NewlineAfter(line, HeaderRest(now));
    SuffixOfAppend(line + StartedLine(now), RawHeading);
    assert line + HeaderRest(now) == line + StartedLine(now) + RawHeading;
  }

  // ---------------------------------------------------------------------
  // Adding a transcription and inferring the title
  // ---------------------------------------------------------------------

  /** `cleaned_text or text` */
  function EntryText(text: string, cleaned: Option<string>): (entry: string)
    ensures cleaned.Some? && cleaned.value != "" ==> entry == cleaned.value
    ensures cleaned.None? || cleaned.value == "" ==> entry == text
  {
    if cleaned.Some? && cleaned.value != "" then cleaned.value else text
  }

  /** The title prompt, seeded with at most the first 200 characters. */
  function TitlePrompt(firstText: string): (p: Prompt)
    ensures p.template == SessionTitle && |p.text| <= 200 && |p.text| <= |firstText|
    ensures |p.text| == (if |firstText| <= 200 then |firstText| else 200)
    ensures p.text == firstText[..|p.text|]
  {
    Prompt(SessionTitle, Take(firstText, 200))
  }

  /** The reply stripped, filtered to word, whitespace and hyphen characters
      and cut to 50 characters. */
  function SanitizeTitle(reply: string): (title: string)
    ensures AllTitleChars(title) && |title| <= 50
  {
    var kept := KeepTitleChars(Strip(reply));
    var title := Take(kept, 50);
    assert forall i :: 0 <= i < |title| ==> title[i] == kept[i];
    title
  }

  /** `_update_file_title`. `None` when reading the file raises (nothing has
      changed then). Otherwise the file is read in text mode, which turns
      its line ends into `"\n"`, the first `# ` line of that text becomes
      `# <title>`, the result is written back, and the file is renamed to
      the titled name when `renameOk`; a refused rename keeps the old
      path. */
  function UpdateFileTitle(s: Session, renameOk: bool): Option<Session> {
    if s.filepath !in s.files then None
    else
      var content := SubFirstHeading(TranslateNewlines(s.files[s.filepath]), "# " + s.title);
      var files := s.files[s.filepath := content];
      var newPath := JoinPath(s.outputDir, TitledName(s.start, s.title));
      if renameOk then Some(s.(files := Renamed(files, s.filepath, newPath), filepath := newPath))
      else Some(s.(files := files))
  }

  /** `_generate_title(first_text)`. One title prompt is sent. A service
      error leaves everything else as it was. Otherwise the title is set
      first; the file update follows, and if it raises the new title is kept
      with the file untouched (the same `except` swallows both). */
  function GenerateTitle(s: Session, firstText: string, complete: Complete, renameOk: bool): Session {
    var p := TitlePrompt(firstText);
    var asked := s.(requests := s.requests + [p]);
    match complete(p)
    case Failure(_) => asked
    case Success(reply) =>
      var titled := asked.(title := SanitizeTitle(reply));
      match UpdateFileTitle(titled, renameOk)
      case None => titled
      case Some(updated) => updated
  }

  /** `add_transcription(text, cleaned_text)` at time `now`: record the
      entry, append its block to the file, and infer the title when this is
      the first entry. */
  function AddTranscription(s: Session, text: string, cleaned: Option<string>, now: DateTime,
                            complete: Complete, renameOk: bool): Session {
    var entry := EntryText(text, cleaned);
    var time := TimeOfDay(now);
    var added := s.(transcriptions := s.transcriptions + [Transcription(time, text, entry)],
                    files := Appended(s.files, s.filepath, EntryBlock(time, entry)));
    if |added.transcriptions| == 1 then GenerateTitle(added, entry, complete, renameOk) else added
  }

  // ---------------------------------------------------------------------
  // Finalizing
  // ---------------------------------------------------------------------

  function CleanedTexts(entries: seq<Transcription>): (texts: seq<string>)
    ensures |texts| == |entries|
    ensures forall i :: 0 <= i < |entries| ==> texts[i] == entries[i].cleaned
  {
    if entries == [] then [] else [entries[0].cleaned] + CleanedTexts(entries[1..])
  }

  /** `"\n".join(t["cleaned"] for t in transcriptions)` */
  function AllText(s: Session): string {
    Join("\n", CleanedTexts(s.transcriptions))
  }

  /** What goes under the summary heading: the joined text as it is, the
      organized text stripped, or the failure marker and the joined text. */
  function SummaryBody(allText: string, organize: bool, reply: Result<string>): string {
    if !organize then allText
    else match reply
      case Success(organized) => Strip(organized)
      case Failure(e) => "(Organization failed: " + e + ")\n\n" + allText
  }

  /** The text `finalize` appends: the summary heading, the body and the
      closing footer. */
  function SummarySection(body: string, now: DateTime): string {
    SummaryHeading() + body + Footer(now)
  }

  /** The summary written in three appends is the whole section appended
      once. */
  lemma AppendedSummary(files: map<string, string>, path: string, body: string, now: DateTime)
    ensures Appended(Appended(Appended(files, path, SummaryHeading()), path, body), path, Footer(now))
            == Appended(files, path, SummarySection(body, now))
  {
    AppendedTwice(files, path, SummaryHeading(), body);
    AppendedTwice(files, path, SummaryHeading() + body, Footer(now));
  }

  /** `finalize(organize)` at time `now`. Without entries nothing happens
      and nothing is returned. Otherwise the summary section and the footer
      are appended and the current path is returned. */
  function Finalize(s: Session, organize: bool, now: DateTime, complete: Complete): (Session, Option<string>) {
    if s.transcriptions == [] then (s, None)
    else
      var allText := AllText(s);
      var p := Prompt(SessionOrganize, allText);
      var body := SummaryBody(allText, organize, complete(p));
      var requests := if organize then s.requests + [p] else s.requests;
      (s.(files := Appended(s.files, s.filepath, SummarySection(body, now)), requests := requests),
       Some(s.filepath))
  }

  // ---------------------------------------------------------------------
  // What holds of every session
  // ---------------------------------------------------------------------

  /** How many title prompts were sent. */
  function TitleRequests(requests: seq<Prompt>): nat {
    if requests == [] then 0
    else TitleRequests(requests[..|requests| - 1])
         + (if requests[|requests| - 1].template == SessionTitle then 1 else 0)
  }

  lemma TitleRequestsAppend(requests: seq<Prompt>, p: Prompt)
    ensures TitleRequests(requests + [p]) ==
            TitleRequests(requests) + (if p.template == SessionTitle then 1 else 0)
  {
    assert (requests + [p])[..|requests|] == requests;
  }


  /** A file opens with the header under `title` (what follows it is
      whatever has been appended since). */
  predicate Opens(title: string, start: DateTime, content: string) {
    HasPrefix(Header(title, start), content)
  }

  /** An opening file is its title line followed by the rest of the
      header and what was appended; the part after the title line starts a
      new line. */
  lemma OpensSplit(title: string, start: DateTime, c: string)
    requires Opens(title, start, c)
    ensures c == "# " + title + c[|"# " + title|..]
    ensures HasPrefix(HeaderRest(start), c[|"# " + title|..])
    ensures c[|"# " + title|..] != [] && c[|"# " + title|..][0] == '\n'
  {
    PrefixSplit("# " + title, HeaderRest(start), c);
  }

  lemma OpensJoin(title: string, start: DateTime, b: string)
    requires HasPrefix(HeaderRest(start), b)
    ensures Opens(title, start, "# " + title + b)
    ensures ("# " + title + b)[|"# " + title|..] == b
  {
    PrefixJoin("# " + title, HeaderRest(start), b);
  }

  /** Appending keeps a file opening with its header, and the part after
      the title line grows by exactly the appended text. */
  lemma OpensAppend(title: string, start: DateTime, c: string, x: string)
    requires Opens(title, start, c)
    ensures Opens(title, start, c + x)
    ensures (c + x)[|"# " + title|..] == c[|"# " + title|..] + x
  {
    PrefixOfAppend(Header(title, start), c, x);
  }

  /** The creation header after its title line holds no carriage return
      and ends a line. */
  lemma HeaderRestPlain(start: DateTime)
    ensures '\r' !in HeaderRest(start)
    ensures HeaderRest(start)[|HeaderRest(start)| - 1] == '\n'
  {
    MinuteStampPlain(start);
    HeaderTextsPlain();
    assert HeaderRest(start) == "\n\n**Session Started:** " + MinuteStamp(start) + RawHeading;
  }

  lemma MinuteStampPlain(start: DateTime)
    ensures '\r' !in MinuteStamp(start)
  {
    MinuteStampChars(start);
  }

  /** The fixed texts of the header hold no carriage return. */
  lemma HeaderTextsPlain()
    ensures '\r' !in "\n\n**Session Started:** "
    ensures '\r' !in RawHeading
  {
  }

  /** Reading the header back changes nothing in it: only what follows it
      has its line ends translated. */
  lemma ReadAfterHeaderRest(start: DateTime, x: string)
    ensures TranslateNewlines(HeaderRest(start) + x) == HeaderRest(start) + TranslateNewlines(x)
  {
    HeaderRestPlain(start);
    TranslateNewlinesAppend(HeaderRest(start), x);
    TranslateNewlinesPlain(HeaderRest(start));
  }

  /** A file that opens under the placeholder still does once read back,
      and what follows its title line is read back on its own. */
  lemma ReadOpens(start: DateTime, c: string)
    requires Opens(Placeholder, start, c)
    ensures Opens(Placeholder, start, TranslateNewlines(c))
    ensures TranslateNewlines(c)[|"# " + Placeholder|..] == TranslateNewlines(c[|"# " + Placeholder|..])
  {
    var line := "# " + Placeholder;
    var b := c[|line|..];
    OpensSplit(Placeholder, start, c);
    var x := b[|HeaderRest(start)|..];
    assert b == HeaderRest(start) + x;
    ReadAfterHeaderRest(start, x);
    assert '\r' !in line && line[|line| - 1] == 'n';
    TranslateNewlinesAppend(line, b);
    TranslateNewlinesPlain(line);
    assert HasPrefix(HeaderRest(start), TranslateNewlines(b));
    OpensJoin(Placeholder, start, TranslateNewlines(b));
  }

  /** Substituting the first heading of a file that opens under the
      placeholder replaces its title line and nothing else. */
  lemma OpensRetitle(start: DateTime, title: string, c: string)
    requires Opens(Placeholder, start, c)
    ensures SubFirstHeading(c, "# " + title) == "# " + title + c[|"# " + Placeholder|..]
    ensures Opens(title, start, "# " + title + c[|"# " + Placeholder|..])
    ensures ("# " + title + c[|"# " + Placeholder|..])[|"# " + title|..] == c[|"# " + Placeholder|..]
  {
    var b := c[|"# " + Placeholder|..];
    OpensSplit(Placeholder, start, c);
    assert '\n' !in Placeholder;
    SubFirstHeadingAtStart(Placeholder, b, "# " + title);
    OpensJoin(title, start, b);
  }

  /** The invariant of every session: its file exists and opens with the
      header under the current title; before the first entry the title is
      the placeholder, the path provisional and the file the header alone;
      exactly one title prompt has been sent once there is an entry, none
      before; and the path is the provisional or the titled one. */
  predicate Inv(s: Session) {
    && s.filepath in s.files
    && Opens(s.title, s.start, s.files[s.filepath])
    && (s.transcriptions == [] ==>
          && s.title == Placeholder && s.filepath == JoinPath(s.outputDir, ProvisionalName(s.start))
          && s.files[s.filepath] == Header(Placeholder, s.start))
    && TitleRequests(s.requests) == (if s.transcriptions == [] then 0 else 1)
    && (s.filepath == JoinPath(s.outputDir, ProvisionalName(s.start))
        || s.filepath == JoinPath(s.outputDir, TitledName(s.start, s.title)))
  }

  /** The document after its title line. */
  function Body(s: Session): string
    requires Inv(s)
  {
    s.files[s.filepath][|"# " + s.title|..]
  }

  /** The file is its title line followed by its body, and the body opens
      with the rest of the creation header. */
  lemma TitleLineThenBody(s: Session)
    requires Inv(s)
    ensures s.files[s.filepath] == "# " + s.title + Body(s)
    ensures HasPrefix(HeaderRest(s.start), Body(s))
  {
    OpensSplit(s.title, s.start, s.files[s.filepath]);
  }

  lemma CreateInv(outputDir: Option<string>, now: DateTime, files: map<string, string>)
    ensures Inv(Create(outputDir, now, files))
    ensures Body(Create(outputDir, now, files)) == HeaderRest(now)
  {
    var s := Create(outputDir, now, files);
    var h := Header(Placeholder, now);
    assert h[..|h|] == h;
    OpensSplit(Placeholder, now, h);
  }

  /** The title step of the first entry when the service answers: the
      title is the sanitized reply, the file is read back (its line ends
      translated), its title line alone is rewritten, and it moves to the
      titled path when the rename succeeds. */
  lemma TitleReplyKeepsInv(s: Session, reply: string, renameOk: bool)
    requires s.filepath in s.files && Opens(Placeholder, s.start, s.files[s.filepath])
    requires s.transcriptions != [] && TitleRequests(s.requests) == 1
    requires s.filepath == JoinPath(s.outputDir, ProvisionalName(s.start))
    ensures var titled := s.(title := SanitizeTitle(reply));
            var r := UpdateFileTitle(titled, renameOk);
            && r.Some?
            && Inv(r.value)
            && Body(r.value) == TranslateNewlines(s.files[s.filepath][|"# " + Placeholder|..])
            && r.value == s.(title := SanitizeTitle(reply), files := r.value.files, filepath := r.value.filepath)
            && (renameOk ==> r.value.filepath == JoinPath(s.outputDir, TitledName(s.start, r.value.title)))
            && (!renameOk ==> r.value.filepath == s.filepath)
            && forall p :: p != s.filepath && p != r.value.filepath ==>
                 (p in r.value.files <==> p in s.files) && (p in s.files ==> r.value.files[p] == s.files[p])
  {
    if renameOk {
      TitleReplyRenamed(s, reply);
      var title := SanitizeTitle(reply);
      var content := "# " + title + TranslateNewlines(s.files[s.filepath][|"# " + Placeholder|..]);
      RewrittenThenRenamed(s.files, s.filepath, content, JoinPath(s.outputDir, TitledName(s.start, title)));
    } else {
      TitleReplyKept(s, reply);
    }
  }

  /** The title step when the rename succeeds: the retitled file moves to
      the titled path. */
  lemma TitleReplyRenamed(s: Session, reply: string)
    requires s.filepath in s.files && Opens(Placeholder, s.start, s.files[s.filepath])
    requires s.transcriptions != [] && TitleRequests(s.requests) == 1
    ensures var title := SanitizeTitle(reply);
            var b := TranslateNewlines(s.files[s.filepath][|"# " + Placeholder|..]);
            var newPath := JoinPath(s.outputDir, TitledName(s.start, title));
            var r := s.(title := title, files := Renamed(s.files[s.filepath := "# " + title + b], s.filepath, newPath),
                        filepath := newPath);
            && UpdateFileTitle(s.(title := title), true) == Some(r)
            && Inv(r) && Body(r) == b
  {
    var title := SanitizeTitle(reply);
    var b := ReadRetitled(s.start, s.files[s.filepath], title);
    var content := "# " + title + b;
    var files := s.files[s.filepath := content];
    var newPath := JoinPath(s.outputDir, TitledName(s.start, title));
    UpdateFileTitleRenamed(s.(title := title), content);
    var r := s.(title := title, files := Renamed(files, s.filepath, newPath), filepath := newPath);
    RetitledInv(r, b);
  }

  /** When the file can be read and the rename succeeds, the title update
      rewrites the heading of the text read and moves the file to the
      titled path. */
  lemma UpdateFileTitleRenamed(t: Session, content: string)
    requires t.filepath in t.files && SubFirstHeading(TranslateNewlines(t.files[t.filepath]), "# " + t.title) == content
    ensures var newPath := JoinPath(t.outputDir, TitledName(t.start, t.title));
            UpdateFileTitle(t, true)
            == Some(t.(files := Renamed(t.files[t.filepath := content], t.filepath, newPath), filepath := newPath))
  {
  }

  /** When the file can be read and the rename is refused, the title
      update rewrites the heading of the text read and keeps the path. */
  lemma UpdateFileTitleKept(t: Session, content: string)
    requires t.filepath in t.files && SubFirstHeading(TranslateNewlines(t.files[t.filepath]), "# " + t.title) == content
    ensures UpdateFileTitle(t, false) == Some(t.(files := t.files[t.filepath := content]))
  {
  }

  /** A file that opens under the placeholder, read back and given a new
      title line: the title line followed by the rest read back, which
      still opens with the rest of the header. */
  lemma ReadRetitled(start: DateTime, c: string, title: string) returns (b: string)
    requires Opens(Placeholder, start, c)
    ensures b == TranslateNewlines(c[|"# " + Placeholder|..])
    ensures SubFirstHeading(TranslateNewlines(c), "# " + title) == "# " + title + b
    ensures HasPrefix(HeaderRest(start), b)
  {
    ReadOpens(start, c);
    var u := TranslateNewlines(c);
    b := u[|"# " + Placeholder|..];
    OpensRetitle(start, title, u);
    OpensSplit(title, start, "# " + title + b);
  }

  /** The title step when the rename is refused: the retitled file keeps
      its provisional path. */
  lemma TitleReplyKept(s: Session, reply: string)
    requires s.filepath in s.files && Opens(Placeholder, s.start, s.files[s.filepath])
    requires s.transcriptions != [] && TitleRequests(s.requests) == 1
    requires s.filepath == JoinPath(s.outputDir, ProvisionalName(s.start))
    ensures var title := SanitizeTitle(reply);
            var b := TranslateNewlines(s.files[s.filepath][|"# " + Placeholder|..]);
            var r := s.(title := title, files := s.files[s.filepath := "# " + title + b]);
            && UpdateFileTitle(s.(title := title), false) == Some(r)
            && Inv(r) && Body(r) == b
  {
    var title := SanitizeTitle(reply);
    var b := ReadRetitled(s.start, s.files[s.filepath], title);
    UpdateFileTitleKept(s.(title := title), "# " + title + b);
    var r := s.(title := title, files := s.files[s.filepath := "# " + title + b]);
    RetitledInv(r, b);
  }

  /** A session with an entry, one title prompt and a file made of the
      title line and a body that opens with the rest of the header keeps
      the invariant, with that body. */
  lemma RetitledInv(r: Session, b: string)
    requires r.filepath in r.files && r.files[r.filepath] == "# " + r.title + b
    requires HasPrefix(HeaderRest(r.start), b)
    requires r.transcriptions != [] && TitleRequests(r.requests) == 1
    requires r.filepath == JoinPath(r.outputDir, ProvisionalName(r.start))
             || r.filepath == JoinPath(r.outputDir, TitledName(r.start, r.title))
    ensures Inv(r) && Body(r) == b
  {
    OpensJoin(r.title, r.start, b);
  }

  /** The title step on a session whose first entry has just been
      appended: one title prompt is sent; a failing service leaves the
      placeholder title, the path and the file as they were; an answer sets
      the title to the sanitized reply, reads the file back (translating
      its line ends), rewrites the title line and moves the file to the
      titled path when the rename succeeds. Either way the invariant holds
      again. */
  lemma GenerateTitleKeepsInv(t: Session, firstText: string, complete: Complete, renameOk: bool)
    requires t.filepath in t.files && Opens(Placeholder, t.start, t.files[t.filepath])
    requires t.transcriptions != [] && TitleRequests(t.requests) == 0 && t.title == Placeholder
    requires t.filepath == JoinPath(t.outputDir, ProvisionalName(t.start))
    ensures var r := GenerateTitle(t, firstText, complete, renameOk);
            var reply := complete(TitlePrompt(firstText));
            && Inv(r)
            && Body(r) == (if reply.Success? then TranslateNewlines(t.files[t.filepath][|"# " + Placeholder|..])
                           else t.files[t.filepath][|"# " + Placeholder|..])
            && r == t.(requests := t.requests + [TitlePrompt(firstText)],
                       title := r.title, files := r.files, filepath := r.filepath)
            && (reply.Failure? ==> r.title == Placeholder && r.filepath == t.filepath && r.files == t.files)
            && (reply.Success? ==> r.title == SanitizeTitle(reply.value))
            && (reply.Success? && renameOk ==>
                  r.filepath == JoinPath(t.outputDir, TitledName(t.start, r.title)))
            && (reply.Success? && !renameOk ==> r.filepath == t.filepath)
            && forall p :: p != t.filepath && p != r.filepath ==>
                 (p in r.files <==> p in t.files) && (p in t.files ==> r.files[p] == t.files[p])
  {
    var p := TitlePrompt(firstText);
    TitleRequestsAppend(t.requests, p);
    var asked := t.(requests := t.requests + [p]);
    match complete(p)
    case Failure(_) =>
    case Success(reply) =>
      TitleReplyKeepsInv(asked, reply, renameOk);
  }

  /** The first entry: its block is appended under the placeholder title,
      then the title step runs; the body grows by exactly the block, which
      the title step reads back with its line ends translated when the
      service answered. */
  lemma FirstEntryTitle(s: Session, block: string, entry: Transcription,
                        complete: Complete, renameOk: bool)
    requires Inv(s) && s.transcriptions == []
    ensures var added := s.(transcriptions := [entry], files := Appended(s.files, s.filepath, block));
            var r := GenerateTitle(added, entry.cleaned, complete, renameOk);
            && Inv(r)
            && Body(r) == Body(s) + (if complete(TitlePrompt(entry.cleaned)).Success? then TranslateNewlines(block)
                                     else block)
            && r == s.(transcriptions := [entry], requests := s.requests + [TitlePrompt(entry.cleaned)],
                       title := r.title, files := r.files, filepath := r.filepath)
  {
    var c := s.files[s.filepath];
    OpensAppend(Placeholder, s.start, c, block);
    OpensSplit(Placeholder, s.start, c);
    assert Body(s) == HeaderRest(s.start);
    ReadAfterHeaderRest(s.start, block);
    var added := s.(transcriptions := [entry], files := s.files[s.filepath := c + block]);
    GenerateTitleKeepsInv(added, entry.cleaned, complete, renameOk);
  }

  /** Adding an entry keeps the invariant; the file's body grows by exactly
      the entry's block (the first one read back with its line ends
      translated when the title service answered); the entry list grows by
      exactly this entry; and
      only the first entry asks for a title, so from the second entry on the
      title, the path and the file's earlier content stay as they were. */
  lemma AddTranscriptionKeepsInv(s: Session, text: string, cleaned: Option<string>, now: DateTime,
                                 complete: Complete, renameOk: bool)
    requires Inv(s)
    ensures var r := AddTranscription(s, text, cleaned, now, complete, renameOk);
            var entry := EntryText(text, cleaned);
            && Inv(r)
            && r == s.(transcriptions := s.transcriptions + [Transcription(TimeOfDay(now), text, entry)],
                       requests := r.requests, title := r.title, files := r.files, filepath := r.filepath)
            && Body(r) == Body(s) + (if s.transcriptions == [] && complete(TitlePrompt(entry)).Success?
                                     then TranslateNewlines(EntryBlock(TimeOfDay(now), entry))
                                     else EntryBlock(TimeOfDay(now), entry))
            && (s.transcriptions == [] ==> r.requests == s.requests + [TitlePrompt(entry)])
            && (s.transcriptions != [] ==>
                  && r.requests == s.requests && r.title == s.title && r.filepath == s.filepath
                  && r.files == s.files[s.filepath := s.files[s.filepath] + EntryBlock(TimeOfDay(now), entry)])
  {
    if s.transcriptions == [] {
      AddFirst(s, text, cleaned, now, complete, renameOk);
    } else {
      AddLater(s, text, cleaned, now, complete, renameOk);
    }
  }

  lemma AddFirst(s: Session, text: string, cleaned: Option<string>, now: DateTime,
                 complete: Complete, renameOk: bool)
    requires Inv(s) && s.transcriptions == []
    ensures var r := AddTranscription(s, text, cleaned, now, complete, renameOk);
            var entry := EntryText(text, cleaned);
            && Inv(r)
            && r == s.(transcriptions := [Transcription(TimeOfDay(now), text, entry)],
                       requests := s.requests + [TitlePrompt(entry)],
                       title := r.title, files := r.files, filepath := r.filepath)
            && Body(r) == Body(s) + (if complete(TitlePrompt(entry)).Success?
                                     then TranslateNewlines(EntryBlock(TimeOfDay(now), entry))
                                     else EntryBlock(TimeOfDay(now), entry))
  {
    var entry := EntryText(text, cleaned);
    var t := Transcription(TimeOfDay(now), text, entry);
    var block := EntryBlock(TimeOfDay(now), entry);
    var added := s.(transcriptions := [t], files := Appended(s.files, s.filepath, block));
    assert AddTranscription(s, text, cleaned, now, complete, renameOk)
           == GenerateTitle(added, t.cleaned, complete, renameOk);
    FirstEntryTitle(s, block, t, complete, renameOk);
  }

  lemma AddLater(s: Session, text: string, cleaned: Option<string>, now: DateTime,
                 complete: Complete, renameOk: bool)
    requires Inv(s) && s.transcriptions != []
    ensures var r := AddTranscription(s, text, cleaned, now, complete, renameOk);
            var block := EntryBlock(TimeOfDay(now), EntryText(text, cleaned));
            && Inv(r)
            && r == s.(transcriptions := s.transcriptions + [Transcription(TimeOfDay(now), text, EntryText(text, cleaned))],
                       files := s.files[s.filepath := s.files[s.filepath] + block])
            && Body(r) == Body(s) + block
  {
    OpensAppend(s.title, s.start, s.files[s.filepath], EntryBlock(TimeOfDay(now), EntryText(text, cleaned)));
  }

  /** Finalizing keeps the invariant. Without entries it changes nothing
      and returns nothing; otherwise the body grows by the summary section,
      nothing else about the session changes, the current path is returned,
      and no title is requested. */
  lemma FinalizeKeepsInv(s: Session, organize: bool, now: DateTime, complete: Complete)
    requires Inv(s)
    ensures var (r, path) := Finalize(s, organize, now, complete);
            && Inv(r)
            && (s.transcriptions == [] ==> r == s && path == None)
            && (s.transcriptions != [] ==>
                  && path == Some(s.filepath)
                  && r == s.(files := r.files, requests := r.requests)
                  && TitleRequests(r.requests) == TitleRequests(s.requests)
                  && Body(r) == Body(s) + SummarySection(
                       SummaryBody(AllText(s), organize, complete(Prompt(SessionOrganize, AllText(s)))), now))
  {
    if s.transcriptions != [] {
      var p := Prompt(SessionOrganize, AllText(s));
      var text := SummarySection(SummaryBody(AllText(s), organize, complete(p)), now);
      TitleRequestsAppend(s.requests, p);
      OpensAppend(s.title, s.start, s.files[s.filepath], text);
    }
  }

  /** There is no finalized state: finalizing again appends a second
      summary section, built from the same entries. */
  lemma FinalizeTwice(s: Session, organize1: bool, now1: DateTime, complete1: Complete,
                      organize2: bool, now2: DateTime, complete2: Complete)
    requires Inv(s) && s.transcriptions != []
    ensures var r1 := Finalize(s, organize1, now1, complete1).0;
            var r2 := Finalize(r1, organize2, now2, complete2).0;
            var p := Prompt(SessionOrganize, AllText(s));
            && Inv(r2)
            && Finalize(r1, organize2, now2, complete2).1 == Some(s.filepath)
            && Body(r2) == Body(s)
                           + SummarySection(SummaryBody(AllText(s), organize1, complete1(p)), now1)
                           + SummarySection(SummaryBody(AllText(s), organize2, complete2(p)), now2)
  {
    var r1 := Finalize(s, organize1, now1, complete1).0;
    FinalizeKeepsInv(s, organize1, now1, complete1);
    assert AllText(r1) == AllText(s);
    FinalizeKeepsInv(r1, organize2, now2, complete2);
  }

  // ---------------------------------------------------------------------
  // Whole lifetimes
  // ---------------------------------------------------------------------

  /** A call a caller can make on a session. */
  datatype Op =
    | Add(text: string, cleaned: Option<string>, now: DateTime, complete: Complete, renameOk: bool)
    | Close(organize: bool, now: DateTime, complete: Complete)

  function Apply(s: Session, op: Op): Session {
    match op
    case Add(text, cleaned, now, complete, renameOk) => AddTranscription(s, text, cleaned, now, complete, renameOk)
    case Close(organize, now, complete) => Finalize(s, organize, now, complete).0
  }

  /** The session after the calls `ops`, in order. */
  function Run(s: Session, ops: seq<Op>): Session
    decreases |ops|
  {
    if ops == [] then s else Run(Apply(s, ops[0]), ops[1..])
  }

  /** How a session may evolve from `s` to `r`: the invariant holds at
      both ends, the start time and the output directory stay, the body
      after the title line only grows at its end, no entry is dropped, and
      once there is an entry the title and the path stay as they are. */
  predicate Grows(s: Session, r: Session) {
    && Inv(s) && Inv(r)
    && r.start == s.start && r.outputDir == s.outputDir
    && HasPrefix(Body(s), Body(r))
    && |r.transcriptions| >= |s.transcriptions|
    && (s.transcriptions != [] ==> r.title == s.title && r.filepath == s.filepath)
  }

  lemma {:induction false} GrowsTransitive(s: Session, m: Session, r: Session)
    requires Grows(s, m) && Grows(m, r)
    ensures Grows(s, r)
  {
    var b0, b1, b2 := Body(s), Body(m), Body(r);
    assert b2[..|b0|] == b2[..|b1|][..|b0|];
  }

  lemma AddGrows(s: Session, text: string, cleaned: Option<string>, now: DateTime,
                 complete: Complete, renameOk: bool)
    requires Inv(s)
    ensures Grows(s, AddTranscription(s, text, cleaned, now, complete, renameOk))
  {
    AddTranscriptionKeepsInv(s, text, cleaned, now, complete, renameOk);
    var entry := EntryText(text, cleaned);
    var block := EntryBlock(TimeOfDay(now), entry);
    PrefixOfAppend(Body(s), Body(s),
                   if s.transcriptions == [] && complete(TitlePrompt(entry)).Success?
                   then TranslateNewlines(block) else block);
  }

  lemma CloseGrows(s: Session, organize: bool, now: DateTime, complete: Complete)
    requires Inv(s)
    ensures Grows(s, Finalize(s, organize, now, complete).0)
  {
    FinalizeKeepsInv(s, organize, now, complete);
    if s.transcriptions != [] {
      var p := Prompt(SessionOrganize, AllText(s));
      PrefixOfAppend(Body(s), Body(s), SummarySection(SummaryBody(AllText(s), organize, complete(p)), now));
    } else {
      assert Body(s)[..|Body(s)|] == Body(s);
    }
  }

  /** Every call a caller can make keeps a session growing. */
  lemma ApplyGrows(s: Session, op: Op)
    requires Inv(s)
    ensures Grows(s, Apply(s, op))
  {
    match op
    case Add(text, cleaned, now, complete, renameOk) =>
      AddGrows(s, text, cleaned, now, complete, renameOk);
    case Close(organize, now, complete) =>
      CloseGrows(s, organize, now, complete);
  }

  /** Over any sequence of calls the session keeps growing: the invariant
      holds throughout and the document after its title line only ever
      grows by appending. */
  lemma {:induction false} RunGrows(s: Session, ops: seq<Op>)
    requires Inv(s)
    ensures Grows(s, Run(s, ops))
    decreases |ops|
  {
    if ops == [] {
      assert Body(s)[..|Body(s)|] == Body(s);
    } else {
      var next := Apply(s, ops[0]);
      ApplyGrows(s, ops[0]);
      RunGrows(next, ops[1..]);
      GrowsTransitive(s, next, Run(next, ops[1..]));
    }
  }

  /** Over a session's whole life the title is asked for exactly once if an
      entry was ever added and never otherwise, and the file always opens
      with the creation header under the current title, followed only by
      appended text. */
  lemma TitleInferredOnce(outputDir: Option<string>, now: DateTime, files: map<string, string>, ops: seq<Op>)
    ensures var s := Run(Create(outputDir, now, files), ops);
            && TitleRequests(s.requests) == (if s.transcriptions == [] then 0 else 1)
            && s.filepath in s.files
            && HasPrefix(Header(s.title, now), s.files[s.filepath])
  {
    var s0 := Create(outputDir, now, files);
    CreateInv(outputDir, now, files);
    RunGrows(s0, ops);
  }

  /** Once a session has an entry its title and path never change again. */
  lemma TitleFixedAfterFirstEntry(s: Session, ops: seq<Op>)
    requires Inv(s) && s.transcriptions != []
    ensures Run(s, ops).title == s.title && Run(s, ops).filepath == s.filepath
  {
    RunGrows(s, ops);
  }
}
