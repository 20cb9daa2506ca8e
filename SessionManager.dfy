/** `SessionManager`: one dictation session, its entries, its title and
    the Markdown file it keeps up to date. Each method changes the fields
    and the file system exactly as the matching function of `SessionSpec`
    says, so every property proved there holds of the object. */
module SessionManager {
  import opened Wrappers
  import opened Strings
  import opened Clock
  import opened Completion
  import opened FileSystem
  import opened SessionSpec

  class SessionManager {
    const outputDir: string
    const sessionStart: DateTime
    /** The file system the session writes to. */
    const disk: Disk
    var transcriptions: seq<Transcription>
    var title: string
    var filepath: string
    /** Every prompt sent to the completion service, in order. */
    ghost var requests: seq<Prompt>

    /** The object and its file system as one value. */
    ghost function State(): Session
      reads this, disk
    {
      Session(outputDir, sessionStart, transcriptions, title, filepath, disk.files, requests)
    }

    ghost predicate Valid()
      reads this, disk
    {
      Inv(State())
    }

    /** `SessionManager(output_dir)` at time `now`: resolve the directory,
        start with the placeholder title and no entries, and create the
        session file. */
    constructor (outputDir: Option<string>, now: DateTime, disk: Disk)
      modifies disk
      ensures this.disk == disk
      ensures State() == Create(outputDir, now, old(disk.files))
      ensures Valid()
    {
      this.outputDir := ResolveOutputDir(outputDir);
      this.sessionStart := now;
      this.disk := disk;
      this.transcriptions := [];
      this.title := Placeholder;
      this.filepath := "";
      this.requests := [];
      new;
      CreateSessionFile();
      CreateInv(outputDir, now, old(disk.files));
    }

    /** `_create_session_file`: the provisional path, written with the
        header alone. */
    method CreateSessionFile()
      modifies this, disk
      ensures State() == WithSessionFile(old(State()))
    {
      filepath := JoinPath(outputDir, ProvisionalName(sessionStart));
      disk.Write(filepath, "# " + title + HeaderRest(sessionStart));
    }

    /** `add_transcription(text, cleaned_text)` at time `now`. */
    method AddTranscription(text: string, cleaned: Option<string>, now: DateTime,
                            complete: Complete, renameOk: bool)
      modifies this, disk
      ensures State() == SessionSpec.AddTranscription(old(State()), text, cleaned, now, complete, renameOk)
      ensures old(Valid()) ==> Valid()
    {
      ghost var s0 := State();
      var timestamp := TimeOfDay(now);
      var entry := if cleaned.Some? && cleaned.value != "" then cleaned.value else text;
      transcriptions := transcriptions + [Transcription(timestamp, text, entry)];
      disk.Append(filepath, "**[" + timestamp + "]** " + entry + "\n\n");
      ghost var added := State();
      assert added == s0.(transcriptions := s0.transcriptions + [Transcription(timestamp, text, entry)],
                          files := Appended(s0.files, s0.filepath, EntryBlock(timestamp, entry)));
      if |transcriptions| == 1 {
        GenerateTitle(entry, complete, renameOk);
      }
      if Inv(s0) {
        AddTranscriptionKeepsInv(s0, text, cleaned, now, complete, renameOk);
      }
    }

    /** `_generate_title(first_text)`: one title prompt; on an answer the
        title is set, then the file is updated, and a failure of that update
        is swallowed. */
    method GenerateTitle(firstText: string, complete: Complete, renameOk: bool)
      modifies this, disk
      ensures State() == SessionSpec.GenerateTitle(old(State()), firstText, complete, renameOk)
    {
      var prompt := Prompt(SessionTitle, Take(firstText, 200));
      requests := requests + [prompt];
      var reply := complete(prompt);
      if reply.Success? {
        title := Strip(reply.value);
        title := Take(KeepTitleChars(title), 50);
        ghost var titled := State();
        assert titled == old(State()).(requests := requests, title := SanitizeTitle(reply.value));
        var _ := UpdateFileTitle(renameOk);
      }
    }

    /** `_update_file_title`: `raised` when reading the file fails, and then
        nothing has changed. */
    method UpdateFileTitle(renameOk: bool) returns (raised: bool)
      modifies this, disk
      ensures raised <==> SessionSpec.UpdateFileTitle(old(State()), renameOk).None?
      ensures raised ==> State() == old(State())
      ensures !raised ==> State() == SessionSpec.UpdateFileTitle(old(State()), renameOk).value
    {
      var read := disk.Read(filepath);
      if read.Failure? {
        return true;
      }
      var content := SubFirstHeading(read.value, "# " + title);
      disk.Write(filepath, content);
      var timestamp := FileStamp(sessionStart);
      var safeTitle := Take(ReplaceChar(KeepTitleChars(title), ' ', '_'), 30);
      var newPath := JoinPath(outputDir, timestamp + "_" + safeTitle + ".md");
      var renamed := disk.Rename(filepath, newPath, renameOk);
      if renamed {
        filepath := newPath;
      }
      return false;
    }

    /** `finalize(organize)` at time `now`. */
    method Finalize(organize: bool, now: DateTime, complete: Complete) returns (path: Option<string>)
      modifies this, disk
      ensures State() == SessionSpec.Finalize(old(State()), organize, now, complete).0
      ensures path == SessionSpec.Finalize(old(State()), organize, now, complete).1
      ensures old(Valid()) ==> Valid()
    {
      ghost var s0 := State();
      if transcriptions == [] {
        return None;
      }
      var allText := Join("\n", CleanedTexts(transcriptions));
      WriteSummary(allText, organize, now, complete);
      path := Some(filepath);
      if Inv(s0) {
        FinalizeKeepsInv(s0, organize, now, complete);
      }
    }

    /** The body of `finalize` once the joined text is known: the summary
        heading, the organized text (or the failure marker and the joined
        text, or the joined text alone), and the footer, appended in turn. */
    method WriteSummary(allText: string, organize: bool, now: DateTime, complete: Complete)
      modifies this, disk
      ensures var prompt := Prompt(SessionOrganize, allText);
              && disk.files == Appended(old(disk.files), filepath,
                                        SummarySection(SummaryBody(allText, organize, complete(prompt)), now))
              && requests == (if organize then old(requests) + [prompt] else old(requests))
      ensures transcriptions == old(transcriptions) && title == old(title) && filepath == old(filepath)
    {
      ghost var files0 := disk.files;
      disk.Append(filepath, SummaryHeading());
      var body: string;
      if organize {
        var prompt := Prompt(SessionOrganize, allText);
        requests := requests + [prompt];
        var reply := complete(prompt);
        match reply
        case Success(organized) =>
          body := Strip(organized);
        case Failure(e) =>
          body := "(Organization failed: " + e + ")\n\n" + allText;
      } else {
        body := allText;
      }
      disk.Append(filepath, body);
      disk.Append(filepath, Footer(now));
      AppendedSummary(files0, filepath, body, now);
    }
  }
}
