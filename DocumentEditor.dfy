/** The document editor: a whole document and an edit mode go in, the
    mode's template is sent to the completion service, and the stripped
    reply comes out; `edit_file` wraps this in a read, an optional backup
    and a write of the result under a provenance header. */
module DocumentEditor {
  import opened Wrappers
  import opened Strings
  import opened Clock
  import opened Completion
  import opened FileSystem

  /** The `EDIT_PROMPTS` table, in declaration order. */
  const EditPrompts: seq<PromptEntry> := [
    PromptEntry("organize", Some(Document("organize"))),
    PromptEntry("professional", Some(Document("professional"))),
    PromptEntry("summarize", Some(Document("summarize"))),
    PromptEntry("action_items", Some(Document("action_items")))
  ]

  /** The modes `EDIT_PROMPTS` has a template for. */
  const EditModes: seq<string> := ["organize", "professional", "summarize", "action_items"]

  /** `EDIT_PROMPTS.get(mode)` */
  function EditPrompt(mode: string): Option<TemplateId> {
    match Lookup(EditPrompts, mode)
    case Some(template) => template
    case None => None
  }

  /** The table gives each of the four editing modes its own template and
      has no other key. */
  lemma EditPromptsLookup(mode: string)
    ensures mode in EditModes ==> EditPrompt(mode) == Some(Document(mode))
    ensures mode !in EditModes ==> EditPrompt(mode) == None
  {
    var t := EditPrompts;
    if mode !in EditModes {
      assert mode != "organize" && mode != "professional" && mode != "summarize" && mode != "action_items";
      assert Lookup(t, mode) == Lookup(t[1..], mode) == Lookup(t[2..], mode)
          == Lookup(t[3..], mode) == Lookup(t[4..], mode);
    }
  }

  /** The state the single-node editing graph passes along. */
  datatype DocumentState = DocumentState(content: string, editMode: string, result: string)

  /** The graph's only node, `edit_document`, with its partial update merged
      into the state: an unknown mode copies the content to `result`
      unchanged; a known mode stores the service's stripped reply there, and
      a service error propagates out of the graph. Nothing but `result`
      changes. */
  function EditDocument(state: DocumentState, complete: Complete): (r: Result<DocumentState>)
    ensures r.Success? ==> r.value.content == state.content && r.value.editMode == state.editMode
    ensures state.editMode !in EditModes ==> r == Success(state.(result := state.content))
    ensures state.editMode in EditModes ==>
              (r.Success? <==> complete(Prompt(Document(state.editMode), state.content)).Success?)
    ensures state.editMode in EditModes && r.Success? ==>
              r.value.result == Strip(complete(Prompt(Document(state.editMode), state.content)).value)
  {
    EditPromptsLookup(state.editMode);
    match EditPrompt(state.editMode)
    case None => Success(state.(result := state.content))
    case Some(template) =>
      match complete(Prompt(template, state.content))
      case Success(reply) => Success(state.(result := Strip(reply)))
      case Failure(e) => Failure(e)
  }

  /** `DocumentEditor.edit(content, mode)`: run the graph from a state with
      an empty result and read the result back. An unknown mode returns the
      content as it is (not stripped, even when blank); a known mode returns
      the stripped reply, so it has no outer whitespace; blank content is
      sent to the service like any other. */
  function Edit(content: string, mode: string, complete: Complete): (r: Result<string>)
    ensures mode !in EditModes ==> r == Success(content)
    ensures mode in EditModes ==>
              (r.Success? <==> complete(Prompt(Document(mode), content)).Success?)
    ensures mode in EditModes && r.Success? ==>
              r.value == Strip(complete(Prompt(Document(mode), content)).value) && Stripped(r.value)
    ensures r.Failure? ==> r == complete(Prompt(Document(mode), content))
  {
    match EditDocument(DocumentState(content, mode, ""), complete)
    case Success(state) => Success(state.result)
    case Failure(e) => Failure(e)
  }

  /** `available_modes`: the keys of `EDIT_PROMPTS`, in order. */
  function AvailableModes(): (modes: seq<string>)
    ensures modes == ["organize", "professional", "summarize", "action_items"]
  {
    Keys(EditPrompts)
  }

  /** A mode is listed exactly when it has an editing template. */
  lemma AvailableModesHaveTemplates(mode: string)
    ensures mode in AvailableModes() <==> EditPrompt(mode).Some?
  {
    EditPromptsLookup(mode);
  }

  /** An output path counts as given when it is a non-empty string
      (`output_path or filepath`). */
  predicate Given(outputPath: Option<string>) {
    outputPath.Some? && outputPath.value != ""
  }

  /** Where the edited document is written. */
  function Destination(filepath: string, outputPath: Option<string>): (dest: string)
    ensures Given(outputPath) ==> dest == outputPath.value
    ensures !Given(outputPath) ==> dest == filepath
  {
    if Given(outputPath) then outputPath.value else filepath
  }

  /** A backup is made only when asked for and when the original is about to
      be overwritten. */
  predicate WantsBackup(outputPath: Option<string>, backup: bool) {
    backup && !Given(outputPath)
  }

  function BackupPath(filepath: string): string {
    filepath + ".backup"
  }

  /** The first line of the provenance header: when the edit was saved. */
  function EditedLine(now: DateTime): string {
    "# Document edited: " + MinuteStamp(now) + "\n"
  }

  /** The second line of the provenance header, and a blank line. */
  function ModeLine(mode: string): string {
    "# Edit mode: " + mode + "\n\n"
  }

  /** The provenance header put in front of the edited text. */
  function EditHeader(now: DateTime, mode: string): string {
    EditedLine(now) + ModeLine(mode)
  }

  /** The files after the optional backup step. */
  function AfterBackup(files: map<string, string>, filepath: string, content: string,
                       outputPath: Option<string>, backup: bool): (r: map<string, string>)
    ensures WantsBackup(outputPath, backup) ==> r == files[BackupPath(filepath) := content]
    ensures !WantsBackup(outputPath, backup) ==> r == files
  {
    if WantsBackup(outputPath, backup) then files[BackupPath(filepath) := content] else files
  }

  /** `DocumentEditor.edit_file(filepath, mode, output_path, backup)`.
      A missing file raises before anything is written. The file is read
      in text mode, so its line ends come back as `"\n"`, and that text is
      what the rest sees. Blank content returns `""` and writes nothing.
      Otherwise the backup (if wanted) is written first, then the content
      is edited; a service error propagates with the backup already on
      disk; on success the destination receives the header followed by the
      edited text, and the edited text alone is returned. No other file
      changes. */
  method EditFile(disk: Disk, filepath: string, mode: string, outputPath: Option<string>,
                  backup: bool, now: DateTime, complete: Complete) returns (r: Result<string>)
    modifies disk
    ensures filepath !in old(disk.files) ==> r.Failure? && disk.files == old(disk.files)
    ensures filepath in old(disk.files) && AllSpace(TranslateNewlines(old(disk.files)[filepath])) ==>
              r == Success("") && disk.files == old(disk.files)
    ensures filepath in old(disk.files) && !AllSpace(TranslateNewlines(old(disk.files)[filepath])) ==>
              var content := TranslateNewlines(old(disk.files)[filepath]);
              var backedUp := AfterBackup(old(disk.files), filepath, content, outputPath, backup);
              r == Edit(content, mode, complete)
              && (r.Failure? ==> disk.files == backedUp)
              && (r.Success? ==>
                    disk.files == backedUp[Destination(filepath, outputPath) := EditHeader(now, mode) + r.value])
  {
    var read := disk.Read(filepath);
    if read.Failure? {
      return Failure(read.error);
    }
    var content := read.value;
    if Strip(content) == "" {
      return Success("");
    }
    if backup && !Given(outputPath) {
      disk.Write(BackupPath(filepath), content);
    }
    r := Edit(content, mode, complete);
    if r.Failure? {
      return;
    }
    var savePath := if Given(outputPath) then outputPath.value else filepath;
    var header := EditedLine(now);
    header := header + ModeLine(mode);
    disk.Write(savePath, header + r.value);
  }
}
