# Benedict voice dictation: a verified model of the text pipeline and the session document

Benedict is a local voice-dictation tool. An utterance is transcribed. It is then put through a prompt mode by the text processor. The session manager appends the result to a Markdown session document. The session manager also asks a local language model for a title after the first entry. It renames the file to carry that title. When the session ends it appends a summary. A document editor rewrites whole documents in one of four styles. The browser lists the session files newest first and reads a date and a title back out of each file name.

This project models those parts in Dafny and proves what they promise:

- `Wrappers.dfy`: the `Option` and `Result` types.
- `Strings.dfy`: the Python string operations the code relies on. These are `strip`, the `[^\w\s-]` filter, slicing, `replace`, `split` with a limit, `join`, and the `^# .+$` first-heading substitution.
- `Clock.dfy`: naive date-times, Python's ordering of them, and the `strftime` formats the code writes.
- `Completion.dfy`: the language-model service. It is a function from a prompt to a reply or an error. The streaming form returns a list of chunks or an error.
- `FileSystem.dfy`: a `Disk` class over a map from path to content. It supports reads, truncating writes, appends and renames.
- `TextProcessor.dfy`: `process`, `process_stream` and `available_modes` from `src/text_processor.py`.
- `DocumentEditor.dfy`: the editing graph node, `edit`, `edit_file` and `available_modes` from `src/document_editor.py`.
- `SessionSpec.dfy`: the session manager's state with its file system as one value. It has one function per operation and the lemmas about whole sessions.
- `SessionManager.dfy`: the `SessionManager` class. Each of its methods is proved to change its fields and the disk exactly as the matching `SessionSpec` function says.
- `SessionBrowser.dfy`: `get_sessions` and the sidebar's name parsing from `app.py`. It includes the proof of what the sidebar shows for the names the session manager writes. That is their start date and the file-name part with `_` shown as spaces: `session` for a provisional file, and the first 30 title characters for a titled one. A title of at most 30 characters with no `_` is shown exactly (`SessionBrowser.ParseShortTitle`).

Inputs from outside the program are parameters:

- the wall clock is a `DateTime`;
- the model service is a function value;
- whether `os.rename` is allowed by the operating system is a boolean;
- the directory listing is a sequence of found files with their modification times.

The code has these behaviours a reader might not expect:

- There is no "finalized" state and no error for finalizing twice. A second `finalize` appends a second summary (`SessionSpec.FinalizeTwice`).
- `process_stream` does not strip the model's chunks. Its concatenation equals `process` only on the bypass paths and otherwise only up to `strip()` (`TextProcessor.StreamIsNotStripped`).
- When the title update fails because the session file cannot be read, the exception is swallowed. The new title is kept and the file is left as it was.
- A title whose safe form is `session` gives the same file name as the provisional one, so the rename changes nothing (`SessionSpec.TitledNameCanBeProvisional`).
- Files are read in text mode, which turns `\r\n` and a lone `\r` into `\n` (`Strings.TranslateNewlines`). The title step reads the session file back and writes it out again. So when the service answers, the first entry's line ends are translated, while later entries keep theirs (`SessionSpec.AddFirst`). `edit_file` likewise backs up and edits the translated text.

## Model

| member | source | states |
|---|---|---|
| TextProcessor.PromptsLookup | src/text_processor.py:20-61 | The prompt table maps clean, rewrite, bullets and email to their own templates and raw to no template. It has no other key. |
| TextProcessor.BypassModes | src/text_processor.py:101-106 | A mode reaches the service exactly when it is one of the four service modes. `raw` and every unknown mode bypass it. |
| TextProcessor.StrippedReply | src/text_processor.py:113-114 | A service reply succeeds exactly when the service did. It comes back stripped, with no outer whitespace. |
| TextProcessor.Process | src/text_processor.py:86-114 | Blank input gives `""`. A bypass mode gives the stripped input. A service mode gives the service's stripped reply to that mode's template, and a service error propagates. The result fails exactly when a service mode's call fails. Every successful result is free of outer whitespace. |
| TextProcessor.ProcessStream | src/text_processor.py:116-146 | Blank input yields nothing. A bypass mode yields the single stripped input. A service mode yields the service's chunks unchanged and in order. |
| TextProcessor.StreamMatchesProcessOnBypass | src/text_processor.py:97-106 | On blank input or a bypass mode, the concatenated stream equals what `process` returns, whatever the service does. |
| TextProcessor.StreamMatchesProcessUpToStrip | src/text_processor.py:112-146 | Take a service whose reply is the concatenation of its chunks. Then the stream succeeds exactly when `process` does. The stripped concatenation equals `process`'s result. |
| TextProcessor.StreamIsNotStripped | src/text_processor.py:145-146 | When the chunks concatenate to text with outer whitespace, the stream differs from `process`'s result for the same reply. |
| TextProcessor.AvailableModes | src/text_processor.py:149-151 | The modes are the table's keys in declaration order: clean, rewrite, bullets, email, raw. |
| DocumentEditor.EditPromptsLookup | src/document_editor.py:23-81 | The editing table gives organize, professional, summarize and action_items each its own template. It has no other key. |
| DocumentEditor.EditDocument | src/document_editor.py:110-122 | An unknown mode copies the content into `result`. A known mode stores the service's stripped reply there. It fails exactly when the service fails. Content and mode are never changed. |
| DocumentEditor.Edit | src/document_editor.py:132-148 | An unknown mode returns the content unchanged, not even stripped. A known mode returns the service's reply stripped, or the service's own error. |
| DocumentEditor.AvailableModes | src/document_editor.py:194-197 | The modes are the editing table's keys in declaration order: organize, professional, summarize, action_items. |
| DocumentEditor.AvailableModesHaveTemplates | src/document_editor.py:194-197 | A mode is listed exactly when the editing table has a template for it. |
| DocumentEditor.EditFile | src/document_editor.py:150-192 | A missing file raises, and nothing is written. The file is read with its line ends translated to `\n`, and everything after that works on the translated text. Blank content returns `""` and writes nothing. Otherwise the optional backup of the translated text is written first, and only when no output path is given. A service error then propagates with only the backup written. On success the output path, or else the file itself, holds the two-line header followed by the edited text, and the edited text alone is returned. No other file changes. |
| SessionSpec.ResolveOutputDir | src/session_manager.py:19-26 | The output directory is the argument when it is non-empty, else `sessions`. It is never empty. |
| SessionSpec.SafeTitle | src/session_manager.py:121 | The title's file-name part has at most 30 characters. It holds only word, whitespace and hyphen characters, and no space. |
| SessionSpec.SafeTitleRoundTrip | src/session_manager.py:121 | A title of at most 30 word, whitespace and hyphen characters with no `_` comes back unchanged when the `_` of its file-name form are turned back into spaces. |
| SessionSpec.TitledNameCanBeProvisional | src/session_manager.py:120-123 | A safe title equal to `session` names the file exactly as the provisional name does. |
| SessionSpec.HeaderRest | src/session_manager.py:52-60 | The header after its title line starts with a newline. |
| SessionSpec.CreateShape | src/session_manager.py:25-62 | A new session has the placeholder title, no entries, no service calls and the provisional path. Its file starts with `# Untitled Session` and ends with the Raw Transcription heading. No other file is touched. |
| SessionSpec.TitlePrompt | src/session_manager.py:99 | The title prompt carries the first 200 characters of the first entry, or all of it when it is shorter. |
| SessionSpec.SanitizeTitle | src/session_manager.py:99-101 | A title holds only word, whitespace and hyphen characters, and at most 50 of them. |
| SessionSpec.CleanedTexts | src/session_manager.py:138 | One cleaned text per entry, in entry order. |
| SessionSpec.AppendedSummary | src/session_manager.py:140-169 | The heading, the body and the footer written in three appends are the whole summary section appended once. |
| SessionSpec.CreateInv | src/session_manager.py:25-62 | A new session satisfies the session invariant: its file is exactly the header under the placeholder title. The body after its title line is the rest of the header. |
| SessionSpec.TitleLineThenBody | src/session_manager.py:52-60 | Under the invariant, the file is `# <title>` followed by a body that opens with the rest of the creation header. |
| SessionSpec.TitleReplyKeepsInv | src/session_manager.py:107-129 | Updating the title reads the file back with its line ends translated and replaces only the title line of that text. It moves the file to `<stamp>_<safe title>.md` when the rename succeeds and keeps the old path when it is refused. It touches no other file and keeps the invariant. |
| SessionSpec.TitleReplyRenamed | src/session_manager.py:107-127 | When the rename succeeds, the title update leaves the file at `<stamp>_<safe title>.md`. The file holds the new title line over the old body read back, and the invariant holds. |
| SessionSpec.TitleReplyKept | src/session_manager.py:107-129 | When the rename is refused, the retitled file keeps its provisional path. It holds the new title line over the old body read back, and the invariant holds. |
| SessionSpec.GenerateTitleKeepsInv | src/session_manager.py:85-105 | Exactly one title prompt is sent. A failing service leaves the title, the path, the files and the body unchanged. An answer sets the sanitized title and updates the file, and the body is then the old body read back with its line ends translated. |
| SessionSpec.FirstEntryTitle | src/session_manager.py:78-83 | The first entry's block is appended before the title step. The body grows by exactly that block, with its line ends translated when the service answered the title prompt. |
| SessionSpec.AddTranscriptionKeepsInv | src/session_manager.py:66-83 | Adding an entry keeps the invariant. It appends exactly this entry to the list and its block to the body. The first entry's block has its line ends translated when the title service answers. Only the first entry asks for a title. From the second entry on, the title, the path and the rest of the file stay the same. |
| SessionSpec.AddFirst | src/session_manager.py:66-83 | The first entry sends exactly one title prompt, seeded with its text. The body grows by its block, with the line ends translated when the service answered. |
| SessionSpec.AddLater | src/session_manager.py:66-80 | A later entry only appends its block to the current file and its record to the list. |
| SessionSpec.FinalizeKeepsInv | src/session_manager.py:131-172 | Without entries, nothing changes and nothing is returned. Otherwise the body grows by the summary section and the current path is returned. That section holds the joined text, its organized form, or the failure marker with the joined text. No title is requested. |
| SessionSpec.FinalizeTwice | src/session_manager.py:131-172 | Finalizing twice appends two summary sections built from the same entries. Both calls return the same path. |
| SessionSpec.GrowsTransitive | src/session_manager.py:66-172 | A session that grows twice has grown. |
| SessionSpec.AddGrows | src/session_manager.py:66-83 | Adding an entry only grows the session: the body is extended at its end, and the title and path are fixed once there is an entry. |
| SessionSpec.CloseGrows | src/session_manager.py:131-172 | Finalizing only grows the session. |
| SessionSpec.ApplyGrows | src/session_manager.py:66-172 | Every call a caller can make only grows the session. |
| SessionSpec.RunGrows | src/session_manager.py:66-172 | Over any sequence of calls, the invariant holds throughout and the body is only ever appended to. |
| SessionSpec.TitleInferredOnce | src/session_manager.py:81-83 | Over a whole session, exactly one title prompt is sent if an entry was ever added, and none otherwise. The file always opens with the creation header under the current title. |
| SessionSpec.TitleFixedAfterFirstEntry | src/session_manager.py:81-83 | Once a session has an entry, its title and path never change again. |
| SessionManager.SessionManager.constructor | src/session_manager.py:25-44 | The new object's state is the `Create` session, and it satisfies the invariant. |
| SessionManager.SessionManager.CreateSessionFile | src/session_manager.py:46-62 | The fields and the disk become `WithSessionFile` of the old state. |
| SessionManager.SessionManager.AddTranscription | src/session_manager.py:66-83 | The fields and the disk become the `AddTranscription` session, and the invariant is kept. |
| SessionManager.SessionManager.GenerateTitle | src/session_manager.py:85-105 | The fields and the disk become the `GenerateTitle` session. |
| SessionManager.SessionManager.UpdateFileTitle | src/session_manager.py:107-129 | It raises exactly when the file cannot be read, and then nothing changes. Otherwise the state becomes the `UpdateFileTitle` session: the text read back in text mode gets the new title line and is written out, then the file is renamed if permitted. |
| SessionManager.SessionManager.Finalize | src/session_manager.py:131-172 | The state and the returned path are those of the `Finalize` function, and the invariant is kept. |
| SessionManager.SessionManager.WriteSummary | src/session_manager.py:140-169 | The file receives exactly the summary section. The organize prompt is sent only when organizing. The entries, title and path are unchanged. |
| SessionBrowser.Basename | app.py:67 | A base name never contains `/`. |
| SessionBrowser.BasenameIsLastComponent | app.py:67 | The base name is a suffix of the path that is either the whole path or follows a `/`. |
| SessionBrowser.BasenameOfJoin | app.py:60-67 | The base name of a directory joined with a name free of `/` is that name. |
| SessionBrowser.InsertPermutes | app.py:71 | Inserting adds exactly the new entry. |
| SessionBrowser.InsertKeepsOrder | app.py:71 | Inserting into a newest-first list keeps it newest first. |
| SessionBrowser.InsertModifiedAt | app.py:71 | Inserting puts the new entry after all entries of the same time and leaves other times alone. |
| SessionBrowser.SortNewestFirstCorrect | app.py:71 | The sort is newest first and a permutation of its input. It is stable: entries of equal time keep their input order. |
| SessionBrowser.GetSessions | app.py:58-71 | The session list is the described files sorted newest first. It is a permutation of them and keeps the listing order among equal times. |
| SessionBrowser.ParseSessionName | app.py:111-118 | A display name with fewer than two `_` shows the modification date and the whole display name. Otherwise the date is the text before the first `_`. The date and the title contain no `_`. |
| SessionBrowser.ParseSessionNameTitle | app.py:111-115 | Any name whose display name is `<date>_<time>_<part>` with no `_` in the date or time shows that date and the part with `_` turned into spaces. Other `.` in the name do not matter. |
| SessionBrowser.SidebarLabel | app.py:122 | The button is the icon, the first at most 25 characters of the title, and `...`. The ellipsis is present even when nothing was cut. |
| SessionBrowser.FileStampParts | src/session_manager.py:48 | A file stamp is the date, `_` and the hour-minute. Neither part contains `_`, `.` or `/`. |
| SessionBrowser.DisplayNameOfStem | app.py:111 | Removing `.md` from `<stem>.md` with no `.` in the stem gives the stem. |
| SessionBrowser.SplitStem | app.py:112 | `<date>_<time>_<part>` splits at its first two `_` into those three pieces. |
| SessionBrowser.ParseThreeParts | app.py:111-115 | A name `<date>_<time>_<part>.md` shows the date and the part with `_` turned into spaces. |
| SessionBrowser.SessionFileNameParts | src/session_manager.py:48-49 | A session file name is the date, the time, the part and `.md`, joined by `_`. It contains no `/`. |
| SessionBrowser.ParseSessionFileName | app.py:111-115 | Any session file name written by the manager, in any directory, reads back as its start date and its part with `_` turned into spaces. |
| SessionBrowser.ParseProvisionalName | app.py:111-115 | A new session's file reads back as its start date and the title `session`. |
| SessionBrowser.ParseTitledName | app.py:111-115 | A titled session's file reads back as its start date and its safe title, with `_` turned back into spaces. |
| SessionBrowser.ParseShortTitle | app.py:111-115 | A titled file whose title has at most 30 word, whitespace and hyphen characters and no `_` shows exactly its start date and its title. |
| Strings.Strip | src/text_processor.py:114 | `strip()` leaves no outer whitespace. It is empty exactly when the input is all whitespace. |
| Strings.StripInfix | src/text_processor.py:114 | The stripped text is a slice of the input with only whitespace before and after it. With `Strip`'s own contract, that slice is the input minus its maximal outer whitespace. |
| Strings.StripIdempotent | src/text_processor.py:114 | Stripping twice is stripping once. |
| Strings.KeepTitleChars | src/session_manager.py:101 | The filter keeps only word, whitespace and hyphen characters. It changes nothing on text made only of those. |
| Strings.KeepTitleCharsOne | src/session_manager.py:101 | A single character is kept exactly when it is a word, whitespace or hyphen character. |
| Strings.KeepTitleCharsAppend | src/session_manager.py:101 | Filtering a concatenation is concatenating the filtered parts. With the single-character case, this fixes the result for every string, in order. |
| Strings.Split | app.py:112 | A split with a limit has at most limit + 1 parts. Joining them gives back the input, and no part before the last holds the separator. |
| Strings.SplitTwiceParts | app.py:113 | A limit-2 split has three parts exactly when the separator occurs at least twice. |
| Strings.ReplaceAllTrailing | app.py:111 | When the pattern's first character does not occur in a text, replacing the pattern in the text followed by the pattern swaps just that ending. |
| Strings.SubFirstHeadingAtStart | src/session_manager.py:114 | When the text starts with a `# ` line, only that line is replaced. |
| Strings.SubFirstHeadingOneLine | src/session_manager.py:114 | The substitution replaces exactly the first `# ` heading line, up to its newline. The text before it and everything from that newline on are kept. |
| Strings.TranslateNewlines | src/session_manager.py:110-111 | Text read in text mode holds no `\r` and is no longer than what was stored. |
| Strings.TranslateNewlinesPlain | src/session_manager.py:110-111 | Text without `\r` reads back as it was stored. |
| Strings.TranslateNewlinesAppend | src/session_manager.py:110-111 | Reading a concatenation reads each part, unless the first part ends with a `\r`. |
| Strings.TranslateNewlinesIdempotent | src/session_manager.py:110-117 | Reading text that was read and written back gives the same text. |
| Strings.TranslateNewlinesExample | src/document_editor.py:165-166 | `a\r\nb` and `a\rb` both read as `a\nb`, and `a\r\r\nb` as `a\n\nb`. |
| FileSystem.AppendedTwice | src/session_manager.py:140-169 | Two appends to one file are one append of both texts. |
| FileSystem.Disk.Read | src/session_manager.py:110-111 | A read returns the file's content with `\r\n` and a lone `\r` turned into `\n`, so the result holds no `\r`. A missing file fails. |
| FileSystem.Disk.Write | src/session_manager.py:61-62 | A write replaces the file's whole content, creating the file if needed, and touches no other file. |
| FileSystem.Disk.Append | src/session_manager.py:78-79 | An append adds the text at the file's end, creating the file if needed, and touches no other file. |
| FileSystem.Disk.Rename | src/session_manager.py:125-129 | A rename succeeds exactly when permitted and the source exists. It then moves the content. Otherwise nothing changes. |
| Clock.DateStampChars | src/session_manager.py:48 | A `%Y-%m-%d` stamp consists only of digits and `-`. |
| Clock.Digits | src/session_manager.py:48 | `%Y` gives at least one decimal digit and no leading zero, unless the year is 0. |
| Clock.DigitsValue | src/session_manager.py:48 | The digits of a number denote that number. |
| Clock.Pad2Value | src/session_manager.py:48 | A zero-padded field denotes its number and has exactly two digits below 100. |
| Clock.DateStampFields | src/session_manager.py:48 | A valid date's `%Y-%m-%d` stamp reads back as its year, then `-`, two digits for the month, `-` and two digits for the day. |
| Clock.MinuteStampFields | src/session_manager.py:54 | A valid time's `%Y-%m-%d %H:%M` stamp is its date stamp, a space, two digits for the hour, `:` and two digits for the minute. |
| Clock.MinuteStampChars | src/session_manager.py:54 | A `%Y-%m-%d %H:%M` stamp holds only digits, `-`, a space and `:`. |
| Clock.TimeOfDayFields | src/session_manager.py:68 | A valid time's `%H:%M:%S` is eight characters: two digits each for the hour, the minute and the second, separated by `:`. |
| Clock.BeforeStrictTotal | app.py:71 | Python's date-time ordering is a strict total order. |

## Left out

- `main.py` (the microphone loop, hotkeys and console output) and `src/transcriber.py` (speech recognition) are not part of this model.
- The Streamlit page of `app.py` is not modelled, apart from `get_sessions` and the sidebar label. That includes layout, buttons, session state, `read_session` and `save_session`.
- `glob.glob` and `os.stat` are not modelled. The files they find, with their modification times and sizes, are the input to `GetSessions`.
- `os.makedirs` is not modelled. Directories are not part of the file-system model, whose paths are plain strings.
- Environment variables are not modelled. Only the default output directory `sessions` is modelled. The model name and the service address only select the service, which is a parameter.
- The wording of the prompt templates is left out. A prompt is modelled as a template identifier plus the text substituted into it.
- The service's behaviour, including its nondeterminism and its temperature, is a function parameter.
- Failures of the reply stream midway are not modelled. A stream is one reply: either all of its chunks or an error.
- I/O errors other than a missing file on read and a refused rename are not modelled. Disk-full and permission errors on write are examples.
- The console `print` messages are left out.
- Strings.IsWordChar: `\w` is modelled for ASCII letters, digits and `_` only. Python also counts non-ASCII letters and digits as word characters.
- Clock.DateStamp: `%Y` is written without zero padding for years below 1000.
- The text encoding (UTF-8) is not modelled. Strings are sequences of characters.
- Paths and writes follow POSIX. `JoinPath` and `Basename` split on `/` only. A write stores `\n` as it is, with no translation to `\r\n` as on Windows. `os.rename` replaces an existing target, which on Windows would raise instead.
- Clock.Valid: the day is bounded by 31 for every month. The shorter months and leap years are not modelled.
