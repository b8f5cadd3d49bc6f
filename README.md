# GitYap chat pipeline — a Dafny model

GitYap keeps a chat as plain text files in a git repository: one file per
message under `message/<channel>/`, with `Author:`, `Channel:` and
`Reply-To:` lines and `#hashtags` in the text. The Python template in
`template/python3/` serves the chat page and does four jobs, all modelled here:

- It reads messages. `chat/file_reader.py` and `chat/message_processor.py`
  turn a file's text into a message record: author, hashtags, channel,
  reply target, body and id.
- It lists channels and aggregates messages. `chat/channel_manager.py`
  lists the channel directories and collects `.txt` files.
  `chat/html_generator.py` filters, sorts, cuts and renders the page.
- It writes messages. `start_server.py` handles `POST /post`: it sanitises,
  validates and writes `Author: …\n\n…`. It also saves `message\n\nAuthor: …`
  files and serves static files and regenerated scripts.
- It builds prompts and commits:
  - `handlers/static_handler.py`: MIME lookup, the root/template fallback
    and copy-if-absent set-up;
  - `handlers/script_handler.py`: script discovery and command lines;
  - `commit_files.py`: commit metadata and the `.txt` filter;
  - `compile_prompt.py` and `make_outliner_prompt.py`: prompt assembly and
    begin/end marker wrapping.

The model has one Dafny module per source file, plus shared modules:

- `PyStr` (`strings.dfy`): Python string operations;
- `PyPath` (`paths.dfy`): `os.path`;
- `Patterns` (`patterns.dfy`): hand-written matchers for the regular
  expressions;
- `FileSystem` (`file_system.dfy`): the directory tree, as a class whose
  `entries` the operations update in place;
- `Config` (`config.dfy`): the constants;
- `Wrappers` (`wrappers.dfy`): `Option` and `Result`.

The model takes the form of the source:

- Pure code (parsing, formatting, path arithmetic) is functions and lemmas.
- Code that builds lists in loops or changes the file system is methods
  with loop invariants. Each is proved against a specification function.
- `messages.sort` is an in-place sort of an array.
- The static-file set-up flag is a field of a class.

Regular expressions follow Python's `re` semantics:

- The leftmost match wins.
- `\s*` is greedy and may cross line breaks.
- `.` is any character but `'\n'`.
- `\s` is `str.isspace`.
- `\w`, `isalnum` and `lower` are their ASCII parts.

The code makes these choices:

- `Channel:` and `Reply-To:` are matched case-sensitively.
- A negative message limit is Python's end-relative slice, not "no messages".
- The write path of `start_server.py` has no channel field and rejects an
  empty author rather than defaulting it.

## Model

| member | source | states |
|---|---|---|
| FileReader.ExtractMetadata | template/python3/chat/file_reader.py:25-29 | The hashtags are every `#\w+` in order. The author is non-empty and holds no line break. It is "Unknown" when no case-insensitive `Author:` is followed by a character other than a line break. |
| FileReader.AuthorIsLeftmostGroup | template/python3/chat/file_reader.py:22-27 | The author is the group of the leftmost `Author:\s*(.+)` match, whatever the keyword's case. |
| FileReader.AuthorAfterKeyword | template/python3/chat/file_reader.py:22-27 | In a text that opens with `Author:`, the author is the line that starts at the first non-space after the keyword, even past blank lines. |
| FileReader.TruncateMessage | template/python3/chat/file_reader.py:31-34 | The flag is set iff the text is longer than the limit. Otherwise the text is returned unchanged. For a non-negative limit, a cut text is its first `max_length` characters followed by `...`. |
| MessageProcessor.DirChannel | template/python3/chat/message_processor.py:19 | The fallback channel, the name of the file's directory, holds no `/`. |
| MessageProcessor.ChannelOf | template/python3/chat/message_processor.py:15-19 | With a case-sensitive `Channel:` match, the channel is a non-empty one-line group. Without one, it is the directory name. |
| MessageProcessor.ReplyTo | template/python3/chat/message_processor.py:22-25 | The reply target is present iff a case-sensitive `Reply-To:` match exists. It is then a non-empty one-line group. |
| MessageProcessor.Body | template/python3/chat/message_processor.py:27 | The body has no leading or trailing whitespace. |
| MessageProcessor.ChannelIsLeftmostGroup | template/python3/chat/message_processor.py:15-17 | The channel is the group of the leftmost case-sensitive `Channel:` match. |
| MessageProcessor.ReplyToIsLeftmostGroup | template/python3/chat/message_processor.py:22-25 | The reply target is the group of the leftmost case-sensitive `Reply-To:` match. |
| MessageProcessor.BodyDropsMatch | template/python3/chat/message_processor.py:27 | The body is the stripped text with the first metadata match, up to the end of its line, deleted, and the rest substituted the same way. |
| MessageProcessor.BodyWithoutMetadata | template/python3/chat/message_processor.py:27 | A text without a metadata match has the stripped text as its body. |
| MessageProcessor.MessageId | template/python3/chat/message_processor.py:37 | The id followed by the extension gives back the base name. |
| MessageProcessor.ProcessFile | template/python3/chat/message_processor.py:7-43 | A record comes back iff the modification time was obtained and the target is "everything" or the derived channel. Every field is the corresponding parse of the text, and the path and mtime are passed through. |
| MessageProcessor.EmptyContent | template/python3/chat/message_processor.py:11-27 | An unreadable (empty) file still gives a record: author "Unknown", no hashtags, empty body, no reply target and the directory's channel. |
| Config.ZipMap | template/python3/config.py:6 | `dict(zip(keys, values))` has exactly the keys that have a partner value. |
| Config.ZipMapAt | template/python3/config.py:6 | With distinct keys of equal number, each key maps to the value at its own position. |
| Config.InterpreterFor | template/python3/config.py:4-6 | Every script type has an interpreter, the one at the same position of `INTERPRETERS`. |
| Patterns.Tail | template/python3/chat/file_reader.py:22 | The group of `\s*(.+)` starts after whitespace only, holds no line break, and ends at a line break or the end of the text. |
| Patterns.TailIffMatches | template/python3/chat/file_reader.py:22 | The group exists exactly when some character other than a line break follows the whitespace run. |
| Patterns.TailAt | template/python3/chat/file_reader.py:22 | After a whitespace run that stops inside the text, the group is the rest of that line. |
| Patterns.SearchFrom | template/python3/chat/file_reader.py:26 | A reported position is a match at or after the start. |
| Patterns.SearchFromNone | template/python3/chat/file_reader.py:26 | No result means no match at any later position. |
| Patterns.SearchFromSome | template/python3/chat/file_reader.py:26 | The reported match is the leftmost one. |
| Patterns.NoMatch | template/python3/chat/file_reader.py:26-27 | A search from the start that finds nothing means no match anywhere. |
| Patterns.GroupShape | template/python3/chat/file_reader.py:27 | A captured group is a non-empty piece of one line. |
| Patterns.SearchGroup | template/python3/chat/message_processor.py:15-16 | `re.search(...).group(1)` is present iff some match exists. It is then non-empty and on one line. |
| Patterns.SearchFromLeftmost | template/python3/chat/message_processor.py:15 | The search reports the leftmost position at which the keyword matches. |
| Patterns.SearchGroupLeftmost | template/python3/chat/message_processor.py:15-16 | `group(1)` is the rest of the line after the keyword and the spaces, at the leftmost match. |
| Patterns.WordEnd | template/python3/chat/file_reader.py:23 | `\w+` runs over word characters up to the first non-word character. |
| Patterns.NoHashInsideWord | template/python3/chat/file_reader.py:28 | `findall` does not report a hashtag that starts inside an earlier one's word. |
| Patterns.HashStartsFrom | template/python3/chat/file_reader.py:28 | Hashtag starts are increasing, do not overlap, and include every position where `#\w` occurs. |
| Patterns.Hashtags | template/python3/chat/file_reader.py:28 | Each hashtag is `#` with its word-character run, at least two characters, in left-to-right order. |
| Patterns.MetaMatchAt | template/python3/chat/message_processor.py:27 | A metadata match at `i` needs one of the three keywords there (any case) and ends after `i`. |
| Patterns.StripMetaFrom | template/python3/chat/message_processor.py:27 | The substitution never lengthens the text. |
| Patterns.StripMeta | template/python3/chat/message_processor.py:27 | The substitution over the whole text never lengthens it. Its deletions and what it keeps are stated by `StripMetaKeeps`, `StripMetaDeletes` and `StripMetaNoMatch`. |
| Patterns.StripMetaKeeps | template/python3/chat/message_processor.py:27 | A stretch where no match starts is copied to the output unchanged and in order. |
| Patterns.StripMetaDeletes | template/python3/chat/message_processor.py:27 | The first match found is deleted whole: the output is the text before it followed by the substitution of the text after it. |
| Patterns.StripMetaNoMatch | template/python3/chat/message_processor.py:27 | A text in which no match starts is returned unchanged. |
| Patterns.StripMetaNoKeyword | template/python3/chat/message_processor.py:27 | A text without any metadata keyword is left unchanged by the substitution. |
| Patterns.LitAtShift | template/python3/chat/message_processor.py:27 | A keyword found past a prefix is found at the shifted position in the suffix, and conversely. |
| Utils.KeepSafe | template/python3/utils.py:27 | The filter keeps only alphanumerics, `_` and `-`, and never lengthens the text. |
| Utils.GenerateTitle | template/python3/utils.py:20-28 | An empty message gives the ten random lower-case letters. A non-empty one gives only safe characters and no whitespace. A whitespace-only message gives "". |
| Utils.KeepSafeAllSafe | template/python3/utils.py:27 | The filter leaves safe text as it is. |
| Utils.OneWord | template/python3/utils.py:25 | `split()` of a non-empty text without whitespace is that text alone. |
| Utils.TitleIdempotent | template/python3/utils.py:20-28 | A non-empty title is its own title. |
| Utils.KeepSafeUnderscores | template/python3/utils.py:27 | The filter keeps every underscore. |
| Utils.JoinUnderscores | template/python3/utils.py:26 | Joining `n` words with `_` puts in at least `n - 1` underscores. |
| Utils.TitleUnderscores | template/python3/utils.py:25-27 | A title has at least `min(5, #words) - 1` underscores. |
| Utils.WordsPrefixFrom | template/python3/utils.py:25 | At a whitespace boundary, the words of a text are a prefix of the words of any longer text. |
| Utils.TitleIgnoresLaterWords | template/python3/utils.py:25-26 | With five words or more, text after the fifth word does not change the title. |
| PyStr.Lower | template/python3/handlers/static_handler.py:51 | `lower()` keeps the length and folds each character; no upper-case ASCII letter remains. |
| PyStr.LowerLower | template/python3/handlers/static_handler.py:51 | Lower-casing twice is lower-casing once. |
| PyStr.Take | template/python3/chat/html_generator.py:32 | Python's `s[:n]` is a prefix of `s`, of length `min(n, len)` for `n >= 0`, and counts from the end for a negative `n`. |
| PyStr.Strip | template/python3/start_server.py:153-154 | `strip()` never lengthens the text, its result has no whitespace at either end, and it is empty iff the text is all whitespace. |
| PyStr.StripAfterSpace | template/python3/start_server.py:153-154 | Leading whitespace does not change what `strip()` returns. |
| PyStr.SplitOn | template/python3/commit_files.py:129 | `split(c)` yields at least one piece, and no piece holds `c`. |
| PyStr.SplitJoin | template/python3/commit_files.py:129 | Joining the pieces of `split(c)` with `c` gives the text back. |
| PyStr.StrLtTrichotomy | template/python3/compile_prompt.py:66 | Python's string order is total. |
| PyStr.StrLtTransitive | template/python3/compile_prompt.py:66 | Python's string order is transitive. |
| PyStr.SortStrings | template/python3/compile_prompt.py:66 | `sorted(names)` is ascending and a permutation of its input. |
| PyPath.RFind | template/python3/handlers/static_handler.py:50 | `rfind` is the last position holding the character, or -1. |
| PyPath.Join | template/python3/compile_prompt.py:69 | `os.path.join` ends with its second part, and an absolute second part replaces the first. |
| PyPath.Basename | template/python3/commit_files.py:24 | `basename` is a `/`-free suffix of the path. |
| PyPath.Dirname | template/python3/commit_files.py:45 | `dirname` is a prefix of the path, and empty when the path has no `/`. |
| PyPath.BasenameJoin | template/python3/commit_files.py:45-48 | Joining a plain name onto a directory makes that name the base name. |
| PyPath.DirnameJoin | template/python3/commit_files.py:45-48 | Joining a plain name onto a directory that does not end in `/` gives that directory back as the dirname. |
| PyPath.Splitext | template/python3/make_outliner_prompt.py:23 | `splitext` cuts the path into two parts that give it back, and the second is empty or a dot followed by neither dots nor separators. |
| PyPath.ExtJoin | template/python3/make_outliner_prompt.py:23 | A joined path has the extension of its file name. |
| PyPath.ExtOfName | template/python3/make_outliner_prompt.py:23 | `stem.ext` has extension `.ext` when the stem does not end in a dot or separator. |
| PyPath.LeadingDotNoExt | template/python3/handlers/static_handler.py:49-52 | A name such as `.htaccess` has no extension. |
| PyPath.ExtLower | template/python3/compile_prompt.py:21 | Lower-casing a path lower-cases its extension and nothing more. |
| FileSystem.Find | template/python3/chat/channel_manager.py:7 | The lookup returns an entry stored at the path, or none when no entry has that path. |
| FileSystem.Tree.MakeDirs | template/python3/chat/channel_manager.py:8-9 | `os.makedirs` succeeds iff nothing exists at the path and no plain file blocks it. It then adds exactly that directory. |
| FileSystem.Tree.MakeDirsExistOk | template/python3/start_server.py:163 | With `exist_ok=True`, an existing directory also succeeds and leaves the tree as it was. |
| FileSystem.Tree.WriteFile | template/python3/start_server.py:171-175 | A write succeeds iff the path is not a directory and its parent directory exists. It then replaces or appends that one file. |
| FileSystem.WrittenFileReads | template/python3/start_server.py:171-175 | After a write, the file holds exactly what was written. |
| FileSystem.WriteKeepsOthers | template/python3/start_server.py:171-175 | A write leaves every other path as it was. |
| FileSystem.WithDirKeepsOthers | template/python3/start_server.py:163 | Creating a directory changes what is found at no other path. |
| ChannelManager.ChildDirNamesSound | template/python3/chat/channel_manager.py:13-15 | Every listed channel is a plain name of a sub-directory of the message root. |
| ChannelManager.ChildDirNamesComplete | template/python3/chat/channel_manager.py:13-15 | Every sub-directory of the message root is listed. |
| ChannelManager.ChannelListShape | template/python3/chat/channel_manager.py:12-16 | The list starts with "everything" and has at least two entries. It is `["everything","general"]` or names only sub-directories, and it names all of them. |
| ChannelManager.TxtFilesInExact | template/python3/chat/channel_manager.py:21-24 | The walk yields exactly the `.txt` files below the directory. |
| ChannelManager.TxtFilesInWitness | template/python3/chat/channel_manager.py:21-24 | Every walked path is a `.txt` file entry below the directory. |
| ChannelManager.TxtFilesInComplete | template/python3/chat/channel_manager.py:21-24 | Every `.txt` file below the directory is walked. |
| ChannelManager.WalkTxtSound | template/python3/chat/channel_manager.py:31-34 | Every path returned for a channel is a `.txt` file below it. |
| ChannelManager.ChannelFilesWithinEverything | template/python3/chat/channel_manager.py:19-34 | A named channel's files are among those of "everything". |
| ChannelManager.UnderChannel | template/python3/chat/channel_manager.py:26 | A path below a channel directory is below the message root. |
| ChannelManager.ListChannels | template/python3/chat/channel_manager.py:12-16 | The listing loop returns the channel list of the tree. |
| ChannelManager.CreateMessageRoot | template/python3/chat/channel_manager.py:7-10 | A missing root is created together with `general`, and the call returns `["everything","general"]`. A `makedirs` that raises is an error, with the tree changed only by what was already created. |
| ChannelManager.GetAvailableChannels | template/python3/chat/channel_manager.py:4-16 | A missing root is created as above. A root that is a file raises. Otherwise the call returns the channel list and the tree is unchanged. |
| ChannelManager.GetChannelFiles | template/python3/chat/channel_manager.py:18-35 | "everything" walks the root. A named channel's missing directory is created first, and then exists. The result is the `.txt` files of the walk, and nothing else changes. |
| ChannelManager.WalkTextFiles | template/python3/chat/channel_manager.py:21-24 | The nested walk loops return every `.txt` file below the directory, in the order the tree stores them. |
| ChannelManager.TxtFilesInAppendDir | template/python3/chat/channel_manager.py:27-31 | A newly created directory adds no file to a walk. |
| HtmlGenerator.NavLink | template/python3/chat/html_generator.py:19-20 | A navigation link names its channel in the `href` and as text, and its class list carries `active` exactly when the channel is the current one. |
| HtmlGenerator.NavBodyStep | template/python3/chat/html_generator.py:18-20 | Each channel adds its link after those of the channels before it. |
| HtmlGenerator.BuildChannelNav | template/python3/chat/html_generator.py:17-21 | The `+=` loop builds the opening tag, one link per channel in the given order, and the closing tag. |
| HtmlGenerator.Present | template/python3/chat/html_generator.py:30 | The filter never lengthens the list. |
| HtmlGenerator.PresentExact | template/python3/chat/html_generator.py:30 | A record survives the filter exactly when some file produced it. |
| HtmlGenerator.PresentAppend | template/python3/chat/html_generator.py:30 | The filter keeps the input order. |
| HtmlGenerator.BeforeTotal | template/python3/chat/html_generator.py:31 | Any two records are ordered one way or the other by (timestamp descending, path ascending). |
| HtmlGenerator.BeforeTransitive | template/python3/chat/html_generator.py:31 | The sort key's order is transitive. |
| HtmlGenerator.SortMessages | template/python3/chat/html_generator.py:31 | The in-place sort leaves the array ordered by the key and a permutation of its old contents. |
| HtmlGenerator.SortedUnique | template/python3/chat/html_generator.py:31 | With distinct paths, any two sorted arrangements of the same records are equal: the page order is fully determined. |
| HtmlGenerator.AggregateMessages | template/python3/chat/html_generator.py:30-32 | The sorted list is ordered and a permutation of the present records. The shown list is its `[:max_messages]` slice, of length `min(n, max_messages)` for a non-negative limit, a sub-multiset of the present records, and every shown record comes before every one left out. |
| HtmlGenerator.ExpandLinkShape | template/python3/chat/html_generator.py:37 | The expand link carries the message's index, and it ends in "Show More" iff the message was cut. |
| HtmlGenerator.FullContentShape | template/python3/chat/html_generator.py:38 | The hidden full-message div is present iff the message was cut, and it then holds the whole text. |
| HtmlGenerator.ReplyMarkupShape | template/python3/chat/html_generator.py:41 | The "Replying to" line is present iff the message is a reply, and it then names the target. |
| HtmlGenerator.RenderMessageFields | template/python3/chat/html_generator.py:36-53 | The page shows the cut text. The link and hidden div appear iff the text was cut, and the reply class and line iff the message is a reply. Author, time and id are passed through. |
| HtmlGenerator.RenderMessages | template/python3/chat/html_generator.py:35-54 | The `enumerate` loop renders each message with its own index, in display order. |
| HtmlGenerator.Rendered | template/python3/chat/html_generator.py:35-54 | The first `n` messages give `n` views. |
| HtmlGenerator.RenderedAt | template/python3/chat/html_generator.py:35-54 | View `k` is message `k` rendered with index `k`. |
| HtmlGenerator.FileDataOf | template/python3/chat/message_processor.py:10-11 | A path yields a text and modification time iff it holds a file. |
| HtmlGenerator.ProcessAll | template/python3/chat/html_generator.py:26-28 | `pool.map` gives one result per path, in path order. |
| HtmlGenerator.GenerateChatHtml | template/python3/chat/html_generator.py:15-62 | The message count equals the number of rendered messages and is at most a non-negative `max_messages`. The title is `title - #channel`. Expand-link ids are `0..n-1` in display order. |
| StaticHandler.NoDefaultInTable | template/python3/config.py:7-16 | No entry of `MIME_TYPES` is the octet-stream default, so the default marks exactly a failed lookup. |
| StaticHandler.GetContentType | template/python3/handlers/static_handler.py:49-52 | The type is the table entry of the lower-cased extension without its dot, and the octet-stream default exactly when the table has no such key. |
| StaticHandler.ContentTypeIgnoresCase | template/python3/handlers/static_handler.py:51 | `X.PNG` and `x.png` get the same type. |
| StaticHandler.ContentTypeOfName | template/python3/handlers/static_handler.py:49-52 | A name `stem.ext` is typed by its lower-cased `ext`. |
| StaticHandler.DotFileIsDefault | template/python3/handlers/static_handler.py:49-52 | A name such as `.htaccess` has no extension and gets the default. |
| StaticHandler.ServeStaticFile | template/python3/handlers/static_handler.py:12-35 | The file below the served directory wins, and the `template/` copy is used only when there is none. The reply is 404 iff neither is a file. A served reply carries the file's text and its content type. |
| StaticHandler.EnsureIndexHtml | template/python3/handlers/static_handler.py:37-47 | The tree after the call is the one `IndexAfter` describes, or unchanged when the call raises. |
| StaticHandler.IndexAfterEffect | template/python3/handlers/static_handler.py:40-46 | An existing home `index.html`, or a missing template, leaves the tree as it is. Otherwise the home copy holds the template's text. No other path changes. |
| StaticHandler.IndexAfterIdempotent | template/python3/handlers/static_handler.py:40-46 | Running `ensure_index_html` again changes nothing more. |
| StaticHandler.Globbed | template/python3/handlers/static_handler.py:107 | `glob('*.*')` yields exactly the direct children of the template directory whose name holds a dot, dot-files such as `.gitkeep` included. |
| StaticHandler.CopyAllStopped | template/python3/handlers/static_handler.py:107-110 | After an exception the rest of the copy loop does not run. |
| StaticHandler.CopyAllKeeps | template/python3/handlers/static_handler.py:109-110 | The copy loop never replaces an existing entry. |
| StaticHandler.CopyAllDests | template/python3/handlers/static_handler.py:107-110 | After a copy loop without exception, every destination exists. |
| StaticHandler.CopyAllNothingToDo | template/python3/handlers/static_handler.py:109 | With every destination present, the copy loop changes nothing. |
| StaticHandler.CopyAllIdempotent | template/python3/handlers/static_handler.py:107-110 | Copying again after a successful copy changes nothing. |
| StaticHandler.SetupDirKeeps | template/python3/handlers/static_handler.py:101-111 | One pass over a static directory never replaces an existing entry. |
| StaticHandler.SetupAllStopped | template/python3/handlers/static_handler.py:100-111 | After an exception the remaining static directories are not visited. |
| StaticHandler.SetupAllKeeps | template/python3/handlers/static_handler.py:100-111 | Setting up never replaces an existing entry. |
| StaticHandler.StaticFiles.constructor | template/python3/start_server.py:41 | The process starts with the flag unset. |
| StaticHandler.StaticFiles.Setup | template/python3/handlers/static_handler.py:94-113 | With the flag set, nothing changes. Otherwise the tree becomes the outcome of the per-directory passes, and the flag is set iff no pass raised. |
| StaticHandler.SetupDirs | template/python3/handlers/static_handler.py:100-111 | The directory loop leaves the outcome of the passes for the listed directories, stopping at the first exception. |
| StaticHandler.SetupDirectory | template/python3/handlers/static_handler.py:101-111 | One pass makes the static directory and then copies what is missing, as `SetupDir` describes. |
| StaticHandler.CopyMissing | template/python3/handlers/static_handler.py:107-111 | The file loop leaves the outcome `CopyAll` describes. |
| StaticHandler.CopyIfMissing | template/python3/handlers/static_handler.py:108-110 | One iteration copies the file only when its destination is missing. |
| ScriptHandler.BaseNameBeforeFirstDot | template/python3/handlers/script_handler.py:42-44 | The base name is the text before the first dot, has no dot, and equals the name iff the name has no dot. |
| ScriptHandler.Candidates | template/python3/handlers/script_handler.py:40-48 | At most one script per type. Each is `template_dir/base.type` for a listed type, and it exists. |
| ScriptHandler.CandidatesStep | template/python3/handlers/script_handler.py:46-48 | One more type appends its script iff that file exists. |
| ScriptHandler.FindScripts | template/python3/handlers/script_handler.py:34-54 | The method returns what `Found` describes: the scripts of the loop, or an error when none was found and listing the template directory raises. |
| ScriptHandler.CandidatesComplete | template/python3/handlers/script_handler.py:40-48 | Every type whose script exists is found. |
| ScriptHandler.CandidatesOrdered | template/python3/handlers/script_handler.py:40-48 | With distinct types, the results follow the order of the types. |
| ScriptHandler.FoundProperties | template/python3/handlers/script_handler.py:34-54 | A missing template directory raises. Otherwise at most five scripts come back, each existing, of a known type, at `template_dir/base.type`, and in `SCRIPT_TYPES` order. Every existing script is among them. |
| ScriptHandler.RunScript | template/python3/handlers/script_handler.py:20-32 | The loop issues the commands of the found scripts in order. |
| ScriptHandler.CommandKnown | template/python3/handlers/script_handler.py:21-25 | A script of a known type runs as `[interpreter, path]` followed by the arguments. |
| ScriptHandler.CommandsAllPresent | template/python3/handlers/script_handler.py:20-25 | When every script has an interpreter, the commands line up one to one with the scripts. |
| ScriptHandler.CommandsForKnownTypes | template/python3/handlers/script_handler.py:20-25 | No found script is skipped: the `k`-th command runs the `k`-th script with its type's interpreter and the arguments in order. |
| ScriptHandler.NeedsRegenerationWindow | template/python3/handlers/script_handler.py:59-60 | Specifies `NeedsRegeneration`: a missing output is always stale, and a stale output stays stale as time passes. A file is fresh exactly up to 60 seconds after its modification time, and a directory at the output path up to 60 seconds after it last changed. |
| ScriptHandler.RunScriptIfNeeded | template/python3/handlers/script_handler.py:56-62 | The method returns what `RunIfNeeded` describes: nothing when the output, file or directory, is fresh, otherwise the commands or the error of `find_scripts`. |
| ScriptHandler.RunIfNeededRunsAll | template/python3/handlers/script_handler.py:56-62 | A stale output with scripts found runs one command per script, with its type's interpreter. |
| StartServer.Escape | template/python3/start_server.py:153 | `html.escape` never shortens the text and leaves no markup character. It is empty iff its input is, keeps whether the first character is whitespace, and keeps whether a line break occurs. |
| StartServer.Clean | template/python3/start_server.py:153-155 | A cleaned field fits its limit, carries no markup and does not start with whitespace. It is empty iff the raw field is all whitespace. It has a line break only if the raw field does. |
| StartServer.CleanTags | template/python3/start_server.py:155 | At most ten tags are kept, each the cleaned tag at the same position. |
| StartServer.FieldText | template/python3/start_server.py:153-154 | A field reads as text iff it is missing (the empty text) or a JSON string. Any other value makes `.strip()` raise. |
| StartServer.TagTexts | template/python3/start_server.py:155 | Missing tags are no tags. A string is iterated character by character. An array is accepted iff all its items are strings. Any other value raises. |
| StartServer.StringTagsSplit | template/python3/start_server.py:155 | A string sent as `tags` becomes one tag per character, at most ten, each cleaned. |
| StartServer.Admit | template/python3/start_server.py:143-159 | A Content-Length that is not an integer gives 500. More than 1 MiB gives 413 before the body is looked at. Malformed JSON gives 400. JSON that is not an object gives 500. An object with an author, content or tag that is not a string gives 500. A typed object whose author or content is blank after stripping gives 400. A message is accepted iff the length is allowed, the body is an object whose fields are typed, and neither author nor content is blank after stripping. The accepted fields are the cleaned ones. |
| StartServer.AcceptedWithinLimits | template/python3/start_server.py:153-159 | An accepted message has a 1..50-character author, 1..5000-character content and at most ten tags of at most 30 characters. None of them carries markup. |
| StartServer.Pad | template/python3/start_server.py:166 | A zero-padded field has exactly its width, in digits. |
| StartServer.PadInjective | template/python3/start_server.py:166 | Numbers below `10^w` have distinct `w`-digit renderings. |
| StartServer.PostStampInjective | template/python3/start_server.py:166-168 | Distinct times give distinct file names: only posts within the same second share a path. |
| StartServer.HandleChatPost | template/python3/start_server.py:141-189 | A rejected request writes nothing and gets its code. An accepted one creates the message directory and writes the message text to `message/<stamp>.txt`. It gets 500 when that raises. After the write, `run_script('chat.html')` makes the reply 500 when `template/` is not a directory or a found script cannot be started, and 200 otherwise. |
| StartServer.ScriptsListedSound | template/python3/start_server.py:212-220 | Every script `find_scripts` returns exists, has a known type, and is `template/<child>/<name>.<type>` for a listed child. |
| StartServer.ScriptsUnderComplete | template/python3/start_server.py:216-219 | Under one child, every script of a known type that exists is found. |
| StartServer.ScriptsListedComplete | template/python3/start_server.py:212-220 | Every existing script of the page's name under every listed child is found. |
| StartServer.FindTemplateScripts | template/python3/start_server.py:212-220 | The loop raises iff `template/` is not a directory, and otherwise collects the scripts `ScriptsListed` describes, child by child. |
| StartServer.SameSecondOverwrites | template/python3/start_server.py:166-175 | Two posts in the same second go to the same path, and the later text replaces the earlier. |
| StartServer.AuthorLineRead | template/python3/start_server.py:172 | The line `Author: <author>` is read back as `author` when the author is one line that does not open with whitespace. |
| StartServer.MessageText | template/python3/start_server.py:171-175 | The written text opens with the author line and a blank line, followed by the content verbatim. It is exactly that iff there are no tags. |
| StartServer.PostedAuthorRead | template/python3/start_server.py:171-175 | Round trip: the reader reports the posted author of every accepted one-line author. |
| StartServer.AuthorLineMatch | template/python3/start_server.py:172 | The metadata pattern at the start of the written text ends at the end of the author line. |
| StartServer.NoKeywordPast | template/python3/start_server.py:172-173 | After the blank line, content without a metadata keyword adds none. |
| StartServer.StripAuthorLine | template/python3/start_server.py:172-173 | The substitution removes the author line and keeps the blank line and the content. |
| StartServer.StripPastMatch | template/python3/chat/message_processor.py:27 | A match at the start followed by no keyword leaves just the text after the match. |
| StartServer.PostedBodyRead | template/python3/start_server.py:171-175 | Round trip: for a one-line author, no tags and no metadata keyword in the content, the parsed body equals the stripped content. |
| StartServer.StripFirstAuthorLine | template/python3/chat/message_processor.py:27 | After an author line, the substitution removes that line and keeps the line break after it and any keyword-free rest. |
| StartServer.MultiLineAuthorLeaks | template/python3/start_server.py:153-175 | A posted author that spans lines is not read back whole: the body is the author's later lines, a blank line and the content, stripped. |
| StartServer.SaveMessage | template/python3/start_server.py:108-119 | The message directory is created, and `message\n\nAuthor: author` is written to `message/<stamp>_<title>.txt`. False is returned, with only what was already done kept, when that raises. |
| StartServer.SavedText | template/python3/start_server.py:119 | The saved text opens with the message and ends with the author line after a blank line. |
| StartServer.SavedAuthorLine | template/python3/start_server.py:119 | The trailing author line matches `Author:\s*(.+)` with the author as its group. |
| StartServer.NoEarlierAuthor | template/python3/start_server.py:119 | No `Author:` starts before the trailing line when the message never says it. |
| StartServer.SavedAuthorRead | template/python3/start_server.py:119 | Round trip for the older format: the trailing author is read back when the message itself never says `author:` in any case. |
| CommitFiles.FirstLine | template/python3/commit_files.py:35 | `^(.+)` without MULTILINE matches iff the text starts with a character other than a line break. The group is then the non-empty first line. |
| CommitFiles.ExtractMetadata | template/python3/commit_files.py:21-42 | The hash is passed through, and the hashtags are every `#\w+` in order. The author is empty iff no case-sensitive `Author:` match exists, and is one line. The title stays the base name when the text is empty or starts with a line break. |
| CommitFiles.AuthorIsFirstCapture | template/python3/commit_files.py:30-32 | The author is the group of the leftmost case-sensitive `Author:` match. |
| CommitFiles.TitleIsFirstLine | template/python3/commit_files.py:35-37 | A text whose first line is non-empty has that line, stripped, as its title. |
| CommitFiles.LowerCaseAuthorIgnored | template/python3/commit_files.py:30-32 | The keyword is case-sensitive: a text that only says `author:` gets the empty author. |
| CommitFiles.MetadataPath | template/python3/commit_files.py:48 | The metadata path ends in `.json`. |
| CommitFiles.MetadataPathShape | template/python3/commit_files.py:45-48 | The metadata file lies in `dirname(file)/metadata` and is named `basename(file).json`. |
| CommitFiles.TxtOnly | template/python3/commit_files.py:130 | The filter keeps every `.txt` name as often as it occurs and nothing else. |
| CommitFiles.TxtOnlyAppend | template/python3/commit_files.py:130 | The filter keeps the order. |
| CommitFiles.ChangedFirst | template/python3/commit_files.py:129-130 | The changed `.txt` files come first, then the untracked ones, duplicates kept. |
| CommitFiles.StoreText | template/python3/commit_files.py:44-53 | A stored metadata file is reported at its metadata path. |
| CommitFiles.StoreAll | template/python3/commit_files.py:137-154 | At most one metadata file is listed per `.txt` file. |
| CommitFiles.StoreAllStep | template/python3/commit_files.py:138-154 | One more turn of the loop lists the file's metadata path iff its turn raised nothing. |
| CommitFiles.StoreAllNames | template/python3/commit_files.py:137-145 | Every listed metadata file belongs to one of the `.txt` files. |
| CommitFiles.StoreTextKeepsTxt | template/python3/commit_files.py:44-53 | Storing metadata never touches a `.txt` file. |
| CommitFiles.StoreAllKeepsTxt | template/python3/commit_files.py:137-154 | The whole loop leaves every `.txt` file as it found it, so the committed messages are the ones that were there. |
| CommitFiles.StoredTextReads | template/python3/commit_files.py:48-51 | A stored metadata file holds the rendering it was given. |
| CommitFiles.StoredMetadataReads | template/python3/commit_files.py:139-145 | After a file's turn, its metadata file holds the rendering of what `extract_metadata` found in the file's text. |
| CommitFiles.StoreMetadata | template/python3/commit_files.py:44-53 | The method leaves the tree and returns the path that `StoreText` describes. |
| CommitFiles.StoreFile | template/python3/commit_files.py:139-154 | One turn of the loop leaves what `StoreOne` describes. |
| CommitFiles.StoreEach | template/python3/commit_files.py:137-154 | The loop leaves what `StoreAll` describes. |
| CommitFiles.CommitTextFiles | template/python3/commit_files.py:120-165 | Without changes, or without `.txt` files, nothing is stored, staged or committed. Otherwise the tree and the metadata list are those of the loop over the `.txt` files, those files and then the metadata files are staged, and the commit message reports the number of `.txt` files. |
| CommitFiles.CountInMessage | template/python3/commit_files.py:162 | Whatever the time stamp, the number read back after `Auto-commit ` is the count the message was made with. |
| PyStr.DigitsValueOf | template/python3/commit_files.py:162 | Reading back the decimal digits of `str(n)` gives `n`. |
| CompilePrompt.StyleIgnoresCase | template/python3/compile_prompt.py:21-30 | The marker style depends on the extension lower-cased: upper-case extensions pick the same style. |
| CompilePrompt.FormatFileContentParts | template/python3/compile_prompt.py:20-32 | `format_file_content` opens with the begin marker line and ends with the end marker line, each with its line break, and holds the content verbatim between them. |
| CompilePrompt.UpperCaseScript | template/python3/compile_prompt.py:21-26 | A file named `x.JS` gets `/* */` markers. |
| CompilePrompt.MarkersOneLine | template/python3/compile_prompt.py:26-32 | For a one-line path, both marker lines are one line. The begin marker names the full path, and the end marker the base name. |
| CompilePrompt.UnwrapLines | template/python3/compile_prompt.py:32 | Dropping the first and last lines of `begin\ncontent\nend\n` gives the content back. |
| CompilePrompt.UnwrapAt | template/python3/compile_prompt.py:32 | `Unwrap` keeps exactly what lies between the first and the last line break. |
| CompilePrompt.UnwrapFormat | template/python3/compile_prompt.py:20-32 | The wrapping loses nothing: for every style, dropping the marker lines gives the content back, line breaks included. |
| CompilePrompt.Kept | template/python3/compile_prompt.py:67-68 | No kept name is hidden or one of the three prompt pieces. |
| CompilePrompt.KeptAppend | template/python3/compile_prompt.py:66-68 | The filter keeps the order of the names. |
| CompilePrompt.KeptComplete | template/python3/compile_prompt.py:67-68 | Every name that is not skipped is kept. |
| CompilePrompt.KeptFrom | template/python3/compile_prompt.py:67-68 | Only names of the directory are kept. |
| CompilePrompt.KeptSorted | template/python3/compile_prompt.py:66-68 | Filtering the sorted names leaves them sorted. |
| CompilePrompt.JoinAllAppend | template/python3/compile_prompt.py:70 | Joining the root onto names keeps their order. |
| CompilePrompt.WalkPathsSound | template/python3/compile_prompt.py:65-70 | Every path of the walk is a kept file of one of its directories. |
| CompilePrompt.WalkPathsComplete | template/python3/compile_prompt.py:65-70 | Every kept file of every directory is a path of the walk. |
| CompilePrompt.SortedWalkAt | template/python3/compile_prompt.py:66 | The loop visits each directory's names in `sorted` order. |
| CompilePrompt.StepNamesSorted | template/python3/compile_prompt.py:66 | Within one directory, the files are taken in ascending name order. |
| CompilePrompt.IncludedSound | template/python3/compile_prompt.py:65-70 | An included path is a kept file of one of the directories. |
| CompilePrompt.IncludedComplete | template/python3/compile_prompt.py:65-70 | Every kept file of every directory is included. |
| CompilePrompt.NeverIncluded | template/python3/compile_prompt.py:67-68 | Hidden files and the three prompt pieces never reach the prompt. |
| CompilePrompt.Header | template/python3/compile_prompt.py:52-62 | The prefix comes first when non-empty. The to-do list adds three lines, with the list itself between `\nTODO List:` and `\nSource Files:`. |
| CompilePrompt.SingleFilePrompt | template/python3/compile_prompt.py:34-88 | With no prefix, suffix or to-do list and a single file, the prompt is that file wrapped, and unwrapping it gives the file back. |
| CompilePrompt.CompiledPlain | template/python3/compile_prompt.py:52-88 | Without prefix, suffix or to-do list, the prompt is just the wrapped files joined by line breaks. |
| CompilePrompt.BlocksAppend | template/python3/compile_prompt.py:65-76 | The wrapped files of two path lists follow one another. |
| CompilePrompt.NameSnoc | template/python3/compile_prompt.py:66-70 | One more name adds its path unless it is skipped. |
| CompilePrompt.WalkSnoc | template/python3/compile_prompt.py:65 | One more directory adds its paths after the earlier ones. |
| CompilePrompt.StepInWalk | template/python3/compile_prompt.py:65-70 | A path of one directory is a path of the walk. |
| CompilePrompt.WalkExtend | template/python3/compile_prompt.py:65-76 | A fully readable directory extends the walk's paths and the output by its wrapped files. |
| CompilePrompt.WrapDirectory | template/python3/compile_prompt.py:66-79 | The inner loop wraps the kept files of one directory in sorted order, or stops at the first kept file that cannot be read, which is reported. |
| CompilePrompt.AppendWalk | template/python3/compile_prompt.py:65-79 | The outer loop completes iff every included file can be read. It then appends the wrapped files, directory by directory. |
| CompilePrompt.CompilePrompt | template/python3/compile_prompt.py:34-99 | The result is `Compiled`: an error for a missing template directory or an unreadable file. Otherwise it is the prefix, the to-do block, the wrapped files and the suffix, empty parts left out, joined by `\n`. |
| MakeOutlinerPrompt.ListedNames | template/python3/make_outliner_prompt.py:15-20 | Only names that are not hidden, not a prompt piece and not `.pyc` are grouped. |
| MakeOutlinerPrompt.DirItemsListed | template/python3/make_outliner_prompt.py:15-26 | A directory's files are grouped in the order of its listed names, each with its joined path and lower-cased extension. |
| MakeOutlinerPrompt.DirItemsSound | template/python3/make_outliner_prompt.py:15-26 | Every grouped item of a directory comes from one of its listed names. |
| MakeOutlinerPrompt.DirItemsComplete | template/python3/make_outliner_prompt.py:15-26 | Every listed name of a directory is grouped. |
| MakeOutlinerPrompt.ListedNamesSorted | template/python3/make_outliner_prompt.py:15-20 | Filtering the sorted names leaves them sorted. |
| MakeOutlinerPrompt.SortedDirsAt | template/python3/make_outliner_prompt.py:15 | The loop visits each directory's names in `sorted` order. |
| MakeOutlinerPrompt.ItemsSound | template/python3/make_outliner_prompt.py:10-26 | Every grouped item comes from a listed file of a directory that is not pruned. |
| MakeOutlinerPrompt.ItemsComplete | template/python3/make_outliner_prompt.py:10-26 | Every listed file of a directory that is not pruned is grouped. |
| MakeOutlinerPrompt.ListingExact | template/python3/make_outliner_prompt.py:10-26 | Exactly the listed files of the directories outside `__pycache__` are grouped. Hidden files, the prompt pieces, `.pyc` files and everything under `__pycache__` never are. |
| MakeOutlinerPrompt.DirectoryOrder | template/python3/make_outliner_prompt.py:15 | Within one directory, the files are grouped in ascending name order. |
| MakeOutlinerPrompt.FirstSeenSelect | template/python3/make_outliner_prompt.py:24-26 | A group exists exactly when some grouped file has its extension. |
| MakeOutlinerPrompt.FirstSeenDistinct | template/python3/make_outliner_prompt.py:24-25 | Each extension has one group. |
| MakeOutlinerPrompt.SelectSound | template/python3/make_outliner_prompt.py:26 | Every path of group `ext` is a grouped file with that extension. |
| MakeOutlinerPrompt.GroupExtension | template/python3/make_outliner_prompt.py:22-26 | Every path in group `ext` has `ext` as its lower-cased `splitext` extension. |
| MakeOutlinerPrompt.AddItem | template/python3/make_outliner_prompt.py:24-26 | Appending a file to its group keeps the dictionary in step with the files seen. The group is created first when the extension is new. |
| MakeOutlinerPrompt.AddFile | template/python3/make_outliner_prompt.py:16-26 | One turn of the inner loop groups a listed file and skips any other, keeping the dictionary in step. |
| MakeOutlinerPrompt.GroupDirectory | template/python3/make_outliner_prompt.py:15-26 | The inner loop adds the grouped files of one directory, in the order of its names. |
| MakeOutlinerPrompt.DirsSnoc | template/python3/make_outliner_prompt.py:10-15 | One more directory adds its grouped files unless it is pruned. |
| MakeOutlinerPrompt.GroupFilesByType | template/python3/make_outliner_prompt.py:8-27 | Keys are inserted in the order their extensions are first seen. Each key maps to exactly the paths with that extension, in visiting order. |
| MakeOutlinerPrompt.Search | template/python3/make_outliner_prompt.py:80-81 | `re.search` succeeds iff the pattern matches at some position. |
| MakeOutlinerPrompt.HasMarkerComments | template/python3/make_outliner_prompt.py:68-83 | The result is true iff, for some style, the begin pattern matches in the first 500 characters and the end pattern in the last 500. |
| MakeOutlinerPrompt.FormatFileContent | template/python3/make_outliner_prompt.py:85-100 | Content that already carries its markers is returned unchanged. Otherwise the content is wrapped, and unwrapping gives it back. |
| MakeOutlinerPrompt.MatchSelf | template/python3/make_outliner_prompt.py:71-76 | A marker line matches itself as a pattern. |
| MakeOutlinerPrompt.FoundAtStart | template/python3/make_outliner_prompt.py:80 | A begin line at the very start is found within the first 500 characters. |
| MakeOutlinerPrompt.FoundAtEnd | template/python3/make_outliner_prompt.py:81 | An end line just before the final line break is found within the last 500 characters. |
| MakeOutlinerPrompt.WrappedIsMarked | template/python3/make_outliner_prompt.py:68-100 | Freshly wrapped content carries its markers. |
| MakeOutlinerPrompt.FormatIdempotent | template/python3/make_outliner_prompt.py:85-100 | Formatting twice changes nothing more. |
| MakeOutlinerPrompt.ReadFile | template/python3/make_outliner_prompt.py:51-66 | `.pyc`, `.pyo` and `.pyd` paths raise before any reading. Otherwise the text comes back iff the file can be read. |
| MakeOutlinerPrompt.OptimizedFileGroupedButRefused | template/python3/make_outliner_prompt.py:19 | Grouping skips only `.pyc`: a `.pyo` file is grouped, and reading it then raises. |
| MakeOutlinerPrompt.PromptFilename | template/python3/make_outliner_prompt.py:156 | The prompt file is named `prompt_<ext>.txt`. |
| MakeOutlinerPrompt.PromptFilenameExamples | template/python3/make_outliner_prompt.py:155-156 | `.py` gives `prompt_py.txt`, and the empty extension gives `prompt_.txt`. |
| MakeOutlinerPrompt.PromptFilenameInjective | template/python3/make_outliner_prompt.py:156 | Distinct dotted extensions get distinct prompt files. |
| MakeOutlinerPrompt.BareDotSharesFile | template/python3/make_outliner_prompt.py:156 | The group of names without an extension and the group `.` both write `prompt_.txt`. |

Notes on behaviour the model makes explicit:

- `start_server.py` carries copies of several functions:
  `generate_title`, `get_content_type`, `ensure_index_html`,
  `serve_static_file`, `setup_static_files` and the staleness test of
  `run_script_if_needed`. They are the same code as in `utils.py` and the
  handlers, so each is modelled once, at the handler's lines.
- In `format_file_content`, the `.py`/`.sh`/`.rb`/`.pl` branch and the
  fallback both choose `#`, so the model has a single `#` style.
- `group_files_by_type` skips only `.pyc`, while `read_file` refuses
  `.pyc`, `.pyo` and `.pyd`. A `.pyo` file is therefore grouped and then
  makes the outliner raise (`OptimizedFileGroupedButRefused`).
- A file name ending in a bare dot has the extension `.`, whose prompt file
  `prompt_.txt` is also the one of extension-less names. The later group
  overwrites the earlier (`BareDotSharesFile`).
- Two posts within the same second share a file name, and the later one
  replaces the earlier (`SameSecondOverwrites`).

## Left out

- File and encoding I/O: `read_file` with `chardet`, and the two-encoding
  loops of `compile_prompt.py` and `make_outliner_prompt.py`. File contents
  are inputs: a text per path, "" for an unreadable message file, and a map
  holding every readable file for the prompt builders. In `CompilePrompt`
  the prefix, suffix and to-do files are `None` when absent and their text
  when present: a file that exists but cannot be read, for which
  `compile_prompt` raises, cannot be expressed.
- `os.path.getmtime`, `time.time()` and `datetime.now()` are inputs in
  whole seconds. `strftime` renders only `%Y%m%d_%H%M%S` and
  `%Y-%m-%d_%H-%M-%S` (for file names). The page's timestamps and
  `current_time` stay numbers.
- `datetime.fromtimestamp(..., tz=timezone.utc)` is kept as the raw second
  count. Sorting on `-timestamp()` orders the same way.
- `multiprocessing.Pool` is modelled as a sequential, order-preserving map.
- The HTML templates and `.format` are out of scope: a page is the record of
  the values handed to them. Writing `output_file`, `prompt.txt` and the
  outliner's `prompt_<ext>.txt` files is not modelled.
- HTTP transport: request routing, `send_error`, headers, sockets,
  `run_server`, `find_available_port` and `is_port_in_use`. The request's
  JSON body arrives already decoded (`Json`), with malformed JSON and
  non-object JSON as cases.
- StartServer.Admit: JSON values other than strings, arrays and objects
  (numbers, booleans, `null`) are one case, `JOther`; an object is
  represented by its keys only. Every such value raises at `.strip()` or
  when iterated, so the model keeps the outcome of each.
- StartServer.HandleChatPost: the regeneration scripts are not run. Their
  own effects on the tree and their exit status (which `subprocess.run`
  ignores) are not modelled, and `launchFails` is one flag for whether any
  interpreter fails to start.
- FileSystem.Tree.MakeDirs: adds only the directory at the path.
  `os.makedirs` also creates the missing directories above it; the tree
  is left without them.
- ChannelManager.GetChannelFiles: for a channel name with a `/`, such as
  `a/b`, only `message/a/b` is added and `message/a` stays missing when it
  was, because of `MakeDirs`. Its files come in the order the tree stores
  them, as for `WalkTextFiles`.
- ChannelManager.WalkTextFiles: the files come in the order the tree stores
  them, not in `os.walk`'s top-down order (a directory's own files before
  those of its sub-directories). The set of files is exact
  (`TxtFilesInExact`), and the page sorts them before showing them
  (`HtmlGenerator.SortedUnique`), so the shown order does not depend on it.
- ChannelManager.ChildDirNames: channels come in the order the tree stores
  them; `os.listdir` promises no order, and none is stated.
- HtmlGenerator.SortMessages: the contract states an ordered permutation.
  That Python's sort is stable (messages with equal keys keep their order)
  is not stated.
- git, subprocess and hashing: `run_git_command`, `has_remote`, `can_push`,
  `push_changes`, `init_git_repo`, `git add`/`git commit`, and SHA-256. The
  outputs of the three git queries are inputs, the hash and `json.dump` are
  function parameters, and the scripts' commands are returned rather than
  run.
- `os.path.relpath` is taken as the identity on the paths the walk
  produces (relative to the working directory). Prompt paths are the
  joined ones.
- `get_file_stats`, `format_size` (floating point) and the per-extension
  statistics and prompt assembly of the outliner's `compile_prompt` are not
  modelled. Only its grouping, marker test, wrapping, binary guard and file
  naming are.
- `generate_title`'s random letters are a parameter.
- `template/python3/outline.py` (Python's `ast`), `template/js/chat.js`
  (browser UI) and `template/python3/chat.html.py` (argument parsing) are
  not part of this model. Neither are the cache and pull handling of
  `handlers/chat_handler.py` and `handlers/request_handler.py`.
- `\w`, `str.isalnum` and `str.lower` are their ASCII parts. Non-ASCII
  letters and digits are not word characters here, and non-ASCII
  upper-case letters are not folded.
- MakeOutlinerPrompt.HasMarkerComments: the file path is interpolated into
  the regular expression. The model gives `.` its regex meaning and treats
  every other character of the path literally. Paths with other
  metacharacters (`+`, `(`, `[`, `*`, `?`, `\`, ...) are not modelled
  faithfully.
- MakeOutlinerPrompt.WrappedIsMarked: proved only for paths of at most 400
  characters. Longer paths push the markers outside the 500-character
  windows.
- MakeOutlinerPrompt.FormatIdempotent: proved only for paths of at most 400
  characters, for the same reason.
- CompilePrompt.UnwrapFormat: proved for paths without a line break only.
- HtmlGenerator.GenerateChatHtml: its own contract states the message count,
  the title and the expand-link ids. The order, selection and rendering of
  the messages are stated by the methods it calls (`AggregateMessages`,
  `RenderMessages`, `BuildChannelNav`) rather than repeated about the page.
- StartServer.PostedAuthorRead: stated for authors without a line break.
  Sanitising removes only leading and trailing whitespace, so a posted
  author may span lines, and then only its first line is read back.
- StartServer.PostedBodyRead: stated for posts whose author is one line,
  without tags, and whose content has no metadata keyword. With a
  multi-line author such as `a\nb` the substitution removes only the first
  author line, and the rest of the author opens the body
  (`StartServer.MultiLineAuthorLeaks`).
