# DNShell input and dispatch, modelled in Dafny

DNShell is a small interactive shell written in C (`shell.c`). This project
models the part that decides things:

- the command **history**: at most 100 lines, with a recall cursor;
- the **line editor** `read_input`: a loop over raw input bytes that edits
  a 1024-byte buffer at its end and pages through the history with the up
  and down arrows;
- the **path resolver** `resolve_path`: `~` expansion, relative paths and
  the textual removal of `/./` and `//`;
- the **tokenizer** in `main` (a `strtok(input, " ")` loop filling a
  64-slot `args` array) and the **routing** in `execute_command`;
- the string logic of **`print_prompt`**: the `~` shortening of the working
  directory and the host name cut at its first dot.

The terminal, the process table and the environment are passed in as
values. `getenv("HOME")`, the password-file home directory and `getcwd()`
make up `PathResolver.Env`. Input bytes are a `seq<char>`. An external command
is returned as an `Action` and never run.

Modules, one per component:

| file | module | what it holds |
|---|---|---|
| `cstring.dfy` | `CString` | `Option`, and models of `strstr`, `strncmp` used as a prefix test, and `snprintf` into a bounded buffer |
| `history.dfy` | `HistoryStore` | class `History` (an `items` array of 100 strings, `count`, `position`), plus functions on entry sequences that specify it |
| `line_editor.dfy` | `LineEditor` | class `Editor` (the `current_input` array, `input_pos`, the history), plus the reference semantics `Run` of the byte loop |
| `path_resolver.dfy` | `PathResolver` | `ResolvePath` with its two rewriting loops, and the function `Resolve` that specifies it |
| `dispatch.dfy` | `Dispatch` | the `strtok` loop over a 64-slot array, the word splitter `Words` that specifies it, and `Route` |
| `prompt.dfy` | `Prompt` | `ShortPath`, `HostLabel`, `PromptText` |
| `shell.dfy` | `Shell` | one pass of the main loop: read, store, split, route |

The imperative parts keep their imperative form:

- `history_add` shifts the `items` array in place.
- `read_input` is a `while` loop over the bytes that writes the character
  array. It also keeps the NUL cell: `current[inputPos] == '\0'`.
- The `resolve_path` loops repeat `strstr`+`memmove` until no match is
  left.
- The tokenizer fills an array of `Option<string>`, where `None` is NULL.

Each of these methods is proved equal to a function of its inputs or old
state. The properties are then proved about those functions:

- `History.Add` is specified by `Added`, and `Editor.ReadInput` by `Run`.
- `ResolvePath` is specified by `Resolve`, which applies
  `SqueezeSlashes ∘ DropDotSegments` to the expanded path.
- `FillArgs` is specified by `Slots(Take(Words(line), …))`.

Two consequences of the code worth knowing:

- The tokenizer is `strtok(input, " ")` (shell.c:275-277), which skips runs
  of spaces, so no token is ever empty and extra spacing changes nothing
  (`Dispatch.WordsPadded`, `Dispatch.RouteLine`).
- `main` stores a line in the history before running it (shell.c:271), so
  `cd /tmp` followed by `history` lists `1 cd /tmp`, `2 history`
  (`Shell.CdThenHistory`).

## Model

| member | source | states |
|---|---|---|
| `CString.Find` | shell.c:65-66 | `strstr`: returns an index where the pattern occurs, with no occurrence before it; returns `None` exactly when the pattern occurs nowhere |
| `CString.IsPrefix` | shell.c:222 | `strncmp(cwd, home, strlen(home)) == 0`: when `p` is a prefix of `s`, `s` is `p` followed by the rest of `s` |
| `CString.Bounded` | shell.c:122-124 | `snprintf` into a buffer of `size` bytes keeps a prefix shorter than `size`: the whole string when it fits, else exactly `size - 1` characters |
| `HistoryStore.Added` | shell.c:96-112 | `history_add` on the entries: an empty line changes nothing, and the store never grows past 100. After any non-empty line, that line is the newest entry, whether newly stored or already there |
| `HistoryStore.AddedCases` | shell.c:96-112 | a rejected line (empty, or equal to the newest entry) leaves the entries as they are. Below 100 entries an accepted line is appended. At 100 the oldest is dropped and the line goes last. Either way the new line is the newest entry and the size is `min(count + 1, 100)` |
| `HistoryStore.AddedWellFormed` | shell.c:96-112 | adding keeps the store's invariant: at most 100 entries, none empty, no two neighbours equal |
| `HistoryStore.AddedTwice` | shell.c:99-101 | adding the same line twice in a row stores it once |
| `HistoryStore.AddedAllKeepsNewest` | shell.c:103-111 | adding a run of non-empty lines, no two neighbours equal, to an empty store keeps all of them while they fit, and otherwise exactly the newest 100: eviction is strict FIFO |
| `HistoryStore.History.constructor` | shell.c:29 | the store starts with no entries and the cursor at 0 |
| `HistoryStore.History.Add` | shell.c:96-113 | `history_add` on the object: the entries become `Added(old entries, line)` and the invariant holds. A rejected line leaves `position` where it was; an accepted one sets `position == count` |
| `HistoryStore.History.ShiftDown` | shell.c:106-109 | the in-place `memmove` moves entry `j + 1` to slot `j` for every `j < 99` and leaves slot 99 as it was, to be overwritten by the caller |
| `HistoryStore.History.List` | shell.c:243-245 | the `history` built-in lists every entry in order, numbered from 1 |
| `LineEditor.Up` | shell.c:117-127 | above 0, arrow up moves the cursor back by one and the buffer shows the entry there, cut to 1023 characters. At 0 the state is unchanged. The text stays under 1024 bytes |
| `LineEditor.Down` | shell.c:129-145 | arrow down moves the cursor forward by one while it is below `count` and stays at `count` from the blank slot. Afterwards the buffer shows the entry under the cursor, or nothing at `count` |
| `LineEditor.EscapeSequence` | shell.c:157-165 | after ESC, `[A` is `Up` and `[B` is `Down`, and any other pair changes nothing. The cursor stays in `[0, count]` and the buffer bounded |
| `LineEditor.KeyByte` | shell.c:166-177 | a byte other than newline and ESC never moves the cursor and keeps the text under 1024 bytes. It either shortens the text or appends exactly that byte; 127 and `'\b'` remove exactly the last character of a non-empty text. A non-printable byte other than 127 and `'\b'` changes nothing |
| `LineEditor.Run` | shell.c:147-180 | the loop of `read_input`: the cursor stays in `[0, count]`. A finished line is the buffer's text at the first newline the loop acts on, and the unread rest is exactly the input after that newline |
| `LineEditor.RecallRoundTrip` | shell.c:117-145 | when the buffer shows the entry under the cursor, down undoes up (cursor above 0) and up undoes down (cursor below `count`) |
| `LineEditor.RunInBounds` | shell.c:147-180 | whatever the input, `read_input` keeps the text under 1024 bytes and the cursor in `[0, count]`, and a returned line has fewer than 1024 characters |
| `LineEditor.TypedLine` | shell.c:154-156 | printable bytes followed by a newline return the text typed, cut at 1023 characters. The bytes after the newline are left unread |
| `LineEditor.BackspaceUndoesKey` | shell.c:166-176 | a printable byte appended below capacity and then erased with 127 or `'\b'` leaves the state as it was |
| `LineEditor.KeyByteNoops` | shell.c:166-177 | backspace on an empty buffer, a printable byte on a full buffer, and any other non-printable byte all change nothing |
| `LineEditor.EscapeTakesTwoBytes` | shell.c:157-165 | ESC always consumes the next two bytes, whatever they are |
| `LineEditor.ArrowKeysRecall` | shell.c:157-164 | on the input bytes, ESC `[A` runs arrow up and ESC `[B` runs arrow down, and reading goes on after the three bytes |
| `LineEditor.OtherEscapeIgnored` | shell.c:162-165 | an escape sequence other than `[A` and `[B` leaves the buffer and the cursor unchanged |
| `LineEditor.RecallWalk` | shell.c:117-145 | with entries [a, b, c] and the cursor at 3: up gives c, b, a, then nothing; down then gives b, c, the blank line, and the blank line again |
| `LineEditor.DownOnEmptyHistory` | shell.c:129-145 | arrow down on an empty history keeps the cursor at 0 and empties the buffer |
| `LineEditor.Editor.constructor` | shell.c:33-34 | the buffer starts empty |
| `LineEditor.Editor.Load` | shell.c:122-124 | a recalled line replaces the buffer, cut to 1023 characters and NUL-terminated, and `input_pos` becomes its length |
| `LineEditor.Editor.ArrowUp` | shell.c:117-127 | `handle_arrow_up` on the globals: the new buffer and cursor are `Up` of the old ones, and the entries are unchanged |
| `LineEditor.Editor.ArrowDown` | shell.c:129-145 | `handle_arrow_down` on the globals: the new buffer and cursor are `Down` of the old ones, and the entries are unchanged |
| `LineEditor.Editor.EscapeKeys` | shell.c:157-165 | the escape branch on the globals: the new state is `EscapeSequence` of the old one, and the entries are unchanged |
| `LineEditor.Editor.EditKey` | shell.c:166-177 | the erase and append branches on the buffer array: the new state is `KeyByte` of the old one, and the NUL stays after the text |
| `LineEditor.Editor.ReadInput` | shell.c:147-180 | the byte loop starts from an empty buffer, with the cursor where it was. It returns exactly what `Run` gives: the line at the first newline with the bytes after it, or `None` when the input runs out |
| `PathResolver.Prefixed` | shell.c:42-62 | the buffer before the collapse loops is NULL exactly for `~x` (x not `/`) and for a relative path when the working directory cannot be read. Otherwise it ends with the path as given, without its `~` |
| `PathResolver.DropDotSegments` | shell.c:65 | the first loop, read left to right, never lengthens the text and keeps its first character, so an absolute path stays absolute |
| `PathResolver.SqueezeSlashes` | shell.c:66 | the second loop, read left to right, never lengthens the text and keeps its first character |
| `PathResolver.Resolve` | shell.c:42-69 | `resolve_path` returns NULL exactly when the expanded buffer is NULL, and otherwise a text with neither `//` nor `/./` |
| `PathResolver.DropFirstDotSegment` | shell.c:65 | removing the first `/./` by `memmove(p, p + 2, …)` does not change the first loop's result |
| `PathResolver.DropOneSlash` | shell.c:66 | removing one `/` of any `//` does not change the second loop's result |
| `PathResolver.DropDotSegmentsOfClean` | shell.c:65 | text without `/./` leaves the first loop unchanged |
| `PathResolver.SqueezeSlashesOfClean` | shell.c:66 | text without `//` leaves the second loop unchanged |
| `PathResolver.DropDotSegmentsClean` | shell.c:65 | the first loop leaves no `/./` |
| `PathResolver.SqueezeSlashesClean` | shell.c:66 | the second loop leaves no `//` and adds no `/./` |
| `PathResolver.CollapseClean` | shell.c:64-66 | after both loops the text contains neither `//` nor `/./` |
| `PathResolver.CollapseOfClean` | shell.c:64-66 | both loops leave clean text unchanged |
| `PathResolver.CollapseIdempotent` | shell.c:64-66 | collapsing twice is the same as collapsing once |
| `PathResolver.ResolvePath` | shell.c:42-69 | `resolve_path` as the code runs it returns exactly `Resolve(path, env)`, and a result contains neither `//` nor `/./` |
| `PathResolver.ResolveTilde` | shell.c:47-55 | `~` and `~/rest` give the collapsed `home + rest`, where home is HOME or else the password entry's; `~x` gives NULL |
| `PathResolver.ResolveRelative` | shell.c:56-59 | a path not starting with `/` or `~` gives the collapsed `cwd + "/" + path`, or NULL when the cwd cannot be read |
| `PathResolver.ResolveAbsolute` | shell.c:60-62 | an absolute path is only collapsed, so a clean absolute path comes back exactly as given |
| `PathResolver.ResolveFixedPoint` | shell.c:42-69 | an absolute result resolves to itself |
| `PathResolver.DotDotKept` | shell.c:64-66 | `..` is not interpreted: `/a/../b` resolves to `/a/../b` |
| `Dispatch.Words` | shell.c:273-277 | every token is non-empty and contains no space |
| `Dispatch.WordsSplit` | shell.c:275-277 | a space splits the tokens: the tokens of `a + " " + b` are those of `a` followed by those of `b` |
| `Dispatch.WordsOfJoin` | shell.c:275-277 | space-free words joined with single spaces split back into exactly those words |
| `Dispatch.WordsPadded` | shell.c:275-277 | runs of spaces before and after a line add no tokens |
| `Dispatch.WordsOfSpread` | shell.c:275-277 | words separated by runs of one or more spaces split back into exactly those words |
| `Dispatch.StrTok` | shell.c:275-277 | one `strtok` call returns NULL exactly when only spaces remain. Otherwise its token is non-empty and space-free, and it resumes after the overwritten delimiter or at the end |
| `Dispatch.StrTokWords` | shell.c:275-277 | each `strtok` call returns the next maximal run of non-spaces and resumes after its delimiter. It returns NULL exactly when no token is left |
| `Dispatch.FirstToken` | shell.c:275 | the first `strtok(input, " ")` returns the first token of the line, or NULL for a line with none |
| `Dispatch.NextToken` | shell.c:276-277 | after `i + 1` tokens, `strtok(NULL, " ")` returns token `i + 1`, or NULL exactly when there are only `i + 1` |
| `Dispatch.FillArgs` | shell.c:273-277 | the `main` loop with bound `last` stores the first `last + 1` tokens in order, with NULL in every later slot |
| `Dispatch.Tokenize` | shell.c:273-277 | the loop as written stores up to 64 tokens. `args` holds a NULL exactly when the line has fewer than 64 tokens |
| `Dispatch.SixtyFourWordsFillEverySlot` | shell.c:276-277 | a line of 64 words leaves no NULL in `args` |
| `Dispatch.TokenizeTerminated` | shell.c:273-277 | the corrected loop stores at most 63 tokens, so `args[63]` is always NULL |
| `Dispatch.ArgVector` | shell.c:249 | the argument vector `execvp` reads is the slots before the first NULL: each is `Some`, and the slot after them is NULL unless the array ends |
| `Dispatch.ArgVectorOfSlots` | shell.c:249 | the argument vector read from the stored slots is the stored tokens |
| `Dispatch.CommandOfLine` | shell.c:273-279 | with the corrected tokenizer, `execute_command` sees the first 63 tokens of the line, which is all of them for a line of fewer than 64 |
| `Dispatch.CommandOfLineAsWritten` | shell.c:273-279 | with the loop as written, a line of fewer than 64 tokens gives all of them. A longer one fills all 64 slots with its first 64 tokens, leaving no NULL inside the array |
| `Dispatch.Route` | shell.c:233-256 | `execute_command` does nothing exactly for an empty vector. `cd` is chosen only for a first token `cd`. An external command gets the whole vector and only when the first token is no built-in |
| `Dispatch.RouteCases` | shell.c:233-256 | no tokens give no action. `cd` alone targets HOME; `cd x …` targets `resolve_path(x)` and ignores the rest. `exit` and `history` ignore their arguments. Any other first token runs as an external command with the full argv |
| `Dispatch.RouteLine` | shell.c:273-279 | a line of fewer than 64 words routes by exactly those words, with any number of spaces before and after it and one or more between words |
| `Prompt.ShortPath` | shell.c:221-226 | without HOME, or when HOME is not a prefix of it, the directory is shown as is. A shown directory that differs starts with `~`, and HOME followed by the text after the `~` is the working directory |
| `Prompt.ShortPathRoundTrip` | shell.c:221-226 | the shortened directory expands back to the working directory |
| `Prompt.ShortPathUnderHome` | shell.c:222-223 | a working directory `home + suffix` is shown as `~` + `suffix` for every suffix, so HOME itself is `~`. The prefix test is textual: `/home/userX` under HOME `/home/user` is shown as `~X` |
| `Prompt.HostLabel` | shell.c:215-218 | the host name shown is the prefix before the first `.` and contains no `.` |
| `Prompt.PromptText` | shell.c:228-229 | the prompt starts with the user name (`unknown` when the lookup failed) and `@`, and ends with `> ` |
| `Prompt.PromptLayout` | shell.c:208-230 | the prompt text ends with the shortened directory and `> `, and a failed host lookup shows `unknown` |
| `Shell.Step` | shell.c:265-281 | one pass of the main loop. A line `Run` reads is added to the history and routed by its first 63 tokens, and the unread rest is returned. The buffer keeps the line, and the cursor goes to `count` when the line is stored, else stays where the editing left it. When the input runs out, no action is taken, the entries are unchanged, nothing is left unread, and the buffer and cursor are as the arrow keys and edits read so far left them |
| `Shell.CdThenHistory` | shell.c:243-245 | after `cd /tmp` and `history` the listing is `(1, cd /tmp), (2, history)`, and `history` routes to the listing |
| `Shell.ExitLine` | shell.c:241-242 | `exit`, with any spaces around it, routes to the exit built-in |

## Left out

- Terminal mode switching (`tcgetattr`/`tcsetattr`/`atexit`, shell.c:73-87) and `signal(SIGINT, SIG_IGN)` (shell.c:259): these are process and terminal state outside the model.
- All output: the echo of typed bytes, `"\b \b"`, `clear_line`, the prompt redraw on recall, the banner, the ANSI colours and the `history` format `%3d %s`. The listing is modelled as (number, text) pairs. `PromptText` is the prompt without its colour codes.
- `fork`, `execvp`, `wait` and `perror` (shell.c:247-254): an external command stops at `Action.External(argv)`.
- `chdir` and `update_cwd` after `cd` (shell.c:238-240, 184-189): `Cd(target)` is the decision only. `Cd(None)` stands for the error path, where no target was found.
- `getenv`, `getpwuid`, `gethostname` and `getcwd` are parameters. A NULL from `getpwuid` at shell.c:49 would crash the C code; the model takes the password home as a plain string.
- Memory management (`strdup`/`free`) is not modelled. Neither is the truncation at `PATH_MAX` in `resolve_path` or at 256 bytes for the user and host names. Strings are unbounded `seq<char>` without embedded NULs, which is also why `strlen(current_input)` is written as the copied length.
- The NULL-pointer guards `if (!path)` and `if (!cmd)` are not modelled: strings are values and never NULL.
- `getchar` returning EOF, a failing `read` after ESC, and the mix of buffered `getchar` with unbuffered `read` on the same descriptor. Input is one finite ordered byte stream; when it runs out, `read_input` reports `Starved`, or `None` from `Editor.ReadInput`.
- `isprint` beyond the C locale: printable means `' '`..`'~'`, and bytes of 0x80 and above count as non-printable.
- The endless main loop (shell.c:265-281): `Shell.Step` models one pass. `if (!input) continue` depends on `strdup` failing and is not modelled.
- `Shell.Step`: uses the corrected tokenizer, so a line of 64 or more words runs with its first 63. The code as written leaves `args` without a terminating NULL (see Findings).

## Findings

| source | as written | input that shows it | evidently intended | confidence | as-written member | corrected member |
|---|---|---|---|---|---|---|
| shell.c:273-277 | `while (args[i] && i < MAX_ARGS - 1) args[++i] = strtok(NULL, " ");` lets the 64th token land in `args[63]`, the last slot of `char *args[64]`, so the vector passed to `execvp` has no NULL terminator | a line of 64 words, e.g. `a a a … a` (64 times) | store at most 63 tokens so that `args[63]` stays NULL | high; not executed | `Dispatch.Tokenize`, with `Dispatch.SixtyFourWordsFillEverySlot` | `Dispatch.TokenizeTerminated` |
