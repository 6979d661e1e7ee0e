# sshtui core, modelled in Dafny

sshtui is a terminal menu for SSH. It reads the hosts of `~/.ssh/config`,
starts `ssh` for a chosen host inside a PTY, and keeps each running
connection as a *session*. The user can detach from a session with
Ctrl+Space (byte 0), resume it later (its scrollback is replayed), view its
scrollback in a pager, close the last active session, or quit.

This project models the sequential logic of that program:

- **`Config`** (`config.dfy`, from `config.go`). The ssh_config(5) subset
  parser covers Host, HostName, User, Port, LocalForward, RemoteForward and
  DynamicForward.
  - It is a loop over the lines (`ParseSSHConfig`), proved equal to a fold
    of a per-line `Step` over the lexed directives (`ParseConfig`).
  - It also holds the two functions that turn a host's forwards into `ssh`
    arguments (`BuildSSHArgs`) and into the menu tag (`DisplayForwards`).
- **`Sessions`** (`session.dfy`, from `session.go`).
  - A `Session` class holds its id, alias, `ssh` arguments, the `active`
    flag, a `closed` flag and the scrollback bytes.
  - A `Registry` class holds the ordered session list and `nextID`. It
    supports create, close-last-active and close-all.
  - Scrollback is appended and truncated to the newest 1 MiB, and replayed
    as its last 4096 bytes.
  - The stdin filter stops at the first chunk holding byte 0.
- **`Ui`** (`ui.dfy`, from `ui.go`).
  - The scrollback pager is a state machine over `currentLine`, the search
    term, the search results and the search index.
  - The host selection is a toggle-set machine over the `selected` map.
  - Each has a pure step function, and a method with the source's loop and
    mutable variables proved against it.
- **`Menu`** (`main.dfy`, from the command loop of `main.go`). It trims each
  menu line and dispatches it:
  - `q` closes every session and stops;
  - `x` closes the last active session;
  - `v` then `!N` views session N;
  - `!N` resumes session N;
  - `N` connects to host N.
- **`Text`** (`text.dfy`) and **`Common`** (`common.dfy`).
  - `Text` holds the parts of Go's `strings` package the core uses:
    `TrimSpace`, `Fields`, `Join`, `Split`, `HasPrefix`, `Contains` and ASCII
    `ToLower`.
  - `Common` holds `Option`, `byte` and `Flatten`.

The outside world is given to the model as inputs:

- the lines of the config file;
- how starting `ssh` ends: started, error or timeout (`StartOutcome`);
- whether the process has exited, and whether raw mode fails;
- the chunks read from stdin and from the PTY;
- the lines typed at the menu, the pager and the selection prompt;
- `fmt.Sscanf`'s `%d`, as a function `scan: string -> Option<int>`.

## Model

| member | source | states |
|---|---|---|
| Config.DirectiveShape | config.go:45-57 | A line yields nothing exactly when, after trimming, it is blank, starts with `#`, or has fewer than two fields. Otherwise the keyword is the lower-cased first field, the value's fields are exactly the remaining fields, and the value is those fields joined by single spaces. |
| Config.Directive | config.go:45-57 | A line that yields a directive gives a non-empty, lower-case keyword and a non-empty value that needs no further trimming. |
| Config.DirectiveOfWords | config.go:56-57 | A line of words not starting with `#` reads as (lower-cased first word, the rest joined by single spaces). |
| Config.KeywordCaseInsensitive | config.go:56 | Two spellings of a keyword with the same lower case give the same directive. |
| Config.Lex | config.go:40-57 | Each line is read on its own: directive i is the reading of line i. |
| Config.ForwardsFromWords | config.go:112-151 | LocalForward/RemoteForward give none for fewer than two fields; otherwise kind L/R, fields 1 and 2, extra fields ignored. DynamicForward gives none exactly when the value is empty, otherwise kind D with the trimmed value. |
| Config.ParseLocalForward | config.go:112-124 | `LocalForward` gives no forward exactly when its value has fewer than two fields; otherwise an L forward whose local port and remote address are single words. |
| Config.ParseRemoteForward | config.go:126-138 | `RemoteForward` gives no forward exactly when its value has fewer than two fields; otherwise an R forward whose local port and remote address are single words. |
| Config.ParseDynamicForward | config.go:140-151 | `DynamicForward` gives no forward exactly when its value is blank; otherwise a D forward with no remote address and a non-empty port without surrounding spaces. |
| Config.JoinedWordsAreTrimmed | config.go:57 | A value re-joined from fields needs no trimming, and is empty only when there were no fields. |
| Config.ParseSSHConfig | config.go:40-107 | The parser's loop (which reassigns `current` and appends to `hosts`) returns exactly the fold `ParseConfig` of the per-line step over the lines. |
| Config.ParsedAliases | config.go:59-107 | The aliases of the parsed hosts are the values of the non-wildcard `Host` lines, in file order, except that a block whose next `Host` line is a wildcard is dropped: `Host a`, `Host *`, `Host b` gives only `b`. |
| Config.ParseConfig | config.go:40-107 | Every forward of every parsed host has kind L, R or D. |
| Config.AliasesFrom | config.go:59-107 | From any parser state, the aliases emitted are those already emitted, then the open block's (unless a wildcard `Host` discards it first), then those of later non-wildcard `Host` lines. |
| Config.Step | config.go:59-102 | One line only appends to the emitted hosts: it keeps those already emitted and adds at most one. |
| Config.StepEffect | config.go:59-78 | A wildcard `Host` line closes the open block without emitting it. A plain `Host` line emits the open block and opens a new one with that alias. Any other line keeps the emitted hosts and whether a block is open. |
| Config.StepAliases | config.go:59-102 | One line preserves the "emitted + open + still to come" account of aliases. |
| Config.HostLineAliases | config.go:64-74 | A non-wildcard `Host` line moves the open block's alias into the emitted list and opens its own. |
| Config.WildcardLineAliases | config.go:60-63 | A `Host` value containing `*` drops the open block's alias and opens nothing. |
| Config.OtherLineAliases | config.go:76-102 | Non-`Host` lines change neither emitted hosts nor aliases. |
| Config.NoBlockIgnoresDirectives | config.go:59-78 | With no open block, lines whose only `Host` lines are wildcards change nothing. |
| Config.PreambleIgnored | config.go:59-78 | Lines before the first non-wildcard `Host` line, `Host *` blocks of global defaults included, do not affect the result. |
| Config.BlockSettings | config.go:80-102 | Inside a block, HostName, User and Port take their last value in the block (earlier ones are overwritten), and accepted forwards accumulate in file order. |
| Config.BlockStep | config.go:80-102 | One non-`Host` line inside a block sets the matching field or appends its forward, and keeps the alias and the emitted hosts. |
| Config.FoldRecognised | config.go:86-101 | Parsing keeps every forward in the state of a recognised kind. |
| Config.BuildSSHArgs | config.go:153-170 | The argument list has length 2 × (number of L/R/D forwards) + 1 and ends with exactly the alias. |
| Config.ArgsPositional | config.go:157-165 | With only recognised forwards, forward i is at arguments 2i and 2i+1: `-L`/`-R` with `local:remote`, or `-D` with the local port. |
| Config.FlagsPositional | config.go:157-165 | The flags list has two entries per forward, forward i's flag pair at 2i. |
| Config.ForwardFlags | config.go:157-165 | Unknown kinds add no arguments: two per recognised forward. |
| Config.RecognisedCount | config.go:158-165 | The number of recognised forwards is at most the list length, and equal to it when all are recognised. |
| Config.DisplayForwards | config.go:172-190 | The tag is `""` exactly when the list is empty; otherwise it starts with `" ["` and ends with `]`. |
| Config.ForwardEntries | config.go:177-187 | One tag entry per recognised forward. |
| Config.EntriesInOrder | config.go:177-189 | Entry i of the tag describes forward i (`L:p→a`, `R:p→a` or `D:p`). |
| Sessions.KeepNewest | session.go:240-242 | The truncated log is the last min(1 MiB, length) bytes of the log, so it is never longer than 1 MiB and a log within 1 MiB is kept whole. |
| Sessions.TruncateAppend | session.go:237-242 | Truncating after every append gives the same buffer as truncating once at the end. |
| Sessions.Session.AppendOutput | session.go:232-243 | After a chunk, the scrollback is the newest 1 MiB of the old scrollback followed by the chunk. |
| Sessions.Session.Capture | session.go:221-245 | After the PTY copy loop, the scrollback is the newest 1 MiB of the old scrollback followed by all the chunks read. |
| Sessions.ReplayTail | session.go:133-139 | Replay is the whole buffer when it is at most 4096 bytes (nothing when it is empty), and otherwise exactly its last 4096 bytes. |
| Sessions.ReplayIgnoresTruncation | session.go:240-242 | The 1 MiB truncation never changes what is replayed. |
| Sessions.Session.Replay | session.go:133-139 | Returns the replay tail of the scrollback and changes nothing. |
| Sessions.Forwarded | session.go:186-217 | The chunks written to the PTY are a prefix of those read, and none contains byte 0. When the prefix stops early, the next chunk contains byte 0, so that chunk and everything after it are never written. |
| Sessions.ForwardedBytes | session.go:199-215 | The bytes written are exactly the bytes of the chunks before the first chunk holding byte 0. |
| Sessions.ForwardStdin | session.go:186-217 | The stdin loop writes exactly `Forwarded` of the chunks. |
| Sessions.Session.Attach | session.go:110-262 | An exited session ends the attach without touching the scrollback. A raw-mode failure happens after the replay. Otherwise the replay tail is shown, the filtered stdin is written, and the scrollback takes the newest 1 MiB of the PTY output. |
| Sessions.Session.constructor | session.go:88-94 | A new session has the given id, alias and arguments, is active, not closed, and has an empty scrollback. |
| Sessions.Session.Exited | session.go:99-104 | The monitor sets `active` to false once the process ends. |
| Sessions.Session.Close | session.go:289-296 | Closing marks the session's PTY and process closed. |
| Sessions.Registry.constructor | session.go:35-39 | The registry starts with no sessions and `nextID` = 1. |
| Sessions.Registry.Create | session.go:66-96 | A start error or timeout leaves `sessions` and `nextID` unchanged. Success appends exactly one new session at the end, with id = old `nextID`, active, empty scrollback and the host's `ssh` arguments, and increments `nextID` by one. |
| Sessions.LastActive | session.go:304-305 | The index found is -1 or an active position, with no active position after it. |
| Sessions.Registry.LastActiveIndex | session.go:304-305 | The backward scan returns `LastActive` of the sessions' active flags. |
| Sessions.Registry.CloseActive | session.go:300-317 | Removes exactly the last active session, after closing it, and keeps the others in order. It is a no-op when none is active, and leaves `nextID`, every `active` flag, every scrollback and the other sessions' closed flags unchanged. |
| Sessions.Registry.CloseAt | session.go:306-313 | Closes the session at k and splices it out of the list. |
| Sessions.Registry.Splice | session.go:313 | `sessions[:k] ++ sessions[k+1:]`, keeping the registry invariant. |
| Sessions.RemoveAtRenumbers | session.go:313 | After the splice, positions before k keep their session, and each later session's position drops by one. |
| Sessions.RemoveKeepsNumbered | session.go:313 | Removing a session keeps ids strictly increasing in list order and below `nextID`. |
| Sessions.AppendKeepsNumbered | session.go:86-96 | Appending a session with id `nextID` keeps ids strictly increasing in list order and below the incremented `nextID`. |
| Sessions.ActiveFlags | session.go:304-305 | The flags are the sessions' `active` fields, position by position. |
| Sessions.Registry.CloseAll | session.go:285-298 | Every session is closed, while the list, the `active` flags and the scrollbacks stay as they were. |
| Sessions.Registry.ProcessExited | session.go:99-104 | The monitor of session k clears its `active` flag and keeps the registry invariant. |
| Ui.AsText | ui.go:67 | `string(Scrollback)`: one character per byte, with the same code. |
| Ui.Lines | ui.go:67 | The pager always has at least one line, and no line contains `\n`. |
| Ui.LinesRejoin | ui.go:67 | Joining the lines with `\n` gives back the scrollback text. |
| Text.Split | ui.go:67 | Splitting always gives at least one part, and no part contains the separator. |
| Text.SplitJoin | ui.go:67 | Joining the parts of a split with the separator gives back the string. |
| Ui.Matches | ui.go:138-146 | The search results are strictly ascending valid line indices, and contain exactly the lines that contain the term case-insensitively. |
| Ui.FindMatches | ui.go:140-146 | The search loop builds exactly `Matches`. |
| Ui.GoRem | ui.go:155-162 | Go's `%`: the result has the sign of the dividend and lies within ±divisor. |
| Ui.GoRemCongruent | ui.go:155-162 | The dividend minus Go's remainder is a multiple of the divisor. |
| Ui.Page | ui.go:87-90 | The page shown is the up to 20 lines from `currentLine`, and is short only at the end of the text. |
| Ui.PagerCommandOf | ui.go:108-164 | The trimmed input is read as a command; a search is exactly an input starting with `/`, and its term is the rest. |
| Ui.Step | ui.go:68-164 | Every command keeps `0 <= currentLine < len(lines)`. The search results stay ascending valid indices, and `0 <= searchIndex < len(results)` holds while the results are non-empty. |
| Ui.SearchJumpsToFirstMatch | ui.go:138-150 | `/term` sets the term. When some line matches, it sets `searchIndex` to 0 and moves to the first matching line. When none matches, the results are empty and the position and index are untouched. |
| Ui.MoveLandsOnMatch | ui.go:152-164 | With results, `n` and `N` keep the results and land on the match at the new index. |
| Ui.NextThenPrev | ui.go:152-164 | `n` followed by `N` restores the search index and lands on the match it points to. |
| Ui.RunPager | ui.go:73-165 | Running the commands keeps the pager invariant and stops right after the first `q`, or at the end of the input. |
| Ui.ApplyPagerCommand | ui.go:110-164 | The switch on the command updates the four pager variables exactly as `Step` does. |
| Ui.ViewScrollback | ui.go:53-167 | An empty scrollback reads one line and shows nothing. Otherwise the pager runs on the lines of the scrollback from line 0 with no search, until `q` or the end of the typed lines: `RunPager` of the typed commands. |
| Ui.PagerLoop | ui.go:68-166 | The loop over the four pager variables, from line 0 with no search, ends in the state and after the number of lines that `RunPager` gives for the typed commands. |
| Ui.SelectCommandOf | ui.go:199-230 | The trimmed input is `q`, `d`, `a`, `c`, or a number read with `%d`; anything else is ignored. |
| Ui.SelectStep | ui.go:215-230 | Every command keeps the selection within 0..len(hosts)-1. |
| Ui.ToggleFlipsOne | ui.go:223-230 | A number N in 1..len(hosts) flips only index N-1; other numbers change nothing. |
| Ui.ToggleTwice | ui.go:223-230 | Toggling the same number twice restores the selection. |
| Ui.AllPositions | ui.go:215-218 | `a` marks exactly the positions 0..len(hosts)-1. |
| Ui.SelectedIndices | ui.go:207-211 | The chosen indices are strictly ascending (so there are no duplicates) and are exactly the selected positions. |
| Ui.ChosenAreSelected | ui.go:206-213 | `d` returns, in order, the host at each selected index, in original list order. |
| Ui.AllChoosesEveryHost | ui.go:206-218 | After `a`, `d` returns every host in list order. |
| Ui.ClearChoosesNothing | ui.go:206-221 | After `c`, `d` returns no hosts. |
| Ui.RunSelect | ui.go:169-233 | A finished selection holds at most the hosts given. An unfinished one stays within range. |
| Ui.Marked | ui.go:171-207 | The selection is the set of keys mapped to true. |
| Ui.CollectSelected | ui.go:206-213 | The `d` loop returns exactly the chosen hosts of the selection map. |
| Ui.ChosenHosts | ui.go:206-213 | The `d` result has at most as many hosts as the list, and each of them is one of the listed hosts. |
| Ui.MarkAll | ui.go:215-218 | The `a` loop adds every position to the selection. |
| Ui.ApplySelectCommand | ui.go:215-230 | `a`, `c` and the toggle update the selection map exactly as `SelectStep` does. |
| Ui.SelectHosts | ui.go:169-233 | The selection loop's result is `RunSelect` from the empty selection: cancelled on `q`, the chosen hosts on `d`. |
| Menu.SessionRef | main.go:109-113 | `!N` names session position N-1 exactly when the number parses and 1 <= N <= len(sessions). |
| Menu.Dispatch | main.go:53-125 | The trimmed line dispatches as follows: `q` means quit and `x` means close-last. `v` views exactly when the trimmed follow-up line is `!N` with 1 <= N <= len(sessions), and then views session N. `!N` resumes an in-range session, and a bare in-range N connects to host N-1. |
| Menu.ResumeInRange | main.go:107-117 | `!N` resumes session N exactly when 1 <= N <= len(sessions), and otherwise does nothing. |
| Menu.ConnectInRange | main.go:119-125 | A bare number N connects to host N exactly when 1 <= N <= len(hosts), and otherwise does nothing. |
| Menu.ViewInRange | main.go:89-105 | `v` then `!N` views session N exactly when 1 <= N <= len(sessions), and otherwise does nothing. |
| Menu.NoSessionsNoSessionAction | main.go:89-117 | With no sessions, neither `v` nor `!N` does anything. |
| Menu.QuitAt | main.go:53-68 | The position of the first `q` line: no earlier line is `q`, and the line at it is. |
| Menu.QuitFrom | main.go:53-68 | From a given position on, the first `q` line: no line between is `q`, and the line at it is. |
| Menu.StartedCount | main.go:119-125 | Of the first k lines, the number that are connect lines whose `ssh` starts is at most k. |
| Menu.CommandLoop | main.go:49-125 | The loop quits exactly when some line is `q`. It uses every line up to and including the first `q`, or all of them. On quit every session is closed. The registry invariant holds throughout. The final list, seen as ids and `active` flags, and `nextID` are `Run` of the lines before the first `q`: each line is dispatched against the list as it then stands, and the actions are applied in order. So `nextID` grows by exactly the number of those lines whose connect starts `ssh`, and the list by at most that many. Every session in the list was there before or is new, and no old session's `active` flag changes. |
| Menu.MenuTurn | main.go:53-125 | A `q` line ends the loop, closes every session and keeps the list, `nextID` and every scrollback. Any other line has the list and `nextID` effect of its dispatched action, and its views and `nextID` become `Effect` of that action. A resumed session's scrollback becomes the attach outcome. A connect line whose `ssh` starts appends a fresh session with the old `nextID`, the chosen host's alias and argument vector, and the attach outcome from an empty scrollback. No old session's `active` flag changes. Apart from a `q`, only the closed session's `closed` flag and the resumed session's scrollback change among the old sessions. |
| Menu.Perform | main.go:70-125 | Per action: `x` removes the last active session, if any, and keeps the rest in order. A connect whose `ssh` starts appends one fresh, active, open session attached from an empty scrollback and adds one to `nextID`; a connect that fails changes neither. `!N` sets session N's scrollback to the attach outcome. `v` and an empty action leave the list and `nextID` unchanged. The views and `nextID` become `Effect` of the action. Every old session keeps its `active` flag; only the session `x` closes changes its `closed` flag, and only the session `!N` resumes changes its scrollback. |
| Menu.CloseLastActive | main.go:70-87 | `x` closes and removes exactly the last active session, keeping the others in order, and returns its position. With no active session it returns -1 and the list is unchanged. `nextID` is unchanged and no session is added. Every old session keeps its `active` flag and scrollback, and every other session keeps its `closed` flag. Seen as views, the list becomes `RemoveLastActive` of the old views. |
| Menu.ConnectTo | main.go:119-125 | A session is created exactly when `ssh` starts. On failure the list and `nextID` stay as they were. On success one fresh, active, open session is appended with the old `nextID`, the host's alias and argument vector, and the attach outcome from an empty scrollback; `nextID` grows by one. Every old session keeps its `active` flag, `closed` flag and scrollback. The views and `nextID` become `ConnectEffect` of the old ones. |
| Menu.AttachAt | main.go:107-117 | Resuming session N sets its scrollback to the attach outcome: unchanged when the process has exited or raw mode fails, otherwise the old scrollback followed by the output, cut to its newest `MaxScrollbackSize` bytes. No other state changes. |
| Menu.RunCounts | main.go:49-125 | Over the first k lines, `Run` adds to `nextID` exactly the number of lines whose connect starts `ssh`, and grows the list by at most that many. |
| Menu.EffectCounts | main.go:70-125 | One action adds one to `nextID` and at most one session when it is a connect whose `ssh` starts, and adds nothing otherwise. |
| Menu.CloseLastViews | main.go:70-87 | Splicing out the last active session, seen through the views, is `RemoveLastActive` of the views. |
| Menu.ConnectViews | main.go:119-125 | A connect that starts `ssh` appends the new session's view, active with the old `nextID`, and takes that id; a failed one keeps the views and `nextID`. |
| Menu.ViewsRemoveAt | session.go:313 | Removing the session at k removes the view at k. |
| Menu.ViewsAppend | session.go:93-95 | Appending a session appends its view. |
| Menu.ActiveOfViews | session.go:304-305 | The active flags read through the views are the sessions' `active` flags. |

## Left out

- Goroutines, channels, the `ioStop` handshake, the SIGWINCH resize goroutine and `sessionsMu` are not modelled. Each operation is modelled as one sequential step.
- The exit monitor goroutine is reduced to `Registry.ProcessExited`, which the menu loop never interleaves with its steps.
- The timeout `select` in `createSession` is not modelled; only its outcome is, as the `StartOutcome` input.
- Process and PTY calls are not modelled: `pty.Start`, `Process.Kill`, `Cmd.Wait`, `PTY.Close` and window sizing. Killing and closing are reduced to one `closed` flag.
- The PTY write error, the read error and the stdin read error all end their copy loops. The model ends them when the input chunks run out.
- Raw terminal mode and its restore (terminal_darwin.go) are reduced to the `rawModeFails` input.
- `drainStdin` is not modelled, because it is non-blocking syscalls with no effect on the modelled state.
- Screen output is not modelled: clears, banners, `showMenu`, the page rendering and the highlight `ReplaceAll` (ui.go:96, which is case-sensitive). The pager's page is modelled by `Ui.Page` only.
- File access in `parseSSHConfig` is not modelled (`os.UserHomeDir`, `os.Open`, `bufio.Scanner`). The parser takes the file's lines, and scanner errors are not modelled.
- `strings.ToLower` is modelled for ASCII only. Unicode case folding is not modelled.
- `fmt.Sscanf` is modelled as an abstract `scan` function. `"!%d"` is read as a `!` followed by `scan` of the rest.
- The pager reads the scrollback as one character per byte, as `string([]byte)` copies bytes, but a typed search term is a string of Unicode characters. A term with a non-ASCII character therefore never matches its own UTF-8 bytes in the scrollback, while the program, which reads the term as bytes, finds it.
- All typed input is a finite sequence of lines. At end of input, Go's `ReadString` returns `""`. In the pager that means "scroll down", so the Go loops would spin forever; the models stop instead.
- The deferred `recover` in `attachToSession` (session.go:111-118), which prints a message and waits for Enter after a panic, is not modelled: `Session.Attach` has no panic path.
- The definitions that main.go duplicates are not modelled (`parseSSHConfig` without forwards, `createSession`, `attachToSession`, `viewScrollback`, `showMenu`, `makeRaw`/`restore`). The newer session.go, ui.go and config.go versions are used instead.
  - The menu's `q` and `x` branches close sessions inline, without `Wait`. This is the same effect on the list as `closeAllSessions` and `closeActiveSession`.
- multi.go is not part of this model. Its argument vector is `BuildSSHArgs` plus a command.
- forward.go is not part of this model; it is a read-only display loop.
- Sessions.Registry.CloseAll: leaves the session list unchanged, as the code does, rather than emptying it. The `active` flags only fall later, through the monitor (`ProcessExited`).
- The pager's result in the `v` branch is discarded, as main.go does: viewing only reads the scrollback.
- The PTY-to-stdout copy goroutine (session.go:221-245) keeps running after a detach, so in the program a detached session's scrollback keeps growing and its output prints over the menu. The model freezes the scrollback between attaches: output is added only while the session is attached.
