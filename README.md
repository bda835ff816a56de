# SublimeREPL-ssh: a verified model of the terminal core

SublimeREPL-ssh runs interactive shells inside a Sublime Text view. This
Dafny project models the core that turns a shell's output into edits of the
view's text. It also models the smaller pieces around that core:

- the command history;
- the interceptor that answers `pwd`, `vi` and tab completion behind the
  user's back;
- the SSH REPL's line assembly;
- the JSON command finder;
- the REPL manager.

Nothing here is executed. The model is a statement of what the Python code
does, and the lemmas are proved about that statement.

The files:

- `py.dfy` (module `Py`): the Python built-ins the code relies on. These
  are slicing with negative and out-of-range bounds, `split`/`join`,
  `int()`, `str(n)`, `strip`/`rstrip`/`lstrip` on `str` and on `bytes`,
  string comparison, and exceptions as a `Result`.
- `ansi_color.dfy` (module `AnsiColor`): the xterm 256-colour palette, the
  SGR parameter decoder `_decode`/`_decode_multi`, and the colour run
  `run`. The run splits text into sections that carry the live style. The
  class `AnsiColor` keeps the live style and the `_style_changed` flag.
- `terminal_spec.dfy` (module `TerminalSpec`): each operation of the ANSI
  emulator as a function from one emulator state to the next. The state
  holds the text, the output end, the prompt size, the cursor and the
  colour state. Moves read a snapshot of the text taken by the caller,
  while edits act on the live buffer, as the source does.
- `terminal.dfy` (module `Terminal`): the classes `ReplView` (the view's
  text, `_output_end`, `_prompt_size`) and `AnsiControl` (`_cursor_pos`,
  the colour decoder). Each method updates the fields in place and is
  proved equal to its function in `TerminalSpec`.
- `terminal_props.dfy` (module `TerminalProps`): what the emulator
  guarantees. This covers where line searches land, what each erase mode
  removes, how inserting and overwriting splice the text, where cursor
  moves stop, and how the control sequences are recognised and normalised.
- `history.dfy` (module `History`): `HistoryMatchList`, `History.push` and
  `MemHistory`.
- `interceptor.dfy` (module `Interceptor`): the result post-processors,
  `_get_cwd`, `_get_user`, the path handling of `_process_vi`,
  `_common_prefix` and `_process_tab_unix`.
- `ssh_repl.dfy` (module `SshRepl`): `_starts_with`, `_ends_with`,
  `_check_eol` and the Windows branch of `read_bytes`.
- `run_existing_command.dfy` (module `RunExistingCommand`): the recursive
  search for a command entry in a JSON menu file, and the lookup order of
  the two files.
- `repl_manager.dfy` (module `ReplManager`): settings translation, the
  Paramiko fallback and the table of open REPL views.

Python exceptions appear as outcomes, not as preconditions. The
emulator's `Raised(error, state)` keeps the state reached when the
exception occurs. The decoder's `DecodeRaised` and `DecodeHangs` stand for
an exception and for a loop that never ends. Behaviour that looks
unintended is modelled as written: the IndexError paths of
`_decode_multi`, the decoder that never advances on an unknown selector,
the RGB formatting crash and the forward move past the line end.

`_style_changed` is recomputed as `style != default` after every
recognised decode (ansi/ansi_color.py:207).

## Model

| member | source | states |
|---|---|---|
| AnsiColor.PaletteCube | ansi/ansi_color.py:4-39 | entries 16..231 are the colour cube: entry `16+36r+6g+b` has the levels `00,5f,87,af,d7,ff` of `r`, `g` and `b` |
| AnsiColor.PaletteGrey | ansi/ansi_color.py:4-39 | entries 232..255 are the greys `08+10k` |
| AnsiColor.Palette202 | ansi/ansi_color.py:4-39 | entry 202 is `#ff5f00` |
| AnsiColor.XtermEntryInPalette | ansi/ansi_color.py:65-73 | the 18 entries `_xterm_color` can reach agree with the palette |
| AnsiColor.XtermColor | ansi/ansi_color.py:65-73 | `_xterm_color` always yields a colour (the index is at most 17) |
| AnsiColor.XtermColorLastDigit | ansi/ansi_color.py:65-73 | only the last digit of the code matters |
| AnsiColor.RgbToHex | ansi/ansi_color.py:75-77 | formatting succeeds exactly when all three arguments are integers, giving `#rrggbb`; the strings the decoder passes raise ValueError |
| AnsiColor.Update | ansi/ansi_color.py:206 | `dict.update` for each of `fg`, `bg`, `bold`, `italic` and `underline`: a key set in the delta takes its value, an absent key keeps the live style's |
| AnsiColor.UpdateReset | ansi/ansi_color.py:130-132 | a reset delta yields the default style; an empty delta changes nothing |
| AnsiColor.SplitParams | ansi/ansi_color.py:124 | the `;`-split pieces of a matched parameter string are digit strings |
| AnsiColor.DecodeMulti | ansi/ansi_color.py:79-118 | `_decode_multi` returns its own index (with no colour) or a later index inside the list; it fails only with IndexError or ValueError |
| AnsiColor.PlainItem | ansi/ansi_color.py:129-157 | `0` and `00` reset the whole style |
| AnsiColor.Decode | ansi/ansi_color.py:120-173 | the index-walking loop of `_decode` computes `DecodeSpec`, including raising and never terminating |
| AnsiColor.DecodeUnchanged | ansi/ansi_color.py:120-173 | when `_decode` returns `ret == False`, its delta is empty |
| AnsiColor.DecodeFromLastReset | ansi/ansi_color.py:130-132 | a body whose last parameter is `0`/`00` decodes to the full default style whenever it decodes |
| AnsiColor.DecodeFromLastExtended | ansi/ansi_color.py:158-171 | a body ending in `38` or `48` never decodes: it raises or loops |
| AnsiColor.DecodeFromPlainTotal | ansi/ansi_color.py:126-173 | without `38`/`48` the decode always terminates without raising |
| AnsiColor.ForegroundCode | ansi/ansi_color.py:146-148 | `3d` sets fg to `palette[d]`, or `palette[d+8]` after bold |
| AnsiColor.BackgroundCode | ansi/ansi_color.py:149-151 | `4d` sets bg to `palette[d]`, or `palette[d+8]` after bold |
| AnsiColor.BrightForegroundCode | ansi/ansi_color.py:152-154 | `9d` sets fg to `palette[d+8]` |
| AnsiColor.BrightBackgroundCode | ansi/ansi_color.py:155-157 | `10d` sets bg to `palette[d+8]` |
| AnsiColor.ReverseCode | ansi/ansi_color.py:142-145 | `7` sets fg `palette[0 or 8]` and bg `palette[7 or 15]` |
| AnsiColor.DecodeJoined | ansi/ansi_color.py:124 | decoding a `;`-joined body is decoding its items |
| AnsiColor.DecodeResetThenBackground | ansi/ansi_color.py:84-171 | `0;48;5;202` is the default style with bg `#ff5f00` |
| AnsiColor.DecodePaletteIndexReread | ansi/ansi_color.py:84-97 | after `38;5;n` the index `n` is read again as a code: `38;5;1` also sets bold |
| AnsiColor.DecodePaletteThenZero | ansi/ansi_color.py:91-95 | a `0` after `38;5;n` resets the colour just set |
| AnsiColor.DecodeTruncatedRaises | ansi/ansi_color.py:80-88 | a trailing `38` or `48;5` raises IndexError |
| AnsiColor.DecodeUnknownSelectorHangs | ansi/ansi_color.py:117-164 | a selector other than 5 or 2 makes `_decode` loop forever |
| AnsiColor.DecodeRgb | ansi/ansi_color.py:98-116 | a complete `38;2;r;g;b` raises ValueError; an incomplete one sets no colour |
| AnsiColor.DecodeBoldOrder | ansi/ansi_color.py:133-148 | bold brightens a colour code only when it comes first |
| AnsiColor.DecodeStringRange | ansi/ansi_color.py:146-148 | ranges compare strings: `300` counts as a foreground code |
| AnsiColor.StripCharset | ansi/ansi_color.py:180 | removing charset fragments never lengthens the text and leaves text without ESC alone |
| AnsiColor.StripNul | ansi/ansi_color.py:181 | all NULs and only NULs are removed |
| AnsiColor.FindSgrLeftmost | ansi/ansi_color.py:192 | the colour search finds the leftmost run of SGR sequences |
| AnsiColor.NoEscNoSgr | ansi/ansi_color.py:183 | text without ESC holds no SGR |
| AnsiColor.NormalizeUnsupported | ansi/ansi_color.py:186 | text without ESC is unchanged |
| AnsiColor.NormalizeExamples | ansi/ansi_color.py:186 | `ESC[5m` and `ESC[0;8m` become `ESC[1m`; `ESC[0m` is kept |
| AnsiColor.RunSpec | ansi/ansi_color.py:180-184 | with no earlier style and no SGR, `run` returns `(False, [[text, None]])` and keeps its state, and only then |
| AnsiColor.RunTexts | ansi/ansi_color.py:180-211 | the section texts together are the cleaned input without its SGR runs |
| AnsiColor.RunNonEmpty | ansi/ansi_color.py:197-210 | no section of a colour run is empty |
| AnsiColor.RunExact | ansi/ansi_color.py:198-209 | the flag stays "live style differs from the default", so no section carries the default style |
| AnsiColor.RunReset | ansi/ansi_color.py:203-207 | `ESC[0m` alone returns no sections and the default, unchanged state |
| AnsiColor.DecodeOne | ansi/ansi_color.py:133-135 | the parameter string `1` decodes to bold and nothing else |
| AnsiColor.BoldThenPlain | ansi/ansi_color.py:175-211 | `ESC[1mBOLD ESC[0m plain` gives the sections `BOLD` in the default style made bold and ` plain` with no style, and ends in the default state with the flag cleared |
| AnsiColor.AnsiColor.constructor | ansi/ansi_color.py:43-53 | starts with the default style and the flag cleared |
| AnsiColor.AnsiColor.Run | ansi/ansi_color.py:175-211 | `run` returns what `RunSpec` gives and leaves the style and flag it gives |
| TerminalSpec.Clamp | sublimerepl.py:38-47 | an editor position is clamped into the buffer |
| TerminalSpec.Delta | sublimerepl.py:476-480 | IndexError exactly without a selection; the delta is non-positive exactly when the first selection starts in the input |
| TerminalSpec.DropNuls | ansi/ansi_control.py:21 | dropping NULs removes a leading run and leaves no NUL in front |
| TerminalSpec.CsiParamEnd | ansi/ansi_control.py:16 | the CSI parameter scan stops at the first character that is not a parameter |
| TerminalSpec.FindToken | ansi/ansi_control.py:19-20 | a token found lies inside the text at or after the search start |
| TerminalProps.FindTokenLeftmost | ansi/ansi_control.py:319-323 | `re.search` finds the leftmost token: one starts where the match starts, none starts between the search start and it, and on a miss none starts anywhere after the search start |
| Terminal.ReplView.InsertText | sublimerepl.py:38-41 | `repl_insert_text` inserts at the position |
| Terminal.ReplView.EraseText | sublimerepl.py:44-47 | `repl_erase_text` removes the region |
| Terminal.ReplView.Write | sublimerepl.py:335-353 | emulated output runs the emulator; otherwise the filtered text goes in before the prompt and the output end grows by its length |
| Terminal.ReplView.WritePrompt | sublimerepl.py:355-360 | the prompt is written with prompt size 0, after which the prompt size is its length |
| Terminal.ReplView.AdjustEnd | sublimerepl.py:324-333 | `adjust_end` as `AdjustedEnd`; the emulator cursor moves to the output end |
| Terminal.ReplView.AllowDeletion | sublimerepl.py:482-494 | true exactly when every selection lies in the input and none is a caret at the output end |
| Terminal.AnsiControl.constructor | ansi/ansi_control.py:13-38 | the cursor starts at 0 with a fresh colour decoder |
| Terminal.AnsiControl.Erase | ansi/ansi_control.py:247-252 | `_erase` as `Erased` |
| Terminal.AnsiControl.InsertAppend | ansi/ansi_control.py:254-259 | `_insert_append` as `Appended` |
| Terminal.AnsiControl.InsertOverwrite | ansi/ansi_control.py:261-268 | `_insert_overwrite` as `Overwritten` |
| Terminal.AnsiControl.InsertSpaceToOffset | ansi/ansi_control.py:270-278 | `_insert_space_to_offset` as `PaddedTo` |
| Terminal.AnsiControl.InsertPlain | ansi/ansi_control.py:280-288 | `_insert` as `InsertedText` |
| Terminal.AnsiControl.Insert | ansi/ansi_control.py:290-297 | `insert`, section by section when colour is on, as `Inserted` |
| Terminal.AnsiControl.MoveLineUp | ansi/ansi_control.py:100-112 | `_move_line_up` as `MovedUp`, including the early return and the TypeError of padding by `None` |
| Terminal.AnsiControl.MoveLineDown | ansi/ansi_control.py:114-125 | `_move_line_down` as `MovedDown` |
| Terminal.AnsiControl.LineDown | ansi/ansi_control.py:117-124 | one pass of the loop of `_move_line_down` as `DownStep` |
| Terminal.AnsiControl.MoveCursorForward | ansi/ansi_control.py:127-136 | `_move_cursor_forward` as `MovedForward` |
| Terminal.AnsiControl.MoveCursorBackward | ansi/ansi_control.py:138-147 | `_move_cursor_backward` as `MovedBackward` |
| Terminal.AnsiControl.MoveCursorCoordinate | ansi/ansi_control.py:149-166 | `_move_cursor_coordinate` as `MovedTo` |
| Terminal.AnsiControl.ProcessCarriageReturn | ansi/ansi_control.py:180-185 | CR as `Returned` |
| Terminal.AnsiControl.ProcessNewline | ansi/ansi_control.py:176-178 | LF as CR then one line down |
| Terminal.AnsiControl.ProcessCursorMove | ansi/ansi_control.py:187-200 | the dispatch of CUU/CUD/CUF/CUB/CUP |
| Terminal.AnsiControl.ProcessLineErase | ansi/ansi_control.py:202-213 | EL as `LineErased` |
| Terminal.AnsiControl.ProcessDisplayErase | ansi/ansi_control.py:215-225 | ED as `DisplayErased` |
| Terminal.AnsiControl.ProcessAnsi | ansi/ansi_control.py:233-245 | the dispatch on a token as `Processed` |
| Terminal.AnsiControl.Run | ansi/ansi_control.py:300-334 | `run`: normalise, then alternate text and tokens, as `Ran` |
| TerminalProps.InsertAtSlices | sublimerepl.py:38-41 | inserting splices the text in at the clamped position |
| TerminalProps.EraseAtSlices | sublimerepl.py:44-47 | erasing removes exactly the clamped region, whichever end is given first |
| TerminalProps.EraseAtSwap | sublimerepl.py:44-47 | a region's ends can be given in either order |
| TerminalProps.LineStartIsAfterLastNewline | ansi/ansi_control.py:74-83 | `_find_line_start` is just past the last `\n` before the cursor, or `(False, 0)` without one |
| TerminalProps.LineEndIsFirstNewline | ansi/ansi_control.py:85-94 | `_find_line_end` is the first `\n` at or after the cursor, or `(False, output_end - prompt_size)` |
| TerminalProps.ErasedCutsRange | ansi/ansi_control.py:247-252 | `_erase` does nothing for an empty range; otherwise it removes `[start, end)`, lowers the output end by the length and keeps the cursor |
| TerminalProps.AppendedInserts | ansi/ansi_control.py:254-259 | `_insert_append` splices the text in and raises the output end and the cursor by its length |
| TerminalProps.AttachedInsertAppends | ansi/ansi_control.py:280-288 | with the cursor at the text end, the text without escapes is appended and the cursor stays attached |
| TerminalProps.OverwriteKeepsNewline | ansi/ansi_control.py:261-266 | the `k` characters an overwrite replaces lie inside the buffer and include no `\n` |
| TerminalProps.OverwrittenSlices | ansi/ansi_control.py:261-268 | an overwrite yields `buf[..c] + s + buf[c+k..]` with the cursor just past `s` |
| TerminalProps.PaddedCursor | ansi/ansi_control.py:270-278 | the cursor always ends `offset` further on |
| TerminalProps.PaddingAtLineEnd | ansi/ansi_control.py:270-278 | spaces are inserted at the line end only when the line is too short |
| TerminalProps.BackwardStaysOnLine | ansi/ansi_control.py:138-147 | a backward move never leaves the line and changes no text |
| TerminalProps.ForwardStopsAtLineEnd | ansi/ansi_control.py:127-136 | a forward move stops at the line end and changes no text |
| TerminalProps.UpOnFirstLine | ansi/ansi_control.py:100-105 | with no line above, the move returns at once: TypeError for zero moves, no change otherwise |
| TerminalProps.UpOneLine | ansi/ansi_control.py:100-112 | one line up lands at the same column of the line above, or at its end |
| TerminalProps.UpLands | ansi/ansi_control.py:100-110 | with at least `k` lines above, the loop of `_move_line_up` ends at the start of the line `k` above and keeps the column of the first move |
| TerminalProps.DownLands | ansi/ansi_control.py:114-124 | with at least `k` lines below, the loop of `_move_line_down` ends at the start of the line `k` below |
| TerminalProps.UpThenDownReturns | ansi/ansi_control.py:100-125 | `ESC[nA` then `ESC[nB` with at least `n` lines above: the cursor comes back to its line number and column, before the same text, moved on only by the `d` spaces the up move padded in; with no padding the state is exactly the one it left |
| TerminalProps.DownToNextLine | ansi/ansi_control.py:118-124 | with a `\n` ahead, the cursor goes just past it |
| TerminalProps.DownOnLastLine | ansi/ansi_control.py:118-123 | on the last line a `\n` is appended at the text end |
| TerminalProps.ReturnGoesToLineStart | ansi/ansi_control.py:180-185 | CR moves the cursor to the start of its line |
| TerminalProps.ErasingKeepsCursor | ansi/ansi_control.py:202-225 | no erase mode moves the cursor |
| TerminalProps.EraseLineForward | ansi/ansi_control.py:210-213 | EL 0 removes from the cursor to the line end |
| TerminalProps.EraseLineBackward | ansi/ansi_control.py:204-206 | EL 1 removes from the line start to the cursor |
| TerminalProps.EraseWholeLine | ansi/ansi_control.py:207-209 | EL 2 removes from the line start to the line end |
| TerminalProps.EraseDisplay | ansi/ansi_control.py:215-225 | ED 1 removes `[0, cursor)`, ED 2/3 everything, others `[cursor, size)` |
| TerminalProps.AttachedNewlineIsText | ansi/ansi_control.py:320 | while the cursor is attached, `\n` is never a token |
| TerminalProps.NoTokenInPlainText | ansi/ansi_control.py:321-323 | text without ESC, CR or LF has no token |
| TerminalProps.CupWithoutSemicolonGoesHome | ansi/ansi_control.py:150-162 | CUP with one parameter goes to offset 0 |
| TerminalProps.CupWithThreeFieldsRaises | ansi/ansi_control.py:155 | CUP with three fields raises ValueError |
| TerminalProps.UnknownCsiIgnored | ansi/ansi_control.py:233-245 | an unrecognised CSI final has no effect |
| TerminalProps.ClearNulsWithoutNul | ansi/ansi_control.py:315 | text without NUL is unchanged by the `ESC[J` clean-up |
| TerminalProps.ClearNulsAfterClear | ansi/ansi_control.py:315 | `ESC[J` followed by NULs becomes `ESC[J` |
| TerminalProps.DashesWithoutEndash | ansi/ansi_control.py:316 | text without `\xe2` is unchanged by the en-dash rewrite |
| TerminalProps.DashesReplacesEndash | ansi/ansi_control.py:316 | the en-dash bytes become `-` |
| TerminalProps.PlainRunInsertsWhole | ansi/ansi_control.py:314-327 | a chunk without tokens is inserted whole |
| TerminalProps.CarriageReturnOverwrites | ansi/ansi_control.py:314-327 | `abc\rXYZ` on an empty view, with the cursor attached and colours off, leaves `XYZ` with the cursor and the output end at 3, when `strip` leaves `abc` and `XYZ` alone |
| TerminalProps.PlainWriteBeforePrompt | sublimerepl.py:345-352 | non-emulated output goes in just before the prompt and the prompt follows it unchanged |
| TerminalProps.PromptWriteAtOutputEnd | sublimerepl.py:355-360 | a prompt goes in at the output end and then counts as the prompt |
| TerminalProps.AdjustedEndAtTextEnd | sublimerepl.py:324-331 | after `adjust_end` the output end is the text end; with echo suppressed the text is cut at the old output end |
| TerminalProps.WriteKeepsUserInput | sublimerepl.py:335-353 | non-emulated output leaves `user_input`, the text of `input_region`, unchanged |
| TerminalProps.PromptKeepsUserInput | sublimerepl.py:355-360 | writing a prompt leaves `user_input` unchanged |
| TerminalProps.AdjustEndEmptiesInput | sublimerepl.py:324-333 | after `adjust_end` the input region is empty |
| History.BrowsedInRange | sublimerepl.py:83-89 | browsing keeps the index in `-1..len`, and inside the list after any move on a non-empty list |
| History.PrevTimes | sublimerepl.py:76-85 | `k` presses of prev from the start show the `k`-th newest match, stopping at the oldest |
| History.MatchList.constructor | sublimerepl.py:73-76 | the index starts one past the last match |
| History.MatchList.Current | sublimerepl.py:78-81 | `""` for no matches, IndexError at the start position, else the match under the index |
| History.MatchList.PrevCommand | sublimerepl.py:83-85 | one back, clamped at 0, never raising |
| History.MatchList.NextCommand | sublimerepl.py:87-89 | one on, clamped at `len-1`, never raising |
| History.MatchingExactly | sublimerepl.py:118-123 | a command is matched exactly when it is stored and has the prefix |
| History.MatchingKeepsOrder | sublimerepl.py:118-123 | matches keep the insertion order |
| History.MatchingEmptyPrefix | sublimerepl.py:118-123 | the empty prefix matches every command |
| History.MemHistory.constructor | sublimerepl.py:110-113 | empty history, no last command |
| History.MemHistory.Append | sublimerepl.py:115-116 | the command goes on top |
| History.MemHistory.Push | sublimerepl.py:96-101 | stores the rstripped command unless it is blank or repeats the last, keeping the history free of blanks, trailing whitespace and adjacent repeats |
| History.MemHistory.Match | sublimerepl.py:118-123 | the matches in stored order, browsing from one past the newest |
| Interceptor.StripBytesIsStripped | interceptor/interceptor.py:60 | a stripped result has no whitespace at either end |
| Interceptor.PostProcessWin | interceptor/interceptor.py:46-53 | `None` exactly for empty input, else one stripped result |
| Interceptor.PostProcessUnix | interceptor/interceptor.py:55-61 | `None` exactly with fewer than two `\n`; else one result per line between echo and prompt, the first stripped |
| Interceptor.PostProcessUnixKeepsOutput | interceptor/interceptor.py:55-61 | for echo, output lines and prompt joined by `\n`, the result is the output lines with the first cleaned |
| Interceptor.GetCwd | interceptor/interceptor.py:87-101 | `None` exactly without a reply or without `/`; else a path starting with `/` and holding no `\n` |
| Interceptor.StripKeepsSlash | interceptor/interceptor.py:95-100 | stripping the line from the first `/` keeps the leading `/` |
| Interceptor.GetUser | interceptor/interceptor.py:103-110 | a user exactly when there is a reply, decoded byte for byte |
| Interceptor.Slashed | interceptor/interceptor.py:137-142 | `replace('\\','/')` leaves no backslash and changes nothing else |
| Interceptor.PosixJoin | interceptor/interceptor.py:142 | joining onto an absolute directory gives an absolute path |
| Interceptor.SlashedConcat | interceptor/interceptor.py:137-142 | replacing backslashes can be done piece by piece |
| Interceptor.Resolved | interceptor/interceptor.py:138-142 | declined exactly for a relative path without a cwd; an absolute path is opened as is; a relative one opens the cwd, a `/` unless the cwd ends with one, and the path, backslashes turned into `/` |
| Interceptor.ProcessVi | interceptor/interceptor.py:127-150 | not a `vi` command exactly without the `vi ` prefix; otherwise the stripped, decoded argument is handled by `ViPath`, and every file opened has an absolute path |
| Interceptor.ViPath | interceptor/interceptor.py:130-142 | a `vi` command is always handled; an absolute name is opened as is; otherwise the opened path ends with the name (`./` or `~` dropped); declined exactly without a user for `~`, or without a cwd for a relative name |
| Interceptor.HomePath | interceptor/interceptor.py:133-137 | opened exactly when the shell names a non-empty user, and then at `/home/<user>` followed by the rest of the path, backslashes turned into `/` |
| Interceptor.ViDotSlash | interceptor/interceptor.py:130-131 | `./p` opens the same file as `p` when `p` starts with neither `~` nor `./` |
| Interceptor.ViDotTildeIsRelative | interceptor/interceptor.py:130-142 | `./~x` with the cwd `/tmp` opens `/tmp/~x`: the `~` after `./` is not expanded |
| Interceptor.ViHomeIgnoresCwd | interceptor/interceptor.py:133-142 | a `~` path never depends on the shell's cwd |
| Interceptor.MinLength | interceptor/interceptor.py:157 | the shortest word's length |
| Interceptor.PairPrefixCommon | interceptor/interceptor.py:159-164 | the common prefix of two words is the longest prefix of both |
| Interceptor.CommonPrefixOfIsLongest | interceptor/interceptor.py:152-165 | a string is a common prefix of all words exactly when it is a prefix of the computed one; `[]` gives `b""` |
| Interceptor.ScanStopIsLongest | interceptor/interceptor.py:158-164 | where the scan stops, at `min_length` or at the first byte not shared, is the longest common prefix |
| Interceptor.CommonPrefix | interceptor/interceptor.py:152-165 | the loop of `_common_prefix` computes the longest common prefix |
| Interceptor.LastSpace | interceptor/interceptor.py:176 | the last whitespace before a position, with none after it |
| Interceptor.RSplitLast | interceptor/interceptor.py:176 | `rsplit(maxsplit=1)`: empty exactly for blank text; the last word is non-blank and ends the text |
| Interceptor.TabCompletion | interceptor/interceptor.py:175-193 | unhandled exactly for blank text; a completion exactly when the shell replied |
| Interceptor.TabCompletionKeepsHead | interceptor/interceptor.py:179-192 | the completion keeps everything before the last word plus one space |
| Interceptor.TabCompletionIsCommon | interceptor/interceptor.py:186-192 | the completion is that head followed by a common prefix of the replies |
| Interceptor.ProcessTabUnix | interceptor/interceptor.py:175-193 | the method computes `TabCompletion` |
| SshRepl.ListStartsWith | repls/ssh_repl.py:38-39 | list-prefix equality |
| SshRepl.ListEndsWith | repls/ssh_repl.py:41-42 | list-suffix equality |
| SshRepl.CheckEol | repls/ssh_repl.py:44-59 | end of line exactly in the five listed cases; terminal prefix exactly for `$ ` with a BEL, which is itself an end of line |
| SshRepl.Kept | repls/ssh_repl.py:79-81 | with a terminal prefix, exactly what follows the first BEL; otherwise the whole list |
| SshRepl.Trimmed | repls/ssh_repl.py:79-85 | of the kept list: a bare `ESC]0;` becomes empty, a trailing `ESC]0;` becomes `\n`, anything else is returned as it is; the result never ends with `ESC]0;` |
| SshRepl.TitleDropped | repls/ssh_repl.py:44-85 | a title line `<title> BEL <prompt>$ ` with no BEL in the title is an end of line with a terminal prefix, and comes back as `<prompt>$ ` |
| SshRepl.Fed | repls/ssh_repl.py:71-87 | `\r` leaves the list as it is; a completed line is a non-empty item list |
| SshRepl.FedTitlePrompt | repls/ssh_repl.py:71-88 | the last byte of a title line completes it as the prompt alone |
| SshRepl.ReadFrom | repls/ssh_repl.py:69-89 | a line is a non-empty item list and uses at least one more chunk |
| SshRepl.ReadDropsCarriageReturns | repls/ssh_repl.py:72-76 | no `\r` ever reaches a returned line |
| SshRepl.FedDropsCarriageReturns | repls/ssh_repl.py:72-81 | one chunk never brings a `\r` into the list |
| SshRepl.ReadPlainLine | repls/ssh_repl.py:69-89 | a plain line ending in `\n` is returned whole, after exactly its own chunks |
| SshRepl.Feed | repls/ssh_repl.py:71-87 | one pass of the loop computes `Fed` |
| SshRepl.ReadBytesWindows | repls/ssh_repl.py:69-89 | the loop returns the joined line `ReadFrom` assembles |
| RunExistingCommand.MemberIndex | run_existing_command.py:78 | `json.loads` keeps the last member written for a key |
| RunExistingCommand.FindCmdInJson | run_existing_command.py:81-92 | a hit is an object with that id; a matching object is returned as is; scalars hold nothing; something is found exactly when an object with the id is reachable through lists and `children` members (`Holds`) |
| RunExistingCommand.FindInList | run_existing_command.py:82-86 | a hit is the first element's hit; a miss means no element holds one |
| RunExistingCommand.ListFirstHitWins | run_existing_command.py:82-86 | a list's answer is its first element hit |
| RunExistingCommand.FindCmdInFile | run_existing_command.py:68-79 | an unreadable file holds nothing; a malformed one raises ValueError; a hit has the id |
| RunExistingCommand.FoundCmd | run_existing_command.py:55-59 | the package file is consulted only when the user file has nothing |
| RunExistingCommand.RunExisting | run_existing_command.py:52-63 | nothing runs exactly when neither file has the entry; else its `command` runs with its `args`, `None` when absent |
| RunExistingCommand.UserFileFirst | run_existing_command.py:55-59 | an entry in the user file makes the package file irrelevant |
| ReplManager.Translate | repl_manager.py:114-124 | strings are substituted, values other than dict, str or list come back unchanged |
| ReplManager.TranslateList | repl_manager.py:174-178 | the list keeps its length and order, each element translated |
| ReplManager.TranslateDict | repl_manager.py:180-188 | with a platform key, only that entry translated; otherwise the same keys in the same order, each value translated |
| ReplManager.TranslateIdentity | repl_manager.py:114-188 | with a substitution that changes nothing and no platform keys, translation is the identity |
| ReplManager.Upper | repl_manager.py:51 | same length, no lower-case ASCII letter left, every other character unchanged |
| ReplManager.ParamikoTypeAnyCase | repl_manager.py:51 | `type.upper() == 'SSH_PARAMIKO'` holds exactly for the twelve-character names that spell it with each letter in either case |
| ReplManager.ParamikoTypeExamples | repl_manager.py:51 | `ssh_paramiko` and `Ssh_Paramiko` pass the test; `ssh` does not |
| ReplManager.CheckParamiko | repl_manager.py:49-59 | other types or a usable Paramiko leave both unchanged; otherwise KeyError exactly when `user`, `ip` or `key` is missing, else type `ssh`, those keys removed and `cmd` the ssh command line |
| ReplManager.ServingExactly | repl_manager.py:38-47 | a view is yielded exactly when it is registered, alive and has the external id or the scope |
| ReplManager.RemovedFromOrder | repl_manager.py:108-112 | removing one id keeps the others distinct and drops only that id |
| ReplManager.Manager.constructor | repl_manager.py:27-28 | no views |
| ReplManager.Manager.Register | repl_manager.py:82 | `repl_views[r.id] = rv` replaces or appends, keeping insertion order |
| ReplManager.Manager.ReplView | repl_manager.py:30-36 | `None` exactly for an unknown id, else that view |
| ReplManager.Manager.DeleteRepl | repl_manager.py:108-112 | removes that id and nothing else; a no-op when absent |
| ReplManager.Manager.FindRepl | repl_manager.py:38-47 | the views serving the external id, in insertion order |

## Left out

- Threads, queues and timing: `ReplReader`, the view update loop, the interceptor's receive queue and `_intercept_cmd`. Each shell reply the interceptor waits for is a parameter (`Option<seq<Bytes>>`, `None` for no reply).
- Process and network I/O: the `ssh` process, SFTP (`_get_file`, `put_file`) and the POSIX branch of `read_bytes`, which returns whatever `read(4096)` gives. The Windows branch reads its chunks from a parameter sequence.
- SshRepl.ReadBytesWindows: returns `None` when the chunk sequence runs out; the source would block on the next read instead.
- The Sublime UI: opening views, window placement, key handlers, `update_view`, `show`, the `ReplView` constructor, `repl_manager.open` and `restart`, and `_process_tab_win`, `_process_tab` and `process`, which only dispatch to the modelled pieces.
- Region annotation (`AnsiSublimeRegions.insert_append`, `update_color_scheme`): the colour of an inserted section is not tracked in the view.
- The debug file writes in `AnsiControl.run`.
- The escape-stripping regexes of `ansi_regex`, which are not part of this model: `strip` is an unconstrained parameter of the emulator, and results are stated in terms of it. The same holds for `stripEscapes` in the post-processors and for the colour filter in `ReplView.write`.
- `\w` and `\d` in the regexes cover ASCII only. `Py.IsSpace` is the full `str.isspace` set; `Py.IsByteSpace` is the ASCII set of `bytes.isspace`.
- Upper: maps ASCII letters only; Python's `str.upper` also maps other letters (`ß`, `ſ`, accented letters). The Paramiko test is stated for this ASCII upper-casing.
- `bytes.decode()` is one character per byte; UTF-8 multi-byte decoding is not modelled.
- Interceptor.PosixJoin: a POSIX `os.path.join`; the Windows `ntpath` join (drive letters) is not modelled.
- ReplManager.Translate: `Template(s).safe_substitute(**subst)` is a parameter `substitute`, and `sublime.platform()` a parameter `platform`; `_subst_for_translate` and `_translate_string` are not modelled beyond that.
- ReplManager.TranslateDict: returns a new object; the in-place update of the caller's dictionary (visible through aliases) is not modelled.
- ReplManager.Formatted: `str()` of a list or object inside the f-string of `_check_paramiko` is rendered as `""`.
- `PersistentHistory` (a database file) and `History.match` of subclasses other than `MemHistory`.
- Editor positions outside the buffer are clamped by `repl_insert_text`/`repl_erase_text`; Sublime's own behaviour there is assumed, not modelled.
- Colours are modelled as RGB triples; `Text` renders the `#rrggbb` string of a palette entry.
- The `main()` demos, `ansi_color_old.py` and the colour-scheme utilities.
