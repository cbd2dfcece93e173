# Rusting, modelled in Dafny

This project models the logic of several small Rust programs and proves
properties of that logic. The programs are:

- **ssh-config**: a terminal browser for `~/.ssh/config`. It covers:
  - the line-classifying parser `read_ssh_config`, which handles `Host`
    sections, `keyword value` options, `#` comments and `# --- tag ---`
    banners;
  - the entry serialiser `SshConfigEntry::display`;
  - the popup row list and title;
  - the `ListStateManager` scroll arithmetic;
  - the `AppMode` search update;
  - the key and mouse handling of the main loop.
- **bitmap**: the little-endian encoding of the 14-byte BMP file header, the
  default header values, the `{:x}` and `{:02x}` hexadecimal output of the
  headers and the RGB pixel, and the stand-alone `convert_u16`.
- **reverse**: character reversal of a string.
- **grrs**: case-insensitive literal line search with right-aligned line
  numbers.
- **to-do**: the immediate-mode list UI and the `w`/`s`/`q` cursor keys.

Each source file becomes one module. The shared modules are `Common`
(`Option`, `Result`, saturating subtraction) and `Text` (Unicode White_Space,
`trim`, ASCII lower-casing). `Bytes` holds the fixed-width integer types and
hexadecimal digits. State is held in immutable datatypes and passed through
pure transition functions, and the contracts state frame conditions.

Input and output become parameters or results:
- the parser takes the file's lines;
- the main loop takes its events as a sequence;
- the to-do UI records what it draws as a log of `(row, col, text, pair)`;
- grrs takes the lines of the file.

Facts about the ssh-config code that the model keeps:
- There is no search filter: the `matches` vector is only stored by
  `update_search` (app.rs:28-39).
- There are no channels or threads; the main loop reads events in turn
  (main.rs:88-152).
- `select` stores the index unclamped and clamps only the scroll offset
  (list_utils.rs:25-38).
- The mouse mapping ignores the scroll offset: a press on row `r` selects
  `r - 2` when `2 <= r < 2 + len` (main.rs:139-152).

## Model

| member | source | states |
|---|---|---|
| `Text.Trim` | ssh-config/src/config.rs:33 | The trimmed line has no whitespace at either end and is no longer than the line |
| `Text.TrimIgnoresPadding` | ssh-config/src/config.rs:33 | Trimming ignores any whitespace added around a line |
| `ListUtils.New` | ssh-config/src/list_utils.rs:15-22 | Offset 0, index 0, no display height, no widget selection; its offset is within bounds for every item count |
| `ListUtils.GetIndex` | ssh-config/src/list_utils.rs:41-43 | Returns the stored index; `SelectThenGetIndex` ties it to the last `select` |
| `ListUtils.Select` | ssh-config/src/list_utils.rs:25-38 | Stores the index unclamped, both as the index and as the widget selection. The offset ends within `[0, total - h]`, saturating at 0. An in-range index lies in the window `[offset, offset + h)` when `h > 0`. The `index + 1 - h` branch never goes below zero |
| `ListUtils.SelectThenGetIndex` | ssh-config/src/list_utils.rs:25-43 | `get_index` after `select(i, n)` returns `i`, whatever `n` is |
| `ListUtils.UnsetHeightIsZero` | ssh-config/src/list_utils.rs:32-37 | An unset display height behaves exactly like height 0 in `select` and `scroll_down` |
| `ListUtils.SelectIdempotent` | ssh-config/src/list_utils.rs:25-38 | Selecting the same index twice equals selecting it once, when the height is positive or the index is out of range |
| `ListUtils.SelectWithoutHeightAlternates` | ssh-config/src/list_utils.rs:30-37 | With height 0, repeated selection of an in-range index moves the offset back and forth between `i + 1` and `i` |
| `ListUtils.SetScrollOffset` | ssh-config/src/list_utils.rs:46-48 | Stores exactly the offset given, unclamped; nothing else changes |
| `ListUtils.ClearSelection` | ssh-config/src/list_utils.rs:51-53 | Removes the widget selection and leaves the index, offset and height unchanged |
| `ListUtils.ScrollUp` | ssh-config/src/list_utils.rs:56-60 | Decrements a positive offset, does nothing at 0, and touches no other field |
| `ListUtils.ScrollDown` | ssh-config/src/list_utils.rs:63-67 | Increments the offset only when `offset + h < total`, and touches no other field |
| `ListUtils.ScrollDownInBounds` | ssh-config/src/list_utils.rs:63-67 | Scrolling down keeps an in-bounds offset in bounds |
| `ListUtils.ScrollDownThenUp` | ssh-config/src/list_utils.rs:56-67 | A successful scroll down is undone by a scroll up |
| `ListUtils.ScrollUpThenDown` | ssh-config/src/list_utils.rs:56-67 | From an in-bounds positive offset, a scroll up is undone by a scroll down |
| `App.Utf8LenBounds` | ssh-config/src/app.rs:31 | The UTF-8 length lies between the character count and four times it, and equals the count exactly for ASCII text |
| `App.IsSearch` | ssh-config/src/app.rs:17-19 | Holds exactly for the `Search` variant |
| `App.GetSearchQuery` | ssh-config/src/app.rs:21-26 | Returns `Some(query)` exactly in Search mode, otherwise `None` |
| `App.UpdateSearch` | ssh-config/src/app.rs:28-39 | Leaves Normal and Help unchanged. In Search mode it stores the new query and the matches, sets the cursor to the query's UTF-8 byte length and clears the current match |
| `App.UpdateSearchThenQuery` | ssh-config/src/app.rs:21-39 | After an update in Search mode, the query read back is the new one |
| `App.UpdateSearchIdempotent` | ssh-config/src/app.rs:28-39 | Updating twice with the same arguments equals updating once |
| `App.UpdateSearchAsciiCursor` | ssh-config/src/app.rs:31 | For an ASCII query the cursor is the query's character count |
| `Entry.SetTag` | ssh-config/src/entry.rs:12-14 | Sets the tag and leaves host, options and comments unchanged |
| `Entry.Display` | ssh-config/src/entry.rs:15-27 | Gives the header line, one line per option in order, one per comment, then the tag line if there is a tag, each ending in a newline |
| `Entry.DisplayFrame` | ssh-config/src/entry.rs:16-26 | The output starts with `Host: <host>\n` and ends with a newline |
| `Entry.DisplayNewlineCount` | ssh-config/src/entry.rs:15-27 | For single-line fields the output has one line for the host, one per option, one per comment and one for a tag, if present |
| `Entry.DisplayBareEntry` | ssh-config/src/entry.rs:16-26 | An entry without options, comments or tag displays as exactly `Host: <host>\n` |
| `Entry.UnlinesNewlines` | ssh-config/src/entry.rs:15-27 | Joining lines without newlines, each terminated, gives one newline per line |
| `TuiUtils.PopupTitle` | ssh-config/src/tui_utils.rs:15-16 | The title is the host with one space on each side |
| `TuiUtils.PopupTitleTrims` | ssh-config/src/tui_utils.rs:15-16 | Trimming the title of a trimmed host gives back the host |
| `TuiUtils.RenderPopupRows` | ssh-config/src/tui_utils.rs:25-43 | Pushing rows as the source does gives the `Host` row, the option rows in order, the `Comment` rows in order, and the `Tag` row if there is a tag |
| `TuiUtils.PopupRowsLayout` | ssh-config/src/tui_utils.rs:25-43 | The first row is `("Host", host)`. Row `1 + i` is option `i`, then come the comments. A final `("Tag", t)` row exists exactly when the tag is `Some(t)`. There are no other rows |
| `TuiUtils.PopupRowsMatchDisplay` | ssh-config/src/tui_utils.rs:25-43 | The popup has one row per line of `display`, and each display line ends with its row's value |
| `Config.ClassifyTrimmed` | ssh-config/src/config.rs:27-59 | Tests tag, comment, Host and option in that order. Tag names are trimmed. Comments are the whole line starting with `#`. Host names are non-empty, trimmed and single-line. Option keys contain no whitespace |
| `Config.Classify` | ssh-config/src/config.rs:33-59 | Classifies the trimmed line: comments are the whole trimmed line, hosts are non-empty, trimmed and single-line, option keys have no whitespace |
| `Config.TagCaptureComplete` | ssh-config/src/config.rs:30 | Every `# <dashes> <name> <dashes>` line with a name free of `-` and newlines yields that name |
| `Config.TagCaptureSound` | ssh-config/src/config.rs:30 | A captured tag name comes from a line of exactly that shape |
| `Config.SectionCaptureComplete` | ssh-config/src/config.rs:27 | `Host`, whitespace, and a single-line name yield the name |
| `Config.SectionCaptureSound` | ssh-config/src/config.rs:27 | A captured host comes from `Host` + whitespace + host |
| `Config.OptionCaptureComplete` | ssh-config/src/config.rs:28 | A word, whitespace and a single-line value yield `(word, value)` |
| `Config.OptionCaptureSound` | ssh-config/src/config.rs:28 | A captured option comes from key + whitespace + value, the key free of whitespace |
| `Config.ClassifyIgnoresPadding` | ssh-config/src/config.rs:33 | Whitespace around a line never changes its class, because lines are trimmed first |
| `Config.CommentsComeFirst` | ssh-config/src/config.rs:29-47 | A line starting with `#` is a tag banner or a comment holding the trimmed line, never a Host or option line |
| `Config.ClassifySection` | ssh-config/src/config.rs:27-49 | A line is a section for `h` exactly when the Host expression captures `h` from the trimmed line |
| `Config.HostLineIsSection` | ssh-config/src/config.rs:27-49 | `Host <ws> h` with a trimmed single-line `h` is a section for `h` |
| `Config.LowerCaseHostIsOption` | ssh-config/src/config.rs:27-28 | The keyword is case-sensitive: `host`, whitespace and a value is an option named `host`, never a section |
| `Config.Kinds` | ssh-config/src/config.rs:32-33 | Each line is classified after trimming, independently of the others |
| `Config.Step` | ssh-config/src/config.rs:35-67 | One iteration: entries only grow, by at most the flushed section. Only a Host line changes the open section, and every non-banner line syncs `previous_tag` |
| `Config.Scan` | ssh-config/src/config.rs:32-68 | After the loop there are no more entries than lines, and none without an open section |
| `Config.Finish` | ssh-config/src/config.rs:70-79 | The open section, if any, becomes one more entry after the finished ones, which stay as they are |
| `Config.ScanTags` | ssh-config/src/config.rs:35-67 | `current_tag` is the last banner. `previous_tag` catches up with it only on non-tag lines, because banners `continue` before the sync |
| `Config.ScanHosts` | ssh-config/src/config.rs:48-56 | Finished entries plus the open section are all section lines so far, in order. With no open section there are no entries |
| `Config.ScanWithoutSections` | ssh-config/src/config.rs:41-59 | Lines without a section line only append their options and comments to the buffers, in order |
| `Config.ScanOpensSection` | ssh-config/src/config.rs:48-56 | A section line flushes the open section, if any, with the buffers and `previous_tag`, empties the buffers and opens itself |
| `Config.ReadSshConfig` | ssh-config/src/config.rs:16-80 | One entry per Host line, named after it, in file order; no Host line gives no entries |
| `Config.FirstEntry` | ssh-config/src/config.rs:48-76 | The first entry gets the options and comments from before its Host line as well as after it, and the tag `previous_tag` has when it is flushed |
| `Config.NextEntry` | ssh-config/src/config.rs:48-76 | Each later Host line keeps the earlier entries unchanged. Its own entry gets exactly the options and comments up to the next Host line or the end |
| `Config.ScanKeepsEverything` | ssh-config/src/config.rs:41-59 | The entries' options and comments plus the buffers are every option and comment line, in order |
| `Config.NothingLost` | ssh-config/src/config.rs:41-79 | Once the file has a Host line, the entries hold every option and comment of the file, in file order |
| `Config.TagLineOnlySetsTag` | ssh-config/src/config.rs:35-40 | A banner line sets the current tag to its trimmed name and changes nothing else |
| `SshMain.InitialSelection` | ssh-config/src/main.rs:83-86 | The first host is selected exactly when the list is non-empty |
| `SshMain.DownAsWritten` | ssh-config/src/main.rs:109-121 | Fails exactly when a selection exists and the list is empty. No selection goes to 0, index `i` goes to `i + 1` when `i + 1 < len`, and any index from `len - 1` on wraps to 0 |
| `SshMain.UpAsWritten` | ssh-config/src/main.rs:122-134 | Fails exactly when index 0 is selected and the list is empty. No selection goes to 0, index `i > 0` goes to `i - 1`, and index 0 wraps to `len - 1` |
| `SshMain.EmptyListDownTwiceOverflows` | ssh-config/src/main.rs:109-134 | On an empty list Down selects index 0, and the next Down or Up overflows |
| `SshMain.Down` | ssh-config/src/main.rs:109-121 | Selects nothing on an empty list. Otherwise it lands on an existing host, moves `i` to `i + 1` below the last host, and agrees with the code as written |
| `SshMain.Up` | ssh-config/src/main.rs:122-134 | Selects nothing on an empty list. Otherwise it moves `i` to `i - 1` for `0 < i < len`, agrees with the code as written and keeps a valid selection valid |
| `SshMain.Wraparound` | ssh-config/src/main.rs:109-134 | The last index wraps to 0 on Down, 0 wraps to the last index on Up, and no selection goes to 0 |
| `SshMain.UpDownInverse` | ssh-config/src/main.rs:109-134 | On a selected host, Up undoes Down and Down undoes Up |
| `SshMain.MouseAsWritten` | ssh-config/src/main.rs:139-152 | Below 65534 hosts it selects `row - 2` when `2 <= row < 2 + len`. When the host count is a multiple of 65536, clicks do nothing |
| `SshMain.LargeListMouse` | ssh-config/src/main.rs:145 | With 65534 hosts a click overflows; with 65536 hosts a click selects nothing |
| `SshMain.Mouse` | ssh-config/src/main.rs:139-152 | Selects `row - 2` exactly when that host exists, otherwise leaves the selection unchanged, and agrees with the code as written below 65534 hosts |
| `SshMain.KeyStep` | ssh-config/src/main.rs:109-135 | Keys other than Up and Down leave the selection unchanged, and a valid selection stays valid |
| `SshMain.Run` | ssh-config/src/main.rs:88-152 | The loop with the corrected Down, Up and mouse handlers: over any event sequence a valid selection stays valid |
| `SshMain.KeyStepAsWritten` | ssh-config/src/main.rs:106-137 | Keys other than Up and Down leave the selection unchanged; with at least one host it agrees with the corrected key handling |
| `SshMain.RunAsWritten` | ssh-config/src/main.rs:88-152 | The loop with the handlers as written, ending in `Err` on an overflow. With between 1 and 65533 hosts it equals the corrected loop |
| `SshMain.EmptyListRun` | ssh-config/src/main.rs:106-121 | With no hosts, Down selects the missing row 0 and a later Down overflows |
| `SshMain.RunAsWrittenFromStart` | ssh-config/src/main.rs:81-152 | With between 1 and 65533 hosts, the loop as written never overflows and keeps the selection on an existing host |
| `SshMain.QuitEndsLoop` | ssh-config/src/main.rs:106-108 | `q` at the first read ends the loop with the selection unchanged |
| `SshMain.SecondReadIgnoresKeys` | ssh-config/src/main.rs:106-139 | A key, even `q`, read by the second read of an iteration is ignored |
| `Bytes.LowerHex` | bitmap/src/headers.rs:15 | `{:x}` prints lower-case digits with no leading zero, and one digit exactly below 16 |
| `Bytes.ParseLowerHex` | bitmap/src/headers.rs:15 | Reading `{:x}` back gives the number printed |
| `Bytes.LowerHexWidths` | bitmap/src/headers.rs:15 | A `u16` prints in at most 4 digits, a `u32` in 8 and a `u64` in 16 |
| `Bytes.Hex2` | bitmap/src/rgb.rs:27 | `{:02x}` prints exactly two lower-case digits |
| `Bytes.Hex2IsPaddedLowerHex` | bitmap/src/rgb.rs:27 | `{:02x}` is `{:x}` padded with one zero below 16 and equal to it from 16 up |
| `Bytes.UpperHexLowered` | bitmap/src/headers.rs:19-23 | `{:X}` differs from `{:x}` only in the case of the letters |
| `Headers.ConvertU16` | bitmap/src/headers.rs:43-47 | The low byte then the high byte: `b0 = x mod 256`, `b1 = x / 256`, read back little-endian as `x` |
| `Headers.ConvertU32` | bitmap/src/headers.rs:49-55 | Four bytes, least significant first, read back little-endian as `x` |
| `Headers.ToNeBytes` | bitmap/src/headers.rs:57-65 | 14 bytes, with the five fields little-endian at offsets 0, 2, 6, 8 and 10 on every host |
| `Headers.NewFileHeader` | bitmap/src/headers.rs:26-41 | The size field is the 14-byte header size, both reserved fields are 0, and the pixel data starts right after the two headers |
| `Headers.FromToBytes` | bitmap/src/headers.rs:57-65 | Decoding the fields from their offsets recovers the header |
| `Headers.ToFromBytes` | bitmap/src/headers.rs:57-65 | Every 14 bytes are the encoding of the header decoded from them |
| `Headers.ToNeBytesInjective` | bitmap/src/headers.rs:57-65 | Two headers have the same encoding exactly when they are equal |
| `Headers.LittleEndianInjective` | bitmap/src/headers.rs:43-55 | Equal-length little-endian byte strings denoting the same number are equal |
| `Headers.NewFileHeaderMagic` | bitmap/src/headers.rs:35-59 | The default header starts with the bytes of `BM` |
| `Headers.StartOffsetFollowsHeaders` | bitmap/src/headers.rs:39 | The default pixel offset 54 is the 14-byte file header plus the information header's size 40 |
| `Headers.ImageSizeAsWrittenIsInBits` | bitmap/src/headers.rs:104-118 | The default header's image size is eight times the 30000 bytes of pixel data it describes |
| `Headers.NewInformationHeaderAsWritten` | bitmap/src/headers.rs:104-118 | The defaults as written: the image size is bits per pixel times width times height, a count of bits |
| `Headers.NewInformationHeader` | bitmap/src/headers.rs:104-118 | Size 40, 1 plane, 24 bits per pixel, no compression, 100 by 100, and an image size equal to the padded pixel data, 30000 bytes |
| `Headers.FileHeaderLowerHex` | bitmap/src/headers.rs:13-17 | Lower-case digits only, between 5 and 28 characters |
| `Headers.FileHeaderHexAmbiguous` | bitmap/src/headers.rs:13-17 | Without separators, two different headers print the same string |
| `Headers.FileHeaderUpperHexAsWritten` | bitmap/src/headers.rs:19-23 | Prints exactly what `LowerHex` prints |
| `Headers.UpperHexAsWrittenIsLowerCase` | bitmap/src/headers.rs:19-23 | The default header prints as `4d42e0036` under `{:X}`, which contains lower-case letters |
| `Headers.FileHeaderUpperHex` | bitmap/src/headers.rs:19-23 | Upper-case digits only, with no lower-case letter, and lower-casing it gives the `LowerHex` output |
| `Headers.InformationHeaderLowerHex` | bitmap/src/headers.rs:97-101 | Lower-case digits only, between 10 and 80 characters |
| `RgbPixel.New` | bitmap/src/rgb.rs:7-9 | Holds the three components given |
| `RgbPixel.ToNeBytes` | bitmap/src/rgb.rs:11-13 | Three bytes from which `FromBytes` recovers the pixel |
| `RgbPixel.NewToNeBytes` | bitmap/src/rgb.rs:7-13 | The bytes of a new pixel are `[r, g, b]` |
| `RgbPixel.BytesRoundTrip` | bitmap/src/rgb.rs:11-13 | The three bytes and the pixel determine each other |
| `RgbPixel.LowerHex` | bitmap/src/rgb.rs:25-29 | Six lower-case digits, two per component, in component order |
| `RgbPixel.ParseLowerHex` | bitmap/src/rgb.rs:25-29 | Reading the six digits back as three two-digit bytes gives the pixel |
| `RgbPixel.LowerHexOfParse` | bitmap/src/rgb.rs:25-29 | Every six lower-case digits are the output for exactly one pixel |
| `Coise.ConvertU16` | bitmap/src/coise.rs:1-5 | Two bytes, low first: `b0 = x mod 256`, `b1 = x / 256`, `b0 + 256 * b1 = x` |
| `Coise.AgreesWithHeaders` | bitmap/src/coise.rs:1-5 | It agrees with the file header's `convert_u16` on every input |
| `Coise.ConvertThousand` | bitmap/src/coise.rs:11-13 | `convert_u16(1000)` is `[232, 3]` |
| `Reversal.Reverse` | reverse/src/main.rs:7-9 | Same length, and character `i` of the result is character `n - 1 - i` of the input |
| `Reversal.ReverseInvolution` | reverse/src/main.rs:7-9 | Reversing twice gives the string back |
| `Reversal.ReverseConcat` | reverse/src/main.rs:8 | `reverse(a + b) = reverse(b) + reverse(a)` |
| `Reversal.ReverseFixedPoints` | reverse/src/main.rs:8 | The empty string and single characters are fixed points; in general the fixed points are the palindromes |
| `Reversal.ReverseKeepsCharacters` | reverse/src/main.rs:8 | The result holds the same characters with the same multiplicities |
| `Grrs.DecimalDigits` | grrs/src/main.rs:31 | `to_string` gives decimal digits with no leading zero |
| `Grrs.ParseDecimalDigits` | grrs/src/main.rs:31 | Reading the digits back gives the number |
| `Grrs.WidthBounds` | grrs/src/main.rs:31 | The width is the number of decimal digits of the line count, 1 for 0 lines |
| `Grrs.WidthMonotonic` | grrs/src/main.rs:31-35 | A smaller number never has more digits |
| `Grrs.Width` | grrs/src/main.rs:31 | At least one character, the digit count of the line count |
| `Grrs.PadLeft` | grrs/src/main.rs:35 | `{:>width$}` puts spaces on the left up to the width and never truncates |
| `Grrs.IsMatch` | grrs/src/main.rs:32-34 | True exactly when the pattern occurs literally in the line, ignoring the case of ASCII letters |
| `Grrs.EmptyPatternMatches` | grrs/src/main.rs:32-34 | The empty pattern matches every line |
| `Grrs.MatchIgnoresCase` | grrs/src/main.rs:32 | Changing letter case in the line or the pattern does not change the result |
| `Grrs.MatchingNumbers` | grrs/src/main.rs:33-35 | The printed numbers are 1-based, strictly increasing, and include `n` exactly when line `n` matches |
| `Grrs.FormatLineShape` | grrs/src/main.rs:35 | When the number fits, each output line is `[`, the width-padded number, `] ` and the line |
| `Grrs.FormatLine` | grrs/src/main.rs:35 | The printed line; its shape is stated by `FormatLineShape` and its number by `FormatLineNumber` |
| `Grrs.FormatLineNumber` | grrs/src/main.rs:35 | The number read back from between the brackets is the line number |
| `Grrs.NumbersFitWidth` | grrs/src/main.rs:31-35 | No printed number is wider than the width, since it never exceeds the line count |
| `Grrs.Grep` | grrs/src/main.rs:31-37 | Prints exactly one formatted line per matching line, in order |
| `Todo.Default` | to-do/src/main.rs:10-15 | No open list, row 0, column 0, nothing drawn |
| `Todo.Begin` | to-do/src/main.rs:18-21 | Sets row and column exactly; nothing else changes |
| `Todo.BeginList` | to-do/src/main.rs:25-28 | Fails exactly when a list is already open, so lists cannot nest. Otherwise it only records the selected id |
| `Todo.EndList` | to-do/src/main.rs:30-32 | Leaves no list open; nothing else changes |
| `Todo.Label` | to-do/src/main.rs:50-56 | Draws the text at the current position, advances the row by exactly 1, and keeps the column |
| `Todo.ListElement` | to-do/src/main.rs:34-48 | Fails exactly outside a list. Inside, it draws `- [ ] <label>` highlighted when the id is the list's selected id, regular otherwise |
| `Todo.ListElements` | to-do/src/main.rs:93-95 | Entry `i` of the added log is `- [ ] <item i>` at row `row + i`, highlighted exactly when `offset + i` is the selected id. The row advances by the item count and the column is kept |
| `Todo.ListElementsHighlight` | to-do/src/main.rs:34-48 | An added entry is highlighted exactly when its id is the selected id, so at most one is |
| `Todo.Frame` | to-do/src/main.rs:89-106 | Fails exactly when it starts with a list open. It emits three labels plus one per todo and one per done item, ends on the row after the last, and closes its lists |
| `Todo.FrameHighlight` | to-do/src/main.rs:92-104 | Exactly one todo row is highlighted when the selection is in range. The done ids are offset by 6969, so the done list highlights on its own |
| `Todo.KeyChar` | to-do/src/main.rs:112 | `key as u8 as char` keeps the low byte of the key code |
| `Todo.KeyStep` | to-do/src/main.rs:111-123 | `q` quits. `w` moves to `curr - 1`, or stays at 0. `s` moves to `min(curr + 1, len - 1)` and fails on an empty list. Other keys do nothing, and the selection stays below `len` |
| `Todo.KeyStepLowByte` | to-do/src/main.rs:112 | Key codes that agree in their low byte act alike |
| `Todo.UpDownInverse` | to-do/src/main.rs:115-121 | `s` then `w` returns to the same todo unless it was the last. `w` then `s` returns unless it was the first. Both stop at the ends |
| `Todo.Keys` | to-do/src/main.rs:88-124 | For a non-empty list, any key sequence keeps the selection on an existing todo |

## Left out

- File and terminal I/O: `File::open`, `BufReader`, io errors from
  `read_ssh_config`, `read_to_string`, printing, the `?` on event reads. They
  are effects on the outside world. The model takes the lines or events
  directly.
- The `regex` crate: the four patterns of config.rs are written out as string
  predicates over trimmed lines. Like the crate, `.` does not match a newline,
  and `\s` is Unicode White_Space.
- Terminal lifecycle and drawing: crossterm raw mode, the alternate screen,
  mouse capture, ratatui layout and styling, and ncurses calls. These are
  effects on a foreign library. Only the row list, the title and a log of
  labels are modelled.
- `SshMain.Run`: the model stops without quitting when the events run out.
  The program instead blocks waiting for more input. It also uses the
  corrected handlers; `SshMain.RunAsWritten` is the loop as written.
- `SshMain.RunAsWritten`: the ratatui render between the reads
  (main.rs:90-104) is not modelled. It receives the list state mutably and
  might change an out-of-range selection.
- `SshMain.KeyStep`: key modifiers are not modelled. The source matches `q`,
  Up and Down whatever the modifiers.
- `ListUtils.Select`: `usize` overflow of `scroll_offset + h` is not modelled.
  Indices are unbounded naturals.
- `ListUtils.ScrollDown`: `usize` overflow of `scroll_offset + h` is not
  modelled.
- `Grrs.IsMatch`: folds ASCII letters only. The regex crate's `(?i)` also
  folds non-ASCII letters, and Unicode case folding is not modelled.
- `Grrs.Grep`: takes the lines of the file. Splitting the content with
  `str::lines` is not modelled.
- Command-line parsing with clap and the `--verbose` output of grrs.
- The `as_bytes` views in headers.rs and rgb.rs, and `mem::transmute` and
  `mem::size_of` in bitmap/src/main.rs. They expose an unspecified struct
  layout.
- The grapheme variant of `reverse`, which depends on the unicode-segmentation
  crate.
- The programs dlprog, ctrlc, protobuf, sqlite, ssh_config and guessing_game:
  - dlprog does not compile and is float arithmetic with sleeps;
  - ctrlc is signal handling;
  - protobuf and sqlite are wrappers over generated code and a database;
  - ssh_config wraps an external crate and does not compile;
  - guessing_game is stdin and random-number plumbing.
- `FileHeader.size` as updated in bitmap/src/main.rs, which depends on
  `mem::size_of` of a `repr(Rust)` struct.

## Findings

| source | as written | input that shows it | evidently intended | confidence | as-written member | corrected member |
|---|---|---|---|---|---|---|
| ssh-config/src/main.rs:109-134 | Down and Up compute `hosts.len() - 1` in `usize` | An empty config: the first Down selects index 0 of an empty list, and a second Down or Up underflows and panics in a debug build. This assumes the ratatui render between the reads (main.rs:90-104) keeps the out-of-range selection, which depends on a crate version the source does not pin | With no hosts, nothing is selected | low (not executed) | `SshMain.DownAsWritten` | `SshMain.Down` |
| ssh-config/src/main.rs:145 | `list_start + hosts.len() as u16` truncates the count to 16 bits and adds in `u16` | 65534 hosts and a click on row 2 overflow; with 65536 hosts every click is ignored | The bound `2 + len`, computed without truncation | medium (not executed) | `SshMain.MouseAsWritten` | `SshMain.Mouse` |
| bitmap/src/headers.rs:19-23 | `UpperHex for FileHeader` formats with `{:x}` | `format!("{:X}", FileHeader::new())` gives `4d42e0036` | `{:X}`, giving `4D42E0036` | high (not executed) | `Headers.FileHeaderUpperHexAsWritten` | `Headers.FileHeaderUpperHex` |
| bitmap/src/headers.rs:112 | `image_data_size: 24*10000`, which is bits per pixel times pixel count | `BitmapInformationHeader::new()` gives 240000 for 100×100 pixels of 3 bytes, 30000 bytes with no row padding | 30000, the byte size of the pixel data | medium (not executed) | `Headers.NewInformationHeaderAsWritten` | `Headers.NewInformationHeader` |
