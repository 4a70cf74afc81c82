# HugeLB: a verified model of the owner-drawn list box's external text table

HugeLB is a sample Presentation Manager dialog for OS/2. It shows more items than an ordinary
list box's 64K control heap allows. The list items themselves carry no text. Their text is kept
in an external table `entries`: 2000 rows (`ENTRY_CNT`) of 128 characters each (`ENTRY_LENGTH`).
The dialog procedure looks up that table whenever the list box sends `WM_DRAWITEM`.

This project models the two pieces of logic in the dialog procedure:

- **`WM_INITDLG`** (`HugeLB.HugeListDialog.InitDialog`):
  - `memset` fills the whole contiguous table with `'.'`.
  - For every row `i`, `_itoa(i, entries[i], 10)` writes the digits of `i` and a NUL.
  - That NUL is found with `strlen` and turned back into `'.'`.
  - The last byte of the row becomes NUL.
  - An item with empty text is inserted at the end of the list box.
- **`WM_DRAWITEM`** (`HugeLB.HugeListDialog.DrawItem`):
  - The handler picks highlight or normal colours from the item's `fsState`.
  - If the item is selected, it clears `fsState`, so the list box does not highlight the item a second time.
  - It asks for the C string in row `idItem` to be drawn.
  - It clears `fsStateOld` and returns TRUE.

Files:

- `Decimal.dfy`: base-10 rendering `DecimalDigits`, which is what `_itoa` writes for a non-negative value. It also has the inverse `DecimalValue` and the round trips in both directions.
- `CRuntime.dfy`: the C runtime routines the handler calls, written as methods over a character array and proved against their specifications: `Memset`, `Strlen` and `Itoa`. It also has `CString`, the specification of a NUL-terminated string.
- `HugeLB.dfy`:
  - the constants and the specification of an initialised row (`RowText`, `ExpectedRow`) and of the table (`Table`);
  - the lemmas about them;
  - the `OwnerItem` record class and the dialog class `HugeListDialog`.

The C array `entries[2000][128]` is modelled as one flat `array<char>` of 256000 characters, with
row `r` at `r*128 .. r*128+127`. Line 196 depends on this layout: its `memset` starts at
`entries[0]` and covers all rows at once. A global C array starts zero-filled, so the dialog's
constructor fills the table with NUL.

## Model

| member | source | states |
|---|---|---|
| `Decimal.DecimalDigits` | HUGELB.C:199 | the rendering `_itoa` writes for a row index is non-empty and made only of decimal digits |
| `Decimal.DecimalDigitsCanonical` | HUGELB.C:199 | the rendering has no sign and no leading zero (it is `"0"` or starts with a non-zero digit) |
| `Decimal.DigitCountRange` | HUGELB.C:199 | the rendering of n has exactly k digits where 10^(k-1) <= n < 10^k (k = 1 for n < 10) |
| `Decimal.DigitsLengthBound` | HUGELB.C:199 | if n < 10^k then the rendering of n has at most k digits |
| `Decimal.DecimalRoundTrip` | HUGELB.C:199 | parsing the rendering of n gives back n |
| `Decimal.CanonicalRoundTrip` | HUGELB.C:199 | every canonical numeral is the rendering of the number it denotes, so each number has exactly one rendering |
| `Decimal.LeadingDigitsOfConcat` | HUGELB.C:199-200 | digits followed by a non-digit (the `'.'` that replaces `_itoa`'s NUL) are exactly the row's leading digit run |
| `CRuntime.CString` | HUGELB.C:283 | the text read from a buffer with count -1 is a prefix of the buffer, has no NUL, and ends at the buffer's first NUL |
| `CRuntime.CStringUpTo` | HUGELB.C:283 | if the first NUL of s is at n, the C string of s is s[..n] |
| `CRuntime.Memset` | HUGELB.C:196 | every byte in the range becomes the fill character and no other byte changes |
| `CRuntime.Strlen` | HUGELB.C:200 | the result is the offset of the first NUL at or after the start, and the start must reach a NUL inside the buffer |
| `CRuntime.Itoa` | HUGELB.C:199 | the decimal digits of the value, then a NUL, are written at the offset; nothing outside those bytes changes |
| `HugeLB.DigitsFitInRow` | HUGELB.C:78-79 | for every row index below `ENTRY_CNT`, `_itoa` writes at most 4 digits, and the digits plus NUL fit in `ENTRY_LENGTH` bytes |
| `HugeLB.ExpectedRowLayout` | HUGELB.C:196-201 | an initialised row is the canonical digits of i, then `'.'` through byte 126, then NUL at byte 127, and has no NUL before byte 127 |
| `HugeLB.RowCString` | HUGELB.C:196-201 | every initialised row is a C string of length 127, equal to the row's digits and dots |
| `HugeLB.RowNamesItsIndex` | HUGELB.C:162-164 | the number at the start of row i's text is i: its leading digit run is the rendering of i and parses back to i |
| `HugeLB.Table` | HUGELB.C:91 | the table of the first n rows is n*`ENTRY_LENGTH` characters long |
| `HugeLB.TableRowAt` | HUGELB.C:91 | in the contiguous table, row r occupies bytes r*128 to r*128+127 and holds the expected row r |
| `HugeLB.TableRowsTerminated` | HUGELB.C:201 | every row of the initialised table ends in NUL |
| `HugeLB.DrawnTextAfterInit` | HUGELB.C:283 | after initialisation, the text drawn for item i is exactly the text of row i (its digits and dots) |
| `HugeLB.WriteRow` | HUGELB.C:199-201 | given a row of dots, the `_itoa` / `strlen` / overwrite sequence leaves exactly the expected row i and touches no byte outside row i |
| `HugeLB.HugeListDialog.constructor` | HUGELB.C:91 | the table starts with every byte zero and every row terminated, and the list box starts empty |
| `HugeLB.HugeListDialog.InitDialog` | HUGELB.C:195-208 | the whole buffer becomes the table of all 2000 expected rows, every row is terminated, and exactly 2000 empty-text items are appended to the list box |
| `HugeLB.HugeListDialog.DrawItem` | HUGELB.C:260-291 | selected item: highlight colours and `fsState` cleared; unselected item: neutral/entry-field colours and `fsState` unchanged. Always: `fsStateOld` cleared, text is the C string of row `idItem`, table unchanged, result TRUE; `idItem` must be in [0, 2000) |

## Left out

- `main` (HUGELB.C:112-137) is not modelled. It covers window-system initialisation, the message queue and the modal dialog loop, and is platform lifecycle only.
- The wait pointer and task-list registration (HUGELB.C:177-193, 210) are not modelled. They are window-system calls whose effects are not visible here, and this includes the `strncpy` of the title.
- `WM_MEASUREITEM` (HUGELB.C:229-243) is not modelled. The height it returns comes from `GpiQueryFontMetrics`, a foreign call.
- Rendering by `WinDrawText` (HUGELB.C:281-287) is modelled only as the emitted `DrawRequest`: the text, the foreground colour and the background colour. The presentation space, the rectangle and the `DT_LEFT | DT_VCENTER | DT_ERASERECT` flags are not modelled.
- `LM_INSERTITEM` is modelled as appending `""` to a ghost sequence of list items (`listItems`). The list box control, its return value and any failure it might report are not modelled.
- `WM_COMMAND` and default dispatch to `WinDefDlgProc` (HUGELB.C:294-306) are message routing and are not modelled.
- Colours are an enumerated type. The numeric values of `SYSCLR_*` and `CLR_NEUTRAL` come from the OS/2 toolkit headers, and `HugeLB.h` / `os2.h` are not part of this model.
- `CRuntime.Itoa` models only radix 10 and non-negative values. That is the only way the dialog calls it: the loop variable is an unsigned `USHORT`. Radix 10 and non-negative values need no sign. The C runtime's own `_itoa` code is not part of this model: only its end state is claimed.
- The `USHORT` loop counter is modelled as an unbounded integer. It counts only to 2000, far below 65536, so it never wraps.
- Of `OWNERITEM`, only `idItem`, `fsState` and `fsStateOld` are modelled. The handler reads `hps` and `rclItem` only to pass them to the renderer.
- `HugeLB.HugeListDialog.DrawItem` requires `idItem` in [0, 2000). The handler does no range check, so an out-of-range index would read outside the table in C.
- `HugeLB.HugeListDialog.DrawItem` clears `fsState` only for a selected item (HUGELB.C:272) and always clears `fsStateOld` (HUGELB.C:289).
