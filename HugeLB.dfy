/** The owner-drawn "huge" list box: list items carry no text; their text lives in an
    external table of ENTRY_CNT rows of ENTRY_LENGTH characters, filled once when the dialog
    is initialised and looked up by item index whenever the list box asks for an item to be
    drawn. */
module HugeLB {
  import opened Decimal
  import opened CRuntime

  /** ENTRY_CNT: number of list box entries. */
  const EntryCnt: nat := 2000
  /** ENTRY_LENGTH: characters in each entry, its terminating NUL included. */
  const EntryLength: nat := 128
  /** The whole `entries` buffer, one contiguous block of rows. */
  const TableSize: nat := EntryCnt * EntryLength
  /** The fill character of a row. */
  const Dot: char := '.'

  function Dots(n: nat): string {
    seq(n, _ => Dot)
  }

  /** The text of row i once initialised: the decimal digits of i, then dots up to byte
      ENTRY_LENGTH - 2. */
  function RowText(i: nat): (text: string)
    requires i < EntryCnt
    ensures |text| == EntryLength - 1
  {
    DigitsFitInRow(i);
    var d := DecimalDigits(i);
    d + Dots(EntryLength - 1 - |d|)
  }

  /** Row i of the table once initialised: its text and a NUL in the last byte. */
  function ExpectedRow(i: nat): (row: string)
    requires i < EntryCnt
    ensures |row| == EntryLength
  {
    RowText(i) + [NUL]
  }

  /** The whole initialised table: rows 0 .. n-1, one after the other. */
  function Table(n: nat): (t: string)
    requires n <= EntryCnt
    ensures |t| == n * EntryLength
  {
    if n == 0 then [] else Table(n - 1) + ExpectedRow(n - 1)
  }

  /** Row r of a table laid out as one contiguous buffer. */
  function RowOf(t: seq<char>, r: nat): seq<char>
    requires |t| == TableSize && r < EntryCnt
  {
    t[r * EntryLength..r * EntryLength + EntryLength]
  }

  /** The digits `_itoa` writes for any row index, plus its NUL, fit in the row:
      at most 4 digits and 5 bytes, well below ENTRY_LENGTH. */
  lemma DigitsFitInRow(i: nat)
    requires i < EntryCnt
    ensures |DecimalDigits(i)| <= 4
    ensures |DecimalDigits(i)| + 1 < EntryLength
  {
    DigitsLengthBound(i, 4);
  }

  /** The layout of an initialised row: digits of i (no sign, no leading zero), then dots
      through byte ENTRY_LENGTH - 2, then NUL; no NUL before the last byte. */
  lemma ExpectedRowLayout(i: nat)
    requires i < EntryCnt
    ensures |DecimalDigits(i)| <= 4
    ensures ExpectedRow(i)[..|DecimalDigits(i)|] == DecimalDigits(i)
    ensures IsCanonical(DecimalDigits(i))
    ensures forall k :: |DecimalDigits(i)| <= k < EntryLength - 1 ==> ExpectedRow(i)[k] == Dot
    ensures ExpectedRow(i)[EntryLength - 1] == NUL
    ensures forall k :: 0 <= k < EntryLength - 1 ==> ExpectedRow(i)[k] != NUL
  {
    DigitsFitInRow(i);
    DecimalDigitsCanonical(i);
    var d := DecimalDigits(i);
    var row := ExpectedRow(i);
    assert row == d + Dots(EntryLength - 1 - |d|) + [NUL];
    forall k | 0 <= k < EntryLength - 1
      ensures row[k] != NUL
    {
      if k < |d| {
        assert row[k] == d[k] && IsDigit(d[k]);
      }
    }
  }

  /** Every initialised row is a C string of length ENTRY_LENGTH - 1: its text. */
  lemma RowCString(i: nat)
    requires i < EntryCnt
    ensures CString(ExpectedRow(i)) == RowText(i)
    ensures |CString(ExpectedRow(i))| == EntryLength - 1
  {
    ExpectedRowLayout(i);
    CStringUpTo(ExpectedRow(i), EntryLength - 1);
    assert ExpectedRow(i)[..EntryLength - 1] == RowText(i);
  }

  /** The number at the start of row i's text is i: its leading digit run is the rendering
      of i and parses back to i. */
  lemma RowNamesItsIndex(i: nat)
    requires i < EntryCnt
    ensures LeadingDigits(RowText(i)) == DecimalDigits(i)
    ensures DecimalValue(LeadingDigits(RowText(i))) == i
  {
    DigitsFitInRow(i);
    var d := DecimalDigits(i);
    var dots := Dots(EntryLength - 1 - |d|);
    assert RowText(i) == d + dots;
    assert dots[0] == Dot;
    LeadingDigitsOfConcat(d, dots);
    DecimalRoundTrip(i);
  }

  /** In the table of the first n rows, row r sits at bytes r*ENTRY_LENGTH onwards. */
  lemma {:induction false} TableRowAt(n: nat, r: nat)
    requires r < n <= EntryCnt
    ensures Table(n)[r * EntryLength..r * EntryLength + EntryLength] == ExpectedRow(r)
    decreases n
  {
    if r < n - 1 {
      TableRowAt(n - 1, r);
      assert Table(n) == Table(n - 1) + ExpectedRow(n - 1);
      assert r * EntryLength + EntryLength <= (n - 1) * EntryLength;
    } else {
      assert Table(n) == Table(n - 1) + ExpectedRow(n - 1);
    }
  }

  /** Every row of the initialised table ends in a NUL. */
  lemma TableRowsTerminated()
    ensures forall r :: 0 <= r < EntryCnt ==> RowOf(Table(EntryCnt), r)[EntryLength - 1] == NUL
  {
    forall r | 0 <= r < EntryCnt
      ensures RowOf(Table(EntryCnt), r)[EntryLength - 1] == NUL
    {
      TableRowAt(EntryCnt, r);
      ExpectedRowLayout(r);
    }
  }

  /** The text drawn for item i once the table is initialised is the text of row i. */
  lemma DrawnTextAfterInit(i: nat)
    requires i < EntryCnt
    ensures CString(RowOf(Table(EntryCnt), i)) == RowText(i)
  {
    TableRowAt(EntryCnt, i);
    RowCString(i);
  }

  /** The body of the initialisation loop for row i (its bytes already dots): `_itoa` writes
      the digits of i and a NUL at the row's start, that NUL (found with `strlen`) becomes a
      dot again, and the row's last byte becomes NUL. Only row i changes. */
  method WriteRow(a: array<char>, i: nat)
    requires a.Length == TableSize && i < EntryCnt
    requires forall k :: i * EntryLength <= k < i * EntryLength + EntryLength ==> a[k] == Dot
    modifies a
    ensures a[i * EntryLength..i * EntryLength + EntryLength] == ExpectedRow(i)
    ensures forall k :: 0 <= k < a.Length && !(i * EntryLength <= k < i * EntryLength + EntryLength) ==> a[k] == old(a[k])
  {
    var off := i * EntryLength;
    ghost var d := DecimalDigits(i);
    ExpectedRowLayout(i);
    Itoa(i, a, off);
    forall k | off <= k < off + |d|
      ensures a[k] != NUL
    {
      assert a[k] == a[off..off + |d|][k - off] == d[k - off];
    }
    var len := Strlen(a, off);
    assert len == |d|;
    a[off + len] := Dot;
    a[off + EntryLength - 1] := NUL;
    forall k | 0 <= k < EntryLength
      ensures a[off + k] == ExpectedRow(i)[k]
    {
      if k < |d| {
        assert a[off + k] == a[off..off + |d|][k];
      }
    }
  }

  /** Colours passed to the text renderer (the system and palette colour indices). */
  datatype Color = SysClrHiliteForeground | SysClrHiliteBackground | ClrNeutral | SysClrEntryField

  /** What the draw handler asks the renderer to paint: left-aligned, vertically centred
      text over an erased rectangle. */
  datatype DrawRequest = DrawRequest(text: string, foreground: Color, background: Color)

  /** The owner-item record the list box passes with a draw request; the handler writes
      its state fields in place. */
  class OwnerItem {
    var idItem: int
    var fsState: nat
    var fsStateOld: nat

    constructor (id: int, state: nat, stateOld: nat)
      ensures idItem == id && fsState == state && fsStateOld == stateOld
    {
      idItem, fsState, fsStateOld := id, state, stateOld;
    }
  }

  /** The dialog that owns the list box: the external text table `entries` and the items
      the dialog has inserted into its list box. */
  class HugeListDialog {
    const entries: array<char>
    ghost var listItems: seq<string>

    /** The table has its full size and every row ends in a NUL, so every row is a C string. */
    ghost predicate Valid()
      reads this, entries
    {
      entries.Length == TableSize &&
      forall r :: 0 <= r < EntryCnt ==> RowOf(entries[..], r)[EntryLength - 1] == NUL
    }

    /** The global table starts zero-filled, and the dialog's list box starts empty. */
    constructor ()
      ensures Valid() && fresh(entries)
      ensures entries[..] == seq(TableSize, _ => NUL)
      ensures listItems == []
    {
      entries := new char[TableSize](_ => NUL);
      listItems := [];
    }

    /** WM_INITDLG: fill the table with dots, write each row's index and terminator, and
        insert one text-less item at the end of the list box per row. */
    method InitDialog()
      requires entries.Length == TableSize
      modifies this, entries
      ensures Valid()
      ensures entries[..] == Table(EntryCnt)
      ensures listItems == old(listItems) + seq(EntryCnt, _ => "")
    {
      Memset(entries, 0, Dot, TableSize);
      var i := 0;
      while i < EntryCnt
        invariant 0 <= i <= EntryCnt
        invariant entries[..i * EntryLength] == Table(i)
        invariant forall k :: i * EntryLength <= k < TableSize ==> entries[k] == Dot
        invariant listItems == old(listItems) + seq(i, _ => "")
      {
        var off := i * EntryLength;
        ghost var before := entries[..];
        WriteRow(entries, i);
        listItems := listItems + [""];
        assert entries[..off] == before[..off];
        assert Table(i + 1) == Table(i) + ExpectedRow(i);
        assert entries[..off + EntryLength] == entries[..off] + entries[off..off + EntryLength];
        assert listItems == old(listItems) + seq(i + 1, _ => "");
        i := i + 1;
      }
      assert entries[..] == entries[..TableSize];
      TableRowsTerminated();
    }

    /** WM_DRAWITEM: choose highlight or normal colours from the item's selection state
        (clearing the state of a selected item so the list box does not highlight it too),
        draw the item's row of the table, clear the old state, and report the item drawn.
        The item index is not range-checked by the handler. */
    method DrawItem(item: OwnerItem) returns (req: DrawRequest, handled: bool)
      requires Valid()
      requires 0 <= item.idItem < EntryCnt
      modifies item
      ensures old(item.fsState) != 0 ==>
        req.foreground == SysClrHiliteForeground && req.background == SysClrHiliteBackground && item.fsState == 0
      ensures old(item.fsState) == 0 ==>
        req.foreground == ClrNeutral && req.background == SysClrEntryField && item.fsState == old(item.fsState)
      ensures item.fsStateOld == 0
      ensures item.idItem == old(item.idItem)
      ensures req.text == CString(RowOf(entries[..], item.idItem))
      ensures entries[..] == old(entries[..])
      ensures handled
    {
      var fg, bg;
      if item.fsState != 0 {
        fg, bg := SysClrHiliteForeground, SysClrHiliteBackground;
        item.fsState := 0;
      } else {
        fg, bg := ClrNeutral, SysClrEntryField;
      }
      var off := item.idItem * EntryLength;
      ghost var row := RowOf(entries[..], item.idItem);
      assert entries[off + EntryLength - 1] == row[EntryLength - 1] == NUL;
      var len := Strlen(entries, off);
      assert len < EntryLength;
      forall k | 0 <= k < len
        ensures row[k] != NUL
      {
        assert row[k] == entries[off + k];
      }
      CStringUpTo(row, len);
      req := DrawRequest(entries[off..off + len], fg, bg);
      item.fsStateOld := 0;
      handled := true;
    }
  }
}
