/**
 The scrolling text screen of `src/bootvga/vga_buffer.rs`, and the unbounded page it is
 a window onto.
 */
module VgaText {
  import opened Common

  const HEIGHT: nat := 25
  const WIDTH: nat := 80
  const NEWLINE: Byte := 10

  datatype Cell = Cell(ch: Byte, color: Byte)

  type Row = seq<Cell>

  function Blank(color: Byte): Row { seq(WIDTH, _ => Cell(32, color)) }

  // ---------------------------------------------------------------- the unbounded page

  /** Rows written so far and the cursor; a column of WIDTH means a wrap is due before the next character. */
  datatype Page = Page(rows: seq<Row>, line: nat, column: nat)

  ghost predicate Formed(p: Page) {
    && p.line < |p.rows| && p.column <= WIDTH
    && forall r :: 0 <= r < |p.rows| ==> |p.rows[r]| == WIDTH
  }

  function NewLine(p: Page, color: Byte): Page {
    Page(if p.line + 1 < |p.rows| then p.rows else p.rows + [Blank(color)], p.line + 1, 0)
  }

  function Put(p: Page, c: Cell): Page
    requires Formed(p) && p.column < WIDTH
  {
    Page(p.rows[p.line := p.rows[p.line][p.column := c]], p.line, p.column + 1)
  }

  function WriteByte(p: Page, color: Byte, b: Byte): (r: Page)
    requires Formed(p)
    ensures Formed(r)
  {
    if b == NEWLINE then NewLine(p, color)
    else Put(if p.column >= WIDTH then NewLine(p, color) else p, Cell(b, color))
  }

  /** What `write_string` sends for a byte of the string. */
  function Printable(b: Byte): Byte { if 0x20 <= b <= 0x7e || b == NEWLINE then b else 0xfe }

  function WriteAll(p: Page, color: Byte, bytes: seq<Byte>): (r: Page)
    requires Formed(p)
    ensures Formed(r)
    decreases |bytes|
  {
    if bytes == [] then p else WriteAll(WriteByte(p, color, Printable(bytes[0])), color, bytes[1..])
  }

  /** The page as one tape of cells, row after row. */
  function Offset(p: Page): nat { p.line * WIDTH + p.column }

  function TapeAt(p: Page, i: nat): Cell
    requires Formed(p) && i < |p.rows| * WIDTH
  {
    p.rows[i / WIDTH][i % WIDTH]
  }

  /** A character lands at the cursor's place on the tape and nothing else on the tape changes. */
  lemma CharacterOnTape(p: Page, color: Byte, b: Byte)
    requires Formed(p) && b != NEWLINE
    ensures
      var r := WriteByte(p, color, b);
      && Offset(r) == Offset(p) + 1 && |r.rows| >= |p.rows| && Offset(p) < |r.rows| * WIDTH
      && TapeAt(r, Offset(p)) == Cell(b, color)
      && forall i :: 0 <= i < |p.rows| * WIDTH && i != Offset(p) ==> TapeAt(r, i) == TapeAt(p, i)
  {
    var r := WriteByte(p, color, b);
    var q := if p.column >= WIDTH then NewLine(p, color) else p;
    assert Offset(q) == Offset(p);
    assert Offset(p) / WIDTH == q.line && Offset(p) % WIDTH == q.column;
    forall i | 0 <= i < |p.rows| * WIDTH && i != Offset(p) ensures TapeAt(r, i) == TapeAt(p, i) {
      assert q.rows[i / WIDTH] == p.rows[i / WIDTH];
      assert i / WIDTH != q.line || i % WIDTH != q.column;
    }
  }

  /** A newline moves to the start of the next row of the tape, adding a blank row only at the end. */
  lemma NewlineOnTape(p: Page, color: Byte)
    requires Formed(p)
    ensures
      var r := WriteByte(p, color, NEWLINE);
      && Offset(r) == (p.line + 1) * WIDTH
      && |r.rows| == (if p.line + 1 == |p.rows| then |p.rows| + 1 else |p.rows|)
      && (forall i :: 0 <= i < |p.rows| * WIDTH ==> TapeAt(r, i) == TapeAt(p, i))
      && (forall i :: |p.rows| * WIDTH <= i < |r.rows| * WIDTH ==> TapeAt(r, i) == Cell(32, color))
  {
    var r := WriteByte(p, color, NEWLINE);
    forall i | |p.rows| * WIDTH <= i < |r.rows| * WIDTH ensures TapeAt(r, i) == Cell(32, color) {
      assert i / WIDTH == |p.rows| && r.rows[|p.rows|] == Blank(color);
    }
  }

  /** The tape holds the text from `at` on: a byte from 0x20 to 0x7e stands for itself, any other for 0xfe. */
  ghost predicate Holds(p: Page, at: nat, bytes: seq<Byte>, color: Byte)
    requires Formed(p)
  {
    && at + |bytes| <= |p.rows| * WIDTH
    && forall k :: 0 <= k < |bytes| ==>
         TapeAt(p, at + k) == Cell(if 0x20 <= bytes[k] <= 0x7e then bytes[k] else 0xfe, color)
  }

  /** The tape of `r` goes on that of `p`, and is the same up to where `p` ends but for [lo, hi). */
  ghost predicate SameTape(p: Page, r: Page, lo: nat, hi: nat)
    requires Formed(p) && Formed(r)
  {
    |r.rows| >= |p.rows| && forall i :: 0 <= i < |p.rows| * WIDTH && !(lo <= i < hi) ==> TapeAt(r, i) == TapeAt(p, i)
  }

  lemma HoldsStill(p: Page, r: Page, at: nat, bytes: seq<Byte>, color: Byte, lo: nat, hi: nat)
    requires Formed(p) && Formed(r) && SameTape(p, r, lo, hi) && Holds(p, at, bytes, color)
    requires at + |bytes| <= lo || hi <= at
    ensures Holds(r, at, bytes, color)
  {
    forall k | 0 <= k < |bytes|
      ensures TapeAt(r, at + k) == Cell(if 0x20 <= bytes[k] <= 0x7e then bytes[k] else 0xfe, color)
    {
      assert TapeAt(r, at + k) == TapeAt(p, at + k);
    }
  }

  lemma SameTapeTwice(p: Page, q: Page, r: Page, a: nat, b: nat, c: nat)
    requires Formed(p) && Formed(q) && Formed(r) && a <= b <= c
    requires SameTape(p, q, a, b) && SameTape(q, r, b, c)
    ensures SameTape(p, r, a, c)
  {
    forall i | 0 <= i < |p.rows| * WIDTH && !(a <= i < c) ensures TapeAt(r, i) == TapeAt(p, i) {
      assert TapeAt(q, i) == TapeAt(p, i);
    }
  }

  /** The first byte of a text, then the rest of it. */
  lemma HoldsCons(r: Page, at: nat, bytes: seq<Byte>, color: Byte)
    requires Formed(r) && bytes != []
    requires Holds(r, at, bytes[..1], color) && Holds(r, at + 1, bytes[1..], color)
    ensures Holds(r, at, bytes, color)
  {
    forall k | 0 <= k < |bytes|
      ensures TapeAt(r, at + k) == Cell(if 0x20 <= bytes[k] <= 0x7e then bytes[k] else 0xfe, color)
    {
      if k == 0 {
        assert bytes[..1][0] == bytes[0];
        assert TapeAt(r, at + 0) == TapeAt(r, at);
      } else {
        assert bytes[1..][k - 1] == bytes[k];
        assert TapeAt(r, at + 1 + (k - 1)) == TapeAt(r, at + k);
      }
    }
  }

  /** `r` is `p` after the text: contiguous on the tape from the cursor on, and nothing else changed. */
  ghost predicate Wrote(p: Page, r: Page, bytes: seq<Byte>, color: Byte) {
    && Formed(p) && Formed(r) && Offset(r) == Offset(p) + |bytes|
    && Holds(r, Offset(p), bytes, color) && SameTape(p, r, Offset(p), Offset(p) + |bytes|)
  }

  lemma WroteNothing(p: Page, color: Byte)
    requires Formed(p)
    ensures Wrote(p, p, [], color)
  {
  }

  lemma WroteOne(p: Page, color: Byte, b: Byte)
    requires Formed(p) && b != 10
    ensures Wrote(p, WriteByte(p, color, Printable(b)), [b], color)
  {
    CharacterOnTape(p, color, Printable(b));
  }

  lemma WroteThen(p: Page, q: Page, r: Page, bytes: seq<Byte>, color: Byte)
    requires bytes != [] && Wrote(p, q, [bytes[0]], color) && Wrote(q, r, bytes[1..], color)
    ensures Wrote(p, r, bytes, color)
  {
    var at := Offset(p);
    assert bytes[..1] == [bytes[0]];
    HoldsStill(q, r, at, bytes[..1], color, at + 1, at + |bytes|);
    HoldsCons(r, at, bytes, color);
    SameTapeTwice(p, q, r, at, at + 1, at + |bytes|);
  }

  /** Text without newlines is laid out contiguously on the tape, whatever rows it wraps over. */
  lemma {:induction false} TextOnTape(p: Page, color: Byte, bytes: seq<Byte>)
    requires Formed(p) && 10 !in bytes
    ensures Wrote(p, WriteAll(p, color, bytes), bytes, color)
    decreases |bytes|
  {
    if bytes == [] {
      WroteNothing(p, color);
    } else {
      var q := WriteByte(p, color, Printable(bytes[0]));
      WroteOne(p, color, bytes[0]);
      TextOnTape(q, color, bytes[1..]);
      WroteThen(p, q, WriteAll(q, color, bytes[1..]), bytes, color);
    }
  }

  lemma {:induction false} WriteConcat(p: Page, color: Byte, a: seq<Byte>, b: seq<Byte>)
    requires Formed(p)
    ensures WriteAll(p, color, a + b) == WriteAll(WriteAll(p, color, a), color, b)
    decreases |a|
  {
    if a == [] {
      assert a + b == b;
    } else {
      assert (a + b)[0] == a[0] && (a + b)[1..] == a[1..] + b;
      WriteConcat(WriteByte(p, color, Printable(a[0])), color, a[1..], b);
    }
  }

  /** The row of the last character of text `a`, written at the cursor. */
  function EndRow(p: Page, a: seq<Byte>): nat { if a == [] then p.line else (Offset(p) + |a| - 1) / 80 }

  /** That is the row the cursor is in after it. */
  lemma {:induction false} TextEndsInRow(p: Page, color: Byte, a: seq<Byte>)
    requires Formed(p) && 10 !in a
    ensures WriteAll(p, color, a).line == EndRow(p, a)
    decreases |a|
  {
    if a == [] {
    } else {
      var front, last := a[..|a| - 1], a[|a| - 1];
      assert a == front + [last];
      WriteConcat(p, color, front, [last]);
      var q := WriteAll(p, color, front);
      assert WriteAll(q, color, [last]) == WriteByte(q, color, Printable(last));
      TextOnTape(p, color, front);
      LastCharacterRow(q, color, Printable(last));
    }
  }

  lemma LastCharacterRow(q: Page, color: Byte, b: Byte)
    requires Formed(q) && b != 10
    ensures WriteByte(q, color, b).line == Offset(q) / 80
  {
  }

  /**
   Two lines of text: the first goes on where the cursor is, and the second begins in the
   first column of the row after the one the first ended in.
   */
  lemma LinesOnTape(p: Page, color: Byte, a: seq<Byte>, b: seq<Byte>)
    requires Formed(p) && 10 !in a && 10 !in b
    ensures
      var r := WriteAll(p, color, a + [10] + b);
      && Offset(r) == (EndRow(p, a) + 1) * 80 + |b|
      && Holds(r, Offset(p), a, color) && Holds(r, (EndRow(p, a) + 1) * 80, b, color)
  {
    var q, n, r := TwoLines(p, color, a, b);
    FirstLineStays(q, n, r, Offset(p), a, color, Offset(n), |b|);
  }

  /** The pages after the first line, after the newline, and after the second line. */
  lemma TwoLines(p: Page, color: Byte, a: seq<Byte>, b: seq<Byte>) returns (q: Page, n: Page, r: Page)
    requires Formed(p) && 10 !in a && 10 !in b
    ensures Formed(q) && Formed(n) && Formed(r) && r == WriteAll(p, color, a + [10] + b)
    ensures Offset(q) == Offset(p) + |a| && Holds(q, Offset(p), a, color)
    ensures Offset(n) == (EndRow(p, a) + 1) * 80 && Offset(q) <= Offset(n) && SameTape(q, n, Offset(n), Offset(n))
    ensures Offset(r) == Offset(n) + |b| && Holds(r, Offset(n), b, color) && SameTape(n, r, Offset(n), Offset(n) + |b|)
  {
    q := WriteAll(p, color, a);
    TextOnTape(p, color, a);
    TextEndsInRow(p, color, a);
    n := AfterNewline(q, color, EndRow(p, a));
    r := WriteAll(n, color, b);
    TextOnTape(n, color, b);
    WriteThree(p, color, a, b);
  }

  lemma AfterNewline(q: Page, color: Byte, row: nat) returns (n: Page)
    requires Formed(q) && q.line == row
    ensures n == WriteByte(q, color, 10)
    ensures Offset(n) == (row + 1) * 80 && Offset(q) <= Offset(n) && SameTape(q, n, Offset(n), Offset(n))
  {
    n := WriteByte(q, color, 10);
    NewlineKeeps(q, color);
  }

  lemma FirstLineStays(q: Page, n: Page, r: Page, at: nat, a: seq<Byte>, color: Byte, next: nat, len: nat)
    requires Formed(q) && Formed(n) && Formed(r) && Holds(q, at, a, color) && at + |a| <= next
    requires SameTape(q, n, next, next) && SameTape(n, r, next, next + len)
    ensures Holds(r, at, a, color)
  {
    HoldsStill(q, n, at, a, color, next, next);
    HoldsStill(n, r, at, a, color, next, next + len);
  }

  lemma WriteThree(p: Page, color: Byte, a: seq<Byte>, b: seq<Byte>)
    requires Formed(p)
    ensures WriteAll(p, color, a + [10] + b) == WriteAll(WriteByte(WriteAll(p, color, a), color, 10), color, b)
  {
    var q := WriteAll(p, color, a);
    WriteConcat(p, color, a + [10], b);
    WriteConcat(p, color, a, [10]);
    assert WriteAll(q, color, [10]) == WriteByte(q, color, 10);
  }

  lemma NewlineKeeps(q: Page, color: Byte)
    requires Formed(q)
    ensures
      var n := WriteByte(q, color, 10);
      Offset(n) == (q.line + 1) * 80 && Offset(q) <= Offset(n) && SameTape(q, n, Offset(n), Offset(n))
  {
    NewlineOnTape(q, color);
  }

  // ---------------------------------------------------------------- the 25-line screen

  class Writer {
    var row: nat
    var column: nat
    var color: Byte
    const chars: array2<Cell>
    ghost var scrolled: seq<Row>   // the rows that left the top of the screen

    ghost predicate Valid()
      reads this
    {
      && chars.Length0 == HEIGHT && chars.Length1 == WIDTH
      && row < HEIGHT && column <= WIDTH
      && forall r :: 0 <= r < |scrolled| ==> |scrolled[r]| == WIDTH
    }

    ghost function ScreenRow(r: nat): Row
      requires chars.Length0 == HEIGHT && chars.Length1 == WIDTH && r < HEIGHT
      reads chars
    {
      seq(WIDTH, c requires 0 <= c < WIDTH reads chars => chars[r, c])
    }

    ghost function Screen(): seq<Row>
      requires chars.Length0 == HEIGHT && chars.Length1 == WIDTH
      reads chars
    {
      seq(HEIGHT, r requires 0 <= r < HEIGHT reads chars => ScreenRow(r))
    }

    /** The page the screen is the last 25 rows of. */
    ghost function View(): Page
      requires Valid()
      reads this, chars
    {
      Page(scrolled + Screen(), |scrolled| + row, column)
    }

    /** `clear_row` */
    method ClearRow(r: nat)
      requires Valid() && r < HEIGHT
      modifies chars
      ensures Screen() == old(Screen())[r := Blank(color)]
    {
      for c := 0 to WIDTH
        invariant forall y, x :: 0 <= y < HEIGHT && 0 <= x < WIDTH ==>
          chars[y, x] == if y == r && x < c then Cell(32, color) else old(chars[y, x])
      {
        chars[r, c] := Cell(32, color);
      }
      assert ScreenRow(r) == Blank(color);
      assert forall y :: 0 <= y < HEIGHT && y != r ==> ScreenRow(y) == old(ScreenRow(y));
    }

    /** The copying loops of `shift_up`. */
    method CopyUp()
      requires Valid()
      modifies chars
      ensures Screen() == old(Screen())[1..] + [old(Screen())[HEIGHT - 1]]
    {
      for r := 1 to HEIGHT
        invariant forall y, x :: 0 <= y < HEIGHT && 0 <= x < WIDTH ==>
          chars[y, x] == if y < r - 1 then old(chars[y + 1, x]) else old(chars[y, x])
      {
        for c := 0 to WIDTH
          invariant forall y, x :: 0 <= y < HEIGHT && 0 <= x < WIDTH ==>
            chars[y, x] == if y < r - 1 || (y == r - 1 && x < c) then old(chars[y + 1, x]) else old(chars[y, x])
        {
          chars[r - 1, c] := chars[r, c];
        }
      }
      assert forall y :: 0 <= y < HEIGHT - 1 ==> ScreenRow(y) == old(ScreenRow(y + 1));
      assert ScreenRow(HEIGHT - 1) == old(ScreenRow(HEIGHT - 1));
    }

    /** `shift_up`: the top row leaves the screen and a blank one enters at the bottom. */
    method ShiftUp()
      requires Valid()
      modifies chars, this`scrolled
      ensures Valid() && scrolled == old(scrolled) + [old(Screen())[0]]
      ensures Screen() == old(Screen())[1..] + [Blank(color)]
      ensures scrolled + Screen() == old(scrolled + Screen()) + [Blank(color)]
    {
      ghost var before := Screen();
      CopyUp();
      ClearRow(HEIGHT - 1);
      scrolled := scrolled + [before[0]];
      assert before == [before[0]] + before[1..];
    }

    /** `new_line` */
    method NextLine()
      requires Valid()
      modifies this`row, this`column, this`scrolled, chars
      ensures Valid() && View() == NewLine(old(View()), color)
    {
      column := 0;
      if row < HEIGHT - 1 {
        row := row + 1;
      } else {
        ShiftUp();
      }
    }

    /** The `write` of one cell. */
    method PutCell(ch: Byte)
      requires Valid() && column < WIDTH
      modifies this`column, chars
      ensures Valid() && Formed(old(View())) && View() == Put(old(View()), Cell(ch, color))
    {
      ghost var p, before := View(), Screen();
      var c, col := Cell(ch, color), column;
      column := column + 1;
      chars[row, col] := c;
      ghost var changed := before[row][col := c];
      assert ScreenRow(row) == changed;
      assert forall y :: 0 <= y < HEIGHT && y != row ==> ScreenRow(y) == before[y];
      assert Screen() == before[row := changed];
      assert p.rows[p.line] == before[row];
      assert scrolled + Screen() == p.rows[p.line := changed];
    }

    /** `write_byte`; after a wrap the row is always on the screen, so the source's second scroll never happens. */
    method WriteOne(b: Byte)
      requires Valid()
      modifies this`row, this`column, this`scrolled, chars
      ensures Valid() && Formed(old(View())) && View() == WriteByte(old(View()), color, b)
    {
      if b == NEWLINE {
        NextLine();
      } else {
        if column >= WIDTH {
          NextLine();
        }
        assert row < HEIGHT;
        PutCell(b);
      }
    }

    /** `write_string`: whatever is printed, the rows scrolled off and the screen are the page it would fill. */
    method WriteString(bytes: seq<Byte>)
      requires Valid()
      modifies this`row, this`column, this`scrolled, chars
      ensures Valid() && Formed(old(View())) && View() == WriteAll(old(View()), color, bytes)
    {
      assert bytes[0..] == bytes;
      for i := 0 to |bytes|
        invariant Valid() && Formed(View()) && Formed(old(View()))
        invariant WriteAll(View(), color, bytes[i..]) == WriteAll(old(View()), color, bytes)
      {
        assert bytes[i..][0] == bytes[i] && bytes[i..][1..] == bytes[i + 1..];
        if 0x20 <= bytes[i] <= 0x7e || bytes[i] == NEWLINE {
          WriteOne(bytes[i]);
        } else {
          WriteOne(0xfe);
        }
      }
    }

    /** `set_position` */
    method SetPosition(r: nat, c: nat)
      requires Valid()
      modifies this`row, this`column
      ensures Valid()
      ensures View() == if r < HEIGHT && c < WIDTH then old(View()).(line := |scrolled| + r, column := c) else old(View())
    {
      if r < HEIGHT && c < WIDTH {
        row, column := r, c;
      }
    }

    /** `clear_screen` */
    method ClearScreen()
      requires Valid()
      modifies this`row, this`column, chars
      ensures Valid() && row == 0 && column == 0
      ensures |Screen()| == 25
      ensures forall r, c :: 0 <= r < 25 && 0 <= c < 80 ==> Screen()[r][c] == Cell(32, color)
    {
      for r := 0 to HEIGHT
        invariant Valid()
        invariant forall k :: 0 <= k < r ==> Screen()[k] == Blank(color)
      {
        ClearRow(r);
      }
      row, column := 0, 0;
    }
  }
}
