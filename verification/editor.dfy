// The TGO editor: a text and a cursor, kept in a fixed buffer that is shifted in place.
module Editor {
  type Byte = x: int | 0 <= x < 256

  const NEWLINE: Byte := 10
  const CAPACITY := 4096

  datatype Scan = NoScan | Esc | Left | Right | Up | Down | OtherScan

  /** EFI_INPUT_KEY */
  datatype Key = Key(scan: Scan, unicode: nat)

  /** The text, and the cursor in it. */
  datatype Ed = Ed(text: seq<Byte>, cursor: nat)

  predicate ValidEd(e: Ed) {
    e.cursor <= |e.text| <= 4095
  }

  // ---------------------------------------------------------------------------
  // Lines

  /** Where the line of position p begins. */
  function LineStart(t: seq<Byte>, p: nat): (s: nat)
    requires p <= |t|
    ensures s <= p && (s > 0 ==> t[s - 1] == NEWLINE) && forall k :: s <= k < p ==> t[k] != NEWLINE
  {
    if p == 0 || t[p - 1] == NEWLINE then p else LineStart(t, p - 1)
  }

  /** Where it ends. */
  function LineEnd(t: seq<Byte>, p: nat): (s: nat)
    requires p <= |t|
    ensures p <= s <= |t| && (s < |t| ==> t[s] == NEWLINE) && forall k :: p <= k < s ==> t[k] != NEWLINE
    decreases |t| - p
  {
    if p == |t| || t[p] == NEWLINE then p else LineEnd(t, p + 1)
  }

  function Min(a: nat, b: nat): nat { if a < b then a else b }

  /** Number of the line of position p, from 0. */
  function Row(t: seq<Byte>, p: nat): nat
    requires p <= |t|
  {
    if p == 0 then 0 else Row(t, p - 1) + if t[p - 1] == NEWLINE then 1 else 0
  }

  function Col(t: seq<Byte>, p: nat): nat
    requires p <= |t|
  {
    p - LineStart(t, p)
  }

  /** Length of the line of position p. */
  function LineLen(t: seq<Byte>, p: nat): nat
    requires p <= |t|
  {
    LineEnd(t, p) - LineStart(t, p)
  }

  // ---------------------------------------------------------------------------
  // Keys

  function MoveUp(e: Ed): Ed
    requires ValidEd(e)
  {
    var start := LineStart(e.text, e.cursor);
    if start == 0 then e
    else
      var prevEnd := start - 1;
      var prevStart := LineStart(e.text, prevEnd);
      e.(cursor := prevStart + Min(e.cursor - start, prevEnd - prevStart))
  }

  function MoveDown(e: Ed): Ed
    requires ValidEd(e)
  {
    var end := LineEnd(e.text, e.cursor);
    if end == |e.text| then e
    else
      var nextEnd := LineEnd(e.text, end + 1);
      e.(cursor := end + 1 + Min(Col(e.text, e.cursor), nextEnd - (end + 1)))
  }

  function Insert(e: Ed, c: Byte): Ed
    requires ValidEd(e)
  {
    Ed(e.text[..e.cursor] + [c] + e.text[e.cursor..], e.cursor + 1)
  }

  function Backspace(e: Ed): Ed
    requires ValidEd(e) && e.cursor > 0
  {
    Ed(e.text[..e.cursor - 1] + e.text[e.cursor..], e.cursor - 1)
  }

  /** The byte a character is stored as. */
  function Stored(unicode: nat): Byte {
    if unicode == 13 then NEWLINE else unicode % 256
  }

  const LEFT := Key(Left, 0)
  const RIGHT := Key(Right, 0)
  const UP := Key(Up, 0)
  const DOWN := Key(Down, 0)
  const BACKSPACE := Key(NoScan, 8)
  const ENTER := Key(NoScan, 13)

  /** One turn of the key loop. */
  function Press(e: Ed, k: Key): Ed
    requires ValidEd(e)
  {
    if k.scan == Left && e.cursor > 0 then e.(cursor := e.cursor - 1)
    else if k.scan == Right && e.cursor < |e.text| then e.(cursor := e.cursor + 1)
    else if k.scan == Up then MoveUp(e)
    else if k.scan == Down then MoveDown(e)
    else if k.unicode == 8 && e.cursor > 0 then Backspace(e)
    else if k.unicode != 0 && |e.text| < 4094 then Insert(e, Stored(k.unicode))
    else e
  }

  /** The keys up to the first escape. */
  function PressAll(e: Ed, ks: seq<Key>): Ed
    requires ValidEd(e)
    decreases |ks|
  {
    if ks == [] || ks[0].scan == Esc then e
    else
      PressValid(e, ks[0]);
      PressAll(Press(e, ks[0]), ks[1..])
  }

  /** The cursor stays in the text, and the text in the buffer. */
  lemma PressValid(e: Ed, k: Key)
    requires ValidEd(e)
    ensures ValidEd(Press(e, k))
  {
  }

  lemma {:induction false} PressAllValid(e: Ed, ks: seq<Key>)
    requires ValidEd(e)
    ensures ValidEd(PressAll(e, ks))
    decreases |ks|
  {
    if ks != [] && ks[0].scan != Esc {
      PressValid(e, ks[0]);
      PressAllValid(Press(e, ks[0]), ks[1..]);
    }
  }

  // ---------------------------------------------------------------------------
  // Laws

  /** Inserting a character and taking it back changes nothing. */
  lemma InsertBackspace(e: Ed, c: Byte)
    requires ValidEd(e) && |e.text| < 4094
    ensures Backspace(Insert(e, c)) == e
  {
    var r := Insert(e, c);
    assert r.text[..e.cursor] == e.text[..e.cursor] && r.text[e.cursor + 1..] == e.text[e.cursor..];
  }

  /** The backspace key removes the character before the cursor; at the start of the text it
      is stored like any other. */
  lemma BackspaceExact(e: Ed)
    requires ValidEd(e) && |e.text| < 4094
    ensures |Press(e, BACKSPACE).text| < |e.text| <==> e.cursor > 0
    ensures e.cursor == 0 ==> Press(e, BACKSPACE).text == [8] + e.text
  {
    if e.cursor == 0 { assert e.text[..0] + [8] + e.text[0..] == [8] + e.text; }
  }

  /** Left and Right move the cursor by one character, as far as the text goes. */
  lemma LeftRight(e: Ed)
    requires ValidEd(e)
    ensures Press(e, LEFT) == e.(cursor := if e.cursor == 0 then 0 else e.cursor - 1)
    ensures Press(Press(e, LEFT), RIGHT) == e <==> e.cursor > 0 || e.text == []
    ensures Press(Press(e, RIGHT), LEFT) == e <==> e.cursor < |e.text| || e.text == []
  {
  }

  /** A character that is typed stands where the cursor was, and the cursor behind it; the rest
      of the text is as before.  Enter leaves a line feed. */
  lemma TypedExact(e: Ed, u: nat)
    requires ValidEd(e) && |e.text| < 4094 && 0 < u < 256 && u != 8
    ensures var r := Press(e, Key(NoScan, u));
            && r.cursor == e.cursor + 1 && |r.text| == |e.text| + 1
            && r.text[e.cursor] == (if u == 13 then NEWLINE else u)
            && r.text[..e.cursor] == e.text[..e.cursor] && r.text[r.cursor..] == e.text[e.cursor..]
  {
  }

  lemma {:induction false} SameRows(t: seq<Byte>, t': seq<Byte>, p: nat)
    requires p <= |t| && p <= |t'| && t[..p] == t'[..p]
    ensures Row(t', p) == Row(t, p)
    decreases p
  {
    if p > 0 {
      assert t[..p - 1] == t[..p][..p - 1] && t'[..p - 1] == t'[..p][..p - 1];
      assert t[..p][p - 1] == t'[..p][p - 1];
      SameRows(t, t', p - 1);
    }
  }

  /** Enter opens a new line: the cursor is at its beginning, one row further down. */
  lemma EnterLands(e: Ed)
    requires ValidEd(e) && |e.text| < 4094
    ensures var r := Press(e, ENTER);
            r.cursor <= |r.text| && Col(r.text, r.cursor) == 0 && Row(r.text, r.cursor) == Row(e.text, e.cursor) + 1
  {
    TypedExact(e, 13);
    SameRows(e.text, Press(e, ENTER).text, e.cursor);
  }

  lemma {:induction false} RowWithin(t: seq<Byte>, s: nat, p: nat)
    requires s <= p <= |t| && forall k :: s <= k < p ==> t[k] != NEWLINE
    ensures Row(t, s) == Row(t, p)
  {
    if s < p { RowWithin(t, s, p - 1); }
  }

  lemma {:induction false} StartIs(t: seq<Byte>, s: nat, p: nat)
    requires s <= p <= |t| && (s > 0 ==> t[s - 1] == NEWLINE) && forall k :: s <= k < p ==> t[k] != NEWLINE
    ensures LineStart(t, p) == s
  {
    if s < p { StartIs(t, s, p - 1); }
  }

  lemma {:induction false} EndIs(t: seq<Byte>, p: nat, s: nat)
    requires p <= s <= |t| && (s < |t| ==> t[s] == NEWLINE) && forall k :: p <= k < s ==> t[k] != NEWLINE
    ensures LineEnd(t, p) == s
    decreases s - p
  {
    if p < s { EndIs(t, p + 1, s); }
  }

  /** Up goes to the line above, to the same column or, if that line is shorter, to its end;
      in the first line it does nothing. */
  lemma UpLands(e: Ed)
    requires ValidEd(e)
    ensures var r := Press(e, UP);
            if Row(e.text, e.cursor) == 0 then r == e
            else r.text == e.text && r.cursor <= |e.text| && Row(e.text, r.cursor) == Row(e.text, e.cursor) - 1
                 && Col(e.text, r.cursor) == Min(Col(e.text, e.cursor), LineLen(e.text, r.cursor))
  {
    var t, start := e.text, LineStart(e.text, e.cursor);
    RowWithin(t, start, e.cursor);
    if start > 0 {
      var r, pe := MoveUp(e), start - 1;
      var ps := LineStart(t, pe);
      assert Row(t, start) == Row(t, pe) + 1;
      RowWithin(t, ps, pe);
      RowWithin(t, ps, r.cursor);
      StartIs(t, ps, r.cursor);
      EndIs(t, r.cursor, pe);
    }
  }

  lemma {:induction false} LastRow(t: seq<Byte>, p: nat)
    requires p <= |t|
    ensures Row(t, p) <= Row(t, |t|)
    ensures LineEnd(t, p) == |t| <==> Row(t, p) == Row(t, |t|)
    decreases |t| - p
  {
    if p < |t| { LastRow(t, p + 1); }
  }

  /** Down goes to the line below in the same way; in the last line it does nothing. */
  lemma DownLands(e: Ed)
    requires ValidEd(e)
    ensures var r := Press(e, DOWN);
            if Row(e.text, e.cursor) == Row(e.text, |e.text|) then r == e
            else r.text == e.text && r.cursor <= |e.text| && Row(e.text, r.cursor) == Row(e.text, e.cursor) + 1
                 && Col(e.text, r.cursor) == Min(Col(e.text, e.cursor), LineLen(e.text, r.cursor))
  {
    var t, end := e.text, LineEnd(e.text, e.cursor);
    LastRow(t, e.cursor);
    RowWithin(t, e.cursor, end);
    if end < |t| {
      var r, ns := MoveDown(e), end + 1;
      var ne := LineEnd(t, ns);
      assert Row(t, ns) == Row(t, end) + 1;
      RowWithin(t, ns, r.cursor);
      StartIs(t, ns, r.cursor);
      EndIs(t, r.cursor, ne);
    }
  }

  /** Where Up goes when it moves, and what Down needs to know there. */
  lemma UpTo(e: Ed) returns (s: nat, end: nat)
    requires ValidEd(e) && Row(e.text, e.cursor) > 0
    ensures end + 1 == LineStart(e.text, e.cursor) && s == LineStart(e.text, end)
    ensures MoveUp(e) == Ed(e.text, s + Min(e.cursor - (end + 1), end - s))
    ensures LineStart(e.text, MoveUp(e).cursor) == s && LineEnd(e.text, MoveUp(e).cursor) == end
  {
    var start := LineStart(e.text, e.cursor);
    RowWithin(e.text, start, e.cursor);
    end := start - 1;
    s := LineStart(e.text, end);
    EndIs(e.text, MoveUp(e).cursor, end);
    StartIs(e.text, s, MoveUp(e).cursor);
  }

  lemma KeysMove(e: Ed)
    requires ValidEd(e)
    ensures Press(e, UP) == MoveUp(e) && Press(e, DOWN) == MoveDown(e)
  {
  }

  /** Up and then Down comes back exactly if the cursor did not have to move left. */
  lemma UpDown(e: Ed)
    requires ValidEd(e) && Row(e.text, e.cursor) > 0
    ensures Press(Press(e, UP), DOWN) == e <==> Col(e.text, e.cursor) <= LineLen(e.text, Press(e, UP).cursor)
  {
    KeysMove(e);
    KeysMove(MoveUp(e));
    BackDown(e);
  }

  lemma BackDown(e: Ed)
    requires ValidEd(e) && Row(e.text, e.cursor) > 0
    ensures MoveDown(MoveUp(e)) == e <==> Col(e.text, e.cursor) <= LineLen(e.text, MoveUp(e).cursor)
  {
    var s, end := UpTo(e);
    DownFrom(MoveUp(e), s, end);
    NoBreak(e.text, end + 1, e.cursor);
  }

  lemma NoBreak(t: seq<Byte>, s: nat, p: nat)
    requires s <= p <= |t| && forall k :: s <= k < p ==> t[k] != NEWLINE
    ensures LineEnd(t, s) >= p
  {
  }

  lemma DownFrom(r: Ed, s: nat, end: nat)
    requires ValidEd(r) && s <= r.cursor <= end < |r.text| && LineStart(r.text, r.cursor) == s && LineEnd(r.text, r.cursor) == end
    ensures MoveDown(r) == Ed(r.text, end + 1 + Min(r.cursor - s, LineEnd(r.text, end + 1) - (end + 1)))
  {
  }

  lemma UpFrom(r: Ed, s: nat, end: nat)
    requires ValidEd(r) && s <= end < |r.text| && LineStart(r.text, r.cursor) == end + 1 && LineStart(r.text, end) == s
    ensures MoveUp(r) == Ed(r.text, s + Min(r.cursor - (end + 1), end - s))
  {
  }

  /** Down and then Up likewise. */
  lemma DownUp(e: Ed)
    requires ValidEd(e) && Row(e.text, e.cursor) < Row(e.text, |e.text|)
    ensures Press(Press(e, DOWN), UP) == e <==> Col(e.text, e.cursor) <= LineLen(e.text, Press(e, DOWN).cursor)
  {
    KeysMove(e);
    KeysMove(MoveDown(e));
    BackUp(e);
  }

  lemma BackUp(e: Ed)
    requires ValidEd(e) && Row(e.text, e.cursor) < Row(e.text, |e.text|)
    ensures MoveUp(MoveDown(e)) == e <==> Col(e.text, e.cursor) <= LineLen(e.text, MoveDown(e).cursor)
  {
    var t, end := e.text, LineEnd(e.text, e.cursor);
    LastRow(t, e.cursor);
    KeysMove(e);
    DownLands(e);
    var r := MoveDown(e);
    var s := LineStart(t, e.cursor);
    StartIs(t, end + 1, r.cursor);
    StartIs(t, s, end);
    UpFrom(r, s, end);
  }

  // ---------------------------------------------------------------------------
  // The editor as it is written

  class Tgo {
    const buffer: array<Byte>
    var size: nat
    var cursor: nat

    constructor (file: seq<Byte>)
      requires |file| <= 4095
      ensures Valid() && fresh(buffer) && View() == Ed(file, |file|)
    {
      buffer := new Byte[CAPACITY](i => if 0 <= i < |file| then file[i] else 0);
      size, cursor := |file|, |file|;
      new;
      assert buffer[..size] == file;
    }

    predicate Valid()
      reads this
    {
      buffer.Length == CAPACITY && cursor <= size <= 4095
    }

    ghost function View(): Ed
      reads this, buffer
      requires Valid()
    {
      Ed(buffer[..size], cursor)
    }

    /** Back from p to the start of its line. */
    method FindLineStart(p: nat) returns (s: nat)
      requires Valid() && p <= size
      ensures s == LineStart(buffer[..size], p)
    {
      s := p;
      while s > 0 && buffer[s - 1] != NEWLINE
        invariant s <= p && LineStart(buffer[..size], s) == LineStart(buffer[..size], p)
      {
        s := s - 1;
      }
    }

    method FindLineEnd(p: nat) returns (s: nat)
      requires Valid() && p <= size
      ensures s == LineEnd(buffer[..size], p)
    {
      s := p;
      while s < size && buffer[s] != NEWLINE
        invariant s <= size && LineEnd(buffer[..size], s) == LineEnd(buffer[..size], p)
      {
        s := s + 1;
      }
    }

    method UpKey()
      requires Valid()
      modifies this`cursor
      ensures Valid() && View() == MoveUp(old(View()))
    {
      var lineStart := FindLineStart(cursor);
      if lineStart > 0 {
        var col, prevEnd := cursor - lineStart, lineStart - 1;
        var prevStart := FindLineStart(prevEnd);
        cursor := prevStart + Min(col, prevEnd - prevStart);
      }
    }

    method DownKey()
      requires Valid()
      modifies this`cursor
      ensures Valid() && View() == MoveDown(old(View()))
    {
      var lineEnd := FindLineEnd(cursor);
      if lineEnd < size {
        var lineStart := FindLineStart(cursor);
        var col, nextStart := cursor - lineStart, lineEnd + 1;
        var nextEnd := FindLineEnd(nextStart);
        cursor := nextStart + Min(col, nextEnd - nextStart);
      }
    }

    method BackspaceKey()
      requires Valid() && cursor > 0
      modifies this`cursor, this`size, buffer
      ensures Valid() && View() == Backspace(old(View()))
    {
      var i := cursor - 1;
      while i < size
        invariant Valid() && size == old(size) && cursor == old(cursor) && cursor - 1 <= i <= size
        invariant forall k :: 0 <= k < size ==> buffer[k] == if cursor - 1 <= k < i then old(buffer[k + 1]) else old(buffer[k])
        invariant buffer[size] == old(buffer[size])
      {
        buffer[i] := buffer[i + 1];
        i := i + 1;
      }
      size := size - 1;
      cursor := cursor - 1;
    }

    method InsertKey(c: Byte)
      requires Valid() && size < 4094
      modifies this`cursor, this`size, buffer
      ensures Valid() && View() == Insert(old(View()), c)
    {
      MakeRoom();
      buffer[cursor] := c;
      cursor := cursor + 1;
      size := size + 1;
    }

    /** Everything from the cursor on moves up by one. */
    method MakeRoom()
      requires Valid() && size < 4094
      modifies buffer
      ensures forall k :: 0 <= k <= size ==> buffer[k] == if cursor < k then old(buffer[k - 1]) else old(buffer[k])
    {
      var i := size;
      while i > cursor
        invariant cursor <= i <= size
        invariant forall k :: 0 <= k <= size ==> buffer[k] == if i < k then old(buffer[k - 1]) else old(buffer[k])
      {
        buffer[i] := buffer[i - 1];
        i := i - 1;
      }
    }

    /** One turn of the key loop. */
    method HandleKey(k: Key)
      requires Valid()
      modifies this`cursor, this`size, buffer
      ensures Valid() && View() == Press(old(View()), k)
    {
      if k.scan == Left && cursor > 0 {
        cursor := cursor - 1;
      } else if k.scan == Right && cursor < size {
        cursor := cursor + 1;
      } else if k.scan == Up {
        UpKey();
      } else if k.scan == Down {
        DownKey();
      } else if k.unicode == 8 && cursor > 0 {
        BackspaceKey();
      } else if k.unicode != 0 {
        if size < 4094 { InsertKey(if k.unicode == 13 then NEWLINE else k.unicode % 256); }
      }
    }

    /** The key loop, up to the escape key; what is left in the buffer goes to the file. */
    method Edit(keys: seq<Key>) returns (saved: seq<Byte>)
      requires Valid()
      modifies this`cursor, this`size, buffer
      ensures Valid() && View() == PressAll(old(View()), keys) && saved == View().text
    {
      var i := 0;
      while i < |keys| && keys[i].scan != Esc
        invariant 0 <= i <= |keys| && Valid()
        invariant PressAll(View(), keys[i..]) == PressAll(old(View()), keys)
      {
        HandleKey(keys[i]);
        i := i + 1;
      }
      saved := buffer[..size];
    }
  }
}
