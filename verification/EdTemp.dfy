/** The paged temporary file of the line editor, src/cmd/ed.c (`putline`, `getline`, `getblock`).

    Lines live in a file of 512-byte blocks behind two buffers: `obuff` for the block being
    filled, `ibuff` for a block being read.  A handle names a byte address in units of two,
    with its lowest bit free for a mark.
 */
module EdTemp {
  import opened Basics
  import opened Words

  datatype Mode = READ | WRITE

  const BLOCK := 512
  const NUL := '\0'

  /** The line in a buffer: what precedes the first NUL or newline. */
  function LineOf(s: string): string
  {
    if s == [] || s[0] == NUL || s[0] == '\n' then [] else [s[0]] + LineOf(s[1..])
  }

  /** `linebuf` holds a terminated line of at most 511 characters. */
  ghost predicate Terminated(s: string)
  {
    |LineOf(s)| < |s| && |LineOf(s)| < BLOCK
  }

  lemma {:induction false} LineChars(s: string, k: nat)
    requires k < |s| && k <= |LineOf(s)|
    ensures k < |LineOf(s)| ==> LineOf(s)[k] == s[k]
    ensures k < |LineOf(s)| <==> s[k] != NUL && s[k] != '\n'
    decreases k
  {
    if k > 0 { LineChars(s[1..], k - 1); }
  }

  lemma {:induction false} NoNul(s: string)
    ensures forall k | 0 <= k < |LineOf(s)| :: LineOf(s)[k] != NUL
  {
    if LineOf(s) != [] { NoNul(s[1..]); }
  }

  // ---- handles ----

  /** The handle without its mark bit: `tl & ~01`. */
  function Unmark(tl: nat): nat { tl - tl % 2 }

  function BlockOf(tl: nat): nat { And(Shr(tl, 8), 255) }

  function OffsetOf(tl: nat): nat { And(Shl(tl, 1), 508) }

  /** Block and offset are the byte address 2*tl, whatever the mark bit. */
  lemma AddressOf(tl: nat)
    requires tl < 0x1_0000
    ensures BlockOf(tl) < 256 && OffsetOf(tl) <= 508 && OffsetOf(tl) % 4 == 0
    ensures 2 * Unmark(tl) == BLOCK * BlockOf(tl) + OffsetOf(tl)
  {
    hide BlockOf, OffsetOf;
    BlockBits(tl);
    OffsetBits(tl);
    assert tl == tl / 256 * 256 + tl % 256;
    DivModUnique(2 * tl, 512, tl / 256, 2 * (tl % 256));
    assert tl == tl / 2 * 2 + tl % 2;
    DivModUnique(2 * tl, 4, tl / 2, 2 * (tl % 2));
  }

  lemma BlockBits(tl: nat)
    requires tl < 0x1_0000
    ensures BlockOf(tl) == tl / 256
  {
    hide And, Shr, Low, Shl;
    Power8();
    SplitBy(tl, 8, 256);
    AndMask(Shr(tl, 8), 0, 8);
    ShiftByZero(Shr(tl, 8));
    ShiftByZero(1);
    SplitBy(Shr(tl, 8), 8, 256);
  }

  lemma OffsetBits(tl: nat)
    ensures OffsetOf(tl) == 2 * tl % 512 - 2 * tl % 4
  {
    hide And, Shr, Low, Shl;
    var x := Shl(tl, 1);
    Power1();
    Power9();
    Power2();
    ShlBy(tl, 1, 2);
    AndMask(x, 2, 9);
    SplitBy(x, 9, 512);
    SplitBy(x, 2, 4);
    DivModUnique(x, 512, Shr(x, 9), Low(x, 9));
    DivModUnique(x, 4, Shr(x, 2), Low(x, 2));
  }

  /** `tl & ~0377` */
  function BlockStart(tl: nat): nat { tl - tl % 256 }

  lemma StartsBlock(tl: nat)
    requires tl < 0x1_0000
    ensures BlockStart(tl) == 256 * BlockOf(tl) && BlockStart(tl) / 256 == BlockOf(tl) && BlockStart(tl) % 256 == 0
  {
    hide BlockOf;
    BlockBits(tl);
    assert tl == 256 * (tl / 256) + tl % 256;
    DivModUnique(BlockStart(tl), 256, tl / 256, 0);
  }

  /** `((n + 03) >> 1) & 077776` */
  function Room(n: nat): nat { And(Shr(n + 3, 1), 0x7ffe) }

  /** Room for n bytes, in units of two: rounded up to a multiple of four bytes. */
  lemma RoomRounds(n: nat)
    requires n <= BLOCK
    ensures Room(n) % 2 == 0 && n <= 2 * Room(n) <= n + 3 && 2 * Room(n) % 4 == 0
  {
    hide And, Shr, Low, Shl;
    var m := Shr(n + 3, 1);
    Power1();
    Power15();
    SplitBy(n + 3, 1, 2);
    AndMask(m, 1, 15);
    SplitBy(m, 1, 2);
    SplitBy(m, 15, 0x8000);
  }

  ghost predicate WrittenIn(image: string, base: nat, lp: nat, line: string, before: string)
  {
    && |before| <= |image| && base + lp <= |image| && lp <= |line|
    && (forall a {:trigger image[a]} | 0 <= a < base && a < |before| :: image[a] == before[a])
    && image[base..base + lp] == line[..lp]
  }

  lemma WriteNone(image: string, base: nat, line: string, before: string, more: string)
    requires base <= |image| && image == before + more
    ensures WrittenIn(image, base, 0, line, before)
  {
    assert image[base..base] == line[..0];
  }

  lemma WriteNext(was: string, image: string, base: nat, lp: nat, line: string, before: string, c: char)
    requires WrittenIn(was, base, lp, line, before) && base + lp < |was| && image == was[base + lp := c]
    ensures WrittenIn(image, base, lp, line, before)
    ensures lp < |line| && c == line[lp] ==> WrittenIn(image, base, lp + 1, line, before)
    ensures image[base + lp] == c
  {
    assert image[base..base + lp] == was[base..base + lp];
    if lp < |line| && c == line[lp] {
      assert image[base..base + (lp + 1)] == image[base..base + lp] + [c] == line[..lp + 1];
    }
  }

  ghost predicate StoredIn(image: string, h: nat, line: string)
  {
    && 2 * h + |line| < |image| && image[2 * h..2 * h + |line|] == line && image[2 * h + |line|] == NUL
    && forall k | 0 <= k < |line| :: line[k] != NUL
  }

  ghost predicate LinesIn(image: string, store: map<nat, string>, tline: nat)
  {
    && (forall h | h in store :: h % 2 == 0 && StoredIn(image, h, store[h]) && 2 * h + |store[h]| < 2 * tline)
    && (forall g, h | g in store && h in store && g < h :: 2 * g + |store[g]| < 2 * h)
  }

  /** The write position stays in the block being filled, or at its end. */
  lemma NextPlace(tline: nat, oblock: int, n: nat, room: nat)
    requires tline % 2 == 0 && room % 2 == 0 && n + 1 <= 2 * room <= n + 4 && 2 * room % 4 == 0 && 0 <= oblock < 255
    requires 512 * oblock <= 2 * tline + n < 512 * (oblock + 1)
    ensures (tline + room) % 2 == 0 && tline + room < 0x1_0000 && 2 * tline + n < 2 * (tline + room)
    ensures 512 * oblock <= 2 * (tline + room) <= 512 * (oblock + 1)
  {
    var t, r := tline / 2, room / 2;
    assert tline == 2 * t && room == 2 * r;
    assert 4 * (t + r) <= 512 * (oblock + 1) + 3;
  }

  /** A line stored at the write position, which then moves past it. */
  lemma AddLine(image: string, store: map<nat, string>, tline: nat, line: string, after: nat)
    requires LinesIn(image, store, tline) && StoredIn(image, tline, line) && tline % 2 == 0 && 2 * tline + |line| < 2 * after
    ensures LinesIn(image, store[tline := line], after) && tline !in store
  {
    hide StoredIn;
  }

  class TempFile {
    const ibuff: array<char>
    const obuff: array<char>
    var iblock: int
    var oblock: int
    var ichanged: bool
    var nleft: nat
    var tline: nat
    var disk: map<int, string>
    ghost var image: string                // the whole file as it would read back
    ghost var store: map<nat, string>      // the lines put so far, by handle

    /** The buffers and the disk hold the image. */
    ghost predicate Paged()
      reads this`iblock, this`oblock, this`ichanged, this`disk, this`image, ibuff, obuff
    {
      && ibuff != obuff && ibuff.Length == BLOCK && obuff.Length == BLOCK
      && -1 <= iblock && -1 <= oblock < 255 && !ichanged
      && |image| == BLOCK * (oblock + 1)
      && (oblock >= 0 ==> obuff[..] == image[BLOCK * oblock..])
      && (forall b | 0 <= b < oblock :: b in disk && disk[b] == image[BLOCK * b..BLOCK * (b + 1)])
      && (iblock >= 0 ==> iblock < oblock && ibuff[..] == image[BLOCK * iblock..BLOCK * (iblock + 1)])
    }

    ghost predicate Stored(h: nat, line: string)
      reads this`image
    {
      StoredIn(image, h, line)
    }

    /** Every stored line is in the image, and no two overlap. */
    ghost predicate Lines()
      reads this`image, this`store, this`tline
    {
      LinesIn(image, store, tline)
    }

    ghost predicate Valid()
      reads this, ibuff, obuff
    {
      && Paged() && Lines()
      && tline % 2 == 0 && tline < 0x1_0000
      && if oblock == -1 then tline == 2 else BLOCK * oblock <= 2 * tline <= BLOCK * (oblock + 1)
    }

    constructor ()
      ensures Valid() && fresh(ibuff) && fresh(obuff) && store == map[] && tline == 2
    {
      ibuff := new char[BLOCK](_ => NUL);
      obuff := new char[BLOCK](_ => NUL);
      iblock, oblock, ichanged, nleft, tline := -1, -1, false, 0, 2;
      disk, image, store := map[], [], map[];
    }

    method BlkWrite(b: int, buf: array<char>)
      modifies this`disk
      ensures disk == old(disk)[b := buf[..]]
    {
      disk := disk[b := buf[..]];
    }

    method BlkRead(b: int, buf: array<char>)
      requires b in disk && |disk[b]| == buf.Length
      modifies buf
      ensures buf[..] == disk[b]
    {
      forall k | 0 <= k < buf.Length { buf[k] := disk[b][k]; }
    }

    /** `getblock`: a pointer into the buffer that holds the block of a handle; None when the
        temporary file is full.  Reading wants a block with data, writing the block being
        filled or the next one, whose old contents are whatever `obuff` held before. */
    method GetBlock(atl: nat, iof: Mode) returns (p: Option<(array<char>, nat)>)
      requires Paged() && atl < 0x1_0000
      requires iof == READ ==> BlockOf(atl) <= oblock
      requires iof == WRITE ==> oblock <= BlockOf(atl) <= oblock + 1
      modifies this`iblock, this`oblock, this`ichanged, this`nleft, this`disk, this`image, ibuff
      ensures Paged() && (p.None? <==> BlockOf(atl) >= 255)
      ensures p.None? ==> image == old(image) && oblock == old(oblock)
      ensures p.Some? ==> p.value.1 == OffsetOf(atl) && nleft == BLOCK - OffsetOf(atl)
      ensures p.Some? && iof == READ ==>
        && image == old(image) && oblock == old(oblock) && p.value.0.Length == BLOCK
        && p.value.0[..] == image[BLOCK * BlockOf(atl)..BLOCK * (BlockOf(atl) + 1)]
      ensures p.Some? && iof == WRITE ==>
        && p.value.0 == obuff && oblock == BlockOf(atl)
        && image == (if oblock == old(oblock) then old(image) else old(image) + obuff[..])
    {
      hide And, Shr, Shl;
      AddressOf(atl);
      var bno, off := BlockOf(atl), OffsetOf(atl);
      if bno >= 255 {
        return None;
      }
      nleft := BLOCK - off;
      if bno == iblock {
        ichanged := ichanged || iof == WRITE;
        return Some((ibuff, off));
      }
      if bno == oblock {
        return Some((obuff, off));
      }
      if iof == READ {
        if ichanged {
          assert false;  // `ibuff` is only ever read into, so there is nothing to write back
        }
        ichanged := false;
        iblock := bno;
        BlkRead(bno, ibuff);
        return Some((ibuff, off));
      }
      if oblock >= 0 {
        BlkWrite(oblock, obuff);
      }
      oblock := bno;
      image := image + obuff[..];
      return Some((obuff, off));
    }

    /** Stored lines lie below the write position, so writing at or above it keeps them. */
    twostate lemma KeepsLines(base: nat)
      requires old(Lines()) && base == 2 * old(tline) && store == old(store) && tline >= old(tline)
      requires |old(image)| <= |image|
      requires forall a {:trigger image[a]} | 0 <= a < base && a < |old(image)| :: image[a] == old(image)[a]
      ensures Lines()
    {
      forall h | h in store ensures Stored(h, store[h]) {
        var line := store[h];
        assert old(Stored(h, line));
        assert image[2 * h..2 * h + |line|] == old(image[2 * h..2 * h + |line|]);
      }
    }

    /** `*bp = c` in the block being filled. */
    method WriteChar(o: nat, c: char)
      requires Paged() && oblock >= 0 && o < BLOCK
      modifies obuff, this`image
      ensures Paged() && image == old(image)[BLOCK * oblock + o := c]
    {
      obuff[o] := c;
      image := image[BLOCK * oblock + o := c];
      assert obuff[..] == image[BLOCK * oblock..];
      forall b | 0 <= b < oblock ensures disk[b] == image[BLOCK * b..BLOCK * (b + 1)] {
        assert old(image)[BLOCK * b..BLOCK * (b + 1)] == image[BLOCK * b..BLOCK * (b + 1)];
      }
      assert iblock >= 0 ==> image[BLOCK * iblock..BLOCK * (iblock + 1)] == old(image)[BLOCK * iblock..BLOCK * (iblock + 1)];
    }

    /** The first `lp` characters of the line are in the image at `base`, below it all is as `before`. */
    ghost predicate Written(base: nat, lp: nat, line: string, before: string)
      reads this`image
    {
      WrittenIn(image, base, lp, line, before)
    }

    /** The write position `addr` is at offset `o` of the block being filled. */
    ghost predicate Cursor(addr: nat, o: nat, nl: nat, tl: nat)
      reads this`oblock, this`image
    {
      && 0 <= oblock < 255 && |image| == BLOCK * (oblock + 1)
      && BLOCK * oblock + o == addr && o < BLOCK && nl == BLOCK - o && tl == 256 * oblock
    }

    twostate lemma KeepsWritten(line: string)
      requires old(Lines()) && store == old(store) && tline == old(tline) && Written(2 * tline, 0, line, old(image))
      ensures Lines()
    {
      hide Lines;
      KeepsLines(2 * tline);
    }

    lemma PagedSize()
      requires Paged()
      ensures -1 <= oblock < 255 && |image| == BLOCK * (oblock + 1)
    {
    }

    /** Enter the line just written and move the write position past it. */
    method Commit(lp: nat, ghost line: string)
      requires Paged() && Lines() && tline % 2 == 0 && lp == |line| + 1 <= BLOCK
      requires Stored(tline, line) && BLOCK * oblock <= 2 * tline + |line|
      modifies this`tline, this`store
      ensures Valid() && store == old(store)[old(tline) := line] && old(tline) !in old(store)
      ensures 2 * old(tline) + lp <= 2 * tline <= 2 * old(tline) + lp + 3
    {
      hide And, Shr, Paged, StoredIn, LinesIn;
      PagedSize();
      StoredRange(tline, line);
      RoomRounds(lp);
      NextPlace(tline, oblock, |line|, Room(lp));
      hide Room;
      AddLine(image, store, tline, line, tline + Room(lp));
      store := store[tline := line];
      tline := tline + Room(lp);
    }

    lemma StoredRange(h: nat, line: string)
      requires Stored(h, line)
      ensures 2 * h + |line| < |image|
    {
    }

    /** The next block of the line being written, unless the file is full. */
    method NextBlock(tl: nat, ghost base: nat, ghost lp: nat, ghost line: string, ghost before: string)
      returns (ok: bool, o: nat, nl: nat)
      requires Paged() && 0 <= oblock && tl == 256 * (oblock + 1) && BLOCK * (oblock + 1) == base + lp
      requires Written(base, lp, line, before)
      modifies this`iblock, this`oblock, this`ichanged, this`nleft, this`disk, this`image, ibuff
      ensures Paged() && Written(base, lp, line, before) && (!ok <==> old(oblock) == 254)
      ensures !ok ==> oblock == old(oblock)
      ensures ok ==> oblock == old(oblock) + 1 && Cursor(base + lp, o, nl, tl)
    {
      hide And, Shr, Shl, BlockOf, OffsetOf;
      AddressOf(tl);
      var p := GetBlock(tl, WRITE);
      ok := p.Some?;
      o, nl := 0, 0;
      if ok { o, nl := p.value.1, nleft; }
    }

    /** The next character of the line, at the write position. */
    method PutChar(o: nat, c: char, ghost base: nat, ghost lp: nat, ghost line: string, ghost before: string)
      requires Paged() && Written(base, lp, line, before) && o < BLOCK && oblock >= 0
      requires BLOCK * oblock + o == base + lp && |image| == BLOCK * (oblock + 1)
      modifies obuff, this`image
      ensures Paged() && Written(base, lp, line, before) && |image| == |old(image)|
      ensures lp < |line| && c == line[lp] ==> Written(base, lp + 1, line, before)
      ensures base + lp < |image| && image[base + lp] == c
    {
      hide Paged, WrittenIn;
      ghost var was := image;
      WriteChar(o, c);
      WriteNext(was, image, base, lp, line, before, c);
    }

    /** The loop of `putline`: copy the line, block by block. */
    method Fill(linebuf: string, o0: nat, nl0: nat, tl0: nat, ghost base: nat, ghost before: string)
      returns (ok: bool, lp: nat, linebp: Option<nat>)
      requires Paged() && Terminated(linebuf) && Written(base, 0, LineOf(linebuf), before)
      requires Cursor(base, o0, nl0, tl0) && o0 <= 508
      modifies this`iblock, this`oblock, this`ichanged, this`nleft, this`disk, this`image, ibuff, obuff
      ensures Paged() && (ok <==> base + |LineOf(linebuf)| < BLOCK * 255)
      ensures !ok ==> oblock == old(oblock) && Written(base, 0, LineOf(linebuf), before)
      ensures ok ==> Written(base, |LineOf(linebuf)|, LineOf(linebuf), before) && lp == |LineOf(linebuf)| + 1
      ensures ok ==> BLOCK * oblock <= base + |LineOf(linebuf)| < |image| && image[base + |LineOf(linebuf)|] == NUL
      ensures ok ==> linebp == if linebuf[|LineOf(linebuf)|] == '\n' then Some(|LineOf(linebuf)| + 1) else None
    {
      hide Paged, LineOf, Written;
      ghost var line := LineOf(linebuf);
      linebp := None;
      lp := 0;
      var o, nl, tl := o0, nl0, tl0;
      while true
        invariant Paged() && lp <= |line| && Written(base, lp, line, before) && Cursor(base + lp, o, nl, tl)
        invariant old(oblock) <= oblock <= old(oblock) + 1
        decreases |line| - lp
      {
        LineChars(linebuf, lp);
        var c := linebuf[lp];
        PutChar(o, c, base, lp, line, before);
        lp := lp + 1;
        if c == NUL { break; }
        if c == '\n' {
          PutChar(o, NUL, base, lp - 1, line, before);
          linebp := Some(lp);
          break;
        }
        o := o + 1;
        nl := nl - 1;
        if nl == 0 {
          tl := tl + 256;
          ok, o, nl := NextBlock(tl, base, lp, line, before);
          if !ok {
            WrittenLess(base, lp, line, before);
            return;
          }
        }
      }
      ok := true;
    }

    lemma WrittenLess(base: nat, lp: nat, line: string, before: string)
      requires Written(base, lp, line, before)
      ensures Written(base, 0, line, before)
    {
    }

    /** `putline`: store the line in `linebuf` and return its handle. */
    method PutLine(linebuf: string) returns (r: Option<nat>, linebp: Option<nat>)
      requires Valid() && Terminated(linebuf)
      modifies this, ibuff, obuff
      ensures Valid()
      ensures r.None? <==> 2 * old(tline) + |LineOf(linebuf)| >= BLOCK * 255
      ensures r.None? ==> store == old(store) && tline == old(tline)
      ensures r.Some? ==> r.value == old(tline) && r.value !in old(store)
      ensures r.Some? ==> store == old(store)[r.value := LineOf(linebuf)]
      ensures r.Some? ==> 2 * tline <= 2 * old(tline) + |LineOf(linebuf)| + 4
      ensures r.Some? ==>
        linebp == if linebuf[|LineOf(linebuf)|] == '\n' then Some(|LineOf(linebuf)| + 1) else None
    {
      hide Lines, Paged, LineOf, Written;
      ghost var line, base := LineOf(linebuf), 2 * tline;
      linebp := None;
      var ok, o, nl, tl := Begin(line);
      if !ok {
        return None, None;
      }
      var lp;
      ok, lp, linebp := Fill(linebuf, o, nl, tl, base, old(image));
      WrittenBelow(base, if ok then |line| else 0, line, old(image));
      KeepsLines(base);
      PagedSize();
      if !ok {
        return None, None;
      }
      NoNul(linebuf);
      WrittenStored(tline, line, old(image));
      r := Some(tline);
      Commit(lp, line);
    }

    lemma WrittenBelow(base: nat, lp: nat, line: string, before: string)
      requires Written(base, lp, line, before)
      ensures |before| <= |image|
      ensures forall a {:trigger image[a]} | 0 <= a < base && a < |before| :: image[a] == before[a]
    {
    }

    lemma WrittenStored(h: nat, line: string, before: string)
      requires Written(2 * h, |line|, line, before) && 2 * h + |line| < |image| && image[2 * h + |line|] == NUL
      requires forall k | 0 <= k < |line| :: line[k] != NUL
      ensures Stored(h, line)
    {
    }

    /** The first block of a line to be written. */
    method Begin(ghost line: string) returns (ok: bool, o: nat, nl: nat, tl: nat)
      requires Valid()
      modifies this`iblock, this`oblock, this`ichanged, this`nleft, this`disk, this`image, ibuff
      ensures Paged() && Lines() && (!ok <==> 2 * tline >= BLOCK * 255)
      ensures !ok ==> image == old(image) && oblock == old(oblock)
      ensures ok ==> Cursor(2 * tline, o, nl, tl) && o <= 508 && Written(2 * tline, 0, line, old(image))
    {
      hide And, Shr, Shl, BlockOf, OffsetOf, BlockStart, Lines, Paged, WrittenIn;
      PagedSize();
      AddressOf(tline);
      StartsBlock(tline);
      var p := GetBlock(tline, WRITE);
      PagedSize();
      ok := p.Some?;
      o, nl, tl := 0, nleft, BlockStart(tline);
      if ok {
        o := p.value.1;
        ghost var more := if oblock == old(oblock) then [] else obuff[..];
        assert image == old(image) + more;
        WriteNone(image, 2 * tline, line, old(image), more);
        KeepsWritten(line);
      } else {
        KeepsLines(2 * tline);
      }
    }

    /** `bp` points at address `addr` of the image, in block `b`. */
    ghost predicate Reading(bp: array<char>, o: nat, nl: nat, tl: nat, addr: nat)
      reads this`image, bp
    {
      var b := tl / 256;
      && tl % 256 == 0 && bp.Length == BLOCK && BLOCK * (b + 1) <= |image|
      && bp[..] == image[BLOCK * b..BLOCK * (b + 1)]
      && BLOCK * b + o == addr && o < BLOCK && nl == BLOCK - o
    }

    lemma ReadingChar(bp: array<char>, o: nat, nl: nat, tl: nat, addr: nat)
      requires Reading(bp, o, nl, tl, addr)
      ensures o < bp.Length && nl >= 1 && addr < |image| && bp[o] == image[addr]
    {
      assert bp[..][o] == image[BLOCK * (tl / 256) + o];
    }

    lemma StoredChar(h: nat, line: string, k: nat)
      requires Stored(h, line) && k <= |line|
      ensures 2 * h + k < |image| && (k < |line| ==> image[2 * h + k] == line[k])
      ensures image[2 * h + k] == NUL <==> k == |line|
    {
      if k < |line| { assert image[2 * h..2 * h + |line|][k] == line[k]; }
    }

    /** The block of a handle, for reading. */
    method ReadBlock(tl: nat, ghost addr: nat) returns (bp: array<char>, o: nat)
      requires Paged() && tl < 0x1_0000 && addr == 2 * Unmark(tl) < |image|
      modifies this`iblock, this`oblock, this`ichanged, this`nleft, this`disk, this`image, ibuff
      ensures Paged() && image == old(image) && oblock == old(oblock)
      ensures Reading(bp, o, nleft, BlockStart(tl), addr)
    {
      hide And, Shr, Shl, BlockOf, OffsetOf, BlockStart, Unmark;
      AddressOf(tl);
      StartsBlock(tl);
      var p := GetBlock(tl, READ);
      bp, o := p.value.0, p.value.1;
    }

    /** `getline`: the line stored under a handle, whether or not its mark bit is set. */
    method GetLine(tl0: nat) returns (linebuf: string)
      requires Valid() && tl0 < 0x1_0000 && Unmark(tl0) in store
      modifies this`iblock, this`oblock, this`ichanged, this`nleft, this`disk, this`image, ibuff
      ensures Valid() && linebuf == store[Unmark(tl0)]
    {
      hide Paged, Lines, Stored, Reading, Unmark, BlockStart;
      ghost var h := Unmark(tl0);
      ghost var line := store[h];
      HandleStored(h);
      StoredChar(h, line, 0);
      PagedSize();
      linebuf := [];
      var bp: array<char>, o: nat := ReadBlock(tl0, 2 * h);
      var nl: nat, tl: nat := nleft, BlockStart(tl0);
      while true
        invariant Paged() && image == old(image) && oblock == old(oblock)
        invariant |linebuf| <= |line| && linebuf == line[..|linebuf|]
        invariant Reading(bp, o, nl, tl, 2 * h + |linebuf|)
        decreases |line| - |linebuf|
      {
        ReadingChar(bp, o, nl, tl, 2 * h + |linebuf|);
        StoredChar(h, line, |linebuf|);
        var c := bp[o];
        if c == NUL { break; }
        linebuf := linebuf + [c];
        StoredChar(h, line, |linebuf|);
        bp, o, nl, tl := NextChar(bp, o, nl, tl, 2 * h + |linebuf| - 1);
      }
      KeepsLines(2 * tline);
    }

    /** Step to the next byte, and to the next block at the end of one. */
    method NextChar(bp: array<char>, o: nat, nl: nat, tl: nat, ghost addr: nat)
      returns (bp': array<char>, o': nat, nl': nat, tl': nat)
      requires Paged() && Reading(bp, o, nl, tl, addr) && addr + 1 < |image|
      modifies this`iblock, this`oblock, this`ichanged, this`nleft, this`disk, this`image, ibuff
      ensures Paged() && image == old(image) && oblock == old(oblock)
      ensures Reading(bp', o', nl', tl', addr + 1)
    {
      hide Paged, Reading, Unmark, BlockStart;
      ReadingChar(bp, o, nl, tl, addr);
      bp', o', nl', tl' := bp, o + 1, nl - 1, tl;
      if nl' == 0 {
        PagedSize();
        NextAddress(bp, o, nl, tl, addr);
        tl' := tl + 256;
        bp', o' := ReadBlock(tl', addr + 1);
        nl' := nleft;
      } else {
        ReadOn(bp, o, nl, tl, addr);
      }
    }

    lemma EvenHandle()
      requires Valid()
      ensures tline % 2 == 0 && tline < 0x1_0000
    {
    }

    lemma HandleStored(h: nat)
      requires Lines() && h in store
      ensures Stored(h, store[h])
    {
    }

    lemma NextAddress(bp: array<char>, o: nat, nl: nat, tl: nat, addr: nat)
      requires Reading(bp, o, nl, tl, addr) && nl == 1 && addr + 1 < |image| <= BLOCK * 255
      ensures tl + 256 < 0x1_0000 && addr + 1 == 2 * Unmark(tl + 256) && BlockStart(tl + 256) == tl + 256
    {
    }

    lemma ReadOn(bp: array<char>, o: nat, nl: nat, tl: nat, addr: nat)
      requires Reading(bp, o, nl, tl, addr) && nl > 1
      ensures Reading(bp, o + 1, nl - 1, tl, addr + 1)
    {
    }
  }
}
