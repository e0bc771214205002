/** The receive buffer of both codecs: a byte vector with a read offset, whose
    consumed prefix is dropped only now and then. The two codecs of the source
    carry the same fields and the same private methods; they are stated once. */
module ReadCursor {
  import opened Bytes

  const COMPACT_MIN_PREFIX: nat := 64 * 1024

  /** Where the live bytes lie, how many there are, and the totals so far. */
  datatype Layout = Layout(offset: nat, live: nat, consumed: nat, moved: nat)

  /** Bytes taken off the front are consumed, and the live bytes behind them are
      moved exactly when they no longer lie where they lay. */
  predicate Reads(a: Layout, b: Layout) {
    && b.live <= a.live
    && var n := a.live - b.live;
       && b.consumed == a.consumed + n
       && b.moved == a.moved + if b.offset != a.offset + n then b.live else 0
  }

  /** A push neither consumes nor counts as a move. */
  predicate Grows(a: Layout, b: Layout) {
    b.live >= a.live && b.consumed == a.consumed && b.moved == a.moved
  }

  class CursorBuffer {
    var buffer: seq<Byte>
    var readOffset: nat
    const maxBufferLen: nat

    /** Bytes consumed so far, and bytes shifted by the compactions that follow a consume. */
    ghost var consumed: nat
    ghost var moved: nat

    /** The physical buffer respects its limit; the shifting done so far is paid
        for by consumed bytes, with the read offset as the credit in hand; and
        the dead prefix is short or shorter than the live bytes behind it. */
    ghost predicate Valid()
      reads this
    {
      && readOffset <= |buffer| <= maxBufferLen
      && moved + readOffset <= consumed
      && (readOffset > 0 ==> readOffset < |buffer|)
      && (readOffset < COMPACT_MIN_PREFIX || readOffset < |buffer| - readOffset)
    }

    ghost function Unread(): seq<Byte>
      requires readOffset <= |buffer|
      reads this
    {
      buffer[readOffset..]
    }

    ghost function LayoutNow(): Layout
      requires readOffset <= |buffer|
      reads this
    {
      Layout(readOffset, |buffer| - readOffset, consumed, moved)
    }

    constructor (maxBufferLen: nat)
      ensures Valid() && Unread() == [] && this.maxBufferLen == maxBufferLen
      ensures consumed == moved == 0
    {
      buffer := [];
      readOffset := 0;
      this.maxBufferLen := maxBufferLen;
      consumed := 0;
      moved := 0;
    }

    function UnreadLen(): nat
      requires readOffset <= |buffer|
      reads this
    {
      |buffer| - readOffset
    }

    /** Accepts a chunk exactly when the unread bytes and the chunk fit; the dead
        prefix never causes a refusal. */
    method Push(chunk: seq<Byte>) returns (ok: bool)
      requires Valid()
      modifies this
      ensures Valid()
      ensures ok <==> |old(Unread())| + |chunk| <= maxBufferLen
      ensures Unread() == if ok then old(Unread()) + chunk else old(Unread())
      ensures Grows(old(LayoutNow()), LayoutNow())
    {
      var attempted := UnreadLen() + |chunk|;
      if attempted > maxBufferLen {
        return false;
      }
      CompactIfNeededForPush(|chunk|);
      ghost var unread := Unread();
      buffer := buffer + chunk;
      assert Unread() == unread + chunk;
      return true;
    }

    method CompactIfNeededForPush(incomingLen: nat)
      requires Valid()
      modifies `buffer, `readOffset
      ensures Valid() && Unread() == old(Unread())
      ensures |buffer| <= old(|buffer|)
      ensures readOffset == 0 || |buffer| + incomingLen <= maxBufferLen
    {
      if readOffset > 0 && |buffer| + incomingLen > maxBufferLen {
        Compact();
      }
    }

    method Consume(len: nat)
      requires Valid() && len <= |Unread()|
      modifies this
      ensures Valid()
      ensures Unread() == old(Unread())[len..]
      ensures Reads(old(LayoutNow()), LayoutNow())
    {
      consumed := consumed + len;
      ghost var rest := Unread()[len..];
      readOffset := readOffset + len;
      assert Unread() == rest;
      CompactAfterConsume();
    }

    method CompactAfterConsume()
      requires readOffset <= |buffer| <= maxBufferLen && moved + readOffset <= consumed
      modifies `buffer, `readOffset, `moved
      ensures Valid() && Unread() == old(Unread())
      ensures moved == old(moved) + if readOffset != old(readOffset) then |Unread()| else 0
    {
      if readOffset == 0 {
        return;
      }
      if readOffset == |buffer| {
        buffer := [];
        readOffset := 0;
        return;
      }
      if readOffset >= COMPACT_MIN_PREFIX && readOffset * 2 >= |buffer| {
        moved := moved + |buffer| - readOffset;
        Compact();
      }
    }

    method Compact()
      requires readOffset <= |buffer|
      modifies `buffer, `readOffset
      ensures readOffset == 0 && buffer == old(Unread())
    {
      if readOffset == 0 {
        return;
      }
      buffer := buffer[readOffset..];
      readOffset := 0;
    }
  }
}
