/** The cursor over a Buffer that the encoder writes and the decoder reads. */
module BinaryStream {
  import opened Wrappers
  import opened Wire

  /** A write that appends what is expected, or throws what is expected. */
  ghost predicate Appends(e: Encoded, before: Bytes, o: Outcome<Error>, after: Bytes) {
    match e
    case Ok(b) => o == Pass && after == before + b
    case Err(x) => o == Fail(x)
  }

  /** A read that gives the expected value and leaves the expected bytes, or throws what is expected. */
  ghost predicate Agrees<T(!new)>(p: Parsed<T>, r: Result<T, Error>, after: Bytes) {
    match p
    case Got(v, rest) => r == Ok(v) && after == rest
    case Threw(x) => r == Err(x)
  }

  class Stream {
    var buf: array<Byte>
    var cursor: nat

    ghost predicate Valid()
      reads this
    {
      cursor <= buf.Length
    }

    /** The bytes before the cursor: what was written. */
    ghost function Written(): Bytes
      requires Valid()
      reads this, buf
    {
      buf[..cursor]
    }

    /** The bytes after the cursor: what is left to read. */
    ghost function Unread(): Bytes
      requires Valid()
      reads this, buf
    {
      buf[cursor..]
    }

    constructor ForWriting(size: nat)
      ensures Valid() && fresh(buf)
      ensures Written() == []
      ensures buf.Length == if size == 0 then 1500 else size
    {
      buf := new Byte[if size == 0 then 1500 else size];
      cursor := 0;
    }

    constructor ForReading(buffer: array<Byte>)
      ensures Valid() && buf == buffer
      ensures Unread() == buffer[..]
    {
      buf := buffer;
      cursor := 0;
    }

    /** Makes room: the buffer at least doubles, and what was written is kept. */
    method EnsureWrite(n: nat)
      requires Valid()
      modifies this
      ensures Valid() && (buf == old(buf) || fresh(buf))
      ensures cursor == old(cursor) && Written() == old(Written())
      ensures cursor + n <= buf.Length
      ensures buf.Length == if old(cursor) + n <= old(buf.Length) then old(buf.Length)
                            else if 2 * old(buf.Length) >= old(cursor) + n then 2 * old(buf.Length)
                            else old(cursor) + n
    {
      if cursor + n > buf.Length {
        var size := if buf.Length * 2 >= cursor + n then buf.Length * 2 else cursor + n;
        var grown := new Byte[size];
        forall i | 0 <= i < cursor {
          grown[i] := buf[i];
        }
        assert grown[..cursor] == buf[..cursor];
        buf := grown;
      }
    }

    method WriteBytes(b: Bytes)
      requires Valid()
      modifies this, buf
      ensures Valid() && (buf == old(buf) || fresh(buf))
      ensures Written() == old(Written()) + b
    {
      EnsureWrite(|b|);
      ghost var before := Written();
      forall i | 0 <= i < |b| {
        buf[cursor + i] := b[i];
      }
      cursor := cursor + |b|;
      assert Written() == before + b;
    }

    method WriteUnsigned(v: int, n: nat) returns (o: Outcome<Error>)
      requires Valid()
      modifies this, buf
      ensures Valid() && (buf == old(buf) || fresh(buf))
      ensures Appends(Unsigned(v, n), old(Written()), o, Written())
    {
      if 0 <= v < Pow256(n) {
        WriteBytes(LE(v, n));
        o := Pass;
      } else {
        EnsureWrite(n);
        o := Fail(OutOfRange);
      }
    }

    method WriteSigned(v: int, n: nat) returns (o: Outcome<Error>)
      requires Valid()
      modifies this, buf
      ensures Valid() && (buf == old(buf) || fresh(buf))
      ensures Appends(Signed(v, n), old(Written()), o, Written())
    {
      if 0 <= 2 * v + Pow256(n) < 2 * Pow256(n) {
        WriteBytes(LE(if v < 0 then v + Pow256(n) else v, n));
        o := Pass;
      } else {
        EnsureWrite(n);
        o := Fail(OutOfRange);
      }
    }

    method WriteNullableText(t: Option<Text>) returns (o: Outcome<Error>)
      requires Valid()
      modifies this, buf
      ensures Valid() && (buf == old(buf) || fresh(buf))
      ensures Appends(NullableText(t), old(Written()), o, Written())
    {
      match t
      case None =>
        o := WriteUnsigned(NULL_LENGTH, 4);
      case Some(s) =>
        o := WriteUnsigned(|s|, 4);
        if o.Pass? {
          WriteBytes(s);
        }
    }

    method WriteDateTime(ms: int) returns (o: Outcome<Error>)
      requires Valid()
      modifies this, buf
      ensures Valid() && (buf == old(buf) || fresh(buf))
      ensures Appends(DateTime(ms), old(Written()), o, Written())
    {
      var ticks := (ms + FILETIME_EPOCH_OFFSET_MS) * DATETIME_TICKS_PER_MS;
      o := WriteUnsigned(ticks, 8);
    }

    // ----- reading

    method ReadBytes(n: nat) returns (r: Result<Bytes, Error>)
      requires Valid()
      modifies this`cursor
      ensures Valid()
      ensures Agrees(Wire.ReadBytes(old(Unread()), n), r, Unread())
    {
      if cursor + n > buf.Length {
        return Err(Truncated);
      }
      assert buf[cursor..cursor + n] == Unread()[..n];
      r := Ok(buf[cursor..cursor + n]);
      cursor := cursor + n;
    }

    method ReadUnsigned(n: nat) returns (r: Result<nat, Error>)
      requires Valid()
      modifies this`cursor
      ensures Valid()
      ensures Agrees(Wire.ReadUnsigned(old(Unread()), n), r, Unread())
    {
      if cursor + n > buf.Length {
        return Err(Truncated);
      }
      assert buf[cursor..cursor + n] == Unread()[..n];
      r := Ok(FromLE(buf[cursor..cursor + n]));
      cursor := cursor + n;
    }

    method ReadSigned(n: nat) returns (r: Result<int, Error>)
      requires Valid()
      modifies this`cursor
      ensures Valid()
      ensures Agrees(Wire.ReadSigned(old(Unread()), n), r, Unread())
    {
      var u := ReadUnsigned(n);
      if u.Err? {
        return Err(u.error);
      }
      r := Ok(if 2 * u.value < Pow256(n) then u.value else u.value - Pow256(n));
    }

    method ReadNullableText() returns (r: Result<Option<Text>, Error>)
      requires Valid()
      modifies this`cursor
      ensures Valid()
      ensures Agrees(Wire.ReadNullableText(old(Unread())), r, Unread())
    {
      ghost var start := Unread();
      var len := ReadUnsigned(4);
      if len.Err? {
        return Err(len.error);
      }
      if len.value == NULL_LENGTH {
        return Ok(None);
      }
      LEOfFromLE(start[..4]);
      var b := ReadBytes(len.value);
      if b.Err? {
        return Err(b.error);
      }
      var text: Text := b.value;
      r := Ok(Some(text));
    }

    method ReadDateTime() returns (r: Result<int, Error>)
      requires Valid()
      modifies this`cursor
      ensures Valid()
      ensures Agrees(Wire.ReadDateTime(old(Unread())), r, Unread())
    {
      var ticks := ReadUnsigned(8);
      if ticks.Err? {
        return Err(ticks.error);
      }
      r := Ok(ticks.value / DATETIME_TICKS_PER_MS - FILETIME_EPOCH_OFFSET_MS);
    }

    /** The written part of the buffer, never the room after it. */
    method ToBuffer() returns (b: Bytes)
      requires Valid()
      ensures b == Written()
    {
      b := buf[..cursor];
    }

    method Remaining() returns (n: nat)
      requires Valid()
      ensures n == |Unread()|
    {
      n := buf.Length - cursor;
    }
  }
}
