/** The byte-level readers and writers of the wire codec. A reader takes the
    unread part of a datagram and gives back what it decoded together with
    what is left to read; a writer appends to a byte vector. */
module Codec {
  import opened Wrappers
  import opened Wire
  import Utf8

  /** The contents of a Rust `String`: bytes that are well-formed UTF-8. */
  type Text = s: Bytes | Utf8.Valid(s)

  /** The result of a reader: the decoded value (None on failure) and the
      cursor after the read. */
  datatype Read<+T> = Read(value: Option<T>, rest: Bytes)

  /** The longest string that a one-byte length prefix announces (`u8::MAX`). */
  const MAX_STRING_LEN: nat := 255

  // ------------------------------------------------------------------ readers

  function ReadByte(buf: Bytes): (r: Read<byte>)
    ensures r.value.Some? <==> buf != []
    ensures r.value.Some? ==> buf == [r.value.value] + r.rest
    ensures r.value.None? ==> r.rest == []
  {
    if buf == [] then Read(None, buf)
    else Read(Some(buf[0]), buf[1..])
  }

  function ReadBool(buf: Bytes): (r: Read<bool>)
    ensures r.value.Some? <==> buf != []
    ensures r.value.Some? ==> (r.value.value <==> buf[0] != 0) && r.rest == buf[1..]
    ensures r.value.None? ==> r.rest == []
  {
    var b := ReadByte(buf);
    Read(if b.value.Some? then Some(b.value.value != 0) else None, b.rest)
  }

  /** The fixed-width readers share one shape: on a buffer shorter than the
      width they fail and leave the cursor empty, otherwise the bytes consumed
      are exactly the little-endian layout of the value returned. */
  function ReadU16(buf: Bytes): (r: Read<u16>)
    ensures r.value.Some? <==> |buf| >= 2
    ensures r.value.Some? ==> buf == ToLe(r.value.value, 2) + r.rest && r.rest == buf[2..]
    ensures r.value.None? ==> r.rest == []
  {
    if |buf| < 2 then Read(None, buf[|buf|..])
    else
      Limits();
      ToLeOfLe(buf[..2]);
      assert buf == buf[..2] + buf[2..];
      Read(Some(Le(buf[..2])), buf[2..])
  }

  function ReadU32(buf: Bytes): (r: Read<u32>)
    ensures r.value.Some? <==> |buf| >= 4
    ensures r.value.Some? ==> buf == ToLe(r.value.value, 4) + r.rest && r.rest == buf[4..]
    ensures r.value.None? ==> r.rest == []
  {
    if |buf| < 4 then Read(None, buf[|buf|..])
    else
      Limits();
      ToLeOfLe(buf[..4]);
      assert buf == buf[..4] + buf[4..];
      Read(Some(Le(buf[..4])), buf[4..])
  }

  function ReadU64(buf: Bytes): (r: Read<u64>)
    ensures r.value.Some? <==> |buf| >= 8
    ensures r.value.Some? ==> buf == ToLe(r.value.value, 8) + r.rest && r.rest == buf[8..]
    ensures r.value.None? ==> r.rest == []
  {
    if |buf| < 8 then Read(None, buf[|buf|..])
    else
      Limits();
      ToLeOfLe(buf[..8]);
      assert buf == buf[..8] + buf[8..];
      Read(Some(Le(buf[..8])), buf[8..])
  }

  /** Reads `len` bytes as a string: fails with an empty cursor when fewer
      remain, and otherwise consumes them whether or not they are UTF-8. */
  function ReadString(buf: Bytes, len: nat): (r: Read<Text>)
    ensures |buf| < len ==> r == Read(None, [])
    ensures |buf| >= len ==> r.rest == buf[len..]
    ensures |buf| >= len ==> (r.value.Some? <==> Utf8.Valid(buf[..len]))
    ensures r.value.Some? ==> r.value.value == buf[..len]
  {
    if |buf| < len then Read(None, buf[|buf|..])
    else
      assert buf == buf[..len] + buf[len..];
      if Utf8.Valid(buf[..len]) then
        var s: Text := buf[..len];
        Read(Some(s), buf[len..])
      else Read(None, buf[len..])
  }

  /** A string with a one-byte length prefix. */
  function ReadStringU8(buf: Bytes): (r: Read<Text>)
    ensures buf == [] ==> r == Read(None, [])
    ensures buf != [] && |buf| - 1 < buf[0] ==> r == Read(None, [])
    ensures buf != [] && buf[0] <= |buf| - 1 ==>
      && r.rest == buf[1 + buf[0]..]
      && (r.value.Some? <==> Utf8.Valid(buf[1..1 + buf[0]]))
      && (r.value.Some? ==> r.value.value == buf[1..1 + buf[0]])
  {
    var len := ReadByte(buf);
    if len.value.None? then Read(None, len.rest)
    else
      assert len.rest == buf[1..];
      assert buf[0] <= |buf| - 1 ==> len.rest[..buf[0]] == buf[1..1 + buf[0]];
      ReadString(len.rest, len.value.value)
  }

  // ------------------------------------------------------------------ writers

  function WriteBool(buf: Bytes, data: bool): (r: Bytes)
    ensures |r| == |buf| + 1 && r[..|buf|] == buf
    ensures r[|buf|] <= 1 && (r[|buf|] == 1 <==> data)
  {
    buf + [if data then 1 else 0]
  }

  function WriteU16(buf: Bytes, data: u16): (r: Bytes)
    ensures |r| == |buf| + 2 && r[..|buf|] == buf && Le(r[|buf|..]) == data
  {
    Limits();
    var r := buf + ToLe(data, 2);
    assert r[|buf|..] == ToLe(data, 2);
    r
  }

  function WriteU32(buf: Bytes, data: u32): (r: Bytes)
    ensures |r| == |buf| + 4 && r[..|buf|] == buf && Le(r[|buf|..]) == data
  {
    Limits();
    var r := buf + ToLe(data, 4);
    assert r[|buf|..] == ToLe(data, 4);
    r
  }

  function WriteU64(buf: Bytes, data: u64): (r: Bytes)
    ensures |r| == |buf| + 8 && r[..|buf|] == buf && Le(r[|buf|..]) == data
  {
    Limits();
    var r := buf + ToLe(data, 8);
    assert r[|buf|..] == ToLe(data, 8);
    r
  }

  /** The number of bytes of `s` that `WriteStringU8` keeps. */
  function PrefixLen(s: Bytes): (n: nat)
    ensures n <= |s| && n <= MAX_STRING_LEN
    ensures n == |s| || n == MAX_STRING_LEN
  {
    if |s| < MAX_STRING_LEN then |s| else MAX_STRING_LEN
  }

  /** Appends a length byte and then that many leading bytes of `data`: a
      string of 255 bytes or more is cut to its first 255 bytes, which may
      split a multi-byte character. */
  function WriteStringU8(buf: Bytes, data: Text): (r: Bytes)
    ensures |r| > |buf| && r[..|buf|] == buf
    ensures r[|buf|] == |r| - |buf| - 1 && r[|buf|] <= |data|
    ensures r[|buf| + 1..] == data[..r[|buf|]]
    ensures |data| <= MAX_STRING_LEN ==> r[|buf| + 1..] == data
    ensures |data| > MAX_STRING_LEN ==> r[|buf|] == MAX_STRING_LEN
  {
    var len := PrefixLen(data);
    var r := buf + [len] + data[..len];
    assert r[|buf| + 1..] == data[..len];
    r
  }

  // ----------------------------------------------------- properties of the pair

  lemma ReadWriteBool(b: bool, tail: Bytes)
    ensures ReadBool(WriteBool([], b) + tail) == Read(Some(b), tail)
  {
    assert (WriteBool([], b) + tail)[1..] == tail;
  }

  /** A little-endian number of `width` bytes followed by `tail` splits back
      into the number and `tail`. */
  lemma {:induction false} SplitLe(x: nat, width: nat, tail: Bytes, buf: Bytes, y: nat, rest: Bytes)
    requires x < Pow256(width) && y < Pow256(width)
    requires buf == ToLe(x, width) + tail && buf == ToLe(y, width) + rest
    ensures x == y && rest == tail
  {
    assert buf[..width] == ToLe(x, width) == ToLe(y, width);
    assert rest == buf[width..] == tail;
  }

  lemma ReadWriteU16(x: u16, tail: Bytes)
    ensures ReadU16(WriteU16([], x) + tail) == Read(Some(x), tail)
  {
    Limits();
    var buf := WriteU16([], x) + tail;
    assert WriteU16([], x) == ToLe(x, 2);
    var r := ReadU16(buf);
    SplitLe(x, 2, tail, buf, r.value.value, r.rest);
  }

  lemma ReadWriteU32(x: u32, tail: Bytes)
    ensures ReadU32(WriteU32([], x) + tail) == Read(Some(x), tail)
  {
    Limits();
    var buf := WriteU32([], x) + tail;
    assert WriteU32([], x) == ToLe(x, 4);
    var r := ReadU32(buf);
    SplitLe(x, 4, tail, buf, r.value.value, r.rest);
  }

  lemma ReadWriteU64(x: u64, tail: Bytes)
    ensures ReadU64(WriteU64([], x) + tail) == Read(Some(x), tail)
  {
    Limits();
    var buf := WriteU64([], x) + tail;
    assert WriteU64([], x) == ToLe(x, 8);
    var r := ReadU64(buf);
    SplitLe(x, 8, tail, buf, r.value.value, r.rest);
  }

  /** Writing a string after `buf` appends the string's own encoding. */
  lemma WriteStringU8Appends(buf: Bytes, s: Text)
    ensures WriteStringU8(buf, s) == buf + WriteStringU8([], s)
  {
  }

  /** A string of at most 255 bytes reads back exactly, whatever follows it. */
  lemma ReadWriteStringU8(s: Text, tail: Bytes)
    requires |s| <= MAX_STRING_LEN
    ensures ReadStringU8(WriteStringU8([], s) + tail) == Read(Some(s), tail)
  {
    var buf := WriteStringU8([], s) + tail;
    assert buf == [|s| as byte] + s + tail;
    assert buf[1..1 + |s|] == s;
    assert buf[1 + |s|..] == tail;
  }

  /** A longer string reads back as its first 255 bytes, and only when that
      cut leaves well-formed UTF-8. */
  lemma ReadWriteLongStringU8(s: Text, tail: Bytes)
    requires |s| > MAX_STRING_LEN
    ensures ReadStringU8(WriteStringU8([], s) + tail)
         == if Utf8.Valid(s[..MAX_STRING_LEN]) then Read(Some(s[..MAX_STRING_LEN]), tail) else Read(None, tail)
  {
    var buf := WriteStringU8([], s) + tail;
    assert buf == [MAX_STRING_LEN as byte] + s[..MAX_STRING_LEN] + tail;
    assert buf[1..1 + MAX_STRING_LEN] == s[..MAX_STRING_LEN];
    assert buf[1 + MAX_STRING_LEN..] == tail;
  }

  /** Whatever the string, reading it back stops exactly where it ends. */
  lemma SkipStringU8(s: Text, tail: Bytes)
    ensures ReadStringU8(WriteStringU8([], s) + tail).rest == tail
  {
    if |s| <= MAX_STRING_LEN {
      ReadWriteStringU8(s, tail);
    } else {
      ReadWriteLongStringU8(s, tail);
    }
  }

  /** The cut can break a character: 254 ASCII letters and then a two-byte
      character is a valid 256-byte string whose 255-byte prefix is not. */
  lemma TruncationSplitsCharacter()
    ensures var s := seq(254, _ => 0x41) + [0xC3, 0xA9];
      Utf8.Valid(s) && !Utf8.Valid(s[..MAX_STRING_LEN])
  {
    var a: Bytes := seq(254, _ => 0x41);
    var s := a + [0xC3, 0xA9];
    assert Utf8.IsAscii(a);
    Utf8.AsciiPrefix(a, [0xC3, 0xA9]);
    assert Utf8.CharWidth([0xC3, 0xA9]) == 2;
    assert Utf8.Valid([0xC3, 0xA9][2..]);
    assert s[..MAX_STRING_LEN] == a + [0xC3];
    Utf8.AsciiPrefix(a, [0xC3]);
    assert Utf8.CharWidth([0xC3]) == 0;
  }

  /** A proper prefix of a written string never reads as a string. */
  lemma TruncatedStringU8(s: Text, k: nat)
    requires k < |WriteStringU8([], s)|
    ensures ReadStringU8(WriteStringU8([], s)[..k]).value.None?
  {
  }

  /** A proper prefix of a fixed-width number never reads as one. */
  lemma TruncatedU64(x: u64, k: nat)
    requires k < 8
    ensures ReadU64(WriteU64([], x)[..k]) == Read(None, [])
  {
  }
}
