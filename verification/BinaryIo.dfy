/** tools_io.c on a little-endian machine: integers and doubles are written with their
    bytes reversed, that is big-endian, and reversed again when they are read. */
module BinaryIo {

  newtype Byte = x: int | 0 <= x < 256

  /** The eight bytes a double has in memory; no arithmetic is done on them here. */
  type Word = w: seq<Byte> | |w| == 8 witness [0, 0, 0, 0, 0, 0, 0, 0]

  type Int32 = x: int | -0x8000_0000 <= x < 0x8000_0000

  // ----- integers in memory and in the file -----

  /** The two's complement of x. */
  function Unsigned(x: Int32): nat {
    if x < 0 then x + 0x1_0000_0000 else x
  }

  function Signed(u: nat): Int32
    requires u < 0x1_0000_0000
  {
    if u >= 0x8000_0000 then u - 0x1_0000_0000 else u
  }

  /** The bytes of x in memory, lowest first. */
  function Memory(x: Int32): (m: seq<Byte>)
    ensures |m| == 4
  {
    var u := Unsigned(x);
    [Low(u), Low(u / 256), Low(u / 256 / 256), Low(u / 256 / 256 / 256)]
  }

  function Low(u: nat): Byte {
    (u % 256) as Byte
  }

  function Number(m: seq<Byte>): (x: Int32)
    requires |m| == 4
  {
    Signed(m[0] as nat + 256 * (m[1] as nat + 256 * (m[2] as nat + 256 * m[3] as nat)))
  }

  lemma LowAndRest(u: nat)
    ensures u == Low(u) as nat + 256 * (u / 256)
  {
  }

  lemma NumberOfMemory(x: Int32)
    ensures Number(Memory(x)) == x
  {
    var u := Unsigned(x);
    LowAndRest(u);
    LowAndRest(u / 256);
    LowAndRest(u / 256 / 256);
    LowAndRest(u / 256 / 256 / 256);
    assert u / 256 / 256 / 256 < 256;
    hide Low;
  }

  /** The bytes of x in the file, highest first. */
  function IntBytes(x: Int32): (b: seq<Byte>)
    ensures |b| == 4
  {
    var u := Unsigned(x);
    [Low(u / 256 / 256 / 256), Low(u / 256 / 256), Low(u / 256), Low(u)]
  }

  /** The bytes of a double in the file. */
  function WordBytes(w: Word): (b: seq<Byte>)
    ensures |b| == 8
  {
    [w[7], w[6], w[5], w[4], w[3], w[2], w[1], w[0]]
  }

  // ----- runs of numbers -----

  /** The encodings of xs, one after another. */
  function Bytes<T>(xs: seq<T>, enc: T -> seq<Byte>): seq<Byte> {
    if xs == [] then [] else enc(xs[0]) + Bytes(xs[1..], enc)
  }

  lemma {:induction false} BytesConcat<T>(xs: seq<T>, ys: seq<T>, enc: T -> seq<Byte>)
    ensures Bytes(xs + ys, enc) == Bytes(xs, enc) + Bytes(ys, enc)
  {
    if xs == [] {
      assert xs + ys == ys;
    } else {
      assert (xs + ys)[1..] == xs[1..] + ys;
      BytesConcat(xs[1..], ys, enc);
    }
  }

  lemma BytesOne<T>(x: T, enc: T -> seq<Byte>)
    ensures Bytes([x], enc) == enc(x)
  {
    assert [x][1..] == [];
  }

  lemma OneMore<T>(xs: seq<T>, i: nat, enc: T -> seq<Byte>)
    requires i < |xs|
    ensures Bytes(xs[..i + 1], enc) == Bytes(xs[..i], enc) + enc(xs[i])
  {
    assert xs[..i + 1] == xs[..i] + [xs[i]];
    BytesConcat(xs[..i], [xs[i]], enc);
    BytesOne(xs[i], enc);
  }

  lemma {:induction false} BytesLength<T>(xs: seq<T>, enc: T -> seq<Byte>, width: nat)
    requires forall i :: 0 <= i < |xs| ==> |enc(xs[i])| == width
    ensures |Bytes(xs, enc)| == width * |xs|
  {
    if xs != [] {
      BytesLength(xs[1..], enc, width);
    }
  }

  function IntsBytes(xs: seq<Int32>): (b: seq<Byte>)
    ensures |b| == 4 * |xs|
  {
    BytesLength(xs, IntBytes, 4);
    Bytes(xs, IntBytes)
  }

  function WordsBytes(ws: seq<Word>): (b: seq<Byte>)
    ensures |b| == 8 * |ws|
  {
    BytesLength(ws, WordBytes, 8);
    Bytes(ws, WordBytes)
  }

  // ----- files -----

  /** The bytes come next in the file. */
  ghost predicate Ahead(data: seq<Byte>, pos: nat, bytes: seq<Byte>) {
    pos + |bytes| <= |data| && data[pos..pos + |bytes|] == bytes
  }

  lemma AheadSplit(data: seq<Byte>, pos: nat, a: seq<Byte>, b: seq<Byte>)
    requires Ahead(data, pos, a + b)
    ensures Ahead(data, pos, a) && Ahead(data, pos + |a|, b)
  {
    var c := data[pos..pos + |a + b|];
    assert c == a + b;
    assert data[pos..pos + |a|] == c[..|a|] == a;
    assert data[pos + |a|..pos + |a| + |b|] == c[|a|..] == b;
  }

  lemma BytesAround<T>(xs: seq<T>, enc: T -> seq<Byte>, i: nat)
    requires i < |xs|
    ensures Bytes(xs, enc) == Bytes(xs[..i], enc) + (enc(xs[i]) + Bytes(xs[i + 1..], enc))
  {
    hide *;
    BytesConcat(xs[..i + 1], xs[i + 1..], enc);
    assert xs == xs[..i + 1] + xs[i + 1..];
    OneMore(xs, i, enc);
    Regrouped(Bytes(xs[..i], enc), enc(xs[i]), Bytes(xs[i + 1..], enc));
  }

  lemma Regrouped(a: seq<Byte>, b: seq<Byte>, c: seq<Byte>)
    ensures (a + b) + c == a + (b + c)
  {
  }

  lemma NextWord(data: seq<Byte>, pos: nat, ws: seq<Word>, i: nat)
    requires Ahead(data, pos, WordsBytes(ws)) && i < |ws|
    ensures Ahead(data, pos + 8 * i, WordBytes(ws[i]))
  {
    BytesLength(ws[..i], WordBytes, 8);
    NextOf(data, pos, ws, WordBytes, i);
  }

  lemma NextInt(data: seq<Byte>, pos: nat, xs: seq<Int32>, i: nat)
    requires Ahead(data, pos, IntsBytes(xs)) && i < |xs|
    ensures Ahead(data, pos + 4 * i, IntBytes(xs[i]))
  {
    BytesLength(xs[..i], IntBytes, 4);
    NextOf(data, pos, xs, IntBytes, i);
  }

  /** The encodings of xs being next, that of xs[i] comes after those before it. */
  lemma NextOf<T>(data: seq<Byte>, pos: nat, xs: seq<T>, enc: T -> seq<Byte>, i: nat)
    requires Ahead(data, pos, Bytes(xs, enc)) && i < |xs|
    ensures Ahead(data, pos + |Bytes(xs[..i], enc)|, enc(xs[i]))
  {
    hide *;
    BytesAround(xs, enc, i);
    AheadTwice(data, pos, Bytes(xs[..i], enc), enc(xs[i]), Bytes(xs[i + 1..], enc));
  }

  lemma AheadTwice(data: seq<Byte>, pos: nat, a: seq<Byte>, b: seq<Byte>, c: seq<Byte>)
    requires Ahead(data, pos, a + (b + c))
    ensures Ahead(data, pos + |a|, b)
  {
    hide *;
    AheadSplit(data, pos, a, b + c);
    AheadSplit(data, pos + |a|, b, c);
  }

  /** The memory with ws put in from place at on. */
  function Filled(before: seq<Word>, at: nat, ws: seq<Word>): seq<Word>
    requires at + |ws| <= |before|
  {
    before[..at] + ws + before[at + |ws|..]
  }

  lemma FilledStart(before: seq<Word>, at: nat, ws: seq<Word>)
    requires at + |ws| <= |before|
    ensures Filled(before, at, ws[..0]) == before
  {
  }

  lemma FilledNext(before: seq<Word>, at: nat, ws: seq<Word>, i: nat)
    requires at + |ws| <= |before| && i < |ws|
    ensures |Filled(before, at, ws[..i])| == |before|
    ensures Filled(before, at, ws[..i])[at + i := ws[i]] == Filled(before, at, ws[..i + 1])
  {
  }

  class File {
    var data: seq<Byte>
    var pos: nat

    constructor ()
      ensures data == [] && pos == 0
    {
      data, pos := [], 0;
    }

    method Write(bytes: seq<Byte>)
      modifies this`data
      ensures data == old(data) + bytes
    {
      data := data + bytes;
    }

    method Read(n: nat) returns (bytes: seq<Byte>)
      requires pos + n <= |data|
      modifies this`pos
      ensures |bytes| == n && Ahead(data, old(pos), bytes) && pos == old(pos) + n
    {
      bytes := data[pos..pos + n];
      pos := pos + n;
    }

    /** Writes doubles in the order given, each with its bytes reversed. */
    method WriteDouble(ptr: seq<Word>)
      modifies this`data
      ensures data == old(data) + WordsBytes(ptr)
    {
      for i := 0 to |ptr|
        invariant data == old(data) + Bytes(ptr[..i], WordBytes)
      {
        var a := ptr[i];
        var b := [a[7], a[6], a[5], a[4], a[3], a[2], a[1], a[0]];
        OneMore(ptr, i, WordBytes);
        Write(b);
      }
      assert ptr[..|ptr|] == ptr;
    }

    method WriteInt(ptr: seq<Int32>)
      modifies this`data
      ensures data == old(data) + IntsBytes(ptr)
    {
      for i := 0 to |ptr|
        invariant data == old(data) + Bytes(ptr[..i], IntBytes)
      {
        var a := Memory(ptr[i]);
        var b := [a[3], a[2], a[1], a[0]];
        ReversedMemory(ptr[i]);
        OneMore(ptr, i, IntBytes);
        Write(b);
      }
      assert ptr[..|ptr|] == ptr;
    }

    /** Reads one double; w is the one that comes next. */
    method ReadDouble(ghost w: Word) returns (r: Word)
      requires Ahead(data, pos, WordBytes(w))
      modifies this`pos
      ensures r == w && pos == old(pos) + 8
    {
      var a := Read(8);
      assert a == WordBytes(w);
      r := [a[7], a[6], a[5], a[4], a[3], a[2], a[1], a[0]];
    }

    /** Reads one integer; x is the one that comes next. */
    method ReadInt(ghost x: Int32) returns (r: Int32)
      requires Ahead(data, pos, IntBytes(x))
      modifies this`pos
      ensures r == x && pos == old(pos) + 4
    {
      var a := Read(4);
      assert a == IntBytes(x);
      var b := [a[3], a[2], a[1], a[0]];
      ReversedMemory(x);
      NumberOfMemory(x);
      hide Memory, IntBytes, Number;
      r := Number(b);
    }

    /** Reads doubles into memory; ws are the ones that come next. */
    method ReadDoubles(ptr: array<Word>, at: nat, len: nat, ghost ws: seq<Word>)
      requires Ahead(data, pos, WordsBytes(ws)) && |ws| == len && at + len <= ptr.Length
      modifies this`pos, ptr
      ensures pos == old(pos) + 8 * len
      ensures ptr[..] == Filled(old(ptr[..]), at, ws)
    {
      ghost var start, before := pos, ptr[..];
      hide WordsBytes, Ahead, WordBytes, Filled;
      FilledStart(before, at, ws);
      for i := 0 to len
        invariant pos == start + 8 * i
        invariant ptr[..] == Filled(before, at, ws[..i])
      {
        NextWord(data, start, ws, i);
        FilledNext(before, at, ws, i);
        ReadInto(ptr, at + i, ws[i]);
      }
      assert ws[..len] == ws;
    }

    method ReadInto(ptr: array<Word>, k: nat, ghost w: Word)
      requires Ahead(data, pos, WordBytes(w)) && k < ptr.Length
      modifies this`pos, ptr
      ensures pos == old(pos) + 8 && ptr[..] == old(ptr[..])[k := w]
    {
      ptr[k] := ReadDouble(w);
    }

    static lemma ReversedMemory(x: Int32)
      ensures var m := Memory(x); IntBytes(x) == [m[3], m[2], m[1], m[0]]
    {
    }
  }
}
