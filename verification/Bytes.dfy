/** Big-endian integers in byte buffers, and records of such integers laid out one after the other. */
module Bytes {
  import opened Words

  function Pow256(n: nat): (p: nat)
    ensures p >= 1
  {
    if n == 0 then 1 else 256 * Pow256(n - 1)
  }

  function BigEndian(v: nat, width: nat): (s: seq<uint8>)
    ensures |s| == width
  {
    if width == 0 then [] else BigEndian(v / 256, width - 1) + [v % 256]
  }

  function FromBigEndian(s: seq<uint8>): nat {
    if s == [] then 0 else 256 * FromBigEndian(s[..|s| - 1]) + s[|s| - 1]
  }

  function Zeros(n: nat): seq<uint8> {
    seq(n, _ => 0)
  }

  /** The bytes of a record whose fields have these widths and values. */
  function Record(widths: seq<nat>, values: seq<nat>): (s: seq<uint8>)
    requires |widths| == |values|
    ensures |s| == Size(widths)
  {
    if widths == [] then []
    else
      var n := |widths| - 1;
      Record(widths[..n], values[..n]) + BigEndian(values[n], widths[n])
  }

  function Size(widths: seq<nat>): nat {
    if widths == [] then 0 else Size(widths[..|widths| - 1]) + widths[|widths| - 1]
  }

  /** The field values found at the start of data. */
  function Fields(widths: seq<nat>, data: seq<uint8>): (values: seq<nat>)
    requires Size(widths) <= |data|
    ensures |values| == |widths|
  {
    if widths == [] then []
    else
      var n := |widths| - 1;
      Fields(widths[..n], data) + [FromBigEndian(data[Size(widths[..n])..Size(widths)])]
  }

  lemma {:induction false} BigEndianRoundTrip(v: nat, width: nat)
    requires v < Pow256(width)
    ensures FromBigEndian(BigEndian(v, width)) == v
  {
    if width > 0 {
      BigEndianRoundTrip(v / 256, width - 1);
      assert BigEndian(v, width)[..width - 1] == BigEndian(v / 256, width - 1);
    }
  }

  lemma LastByte(v: nat, width: nat)
    ensures BigEndian(v, width + 1) == BigEndian(v / 256, width) + [v % 256]
    ensures BigEndian(v, 0) == []
  {}

  /** The most significant byte comes first. */
  lemma ByteOrder(v: uint32)
    ensures BigEndian(v, 4) == [v / 0x100_0000, v / 0x1_0000 % 0x100, v / 0x100 % 0x100, v % 0x100]
  {
    hide BigEndian;
    var a, b, c := v / 0x100, v / 0x1_0000, v / 0x100_0000;
    assert a / 256 == b && b / 256 == c && c % 256 == c;
    LastByte(v, 3);
    LastByte(a, 2);
    LastByte(b, 1);
    LastByte(c, 0);
    LastByte(c / 256, 0);
  }

  ghost predicate FieldsFit(widths: seq<nat>, values: seq<nat>) {
    && |widths| == |values|
    && forall i :: 0 <= i < |values| ==> values[i] < Pow256(widths[i])
  }

  lemma {:induction false} RecordExtended(widths: seq<nat>, values: seq<nat>, width: nat, v: nat)
    requires |widths| == |values|
    ensures Record(widths + [width], values + [v]) == Record(widths, values) + BigEndian(v, width)
    ensures Size(widths + [width]) == Size(widths) + width
  {
    assert (widths + [width])[..|widths|] == widths;
    assert (values + [v])[..|values|] == values;
  }

  lemma {:induction false} FieldsExtended(widths: seq<nat>, width: nat, data: seq<uint8>)
    requires Size(widths) + width <= |data|
    ensures Size(widths + [width]) == Size(widths) + width
    ensures Fields(widths + [width], data)
         == Fields(widths, data) + [FromBigEndian(data[Size(widths)..Size(widths) + width])]
  {
    var longer := widths + [width];
    assert longer[..|longer| - 1] == widths;
    assert Size(longer) == Size(widths) + width;
  }

  lemma MiddleSlice(front: seq<uint8>, middle: seq<uint8>, tail: seq<uint8>)
    ensures front + middle + tail == front + (middle + tail)
    ensures (front + (middle + tail))[|front|..|front| + |middle|] == middle
  {}

  /** Reading a record gives back every field, whatever follows it in the buffer. */
  lemma {:induction false} RecordRoundTrip(widths: seq<nat>, values: seq<nat>, tail: seq<uint8>)
    requires FieldsFit(widths, values)
    ensures Fields(widths, Record(widths, values) + tail) == values
  {
    if widths != [] {
      hide Record, Fields, BigEndian, FromBigEndian, Pow256;
      var n := |widths| - 1;
      var w, v := widths[n], values[n];
      var front, last := Record(widths[..n], values[..n]), BigEndian(v, w);
      RecordRoundTrip(widths[..n], values[..n], last + tail);
      BigEndianRoundTrip(v, w);
      assert widths == widths[..n] + [w] && values == values[..n] + [v];
      RecordExtended(widths[..n], values[..n], w, v);
      MiddleSlice(front, last, tail);
      FieldsExtended(widths[..n], w, front + (last + tail));
    }
  }

  lemma Pow256Values()
    ensures Pow256(1) == 0x100 && Pow256(2) == 0x1_0000 && Pow256(4) == TWO32 && Pow256(8) == TWO64
  {
    assert Pow256(2) == 256 * Pow256(1);
    assert Pow256(4) == 256 * Pow256(3);
    assert Pow256(6) == 256 * Pow256(5);
    assert Pow256(8) == 256 * Pow256(7);
  }

  /** Field i of the values read lies after the first i fields. */
  lemma {:induction false} FieldAt(widths: seq<nat>, data: seq<uint8>, i: nat)
    requires i < |widths| && Size(widths) <= |data|
    ensures Size(widths[..i]) + widths[i] <= Size(widths)
    ensures Fields(widths, data)[i] == FromBigEndian(data[Size(widths[..i])..Size(widths[..i]) + widths[i]])
  {
    var n := |widths| - 1;
    var front := widths[..n];
    hide FromBigEndian;
    assert Size(widths) == Size(front) + widths[n];
    assert Fields(widths, data) == Fields(front, data) + [FromBigEndian(data[Size(front)..Size(widths)])];
    hide Fields, Size;
    if i < n {
      assert front[..i] == widths[..i];
      FieldAt(front, data, i);
    }
  }

  /** Field i of a record's bytes is its value, big-endian, after the bytes of the first i fields. */
  lemma {:induction false} RecordAt(widths: seq<nat>, values: seq<nat>, i: nat)
    requires |widths| == |values| && i < |widths|
    ensures Size(widths[..i]) + widths[i] <= Size(widths)
    ensures Record(widths, values)[Size(widths[..i])..Size(widths[..i]) + widths[i]] == BigEndian(values[i], widths[i])
  {
    var n := |widths| - 1;
    var front, last := Record(widths[..n], values[..n]), BigEndian(values[n], widths[n]);
    if i < n {
      assert widths[..n][..i] == widths[..i];
      RecordAt(widths[..n], values[..n], i);
      SliceOfPrefix(front, last, Size(widths[..i]), Size(widths[..i]) + widths[i]);
    } else {
      SliceOfSuffix(front, last);
    }
  }

  lemma SliceOfPrefix(s: seq<uint8>, t: seq<uint8>, a: nat, b: nat)
    requires a <= b <= |s|
    ensures (s + t)[a..b] == s[a..b]
  {}

  lemma SliceOfSuffix(s: seq<uint8>, t: seq<uint8>)
    ensures (s + t)[|s|..|s| + |t|] == t
  {}

  lemma {:induction false} FromBigEndianBounded(s: seq<uint8>)
    ensures FromBigEndian(s) < Pow256(|s|)
  {
    if s != [] {
      FromBigEndianBounded(s[..|s| - 1]);
    }
  }

  /** Writing what was read gives back the bytes. */
  lemma {:induction false} BytesRoundTrip(s: seq<uint8>)
    ensures BigEndian(FromBigEndian(s), |s|) == s
  {
    if s != [] {
      var n := |s| - 1;
      BytesRoundTrip(s[..n]);
      assert FromBigEndian(s) / 256 == FromBigEndian(s[..n]) && FromBigEndian(s) % 256 == s[n];
      assert s == s[..n] + [s[n]];
    }
  }

  /** Every field read fits its width. */
  lemma {:induction false} FieldsBounded(widths: seq<nat>, data: seq<uint8>)
    requires Size(widths) <= |data|
    ensures FieldsFit(widths, Fields(widths, data))
  {
    if widths != [] {
      var n := |widths| - 1;
      FieldsBounded(widths[..n], data);
      FromBigEndianBounded(data[Size(widths[..n])..Size(widths)]);
    }
  }

  /** Writes v big-endian at off, as encoding/binary does. */
  method PutUint(buf: array<uint8>, off: nat, width: nat, v: nat)
    requires off + width <= buf.Length
    modifies buf
    ensures buf[..] == old(buf[..off]) + BigEndian(v, width) + old(buf[off + width..])
  {
    var k := width;
    var rest := v;
    while k > 0
      invariant 0 <= k <= width
      invariant buf[..off] == old(buf[..off])
      invariant BigEndian(v, width) == BigEndian(rest, k) + buf[off + k..off + width]
      invariant buf[off + width..] == old(buf[off + width..])
    {
      ghost var done := buf[off + k..off + width];
      k := k - 1;
      buf[off + k] := rest % 256;
      assert buf[off + k..off + width] == [rest % 256] + done;
      rest := rest / 256;
    }
    assert buf[..] == buf[..off] + buf[off..off + width] + buf[off + width..];
  }

  /** Writes the next field of a record; the bytes after it stay as they were. */
  method PutField(buf: array<uint8>, off: nat, width: nat, v: nat, ghost widths: seq<nat>, ghost values: seq<nat>)
      returns (next: nat)
    requires |widths| == |values| && off == Size(widths)
    requires off + width <= buf.Length && buf[..off] == Record(widths, values)
    modifies buf
    ensures next == off + width == Size(widths + [width])
    ensures buf[..next] == Record(widths + [width], values + [v])
    ensures buf[next..] == old(buf[next..])
  {
    ghost var tail := buf[off + width..];
    PutUint(buf, off, width, v);
    next := off + width;
    RecordExtended(widths, values, width, v);
    assert buf[..next] == buf[..][..next];
    assert buf[next..] == buf[..][next..];
  }
}
