/** `linestring` and `decode_linestring` of `src/wkb.rs` (clause 8, "Well-known Binary Representation
    for Geometry", of OGC 06-103r4).  A coordinate is its 64-bit pattern. */
module Wkb {
  import opened Common

  type Word = w: nat | w < 0x1_0000_0000_0000_0000
  type Point = (Word, Word)

  datatype Endian = Little | Big

  // ---------- integers as bytes ----------

  function Pow256(n: nat): nat {
    if n == 0 then 1 else 256 * Pow256(n - 1)
  }

  /** The `n` low bytes of `v`; little endian puts the lowest first, big endian last. */
  function Digits(e: Endian, v: nat, n: nat): (bytes: seq<Byte>)
    ensures |bytes| == n
  {
    if n == 0 then []
    else if e == Little then [v % 256] + Digits(e, v / 256, n - 1)
    else Digits(e, v / 256, n - 1) + [v % 256]
  }

  function Value(e: Endian, bytes: seq<Byte>): nat {
    if bytes == [] then 0
    else if e == Little then bytes[0] + 256 * Value(e, bytes[1..])
    else bytes[|bytes| - 1] + 256 * Value(e, bytes[..|bytes| - 1])
  }

  lemma {:induction false} ValueOfDigits(e: Endian, v: nat, n: nat)
    requires v < Pow256(n)
    ensures Value(e, Digits(e, v, n)) == v
  {
    if n > 0 {
      ValueOfDigits(e, v / 256, n - 1);
      var rest := Digits(e, v / 256, n - 1);
      assert ([v % 256] + rest)[1..] == rest;
      assert (rest + [v % 256])[..n - 1] == rest;
    }
  }

  lemma LowByte(b: Byte, v: nat)
    ensures (b + 256 * v) % 256 == b && (b + 256 * v) / 256 == v
  {
  }

  lemma {:induction false} ValueBound(e: Endian, bytes: seq<Byte>)
    ensures Value(e, bytes) < Pow256(|bytes|)
  {
    if bytes != [] {
      ValueBound(e, if e == Little then bytes[1..] else bytes[..|bytes| - 1]);
    }
  }

  lemma {:induction false} DigitsOfValue(e: Endian, bytes: seq<Byte>)
    ensures Digits(e, Value(e, bytes), |bytes|) == bytes
  {
    if bytes != [] {
      var n := |bytes| - 1;
      if e == Little {
        DigitsOfValue(e, bytes[1..]);
        LowByte(bytes[0], Value(e, bytes[1..]));
        assert bytes == [bytes[0]] + bytes[1..];
      } else {
        DigitsOfValue(e, bytes[..n]);
        LowByte(bytes[n], Value(e, bytes[..n]));
        assert bytes == bytes[..n] + [bytes[n]];
      }
    }
  }

  /** Reading `v` from a field and finding the digits of `v` there are the same. */
  lemma FieldIs(e: Endian, bytes: seq<Byte>, v: nat)
    requires v < Pow256(|bytes|)
    ensures Value(e, bytes) == v <==> bytes == Digits(e, v, |bytes|)
  {
    DigitsOfValue(e, bytes);
    ValueOfDigits(e, v, |bytes|);
  }

  lemma Widths()
    ensures Pow256(4) == 0x1_0000_0000 && Pow256(8) == 0x1_0000_0000_0000_0000
  {
    assert Pow256(2) == 0x1_0000;
    assert Pow256(4) == 256 * (256 * Pow256(2));
    assert Pow256(6) == 256 * (256 * Pow256(4));
    assert Pow256(8) == 256 * (256 * Pow256(6));
  }

  // ---------- the layout ----------

  const LINESTRING: nat := 2

  function Flag(e: Endian): Byte { if e == Little then 1 else 0 }

  function PointBytes(e: Endian, p: Point): (bytes: seq<Byte>)
    ensures |bytes| == 16
  {
    Digits(e, p.0, 8) + Digits(e, p.1, 8)
  }

  function PointsBytes(e: Endian, points: seq<Point>): (bytes: seq<Byte>)
    ensures |bytes| == 16 * |points|
  {
    if points == [] then []
    else PointsBytes(e, points[..|points| - 1]) + PointBytes(e, points[|points| - 1])
  }

  /** The layout for a count field holding `count`. */
  function Layout(e: Endian, count: nat, points: seq<Point>): seq<Byte> {
    [Flag(e)] + Digits(e, LINESTRING, 4) + Digits(e, count, 4) + PointsBytes(e, points)
  }

  /** `points.len() as u32` keeps the low 32 bits. */
  function CountField(points: seq<Point>): nat {
    |points| % 0x1_0000_0000
  }

  method Linestring(points: seq<Point>) returns (out: seq<Byte>)
    ensures out == Layout(Little, CountField(points), points)
  {
    out := [1];
    out := out + Digits(Little, LINESTRING, 4);
    out := out + Digits(Little, |points| % 0x1_0000_0000, 4);
    ghost var header := out;
    for i := 0 to |points|
      invariant out == header + PointsBytes(Little, points[..i])
    {
      assert points[..i + 1][..i] == points[..i];
      out := out + Digits(Little, points[i].0, 8);
      out := out + Digits(Little, points[i].1, 8);
    }
    assert points[..|points|] == points;
  }

  lemma ValueStep(bytes: seq<Byte>, b: Byte)
    ensures Value(Little, [b] + bytes) == b + 256 * Value(Little, bytes)
    ensures Value(Big, bytes + [b]) == b + 256 * Value(Big, bytes)
  {
    assert ([b] + bytes)[1..] == bytes && (bytes + [b])[..|bytes|] == bytes;
  }

  lemma LittleFour(a: Byte, b: Byte, c: Byte, d: Byte)
    ensures Value(Little, [a, b, c, d]) == a + 0x100 * b + 0x1_0000 * c + 0x100_0000 * d
  {
    ValueStep([b, c, d], a); ValueStep([c, d], b); ValueStep([d], c); ValueStep([], d);
    assert [a] + [b, c, d] == [a, b, c, d] && [b] + [c, d] == [b, c, d] && [c] + [d] == [c, d] && [d] + [] == [d];
  }

  lemma BigFour(a: Byte, b: Byte, c: Byte, d: Byte)
    ensures Value(Big, [a, b, c, d]) == d + 0x100 * c + 0x1_0000 * b + 0x100_0000 * a
  {
    ValueStep([a, b, c], d); ValueStep([a, b], c); ValueStep([a], b); ValueStep([], a);
    assert [a, b, c] + [d] == [a, b, c, d] && [a, b] + [c] == [a, b, c] && [a] + [b] == [a, b] && [] + [a] == [a];
  }

  lemma {:induction false} PointAt(e: Endian, points: seq<Point>, i: nat)
    requires i < |points|
    ensures PointsBytes(e, points)[16 * i..16 * i + 16] == PointBytes(e, points[i])
  {
    var n := |points| - 1;
    if i < n {
      PointAt(e, points[..n], i);
      assert PointsBytes(e, points)[16 * i..16 * i + 16] == PointsBytes(e, points[..n])[16 * i..16 * i + 16];
    }
  }

  lemma CutPoint(out: seq<Byte>, bytes: seq<Byte>, base: nat, x: seq<Byte>, y: seq<Byte>)
    requires |out| >= 9 && out[9..] == bytes && base + 16 <= |bytes|
    requires |x| == 8 && |y| == 8 && bytes[base..base + 16] == x + y
    ensures out[9 + base..17 + base] == x && out[17 + base..25 + base] == y
  {
    assert out[9 + base..25 + base] == x + y;
    assert out[9 + base..17 + base] == out[9 + base..25 + base][..8];
    assert out[17 + base..25 + base] == out[9 + base..25 + base][8..];
  }

  /** The head of an encoding: byte order 1, geometry type 2 and the count. */
  lemma LinestringHead(points: seq<Point>)
    ensures var out := Layout(Little, CountField(points), points);
            && |out| == 9 + 16 * |points| && out[..5] == [1, 2, 0, 0, 0] && out[9..] == PointsBytes(Little, points)
            && Value(Little, out[5..9]) == |points| % 0x1_0000_0000
  {
    Widths();
    var count := CountField(points);
    var out := Layout(Little, count, points);
    assert Digits(Little, LINESTRING, 4) == [2, 0, 0, 0];
    assert out[5..9] == Digits(Little, count, 4);
    ValueOfDigits(Little, count, 4);
  }

  /** Every point is in its place, `x` before `y`. */
  lemma LinestringPoint(points: seq<Point>, i: nat)
    requires i < |points|
    ensures var out := Layout(Little, CountField(points), points);
            && Value(Little, out[9 + 16 * i..17 + 16 * i]) == points[i].0
            && Value(Little, out[17 + 16 * i..25 + 16 * i]) == points[i].1
  {
    Widths();
    LinestringHead(points);
    PointAt(Little, points, i);
    CutPoint(Layout(Little, CountField(points), points), PointsBytes(Little, points), 16 * i,
             Digits(Little, points[i].0, 8), Digits(Little, points[i].1, 8));
    ValueOfDigits(Little, points[i].0, 8);
    ValueOfDigits(Little, points[i].1, 8);
  }

  // ---------- the decoder ----------

  function Read(wkb: seq<Byte>, e: Endian, offset: nat, n: nat): Option<nat> {
    if offset + n <= |wkb| then Some(Value(e, wkb[offset..offset + n])) else None
  }

  lemma ReadBound(wkb: seq<Byte>, e: Endian, offset: nat, n: nat)
    ensures Read(wkb, e, offset, n).Some? ==> Read(wkb, e, offset, n).value < Pow256(n)
  {
    if offset + n <= |wkb| { ValueBound(e, wkb[offset..offset + n]); }
  }

  /** The accepted byte orders, headers and lengths; nothing is said about what follows the points. */
  ghost predicate Decodes(wkb: seq<Byte>, e: Endian, points: seq<Point>) {
    |points| < 0x1_0000_0000 && Layout(e, |points|, points) <= wkb
  }

  /** `decode_linestring`, for any byte string: it succeeds exactly when the bytes begin with the
      encoding of a point list in one of the two byte orders, and then returns that list. */
  method DecodeLinestring(wkb: seq<Byte>) returns (r: Option<seq<Point>>)
    ensures forall points :: r == Some(points) <==> exists e :: Decodes(wkb, e, points)
  {
    Widths();
    if |wkb| < 9 {
      return None;
    }
    var e: Endian;
    if wkb[0] == 1 {
      e := Little;
    } else if wkb[0] == 0 {
      e := Big;
    } else {
      return None;
    }
    OneOrder(wkb, e);
    var geometryType := Read(wkb, e, 1, 4).value;
    if geometryType / 0x2000_0000 != 0 || geometryType != LINESTRING {
      forall points ensures !Decodes(wkb, e, points) { if Decodes(wkb, e, points) { HeaderIs(wkb, e, points); } }
      return None;
    }
    var count := Read(wkb, e, 5, 4).value;
    ReadBound(wkb, e, 5, 4);
    var points: seq<Point> := [];
    for i := 0 to count
      invariant |points| == i && 9 + 16 * i <= |wkb|
      invariant wkb[9..9 + 16 * i] == PointsBytes(e, points)
    {
      var base := 9 + i * 16;
      var x := Read(wkb, e, base, 8);
      var y := Read(wkb, e, base + 8, 8);
      if x == None || y == None {
        forall other ensures !Decodes(wkb, e, other) { if Decodes(wkb, e, other) { HeaderIs(wkb, e, other); } }
        return None;
      }
      ReadBound(wkb, e, base, 8);
      ReadBound(wkb, e, base + 8, 8);
      NextPoint(wkb, e, points, (x.value, y.value));
      points := points + [(x.value, y.value)];
    }
    HeaderMeans(wkb, e, points);
    forall other | Decodes(wkb, e, other) ensures other == points { SameList(wkb, e, points, other); }
    r := Some(points);
  }

  lemma NextPoint(wkb: seq<Byte>, e: Endian, points: seq<Point>, p: Point)
    requires var base := 9 + 16 * |points|;
             && Read(wkb, e, base, 8) == Some(p.0) && Read(wkb, e, base + 8, 8) == Some(p.1)
             && wkb[9..base] == PointsBytes(e, points)
    ensures 9 + 16 * (|points| + 1) <= |wkb|
    ensures wkb[9..9 + 16 * (|points| + 1)] == PointsBytes(e, points + [p])
  {
    Widths();
    var base := 9 + 16 * |points|;
    assert wkb[base..base + 8] == Digits(e, p.0, 8) by { FieldIs(e, wkb[base..base + 8], p.0); }
    assert wkb[base + 8..base + 16] == Digits(e, p.1, 8) by { FieldIs(e, wkb[base + 8..base + 16], p.1); }
    CutFields(wkb, base);
    PointsBytesStep(e, points, p);
  }

  lemma CutFields(wkb: seq<Byte>, base: nat)
    requires 9 <= base && base + 16 <= |wkb|
    ensures wkb[9..base + 16] == wkb[9..base] + (wkb[base..base + 8] + wkb[base + 8..base + 16])
  {
  }

  lemma PointsBytesStep(e: Endian, points: seq<Point>, p: Point)
    ensures PointsBytes(e, points + [p]) == PointsBytes(e, points) + PointBytes(e, p)
  {
    assert (points + [p])[..|points|] == points;
  }

  /** The first byte decides the byte order. */
  lemma OneOrder(wkb: seq<Byte>, e: Endian)
    requires |wkb| >= 9 && wkb[0] == Flag(e)
    ensures forall f, points :: Decodes(wkb, f, points) ==> f == e
  {
    forall f, points | Decodes(wkb, f, points) ensures f == e {
      assert Layout(f, |points|, points)[0] == Flag(f);
    }
  }

  /** The header fields read back from an encoding. */
  lemma HeaderIs(wkb: seq<Byte>, e: Endian, points: seq<Point>)
    requires Decodes(wkb, e, points)
    ensures |wkb| >= 9 + 16 * |points|
    ensures Read(wkb, e, 1, 4) == Some(LINESTRING) && Read(wkb, e, 5, 4) == Some(|points|)
    ensures wkb[9..9 + 16 * |points|] == PointsBytes(e, points)
  {
    Widths();
    var all := Layout(e, |points|, points);
    assert wkb[..|all|] == all;
    assert wkb[1..5] == all[1..5] == Digits(e, LINESTRING, 4);
    assert wkb[5..9] == all[5..9] == Digits(e, |points|, 4);
    assert wkb[9..|all|] == all[9..] == PointsBytes(e, points);
    ValueOfDigits(e, LINESTRING, 4);
    ValueOfDigits(e, |points|, 4);
  }

  lemma HeaderMeans(wkb: seq<Byte>, e: Endian, points: seq<Point>)
    requires |wkb| >= 9 + 16 * |points| && wkb[0] == Flag(e) && |points| < 0x1_0000_0000
    requires Read(wkb, e, 1, 4) == Some(LINESTRING) && Read(wkb, e, 5, 4) == Some(|points|)
    requires wkb[9..9 + 16 * |points|] == PointsBytes(e, points)
    ensures Decodes(wkb, e, points)
  {
    Widths();
    FieldIs(e, wkb[1..5], LINESTRING);
    FieldIs(e, wkb[5..9], |points|);
    var n := 9 + 16 * |points|;
    assert wkb[..n] == [wkb[0]] + wkb[1..5] + wkb[5..9] + wkb[9..n];
  }

  /** Two lists encoded at the start of the same bytes are equal. */
  lemma SameList(wkb: seq<Byte>, e: Endian, a: seq<Point>, b: seq<Point>)
    requires Decodes(wkb, e, a) && Decodes(wkb, e, b)
    ensures a == b
  {
    HeaderIs(wkb, e, a);
    HeaderIs(wkb, e, b);
    PointsInjective(e, a, b);
  }

  lemma {:induction false} PointsInjective(e: Endian, a: seq<Point>, b: seq<Point>)
    requires |a| == |b| && PointsBytes(e, a) == PointsBytes(e, b)
    ensures a == b
  {
    if a != [] {
      var n := |a| - 1;
      var front, last := PointsBytes(e, a[..n]), PointBytes(e, a[n]);
      assert PointsBytes(e, a)[..16 * n] == front && PointsBytes(e, b)[..16 * n] == PointsBytes(e, b[..n]);
      assert PointsBytes(e, a)[16 * n..] == last && PointsBytes(e, b)[16 * n..] == PointBytes(e, b[n]);
      PointsInjective(e, a[..n], b[..n]);
      PointInjective(e, a[n], b[n]);
      assert a == a[..n] + [a[n]] && b == b[..n] + [b[n]];
    }
  }

  lemma PointInjective(e: Endian, p: Point, q: Point)
    requires PointBytes(e, p) == PointBytes(e, q)
    ensures p == q
  {
    Widths();
    assert PointBytes(e, p)[..8] == Digits(e, p.0, 8) && PointBytes(e, q)[..8] == Digits(e, q.0, 8);
    assert PointBytes(e, p)[8..] == Digits(e, p.1, 8) && PointBytes(e, q)[8..] == Digits(e, q.1, 8);
    ValueOfDigits(e, p.0, 8); ValueOfDigits(e, q.0, 8);
    ValueOfDigits(e, p.1, 8); ValueOfDigits(e, q.1, 8);
  }

  // ---------- round trips ----------

  /** An encoding followed by anything decodes to as many of its points as the count field says, which
      is all of them exactly when they are fewer than 2^32. */
  lemma RoundTrip(points: seq<Point>, rest: seq<Byte>)
    ensures Decodes(Layout(Little, CountField(points), points) + rest, Little, points[..CountField(points)])
    ensures points[..CountField(points)] == points <==> |points| < 0x1_0000_0000
  {
    var count := CountField(points);
    PointsPrefix(Little, points, count);
    var header := [Flag(Little)] + Digits(Little, LINESTRING, 4) + Digits(Little, count, 4);
    var shown := PointsBytes(Little, points[..count]);
    var all := header + PointsBytes(Little, points) + rest;
    assert all[..|header| + |shown|] == header + shown;
  }

  lemma {:induction false} PointsPrefix(e: Endian, points: seq<Point>, m: nat)
    requires m <= |points|
    ensures PointsBytes(e, points[..m]) <= PointsBytes(e, points)
  {
    if m == |points| {
      assert points[..m] == points;
    } else {
      var n := |points| - 1;
      PointsPrefix(e, points[..n], m);
      assert points[..n][..m] == points[..m];
    }
  }

  /** The same points in big-endian order decode as well. */
  lemma BigEndianDecodes(points: seq<Point>, rest: seq<Byte>)
    requires |points| < 0x1_0000_0000
    ensures Decodes(Layout(Big, |points|, points) + rest, Big, points)
  {
  }

  /** No strict prefix of an encoding decodes. */
  lemma PrefixesDoNotDecode(points: seq<Point>, wkb: seq<Byte>)
    requires |points| < 0x1_0000_0000
    requires wkb < Layout(Little, |points|, points)
    ensures forall e, other :: !Decodes(wkb, e, other)
  {
    forall e, other ensures !Decodes(wkb, e, other) {
      if Decodes(wkb, e, other) {
        var all := Layout(Little, |points|, points);
        assert Decodes(all, e, other) && Decodes(all, Little, points);
        OneOrder(all, Little);
        SameList(all, Little, points, other);
        HeaderIs(wkb, e, other);
      }
    }
  }
}
