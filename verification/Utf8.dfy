/** Strict UTF-8 decoding as `std::str::from_utf8` does it (section 3.9, table 3-7, of the Unicode standard). */
module Utf8 {
  import opened Common

  predicate Continues(b: seq<Byte>, i: nat) {
    i < |b| && 0x80 <= b[i] < 0xC0
  }

  function Low(b: seq<Byte>, i: nat): (v: nat)
    requires Continues(b, i)
    ensures v < 0x40
  {
    b[i] - 0x80
  }

  predicate IsScalar(v: nat) {
    v < 0xD800 || 0xE000 <= v < 0x11_0000
  }

  /** The character at position `i`, with the number of bytes it takes. */
  function CharAt(b: seq<Byte>, i: nat): (r: Option<(nat, char)>)
    requires i < |b|
    ensures r.Some? ==> 1 <= r.value.0 <= 4 && i + r.value.0 <= |b|
  {
    var lead := b[i];
    if lead < 0x80 then Some((1, lead as char))
    else if 0xC2 <= lead < 0xE0 && Continues(b, i + 1) then
      Some((2, ((lead - 0xC0) * 0x40 + Low(b, i + 1)) as char))
    else if 0xE0 <= lead < 0xF0 && Continues(b, i + 1) && Continues(b, i + 2) then
      var v := (lead - 0xE0) * 0x1000 + Low(b, i + 1) * 0x40 + Low(b, i + 2);
      if 0x800 <= v && IsScalar(v) then Some((3, v as char)) else None
    else if 0xF0 <= lead < 0xF5 && Continues(b, i + 1) && Continues(b, i + 2) && Continues(b, i + 3) then
      var v := (lead - 0xF0) * 0x4_0000 + Low(b, i + 1) * 0x1000 + Low(b, i + 2) * 0x40 + Low(b, i + 3);
      if 0x1_0000 <= v && IsScalar(v) then Some((4, v as char)) else None
    else None
  }

  /** The text from byte `i` on, `None` when the bytes are not UTF-8. */
  function Decode(b: seq<Byte>, i: nat): Option<string>
    requires i <= |b|
    decreases |b| - i
  {
    if i == |b| then Some("")
    else
      var first := CharAt(b, i);
      if first.None? then None
      else
        var rest := Decode(b, i + first.value.0);
        if rest.None? then None else Some([first.value.1] + rest.value)
  }

  predicate IsAscii(b: seq<Byte>) {
    forall i :: 0 <= i < |b| ==> b[i] < 0x80
  }

  function AsciiText(b: seq<Byte>): (s: string)
    requires IsAscii(b)
    ensures |s| == |b|
  {
    seq(|b|, i requires 0 <= i < |b| => b[i] as char)
  }

  lemma {:induction false} DecodeAscii(b: seq<Byte>, i: nat)
    requires IsAscii(b) && i <= |b|
    ensures Decode(b, i) == Some(AsciiText(b)[i..])
    decreases |b| - i
  {
    var text := AsciiText(b);
    if i < |b| {
      DecodeAscii(b, i + 1);
      assert [text[i]] + text[i + 1..] == text[i..];
    } else {
      assert text[i..] == "";
    }
  }

  lemma CharAtBeforeAscii(b: seq<Byte>, tail: seq<Byte>, i: nat)
    requires IsAscii(tail) && i < |b|
    ensures CharAt(b + tail, i) == CharAt(b, i)
  {
    assert forall j :: Continues(b + tail, j) == Continues(b, j);
  }

  lemma {:induction false} DecodeTail(b: seq<Byte>, tail: seq<Byte>, i: nat)
    requires IsAscii(tail) && |b| <= i <= |b| + |tail|
    ensures Decode(b + tail, i) == Some(AsciiText(tail)[i - |b|..])
    decreases |tail| - (i - |b|)
  {
    var text, k := AsciiText(tail), i - |b|;
    if i < |b| + |tail| {
      DecodeTail(b, tail, i + 1);
      assert [text[k]] + text[k + 1..] == text[k..];
    } else {
      assert text[k..] == "";
    }
  }

  /** ASCII bytes after a text neither break it nor repair it. */
  lemma {:induction false} DecodeBeforeAscii(b: seq<Byte>, tail: seq<Byte>, i: nat)
    requires IsAscii(tail) && i <= |b|
    ensures var (whole, part) := (Decode(b + tail, i), Decode(b, i));
            whole == if part.Some? then Some(part.value + AsciiText(tail)) else None
    decreases |b| - i
  {
    if i == |b| {
      DecodeTail(b, tail, i);
      assert AsciiText(tail)[0..] == AsciiText(tail) == "" + AsciiText(tail);
    } else {
      CharAtBeforeAscii(b, tail, i);
      var first := CharAt(b, i);
      if first.Some? {
        var next := i + first.value.0;
        DecodeBeforeAscii(b, tail, next);
        if Decode(b, next).Some? {
          var c, part := first.value.1, Decode(b, next).value;
          assert [c] + (part + AsciiText(tail)) == [c] + part + AsciiText(tail);
        }
      }
    }
  }

  // ---------- the encoding form it reads ----------

  function EncodeChar(c: char): (b: seq<Byte>)
    ensures 1 <= |b| <= 4
  {
    var v := c as int;
    if v < 0x80 then [v]
    else if v < 0x800 then [0xC0 + v / 0x40, 0x80 + v % 0x40]
    else if v < 0x1_0000 then [0xE0 + v / 0x1000, 0x80 + v / 0x40 % 0x40, 0x80 + v % 0x40]
    else [0xF0 + v / 0x4_0000, 0x80 + v / 0x1000 % 0x40, 0x80 + v / 0x40 % 0x40, 0x80 + v % 0x40]
  }

  function Encode(s: string): seq<Byte> {
    if s == "" then [] else EncodeChar(s[0]) + Encode(s[1..])
  }

  lemma CharAtEncoded(before: seq<Byte>, c: char, rest: seq<Byte>)
    ensures CharAt(before + EncodeChar(c) + rest, |before|) == Some((|EncodeChar(c)|, c))
  {
    var v := c as int;
    var b, code := before + EncodeChar(c) + rest, EncodeChar(c);
    assert forall k :: 0 <= k < |code| ==> b[|before| + k] == code[k];
    assert v == v / 0x40 * 0x40 + v % 0x40;
    assert v / 0x40 == v / 0x1000 * 0x40 + v / 0x40 % 0x40;
    assert v / 0x1000 == v / 0x4_0000 * 0x40 + v / 0x1000 % 0x40;
  }

  lemma EncodedStep(before: seq<Byte>, c: char, rest: seq<Byte>, tail: string)
    requires Decode(before + EncodeChar(c) + rest, |before| + |EncodeChar(c)|) == Some(tail)
    ensures Decode(before + EncodeChar(c) + rest, |before|) == Some([c] + tail)
  {
    CharAtEncoded(before, c, rest);
  }

  /** Every text is read back from its encoding. */
  lemma {:induction false} DecodeEncoded(before: seq<Byte>, s: string)
    ensures Decode(before + Encode(s), |before|) == Some(s)
    decreases |s|
  {
    if s != "" {
      var code, rest := EncodeChar(s[0]), Encode(s[1..]);
      DecodeEncoded(before + code, s[1..]);
      EncodedStep(before, s[0], rest, s[1..]);
      assert before + code + rest == before + (code + rest);
      assert [s[0]] + s[1..] == s;
    }
  }

  lemma SixBits(high: nat, low: nat)
    requires low < 0x40
    ensures (high * 0x40 + low) / 0x40 == high && (high * 0x40 + low) % 0x40 == low
  {
  }

  lemma EncodeThree(a: nat, b: nat, c: nat, v: nat)
    requires b < 0x40 && c < 0x40 && v == a * 0x1000 + b * 0x40 + c && 0x800 <= v < 0x1_0000 && IsScalar(v)
    ensures EncodeChar(v as char) == [0xE0 + a, 0x80 + b, 0x80 + c]
  {
    SixBits(a * 0x40 + b, c);
    SixBits(a, b);
    assert v / 0x40 == a * 0x40 + b && v % 0x40 == c && v / 0x1000 == a;
  }

  lemma EncodeFour(a: nat, b: nat, c: nat, d: nat, v: nat)
    requires b < 0x40 && c < 0x40 && d < 0x40 && v == a * 0x4_0000 + b * 0x1000 + c * 0x40 + d
    requires 0x1_0000 <= v && IsScalar(v)
    ensures EncodeChar(v as char) == [0xF0 + a, 0x80 + b, 0x80 + c, 0x80 + d]
  {
    SixBits(a * 0x1000 + b * 0x40 + c, d);
    SixBits(a * 0x40 + b, c);
    SixBits(a, b);
    assert v / 0x40 == a * 0x1000 + b * 0x40 + c && v % 0x40 == d;
    assert v / 0x1000 == a * 0x40 + b && v / 0x4_0000 == a;
  }

  lemma EncodeCharAt(b: seq<Byte>, i: nat)
    requires i < |b| && CharAt(b, i).Some?
    ensures var (n, c) := CharAt(b, i).value; EncodeChar(c) == b[i..i + n]
  {
    var (n, c) := CharAt(b, i).value;
    if n == 2 {
      SixBits(b[i] - 0xC0, Low(b, i + 1));
    } else if n == 3 {
      EncodeThree(b[i] - 0xE0, Low(b, i + 1), Low(b, i + 2), c as int);
    } else if n == 4 {
      EncodeFour(b[i] - 0xF0, Low(b, i + 1), Low(b, i + 2), Low(b, i + 3), c as int);
    }
  }

  /** The bytes read as a text are its encoding: no other form of a character is read. */
  lemma {:induction false} EncodeDecoded(b: seq<Byte>, i: nat)
    requires i <= |b| && Decode(b, i).Some?
    ensures Encode(Decode(b, i).value) == b[i..]
    decreases |b| - i
  {
    if i < |b| {
      var (n, c) := CharAt(b, i).value;
      EncodeCharAt(b, i);
      EncodeDecoded(b, i + n);
      var rest := Decode(b, i + n).value;
      assert Decode(b, i) == Some([c] + rest);
      assert ([c] + rest)[1..] == rest;
      assert b[i..] == b[i..i + n] + b[i + n..];
    } else {
      assert b[i..] == [];
    }
  }
}
