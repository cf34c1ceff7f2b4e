/** `decode` of `src/websocket.rs`, and the textbook LZW encoder it inverts.  Characters and codes are
    natural numbers: a character is its code point, codes from 256 on name table entries. */
module Websocket {

  const FIRST_CODE: nat := 256

  type Text = seq<nat>

  function Concat(parts: seq<Text>): Text {
    if parts == [] then [] else Concat(parts[..|parts| - 1]) + parts[|parts| - 1]
  }

  // ---------- what the codes mean ----------

  ghost predicate NoneEmpty(vs: seq<Text>) {
    forall k :: 0 <= k < |vs| ==> vs[k] != []
  }

  /** The expansion of `code` after the expansions `vs` of all earlier codes, without a table: entry
      `256 + k` is expansion `k` followed by the first character of expansion `k + 1`; a code whose
      entry is not complete yet repeats the last expansion and its first character.  The first code of
      a message is a literal whatever its value. */
  function Next(vs: seq<Text>, code: nat): (v: Text)
    requires NoneEmpty(vs)
    ensures v != []
  {
    var k := code - FIRST_CODE;
    if code < FIRST_CODE || vs == [] then [code]
    else if k + 1 < |vs| then vs[k] + [vs[k + 1][0]]
    else vs[|vs| - 1] + [vs[|vs| - 1][0]]
  }

  /** The expansions of `codes` read after `vs`. */
  function Expand(vs: seq<Text>, codes: Text): seq<Text>
    requires NoneEmpty(vs)
    decreases |codes|
  {
    if codes == [] then vs else Expand(vs + [Next(vs, codes[0])], codes[1..])
  }

  lemma ExpandCons(vs: seq<Text>, code: nat, more: Text)
    requires NoneEmpty(vs)
    ensures Expand(vs, [code] + more) == Expand(vs + [Next(vs, code)], more)
  {
    assert ([code] + more)[1..] == more;
  }

  function Expansions(data: Text): seq<Text> {
    Expand([], data)
  }

  /** The decoder's table after the expansions `vs`: exactly one entry per pair of neighbours. */
  ghost predicate TableOk(e: map<nat, Text>, vs: seq<Text>) {
    && vs != [] && NoneEmpty(vs)
    && (forall a :: a in e <==> FIRST_CODE <= a < FIRST_CODE + |vs| - 1)
    && (forall a :: a in e ==> e[a] == Pair(vs, a - FIRST_CODE))
  }

  /** The table entry made of expansion `k` and the first character of the next one. */
  function Pair(vs: seq<Text>, k: nat): Text
    requires k + 1 < |vs| && vs[k + 1] != []
  {
    vs[k] + [vs[k + 1][0]]
  }

  lemma TableGrows(e: map<nat, Text>, vs: seq<Text>, value: Text)
    requires TableOk(e, vs) && value != []
    ensures TableOk(e[FIRST_CODE + |vs| - 1 := vs[|vs| - 1] + [value[0]]], vs + [value])
  {
    var after, longer := e[FIRST_CODE + |vs| - 1 := vs[|vs| - 1] + [value[0]]], vs + [value];
    forall a | a in after ensures after[a] == Pair(longer, a - FIRST_CODE) {
      if a in e { assert e[a] == Pair(vs, a - FIRST_CODE); }
    }
  }

  lemma ConcatStep(parts: seq<Text>, v: Text)
    ensures Concat(parts + [v]) == Concat(parts) + v
  {
    assert (parts + [v])[..|parts|] == parts;
  }

  /** One turn of the decoder's loop. */
  lemma DecodeStep(e: map<nat, Text>, vs: seq<Text>, a: nat, more: Text)
    requires TableOk(e, vs)
    ensures var f := vs[|vs| - 1];
            var value: Text := if a < FIRST_CODE then [a] else if a in e then e[a] else f + [f[0]];
            && value == Next(vs, a) && value != []
            && TableOk(e[FIRST_CODE + |vs| - 1 := f + [value[0]]], vs + [value])
            && Concat(vs + [value]) == Concat(vs) + value
            && Expand(vs + [value], more) == Expand(vs, [a] + more)
  {
    var value := Next(vs, a);
    if a in e { assert e[a] == Pair(vs, a - FIRST_CODE); }
    ConcatStep(vs, value);
    TableGrows(e, vs, value);
    ExpandCons(vs, a, more);
  }

  /** The first code is a literal. */
  lemma DecodeStart(data: Text)
    requires data != []
    ensures var vs: seq<Text> := [[data[0]]];
            TableOk(map[], vs) && Concat(vs) == [data[0]] && Expand(vs, data[1..]) == Expansions(data)
  {
    var f := [data[0]];
    ConcatStep([], f);
    ExpandCons([], data[0], data[1..]);
    assert data == [data[0]] + data[1..] && [] + [f] == [f];
  }

  /** The decoder: `e` is the table, `f` the previous expansion, `c` its first character, `o` the
      next table code, `g` the output. */
  method Decode(data: Text) returns (g: Text)
    ensures g == Concat(Expansions(data))
  {
    if data == [] {
      return [];
    }
    var e: map<nat, Text> := map[];
    var c := data[0];
    var f := [data[0]];
    g := f;
    var o := FIRST_CODE;
    var i := 1;
    ghost var vs := [f];
    DecodeStart(data);
    while i < |data|
      invariant 1 <= i <= |data| && o == FIRST_CODE + i - 1
      invariant |vs| == i && TableOk(e, vs)
      invariant Expand(vs, data[i..]) == Expansions(data)
      invariant f == vs[i - 1] && c == f[0]
      invariant g == Concat(vs)
    {
      var a := data[i];
      ghost var more := data[i + 1..];
      assert data[i..] == [a] + more;
      var value: Text := if a < FIRST_CODE then [a] else if a in e then e[a] else f + [c];
      DecodeStep(e, vs, a, more);
      g := g + value;
      c := value[0];
      e := e[o := f + [c]];
      o := o + 1;
      f := value;
      vs := vs + [value];
      i := i + 1;
    }
  }

  // ---------- the expansions by position ----------

  /** What code `data[i]` expands to after the expansions `vs[..i]`: the first is a literal; behind it a code below 256
      stands for itself, and `256 + k` for expansion `k` and the first character of expansion `k + 1`, or of the last one
      as long as that is not there. */
  ghost predicate ExpandsAt(data: Text, vs: seq<Text>, i: nat)
    requires i < |data| == |vs|
  {
    && vs[i] != []
    && (i == 0 || data[i] < 256 ==> vs[i] == [data[i]])
    && (i > 0 && data[i] >= 256 ==>
          var k := data[i] - 256;
          var last := i - 1;
          if k < last then vs[k + 1] != [] && vs[i] == vs[k] + [vs[k + 1][0]]
          else vs[last] != [] && vs[i] == vs[last] + [vs[last][0]])
  }

  lemma {:induction false} ExpandKeeps(vs: seq<Text>, codes: Text)
    requires NoneEmpty(vs)
    ensures var all := Expand(vs, codes); |all| == |vs| + |codes| && vs <= all && NoneEmpty(all)
    decreases |codes|
  {
    if codes != [] { ExpandKeeps(vs + [Next(vs, codes[0])], codes[1..]); }
  }

  lemma {:induction false} ExpandedAt(vs: seq<Text>, codes: Text, i: nat)
    requires NoneEmpty(vs) && |vs| <= i < |vs| + |codes|
    ensures var all := Expand(vs, codes);
            |all| == |vs| + |codes| && NoneEmpty(all[..i]) && all[i] == Next(all[..i], codes[i - |vs|])
    decreases |codes|
  {
    var longer := vs + [Next(vs, codes[0])];
    ExpandKeeps(longer, codes[1..]);
    if i == |vs| {
      assert Expand(vs, codes)[..i] == vs;
    } else {
      ExpandedAt(longer, codes[1..], i);
    }
  }

  /** The decoder's expansions are the ones described by position, for every data. */
  lemma ExpansionsByPosition(data: Text)
    ensures |Expansions(data)| == |data|
    ensures forall i :: 0 <= i < |data| ==> ExpandsAt(data, Expansions(data), i)
  {
    var vs := Expansions(data);
    ExpandKeeps([], data);
    forall i | 0 <= i < |data| ensures ExpandsAt(data, vs, i) {
      ExpandedAt([], data, i);
      NextByPosition(vs, i, data[i]);
    }
  }

  lemma NextByPosition(vs: seq<Text>, i: nat, code: nat)
    requires i <= |vs| && NoneEmpty(vs[..i])
    ensures i == 0 || code < 256 ==> Next(vs[..i], code) == [code]
    ensures i > 0 && code >= 256 ==>
              Next(vs[..i], code) == if code - 256 < i - 1 then vs[code - 256] + [vs[..i][code - 255][0]]
                                     else vs[i - 1] + [vs[..i][i - 1][0]]
  {
  }

  // ---------- the textbook encoder ----------

  function IndexOf(table: seq<Text>, w: Text): (i: nat)
    requires w in table
    ensures i < |table| && table[i] == w
  {
    if table[0] == w then 0 else 1 + IndexOf(table[1..], w)
  }

  predicate Known(table: seq<Text>, w: Text) {
    |w| == 1 || w in table
  }

  function Code(table: seq<Text>, w: Text): nat
    requires |w| > 0 && Known(table, w)
  {
    if |w| == 1 then w[0] else FIRST_CODE + IndexOf(table, w)
  }

  /** Textbook LZW from the middle of a string: `w` is the longest known phrase read so far.  Emitting
      its code adds the phrase one character longer to the table. */
  function EncodeFrom(w: Text, rest: Text, table: seq<Text>): (codes: Text)
    requires |w| > 0 && Known(table, w)
    ensures 0 < |codes| <= |rest| + 1
    decreases |rest|
  {
    if rest == [] then [Code(table, w)]
    else if Known(table, w + [rest[0]]) then EncodeFrom(w + [rest[0]], rest[1..], table)
    else [Code(table, w)] + EncodeFrom([rest[0]], rest[1..], table + [w + [rest[0]]])
  }

  function Encode(s: Text): Text {
    if s == [] then [] else EncodeFrom([s[0]], s[1..], [])
  }

  // ---------- decoding inverts encoding ----------

  predicate IsText(s: Text) {
    forall i :: 0 <= i < |s| ==> s[i] < FIRST_CODE
  }

  /** The encoder is one table entry ahead: after the expansions `vs`, entry `k` of its table is
      complete for the decoder exactly when expansion `k + 1` is there, and the last entry ends in
      the character the encoder has just read. */
  ghost predicate InStep(vs: seq<Text>, table: seq<Text>, w: Text) {
    && |table| == |vs|
    && w != []
    && NoneEmpty(vs)
    && (forall k :: 0 <= k < |vs| ==>
          table[k] == vs[k] + [Follower(vs, k, w[0])])
  }

  /** The character after expansion `k`. */
  function Follower(vs: seq<Text>, k: nat, read: nat): nat
    requires k < |vs| && NoneEmpty(vs)
  {
    if k + 1 < |vs| then vs[k + 1][0] else read
  }

  /** A phrase is not mistaken for a code: it has its own code, is a character below 256, or is the first of all. */
  predicate Plain(table: seq<Text>, w: Text) {
    table == [] || |w| > 1 || (|w| == 1 && w[0] < FIRST_CODE)
  }

  /** Every phrase of the encoder's greedy division of the text is plain. */
  predicate PlainPhrases(w: Text, rest: Text, table: seq<Text>)
    decreases |rest|
  {
    if rest == [] then Plain(table, w)
    else if Known(table, w + [rest[0]]) then PlainPhrases(w + [rest[0]], rest[1..], table)
    else Plain(table, w) && PlainPhrases([rest[0]], rest[1..], table + [w + [rest[0]]])
  }

  /** The code the encoder emits expands to the phrase it stands for, also when the decoder has not
      stored that entry yet. */
  lemma CodeExpands(vs: seq<Text>, table: seq<Text>, w: Text)
    requires InStep(vs, table, w) && Known(table, w) && Plain(table, w)
    ensures Next(vs, Code(table, w)) == w
  {
    if |w| > 1 {
      var k := IndexOf(table, w);
      assert table[k] == vs[k] + [Follower(vs, k, w[0])];
      if k + 1 == |vs| {
        assert w == vs[k] + [w[0]];
        assert w[0] == vs[k][0];
      }
    } else {
      assert w == [w[0]];
    }
  }

  /** Reading one more character of the current phrase. */
  lemma ReadKeepsInStep(vs: seq<Text>, table: seq<Text>, w: Text, x: nat)
    requires InStep(vs, table, w)
    ensures InStep(vs, table, w + [x])
  {
    assert (w + [x])[0] == w[0];
  }

  /** Emitting the phrase: decoder and encoder both grow by one, and the encoder stays ahead. */
  lemma EmitKeepsInStep(vs: seq<Text>, table: seq<Text>, w: Text, x: nat)
    requires InStep(vs, table, w)
    ensures InStep(vs + [w], table + [w + [x]], [x])
  {
    var vs', table' := vs + [w], table + [w + [x]];
    forall k | 0 <= k < |vs'| ensures table'[k] == vs'[k] + [Follower(vs', k, x)] {
      if k < |vs| {
        assert table[k] == vs[k] + [Follower(vs, k, w[0])];
      }
    }
  }

  lemma Regroup(a: Text, w: Text, rest: Text)
    requires rest != []
    ensures a + (w + [rest[0]]) + rest[1..] == a + w + rest
    ensures a + w + [rest[0]] + rest[1..] == a + w + rest
  {
  }

  lemma {:induction false} DecodesFrom(vs: seq<Text>, w: Text, rest: Text, table: seq<Text>)
    requires InStep(vs, table, w) && Known(table, w) && PlainPhrases(w, rest, table)
    ensures Concat(Expand(vs, EncodeFrom(w, rest, table))) == Concat(vs) + w + rest
    decreases |rest|
  {
    var code := Code(table, w);
    ConcatStep(vs, w);
    if rest == [] {
      CodeExpands(vs, table, w);
      ExpandCons(vs, code, []);
      assert [code] + [] == [code];
      assert Concat(vs) + w + rest == Concat(vs) + w;
    } else {
      var x := rest[0];
      Regroup(Concat(vs), w, rest);
      if Known(table, w + [x]) {
        ReadKeepsInStep(vs, table, w, x);
        DecodesFrom(vs, w + [x], rest[1..], table);
      } else {
        CodeExpands(vs, table, w);
        EmitKeepsInStep(vs, table, w, x);
        var more := EncodeFrom([x], rest[1..], table + [w + [x]]);
        assert EncodeFrom(w, rest, table) == [code] + more;
        DecodesFrom(vs + [w], [x], rest[1..], table + [w + [x]]);
        ExpandCons(vs, code, more);
      }
    }
  }

  lemma {:induction false} TextHasPlainPhrases(w: Text, rest: Text, table: seq<Text>)
    requires w != [] && IsText(w) && IsText(rest)
    ensures PlainPhrases(w, rest, table)
    decreases |rest|
  {
    if rest != [] {
      TextHasPlainPhrases(w + [rest[0]], rest[1..], table);
      TextHasPlainPhrases([rest[0]], rest[1..], table + [w + [rest[0]]]);
    }
  }

  /** For every text over characters below 256, decoding its LZW encoding returns the text. */
  lemma DecodeInvertsEncode(s: Text)
    requires forall i :: 0 <= i < |s| ==> s[i] < 256
    ensures Concat(Expansions(Encode(s))) == s
  {
    if s != [] {
      TextHasPlainPhrases([s[0]], s[1..], []);
      DecodesFrom([], [s[0]], s[1..], []);
      assert [] + [s[0]] + s[1..] == s;
    }
  }

  /** The encoding is never longer than the text, and different texts have different encodings. */
  lemma EncodeIsInjectiveAndShort(s: Text, t: Text)
    requires IsText(s) && IsText(t)
    ensures |Encode(s)| <= |s|
    ensures Encode(s) == Encode(t) ==> s == t
  {
    DecodeInvertsEncode(s);
    DecodeInvertsEncode(t);
  }

  lemma {:induction false} CodesFrom(w: Text, rest: Text, table: seq<Text>, i: nat)
    requires w != [] && Known(table, w) && IsText(w) && IsText(rest)
    requires i < |EncodeFrom(w, rest, table)|
    ensures var code := EncodeFrom(w, rest, table)[i];
            code < 256 || 256 <= code < 256 + |table| + i
    decreases |rest|
  {
    if rest != [] {
      if Known(table, w + [rest[0]]) {
        CodesFrom(w + [rest[0]], rest[1..], table, i);
      } else if i > 0 {
        CodesFrom([rest[0]], rest[1..], table + [w + [rest[0]]], i - 1);
      }
    }
  }

  /** The codes are characters below 256, and at place `i` the codes 256, ..., 256 + i - 1. */
  lemma CodesAreSmall(s: Text, i: nat)
    requires (forall j :: 0 <= j < |s| ==> s[j] < 256) && i < |Encode(s)|
    ensures Encode(s)[i] < 256 || 256 <= Encode(s)[i] < 256 + i
  {
    CodesFrom([s[0]], s[1..], [], i);
  }

  /** The encoding of "abab", and what it decodes to. */
  lemma EncodedAbab()
    ensures Encode([97, 98, 97, 98]) == [97, 98, 256]
    ensures Concat(Expansions([97, 98, 256])) == [97, 98, 97, 98]
  {
    var ab: Text := [97, 98];
    assert [97, 98, 97, 98][1..] == [98, 97, 98] && [98, 97, 98][1..] == [97, 98] && ab[1..] == [98];
    assert [97] + [98] == ab && [98] + [97] == [98, 97];
    assert [98][1..] == [] && [ab] + [[98, 97]] == [ab, [98, 97]] && [] + [ab] == [ab];
    assert Code([ab, [98, 97]], ab) == 256;
    assert EncodeFrom(ab, [], [ab, [98, 97]]) == [256];
    assert EncodeFrom([97], [98], [ab, [98, 97]]) == [256];
    assert [98] !in [ab] && [98, 97] !in [ab] && ab !in [];
    assert EncodeFrom([98], [97, 98], [ab]) == [98, 256];
    assert EncodeFrom([97], [98, 97, 98], []) == [97, 98, 256];
    DecodeInvertsEncode([97, 98, 97, 98]);
  }

  // ---------- characters from 256 on ----------

  /** The decoder's expansions are at least as long as the encoder's phrases, so that its entries are too. */
  ghost predicate AtLeastAsLong(vs: seq<Text>, table: seq<Text>) {
    |table| == |vs| && NoneEmpty(vs) && forall k :: 0 <= k < |vs| ==> |table[k]| <= |vs[k]| + 1
  }

  /** A code expands to at least the length of its phrase, and to more when the phrase is not plain. */
  lemma CodeExpandsLonger(vs: seq<Text>, table: seq<Text>, w: Text)
    requires AtLeastAsLong(vs, table) && w != [] && Known(table, w)
    ensures |w| <= |Next(vs, Code(table, w))|
    ensures !Plain(table, w) ==> |w| < |Next(vs, Code(table, w))|
  {
    if |w| > 1 {
      assert |table[IndexOf(table, w)]| <= |vs[IndexOf(table, w)]| + 1;
    }
  }

  lemma {:induction false} DecodesLonger(vs: seq<Text>, w: Text, rest: Text, table: seq<Text>)
    requires AtLeastAsLong(vs, table) && w != [] && Known(table, w)
    ensures var decoded := |Concat(Expand(vs, EncodeFrom(w, rest, table)))|;
            && |Concat(vs)| + |w| + |rest| <= decoded
            && (!PlainPhrases(w, rest, table) ==> |Concat(vs)| + |w| + |rest| < decoded)
    decreases |rest|
  {
    var code := Code(table, w);
    var v := Next(vs, code);
    CodeExpandsLonger(vs, table, w);
    ConcatStep(vs, v);
    if rest == [] {
      ExpandCons(vs, code, []);
      assert [code] + [] == [code];
    } else if Known(table, w + [rest[0]]) {
      DecodesLonger(vs, w + [rest[0]], rest[1..], table);
    } else {
      var more := EncodeFrom([rest[0]], rest[1..], table + [w + [rest[0]]]);
      assert EncodeFrom(w, rest, table) == [code] + more;
      DecodesLonger(vs + [v], [rest[0]], rest[1..], table + [w + [rest[0]]]);
      ExpandCons(vs, code, more);
    }
  }

  /** Any text is preserved exactly when no phrase behind the first is a single character from 256 on; otherwise the
      decoder reads that character as a code and returns a longer text. */
  lemma PreservedIff(s: Text)
    requires s != []
    ensures Concat(Expansions(Encode(s))) == s <==> PlainPhrases([s[0]], s[1..], [])
    ensures |s| <= |Concat(Expansions(Encode(s)))|
  {
    DecodesLonger([], [s[0]], s[1..], []);
    if PlainPhrases([s[0]], s[1..], []) {
      DecodesFrom([], [s[0]], s[1..], []);
      assert [] + [s[0]] + s[1..] == s;
    }
  }

  /** Below 256, or the first character of the message. */
  predicate SmallOr(first: nat, v: Text) {
    forall i :: 0 <= i < |v| ==> v[i] < FIRST_CODE || v[i] == first
  }

  ghost predicate AllSmallOr(first: nat, vs: seq<Text>) {
    forall k :: 0 <= k < |vs| ==> SmallOr(first, vs[k])
  }

  lemma {:induction false} ExpandedCharacters(vs: seq<Text>, codes: Text, first: nat)
    requires NoneEmpty(vs) && vs != [] && AllSmallOr(first, vs)
    ensures AllSmallOr(first, Expand(vs, codes))
    decreases |codes|
  {
    if codes != [] {
      assert SmallOr(first, Next(vs, codes[0])) by {
        var k := codes[0] - FIRST_CODE;
        if 0 <= k && k + 1 < |vs| { assert SmallOr(first, vs[k]) && SmallOr(first, vs[k + 1]); }
      }
      ExpandedCharacters(vs + [Next(vs, codes[0])], codes[1..], first);
    }
  }

  lemma {:induction false} ConcatCharacters(vs: seq<Text>, first: nat)
    requires AllSmallOr(first, vs)
    ensures SmallOr(first, Concat(vs))
  {
    if vs != [] {
      ConcatCharacters(vs[..|vs| - 1], first);
      assert SmallOr(first, vs[|vs| - 1]);
    }
  }

  /** Whatever is received, every decoded character is below 256 or the first one. */
  lemma DecodedCharacters(data: Text)
    requires data != []
    ensures SmallOr(data[0], Concat(Expansions(data)))
  {
    DecodeStart(data);
    ExpandedCharacters([[data[0]]], data[1..], data[0]);
    ConcatCharacters(Expansions(data), data[0]);
  }

  /** A text that begins below 256 is preserved exactly when all its characters are below 256; in general a preserved
      text repeats no character from 256 on but its first. */
  lemma LargeCharactersAreLost(s: Text)
    requires s != []
    ensures Concat(Expansions(Encode(s))) == s ==> SmallOr(s[0], s)
    ensures s[0] < 256 ==> (Concat(Expansions(Encode(s))) == s <==> forall i :: 0 <= i < |s| ==> s[i] < 256)
  {
    assert Encode(s)[0] == s[0];
    DecodedCharacters(Encode(s));
    if IsText(s) {
      DecodeInvertsEncode(s);
    }
  }
}
