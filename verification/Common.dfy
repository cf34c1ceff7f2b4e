/** What several components share: bytes, an optional value, a value-or-error, a table built from pairs,
    and the string operations of the standard library that the components use. */
module Common {
  type Byte = b: nat | b < 256

  datatype Option<+T> = None | Some(value: T)

  datatype Result<+T, +E> = Ok(value: T) | Err(error: E)

  /** A value bound to a statement (`src/executor.rs`).  An instant counts nanoseconds from 1970. */
  datatype Param = Null | Int(i: int) | Float(x: real) | Timestamp(t: int) | Bytea(bytes: seq<Byte>)

  /** PostgreSQL refuses a statement with more bound values. */
  const MAX_PARAMETERS: nat := 65_535

  predicate IsSmallint(v: int) {
    -0x8000 <= v < 0x8000
  }

  /** `as i16`: what the driver sends of an integer for a `smallint`. */
  function Wrap16(v: int): (w: int)
    ensures (w - v) % 0x1_0000 == 0
    ensures IsSmallint(w) && (w == v <==> IsSmallint(v))
  {
    (v + 0x8000) % 0x1_0000 - 0x8000
  }

  /** `as i32`. */
  function Wrap32(v: int): (w: int)
    ensures -0x8000_0000 <= w < 0x8000_0000 && (w - v) % 0x1_0000_0000 == 0
    ensures w == v <==> -0x8000_0000 <= v < 0x8000_0000
  {
    (v + 0x8000_0000) % 0x1_0000_0000 - 0x8000_0000
  }

  /** A query area: the WKB of its envelope, and of the geometry when it is not its own envelope. */
  datatype Area = Area(envelope: seq<Byte>, geometry: Option<seq<Byte>>)

  /** A table filled pair by pair: a later pair replaces an earlier one with the same key. */
  function MapOf<V>(pairs: seq<(string, V)>): (m: map<string, V>)
    ensures forall i :: 0 <= i < |pairs| ==> pairs[i].0 in m
    ensures forall k :: k in m ==> exists i :: 0 <= i < |pairs| && pairs[i] == (k, m[k])
  {
    if pairs == [] then map[]
    else
      var last := |pairs| - 1;
      var before := MapOf(pairs[..last]);
      assert forall i :: 0 <= i < last ==> pairs[..last][i] == pairs[i];
      before[pairs[last].0 := pairs[last].1]
  }

  lemma {:induction false} LastPairCounts<V>(pairs: seq<(string, V)>, i: nat)
    requires i < |pairs| && forall j :: i < j < |pairs| ==> pairs[j].0 != pairs[i].0
    ensures MapOf(pairs)[pairs[i].0] == pairs[i].1
  {
    var last := |pairs| - 1;
    if i < last {
      assert forall j :: 0 <= j < last ==> pairs[..last][j] == pairs[j];
      LastPairCounts(pairs[..last], i);
    }
  }

  /** The Unicode `White_Space` property, which `char::is_whitespace` tests. */
  predicate IsWhite(c: char) {
    || '\U{0009}' <= c <= '\U{000D}' || c == ' ' || c == '\U{0085}' || c == '\U{00A0}' || c == '\U{1680}'
    || '\U{2000}' <= c <= '\U{200A}' || c == '\U{2028}' || c == '\U{2029}' || c == '\U{202F}'
    || c == '\U{205F}' || c == '\U{3000}'
  }

  /** `str::trim_end`. */
  function TrimEnd(s: string): string {
    if s != "" && IsWhite(s[|s| - 1]) then TrimEnd(s[..|s| - 1]) else s
  }

  /** Position of the first `c` at or after `from`, `|s|` when there is none. */
  function Find(s: string, c: char, from: nat): (pos: nat)
    requires from <= |s|
    ensures from <= pos <= |s| && (pos < |s| ==> s[pos] == c) && c !in s[from..pos]
    decreases |s| - from
  {
    if from == |s| || s[from] == c then from else Find(s, c, from + 1)
  }

  lemma {:induction false} FindFirst(s: string, c: char, from: nat, at: nat)
    requires from <= at <= |s| && (at < |s| ==> s[at] == c) && c !in s[from..at]
    ensures Find(s, c, from) == at
    decreases at - from
  {
    if from < at {
      assert s[from] == s[from..at][0] && s[from + 1..at] == s[from..at][1..];
      FindFirst(s, c, from + 1, at);
    }
  }

  lemma {:induction false} FindShift(s: string, t: string, c: char, i: nat)
    requires i <= |t|
    ensures Find(s + t, c, |s| + i) == |s| + Find(t, c, i)
    decreases |t| - i
  {
    if i < |t| && t[i] != c { FindShift(s, t, c, i + 1); }
  }

  function Decimal(n: nat): (s: string)
    ensures s != "" && forall i :: 0 <= i < |s| ==> '0' <= s[i] <= '9'
  {
    var digit := ['0' + (n % 10) as char];
    if n < 10 then digit else Decimal(n / 10) + digit
  }

  predicate AllDigits(s: string) {
    forall i :: 0 <= i < |s| ==> '0' <= s[i] <= '9'
  }

  function DecimalValue(s: string): nat
    requires AllDigits(s)
  {
    if s == "" then 0 else 10 * DecimalValue(s[..|s| - 1]) + (s[|s| - 1] - '0') as nat
  }

  lemma {:induction false} DecimalIsReadBack(n: nat)
    ensures AllDigits(Decimal(n)) && DecimalValue(Decimal(n)) == n
  {
    if n >= 10 {
      DecimalIsReadBack(n / 10);
      assert Decimal(n)[..|Decimal(n)| - 1] == Decimal(n / 10);
    }
  }

  function Signed(n: int): string {
    if n < 0 then "-" + Decimal(-n) else Decimal(n)
  }
}
