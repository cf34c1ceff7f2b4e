/** The text that `src/query.rs` sends, read back: a server takes `$` and the digits behind it for one placeholder. */
module SentText {
  import opened Common
  import opened QueryText

  predicate IsDigit(c: char) {
    '0' <= c <= '9'
  }

  // ---------- the text of a statement ----------

  /** Text before a statement. */
  function TextBefore(s: string, rest: Statement): Statement {
    if s == "" then rest else Text(s[0], TextBefore(s[1..], rest))
  }

  /** The statement with its casts as text, which is all a reader sees of them. */
  function Flatten(st: Statement): Statement {
    match st
    case Done => Done
    case Text(c, rest) => Text(c, Flatten(rest))
    case Dollar(k, cast, rest) =>
      Dollar(k, None, if cast.Some? then TextBefore("::" + cast.value, Flatten(rest)) else Flatten(rest))
  }

  predicate IsFlat(st: Statement) {
    match st
    case Done => true
    case Text(_, rest) => IsFlat(rest)
    case Dollar(_, cast, rest) => cast.None? && IsFlat(rest)
  }

  /** The text of a flat statement. */
  function Show(st: Statement): string {
    match st
    case Done => ""
    case Text(c, rest) => [c] + Show(rest)
    case Dollar(k, _, rest) => "$" + Decimal(k) + Show(rest)
  }

  lemma {:induction false} ShowBefore(s: string, rest: Statement)
    ensures Show(TextBefore(s, rest)) == s + Show(rest)
    ensures IsFlat(rest) ==> IsFlat(TextBefore(s, rest))
  {
    if s != "" {
      ShowBefore(s[1..], rest);
      assert [s[0]] + (s[1..] + Show(rest)) == s + Show(rest);
    }
  }

  lemma {:induction false} FlattenIsFlat(st: Statement)
    ensures IsFlat(Flatten(st))
  {
    if !st.Done? {
      FlattenIsFlat(st.rest);
      if st.Dollar? && st.cast.Some? { ShowBefore("::" + st.cast.value, Flatten(st.rest)); }
    }
  }

  /** The rewriting pass writes the text of its statement. */
  lemma {:induction false} RenderShows(out: string, st: Statement)
    ensures Render(out, st) == out + Show(Flatten(st))
    decreases st
  {
    match st
    case Done =>
    case Text(c, rest) =>
      RenderShows(out + [c], rest);
    case Dollar(k, cast, rest) =>
      RenderShows(out + Shown(k, cast), rest);
      if cast.Some? {
        ShowBefore("::" + cast.value, Flatten(rest));
        assert Shown(k, cast) == "$" + Decimal(k) + ("::" + cast.value);
      }
      ShowDollar(out, k, cast, Flatten(rest));
  }

  lemma ShowDollar(out: string, k: nat, cast: Option<string>, rest: Statement)
    requires cast.Some? ==> Show(TextBefore("::" + cast.value, rest)) == "::" + cast.value + Show(rest)
    ensures var after := if cast.Some? then TextBefore("::" + cast.value, rest) else rest;
            out + Show(Dollar(k, None, after)) == out + Shown(k, cast) + Show(rest)
  {
    if cast.Some? {
      assert "$" + Decimal(k) + ("::" + cast.value + Show(rest)) ==
             "$" + Decimal(k) + "::" + cast.value + Show(rest);
    }
  }

  // ---------- reading it ----------

  /** The position behind the digits from `from` on. */
  function DigitsEnd(s: string, from: nat): (end: nat)
    requires from <= |s|
    ensures from <= end <= |s| && (end < |s| ==> !IsDigit(s[end]))
    ensures forall i :: from <= i < end ==> IsDigit(s[i])
    decreases |s| - from
  {
    if from == |s| || !IsDigit(s[from]) then from else DigitsEnd(s, from + 1)
  }

  lemma {:induction false} DigitsEndAt(s: string, from: nat, at: nat)
    requires from <= at <= |s| && (forall i :: from <= i < at ==> IsDigit(s[i]))
    ensures DigitsEnd(s, from) == DigitsEnd(s, at)
    decreases at - from
  {
    if from < at { DigitsEndAt(s, from + 1, at); }
  }

  /** Reading a text: each `$` with digits behind it is a placeholder, with as many digits as there are. */
  function Read(s: string): Statement
    decreases |s|
  {
    if s == "" then Done
    else if s[0] == '$' && |s| > 1 && IsDigit(s[1]) then
      var end := DigitsEnd(s, 1);
      Dollar(DecimalValue(s[1..end]), None, Read(s[end..]))
    else Text(s[0], Read(s[1..]))
  }

  predicate StartsWithDigit(st: Statement) {
    st.Text? && IsDigit(st.c)
  }

  /** No digit follows a placeholder or a `$` of the text. */
  predicate Unambiguous(st: Statement) {
    match st
    case Done => true
    case Text(c, rest) => (c == '$' ==> !StartsWithDigit(rest)) && Unambiguous(rest)
    case Dollar(_, _, rest) => !StartsWithDigit(rest) && Unambiguous(rest)
  }

  lemma FirstShown(st: Statement)
    ensures st.Done? <==> Show(st) == ""
    ensures StartsWithDigit(st) <==> Show(st) != "" && IsDigit(Show(st)[0])
  {
  }

  lemma ReadPlaceholder(k: nat, rest: string)
    requires rest != "" ==> !IsDigit(rest[0])
    ensures Read("$" + Decimal(k) + rest) == Dollar(k, None, Read(rest))
  {
    var s, at := "$" + Decimal(k) + rest, 1 + |Decimal(k)|;
    assert s[1..at] == Decimal(k) && s[at..] == rest;
    DigitsEndAt(s, 1, at);
    DecimalIsReadBack(k);
    assert s[1] == Decimal(k)[0];
  }

  /** With more digits behind it, what is left does not begin with a digit. */
  lemma ReadLongerPlaceholder(k: nat, rest: string)
    requires rest != "" && IsDigit(rest[0])
    ensures Read("$" + Decimal(k) + rest).Dollar? && !StartsWithDigit(Read("$" + Decimal(k) + rest).rest)
  {
    var s := "$" + Decimal(k) + rest;
    assert s[1] == Decimal(k)[0];
  }

  lemma ReadText(c: char, rest: string)
    ensures Read([c] + rest) ==
            if c == '$' && rest != "" && IsDigit(rest[0]) then Read([c] + rest) else Text(c, Read(rest))
    ensures c == '$' && rest != "" && IsDigit(rest[0]) ==> Read([c] + rest).Dollar?
  {
    assert ([c] + rest)[1..] == rest;
  }

  /** Reading the text of a statement gives the statement back exactly when no digit follows a placeholder or a `$`. */
  lemma {:induction false} ReadIff(st: Statement)
    requires IsFlat(st)
    ensures Read(Show(st)) == st <==> Unambiguous(st)
  {
    match st
    case Done =>
    case Text(c, rest) =>
      ReadIff(rest);
      FirstShown(rest);
      ReadText(c, Show(rest));
    case Dollar(k, _, rest) =>
      ReadIff(rest);
      FirstShown(rest);
      if StartsWithDigit(rest) {
        ReadLongerPlaceholder(k, Show(rest));
      } else {
        ReadPlaceholder(k, Show(rest));
      }
  }

  /** The text sent reads as the rewritten statement exactly when no digit follows a placeholder or a `$` in it. */
  lemma SentTextIsReadBack(sql: Sql, index: map<string, nat>, casts: map<string, string>)
    ensures var st := Rewrite(sql, index, casts);
            Read(Render("", st)) == Flatten(st) <==> Unambiguous(Flatten(st))
  {
    var st := Rewrite(sql, index, casts);
    RenderShows("", st);
    FlattenIsFlat(st);
    ReadIff(Flatten(st));
    assert "" + Show(Flatten(st)) == Show(Flatten(st));
  }
}
