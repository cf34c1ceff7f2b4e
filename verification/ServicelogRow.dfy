/** The servicelog line of `src/service_log.rs`: fifteen fields, separated by tabs, with a city padded so that the
    field after it starts in a fixed column. */
module ServicelogRow {
  import opened Common
  import Instants

  const TAB_STOP: nat := 8
  const CITY_TABS: nat := 4

  datatype LocalGrid = LocalGrid(x: int, y: int, dataArea: int)

  /** A recorded request; `fill` is its percentage already printed with three decimals. */
  datatype Entry = Entry(nowUs: int, minuteLength: int, gridBaselength: Option<int>, minuteOffset: int, region: int,
                         countThreshold: Option<int>, fill: Option<string>, queryType: char,
                         local: Option<LocalGrid>)

  // ---------- the parts ----------

  function Digit(n: nat): char
    requires n < 10
  {
    '0' + n as char
  }

  function Two(n: nat): (s: string)
    requires n < 100
    ensures |s| == 2
  {
    [Digit(n / 10), Digit(n % 10)]
  }

  predicate InCalendar(nowUs: int) {
    Instants.InCalendar(nowUs * 1_000)
  }

  /** The second of the UTC day; midnight when the calendar has no such day. */
  function SecondShown(nowUs: int): (second: nat)
    ensures second < 86_400
  {
    if InCalendar(nowUs) then nowUs / 1_000_000 % 86_400 else 0
  }

  /** `format_timestamp`: the wall-clock time with milliseconds. */
  function FormatTimestamp(nowUs: int): (s: string)
    ensures |s| == 12
  {
    var second := SecondShown(nowUs);
    var millis := nowUs / 1_000 % 1_000;
    Two(second / 3_600) + ":" + Two(second / 60 % 60) + ":" + Two(second % 60) + "." + [Digit(millis / 100)]
    + Two(millis % 100)
  }

  function DigitValue(c: char): int {
    c as int - '0' as int
  }

  function TwoValue(s: string, i: nat): int
    requires i + 1 < |s|
  {
    10 * DigitValue(s[i]) + DigitValue(s[i + 1])
  }

  /** The milliseconds of the day a time field shows. */
  function ShownMillis(s: string): int
    requires |s| == 12
  {
    ((TwoValue(s, 0) * 60 + TwoValue(s, 3)) * 60 + TwoValue(s, 6)) * 1_000 + 10 * TwoValue(s, 9) + DigitValue(s[11])
  }

  /** The time field shows the instant's millisecond of its UTC day, before 1970 too, exactly when the calendar has that
      day or the instant is in its first second; otherwise only the part below the second. */
  lemma TimestampShowsMillis(nowUs: int)
    ensures ShownMillis(FormatTimestamp(nowUs)) == nowUs / 1_000 % 86_400_000 <==>
            InCalendar(nowUs) || nowUs / 1_000_000 % 86_400 == 0
    ensures !InCalendar(nowUs) ==> ShownMillis(FormatTimestamp(nowUs)) == nowUs / 1_000 % 1_000
    ensures var s := FormatTimestamp(nowUs); s[2] == s[5] == ':' && s[8] == '.'
  {
    var s, second, millis := FormatTimestamp(nowUs), SecondShown(nowUs), nowUs / 1_000 % 1_000;
    assert TwoValue(s, 0) == second / 3_600 && TwoValue(s, 3) == second / 60 % 60 && TwoValue(s, 6) == second % 60;
    assert 10 * TwoValue(s, 9) + DigitValue(s[11]) == millis;
    SecondOfDay(second);
    assert ShownMillis(s) == second * 1_000 + millis;
    MillisOfDay(nowUs / 1_000);
    assert nowUs / 1_000 / 1_000 == nowUs / 1_000_000;
  }

  lemma SecondOfDay(second: nat)
    ensures (second / 3_600 * 60 + second / 60 % 60) * 60 + second % 60 == second
  {
    assert second / 3_600 == second / 60 / 60;
  }

  lemma MillisOfDay(millis: int)
    ensures millis / 1_000 % 86_400 * 1_000 + millis % 1_000 == millis % 86_400_000
  {
    var day := millis / 86_400_000;
    assert millis / 1_000 / 86_400 == day;
  }

  /** `calc_tab_pad_count` */
  function PadCount(length: nat): (tabs: nat)
    ensures 1 <= tabs <= CITY_TABS
  {
    var full := length / TAB_STOP;
    CITY_TABS - (if full < CITY_TABS - 1 then full else CITY_TABS - 1)
  }

  function Tabs(n: nat): (s: string)
    ensures |s| == n && forall i :: 0 <= i < n ==> s[i] == '\t'
  {
    seq(n, i => '\t')
  }

  function OrDash(v: Option<string>): string {
    if v.Some? then v.value else "-"
  }

  function SignedOrDash(v: Option<int>): string {
    if v.Some? then Signed(v.value) else "-"
  }

  function VersionText(version: Option<int>): string {
    if version.Some? then Signed(version.value) else "None"
  }

  function XOf(local: Option<LocalGrid>): Option<int> {
    if local.Some? then Some(local.value.x) else None
  }

  function YOf(local: Option<LocalGrid>): Option<int> {
    if local.Some? then Some(local.value.y) else None
  }

  function AreaOf(local: Option<LocalGrid>): Option<int> {
    if local.Some? then Some(local.value.dataArea) else None
  }

  /** The fifteen fields in order. */
  ghost predicate AreFields(f: seq<string>, e: Entry, platform: string, version: Option<int>, country: Option<string>,
                            city: Option<string>) {
    && |f| == 15
    && f[0] == FormatTimestamp(e.nowUs) && f[1] == OrDash(country) && f[2] == OrDash(city) && f[3] == platform
    && f[4] == VersionText(version) && f[5] == [e.queryType] && f[6] == Signed(e.minuteOffset)
    && f[7] == Signed(e.minuteLength) && f[8] == SignedOrDash(e.gridBaselength) && f[9] == Signed(e.region)
    && f[10] == SignedOrDash(e.countThreshold) && f[11] == SignedOrDash(XOf(e.local))
    && f[12] == SignedOrDash(YOf(e.local)) && f[13] == SignedOrDash(AreaOf(e.local)) && f[14] == OrDash(e.fill)
  }

  /** The first three fields with the padding. */
  function Head(f: seq<string>): string
    requires |f| == 15
  {
    f[0] + "\t" + f[1] + "\t" + f[2] + Tabs(PadCount(|f[2]|))
  }

  /** The line up to and with field `n - 1`. */
  function UpTo(f: seq<string>, n: nat): string
    requires |f| == 15 && 3 <= n <= 15
  {
    if n == 3 then Head(f)
    else if n == 4 then Head(f) + f[3]
    else UpTo(f, n - 1) + "\t" + f[n - 1]
  }

  function Row(f: seq<string>): string
    requires |f| == 15
  {
    UpTo(f, 15)
  }

  /** Push one more field. */
  method PushField(row: string, field: string, ghost f: seq<string>, ghost n: nat) returns (longer: string)
    requires |f| == 15 && 4 <= n < 15 && row == UpTo(f, n) && field == f[n]
    ensures longer == UpTo(f, n + 1)
  {
    longer := row + "\t";
    longer := longer + field;
  }

  /** Push the local part: three fields, `-` when the request was not local. */
  method PushLocal(row: string, local: Option<LocalGrid>, ghost f: seq<string>) returns (longer: string)
    requires |f| == 15 && row == UpTo(f, 11)
    requires f[11] == SignedOrDash(XOf(local)) && f[12] == SignedOrDash(YOf(local)) && f[13] == SignedOrDash(AreaOf(local))
    ensures longer == UpTo(f, 14)
  {
    if local.Some? {
      longer := PushField(row, Signed(local.value.x), f, 11);
      longer := PushField(longer, Signed(local.value.y), f, 12);
      longer := PushField(longer, Signed(local.value.dataArea), f, 13);
    } else {
      longer := row + "\t-\t-\t-";
      assert longer == row + "\t" + "-" + "\t" + "-" + "\t" + "-";
      assert UpTo(f, 13) == UpTo(f, 12) + "\t" + "-";
    }
  }

  /** `build_row`: only the city is followed by more than one tab. */
  method BuildRow(e: Entry, platform: string, version: Option<int>, country: Option<string>, city: Option<string>,
                  ghost f: seq<string>) returns (row: string)
    requires AreFields(f, e, platform, version, country, city)
    ensures row == Row(f)
  {
    var cityText := OrDash(city);
    row := FormatTimestamp(e.nowUs) + "\t" + OrDash(country) + "\t";
    row := row + cityText + Tabs(PadCount(|cityText|));
    row := row + platform;
    row := PushField(row, VersionText(version), f, 4);
    row := PushField(row, [e.queryType], f, 5);
    row := PushField(row, Signed(e.minuteOffset), f, 6);
    row := PushField(row, Signed(e.minuteLength), f, 7);
    row := PushField(row, SignedOrDash(e.gridBaselength), f, 8);
    row := PushField(row, Signed(e.region), f, 9);
    row := PushField(row, SignedOrDash(e.countThreshold), f, 10);
    row := PushLocal(row, e.local, f);
    row := PushField(row, OrDash(e.fill), f, 14);
  }

  // ---------- reading a line back ----------

  /** The parts between tabs, `""` between two of them. */
  function Split(s: string): (parts: seq<string>)
    ensures |parts| >= 1
  {
    if s == "" then [""]
    else
      var before, c := Split(s[..|s| - 1]), s[|s| - 1];
      if c == '\t' then before + [""] else before[..|before| - 1] + [before[|before| - 1] + [c]]
  }

  function NonEmpty(parts: seq<string>): seq<string> {
    if parts == [] then []
    else
      var last := parts[|parts| - 1];
      NonEmpty(parts[..|parts| - 1]) + if last == "" then [] else [last]
  }

  /** What a consumer gets: the parts that are not empty. */
  function Words(s: string): seq<string> {
    NonEmpty(Split(s))
  }

  /** The parts after one more character. */
  function Snoc(parts: seq<string>, c: char): seq<string>
    requires |parts| >= 1
  {
    if c == '\t' then parts + [""] else parts[..|parts| - 1] + [parts[|parts| - 1] + [c]]
  }

  lemma SplitSnoc(s: string, c: char)
    ensures Split(s + [c]) == Snoc(Split(s), c)
  {
    assert (s + [c])[..|s + [c]| - 1] == s;
  }

  lemma SnocAfter(before: seq<string>, parts: seq<string>, c: char)
    requires |parts| >= 1
    ensures Snoc(before + parts, c) == before + Snoc(parts, c)
  {
    assert (before + parts)[..|before + parts| - 1] == before + parts[..|parts| - 1];
  }

  lemma {:induction false} SplitAtTab(a: string, b: string)
    ensures Split(a + "\t" + b) == Split(a) + Split(b)
    decreases |b|
  {
    if b == "" {
      assert a + "\t" + b == a + ['\t'];
      SplitSnoc(a, '\t');
    } else {
      var shorter, c := b[..|b| - 1], b[|b| - 1];
      SplitAtTab(a, shorter);
      assert a + "\t" + b == (a + "\t" + shorter) + [c];
      SplitSnoc(a + "\t" + shorter, c);
      assert b == shorter + [c];
      SplitSnoc(shorter, c);
      SnocAfter(Split(a), Split(shorter), c);
    }
  }

  lemma {:induction false} NonEmptyConcat(a: seq<string>, b: seq<string>)
    ensures NonEmpty(a + b) == NonEmpty(a) + NonEmpty(b)
    decreases |b|
  {
    if b == [] {
      assert a + b == a;
    } else {
      var shorter := b[..|b| - 1];
      assert (a + b)[..|a + b| - 1] == a + shorter;
      NonEmptyConcat(a, shorter);
    }
  }

  lemma WordsAtTab(a: string, b: string)
    ensures Words(a + "\t" + b) == Words(a) + Words(b)
  {
    SplitAtTab(a, b);
    NonEmptyConcat(Split(a), Split(b));
  }

  predicate Good(field: string) {
    field != "" && '\t' !in field
  }

  lemma {:induction false} SplitOfPlain(field: string)
    requires '\t' !in field
    ensures Split(field) == [field]
  {
    if field != "" {
      var shorter := field[..|field| - 1];
      SplitOfPlain(shorter);
      assert shorter + [field[|field| - 1]] == field;
    }
  }

  lemma NonEmptyOne(w: string)
    ensures NonEmpty([w]) == if w == "" then [] else [w]
  {
    var one := [w];
    assert one[..|one| - 1] == [] && one[|one| - 1] == w;
    assert NonEmpty(one) == NonEmpty([]) + (if w == "" then [] else [w]);
  }

  lemma WordsOfField(field: string)
    requires Good(field)
    ensures Words(field) == [field]
  {
    SplitOfPlain(field);
    NonEmptyOne(field);
  }

  lemma WordsOfNothing()
    ensures Words("") == []
  {
    NonEmptyOne("");
  }

  /** Tabs at the end of a text add no words. */
  lemma {:induction false} WordsBeforeTabs(s: string, n: nat)
    ensures Words(s + Tabs(n)) == Words(s)
    decreases n
  {
    if n == 0 {
      assert s + Tabs(0) == s;
    } else {
      assert s + Tabs(n) == s + Tabs(n - 1) + "\t" + "";
      WordsAtTab(s + Tabs(n - 1), "");
      WordsOfNothing();
      WordsBeforeTabs(s, n - 1);
    }
  }

  /** Every part a consumer gets is non-empty and free of tabs. */
  lemma {:induction false} SplitIsPlain(s: string, i: nat)
    requires i < |Split(s)|
    ensures '\t' !in Split(s)[i]
  {
    if s != "" {
      var shorter := s[..|s| - 1];
      SplitIsPlain(shorter, if i < |Split(shorter)| then i else 0);
    }
  }

  lemma {:induction false} NonEmptyMembers(parts: seq<string>, w: string)
    requires w in NonEmpty(parts)
    ensures w in parts && w != ""
  {
    var last := |parts| - 1;
    if w in NonEmpty(parts[..last]) { NonEmptyMembers(parts[..last], w); }
  }

  lemma WordsAreGood(s: string, w: string)
    requires w in Words(s)
    ensures Good(w)
  {
    NonEmptyMembers(Split(s), w);
    var i :| 0 <= i < |Split(s)| && Split(s)[i] == w;
    SplitIsPlain(s, i);
  }

  /** What the line needs of the function that reads it. */
  ghost predicate ReadsFields(words: string -> seq<string>, f: seq<string>) {
    && (forall a: string, b: string :: words(a + "\t" + b) == words(a) + words(b))
    && (forall a: string, n: nat :: words(a + Tabs(n)) == words(a))
    && forall i :: 0 <= i < |f| ==> words(f[i]) == [f[i]]
  }

  lemma ReadsHead(words: string -> seq<string>, f: seq<string>)
    requires |f| == 15 && ReadsFields(words, f)
    ensures words(Head(f)) == f[..3]
  {
    assert words(f[0] + "\t" + f[1]) == [f[0]] + [f[1]];
    assert words(f[0] + "\t" + f[1] + "\t" + f[2]) == [f[0]] + [f[1]] + [f[2]];
  }

  lemma ReadsFour(words: string -> seq<string>, f: seq<string>)
    requires |f| == 15 && ReadsFields(words, f)
    ensures words(UpTo(f, 4)) == f[..4]
  {
    var before, tabs := f[0] + "\t" + f[1] + "\t" + f[2], PadCount(|f[2]|);
    ReadsHead(words, f);
    assert Tabs(tabs) == Tabs(tabs - 1) + "\t";
    assert UpTo(f, 4) == before + Tabs(tabs - 1) + "\t" + f[3];
    assert words(before + Tabs(tabs - 1)) == words(before) == words(before + Tabs(tabs));
  }

  lemma {:induction false} ReadsUpTo(words: string -> seq<string>, f: seq<string>, n: nat)
    requires |f| == 15 && 4 <= n <= 15 && ReadsFields(words, f)
    ensures words(UpTo(f, n)) == f[..n]
    decreases n
  {
    if n == 4 {
      ReadsFour(words, f);
    } else {
      ReadsUpTo(words, f, n - 1);
      assert words(UpTo(f, n)) == words(UpTo(f, n - 1)) + words(f[n - 1]);
    }
  }

  lemma WordsReadFields(f: seq<string>)
    requires forall i :: 0 <= i < |f| ==> Good(f[i])
    ensures ReadsFields(Words, f)
  {
    forall a: string, b: string ensures Words(a + "\t" + b) == Words(a) + Words(b) {
      WordsAtTab(a, b);
    }
    forall a: string, n: nat ensures Words(a + Tabs(n)) == Words(a) {
      WordsBeforeTabs(a, n);
    }
    forall i | 0 <= i < |f| ensures Words(f[i]) == [f[i]] {
      WordsOfField(f[i]);
    }
  }

  /** Splitting a line on tabs and ignoring empty parts gives the fifteen fields back, exactly when none of them is empty
      or holds a tab. */
  lemma FieldsAreReadBack(f: seq<string>)
    requires |f| == 15
    ensures Words(Row(f)) == f <==> forall i :: 0 <= i < 15 ==> Good(f[i])
  {
    if forall i :: 0 <= i < 15 ==> Good(f[i]) {
      WordsReadFields(f);
      ReadsUpTo(Words, f, 15);
      assert f[..15] == f;
    }
    if Words(Row(f)) == f {
      forall i | 0 <= i < 15 ensures Good(f[i]) {
        assert f[i] in Words(Row(f));
        WordsAreGood(Row(f), f[i]);
      }
    }
  }

  // ---------- which fields can break a line ----------

  lemma SignedIsGood(n: int)
    ensures Good(Signed(n))
  {
  }

  lemma TimestampIsGood(nowUs: int)
    ensures Good(FormatTimestamp(nowUs))
  {
  }

  lemma OptionalIsGood(v: Option<int>)
    ensures Good(SignedOrDash(v)) && Good(VersionText(v))
  {
    if v.Some? { SignedIsGood(v.value); }
  }

  lemma NumbersAreGood(e: Entry, platform: string, version: Option<int>, country: Option<string>, city: Option<string>,
                       f: seq<string>)
    requires AreFields(f, e, platform, version, country, city)
    ensures Good(f[0]) && Good(f[4]) && forall i :: 6 <= i < 14 ==> Good(f[i])
  {
    TimestampIsGood(e.nowUs);
    OptionalIsGood(version);
    SignedIsGood(e.minuteOffset);
    SignedIsGood(e.minuteLength);
    SignedIsGood(e.region);
    OptionalIsGood(e.gridBaselength);
    OptionalIsGood(e.countThreshold);
    OptionalIsGood(XOf(e.local));
    OptionalIsGood(YOf(e.local));
    OptionalIsGood(AreaOf(e.local));
  }

  /** Only five of the fields are not numbers, markers or times. */
  lemma OtherFields(f: seq<string>)
    requires |f| == 15 && Good(f[0]) && Good(f[4]) && forall i :: 6 <= i < 14 ==> Good(f[i])
    ensures Words(Row(f)) == f <==> Good(f[1]) && Good(f[2]) && Good(f[3]) && Good(f[5]) && Good(f[14])
  {
    FieldsAreReadBack(f);
  }

  /** A recorded line is read back exactly when the country, the city, the platform and the printed fill are not empty and
      hold no tab, and the query type is not a tab: the numbers and the time never break it. */
  lemma LineIsReadBack(e: Entry, platform: string, version: Option<int>, country: Option<string>, city: Option<string>,
                       f: seq<string>)
    requires AreFields(f, e, platform, version, country, city)
    ensures Words(Row(f)) == f <==>
            Good(OrDash(country)) && Good(OrDash(city)) && Good(platform) && Good(OrDash(e.fill)) && e.queryType != '\t'
  {
    NumbersAreGood(e, platform, version, country, city, f);
    OtherFields(f);
  }

  // ---------- columns ----------

  /** The column after a text, with tab stops every eight columns. */
  function Column(s: string, start: nat): nat {
    if s == "" then start
    else
      var c := Column(s[..|s| - 1], start);
      if s[|s| - 1] == '\t' then (c / 8 + 1) * 8 else c + 1
  }

  lemma {:induction false} ColumnConcat(a: string, b: string, start: nat)
    ensures Column(a + b, start) == Column(b, Column(a, start))
    decreases |b|
  {
    if b == "" {
      assert a + b == a;
    } else {
      assert (a + b)[..|a + b| - 1] == a + b[..|b| - 1];
      ColumnConcat(a, b[..|b| - 1], start);
    }
  }

  lemma {:induction false} ColumnOfPlain(s: string, start: nat)
    requires '\t' !in s
    ensures Column(s, start) == start + |s|
  {
    if s != "" { ColumnOfPlain(s[..|s| - 1], start); }
  }

  lemma {:induction false} ColumnOfTabs(n: nat, start: nat)
    ensures Column(Tabs(n), start) == if n == 0 then start else (start / 8 + n) * 8
    decreases n
  {
    if n > 0 {
      assert Tabs(n)[..n - 1] == Tabs(n - 1);
      ColumnOfTabs(n - 1, start);
    }
  }

  lemma ColumnAfterField(s: string, field: string)
    requires '\t' !in field
    ensures Column(s + field, 0) == Column(s, 0) + |field|
  {
    ColumnConcat(s, field, 0);
    ColumnOfPlain(field, Column(s, 0));
  }

  lemma ColumnAfterTabs(s: string, n: nat)
    requires n > 0
    ensures Column(s + Tabs(n), 0) == (Column(s, 0) / 8 + n) * 8
  {
    ColumnConcat(s, Tabs(n), 0);
    ColumnOfTabs(n, Column(s, 0));
  }

  lemma ColumnAfterTab(s: string)
    ensures Column(s + "\t", 0) == (Column(s, 0) / 8 + 1) * 8
  {
    ColumnAfterTabs(s, 1);
    assert Tabs(1) == "\t";
  }

  lemma ColumnOfCity(time: string, country: string)
    requires |time| == 12 && |country| < 8 && '\t' !in time && '\t' !in country
    ensures Column(time + "\t" + country + "\t", 0) == 24
  {
    ColumnOfPlain(time, 0);
    ColumnAfterTab(time);
    var before := time + "\t";
    assert Column(before, 0) == 16;
    ColumnAfterField(before, country);
    ColumnAfterTab(before + country);
  }

  /** The platform starts in a column that only depends on the length of the city: column 56 for cities shorter than 32
      characters, further right for longer ones. */
  lemma PlatformColumn(f: seq<string>)
    requires |f| == 15 && |f[0]| == 12 && |f[1]| < 8
    requires '\t' !in f[0] && '\t' !in f[1] && '\t' !in f[2]
    ensures Column(Head(f), 0) == if |f[2]| < 32 then 56 else (|f[2]| / 8 + 4) * 8
    ensures Column(Head(f), 0) == 56 <==> |f[2]| < 32
  {
    var before := f[0] + "\t" + f[1] + "\t";
    ColumnOfCity(f[0], f[1]);
    ColumnAfterField(before, f[2]);
    ColumnAfterTabs(before + f[2], PadCount(|f[2]|));
  }
}
