/** What texts say, read and printed: white space, question marks, numbers, the names of days and months, and the
    printed bit sets. */
module CronTexts {
  import opened Common
  import opened Calendar
  import opened Words
  import opened Cron
  import opened CronParse
  import opened CronGrammar
  import opened CronLaws
  import opened CronSentences

  predicate SixFields(texts: seq<string>) { |texts| == 6 && forall k :: 0 <= k < 6 ==> Solid(texts[k]) }

  function Line(texts: seq<string>): string
    requires SixFields(texts)
  {
    Join(texts, ' ')
  }

  // Question marks.

  /** The first text has a question mark at some of the places where the second has a star. */
  predicate Asks(a: string, b: string) {
    |a| == |b| && forall i :: 0 <= i < |a| ==> a[i] == b[i] || (a[i] == '?' && b[i] == '*')
  }

  lemma {:induction false} AskedAlike(a: string, b: string)
    requires Asks(a, b)
    ensures Wildcard(a) == Wildcard(b)
  {
    if a != "" {
      AskedAlike(a[1..], b[1..]);
    }
  }

  /** In the two day fields a question mark says the same as a star: both lines parse to the same words or not at
      all. */
  lemma QuestionMarks(asked: seq<string>, texts: seq<string>, t: Traits, c: CronExpr)
    requires SixFields(asked) && SixFields(texts)
    requires asked[0] == texts[0] && asked[1] == texts[1] && asked[2] == texts[2] && asked[4] == texts[4]
    requires Asks(asked[3], texts[3]) && Asks(asked[5], texts[5])
    ensures Parses(Line(asked), t, c.(expression := Line(asked)))
       <==> Parses(Line(texts), t, c.(expression := Line(texts)))
  {
    hide Wildcard, FieldValues, Represents, Solid, Asks;
    FieldsOfJoin(asked);
    FieldsOfJoin(texts);
    AskedAlike(asked[3], texts[3]);
    AskedAlike(asked[5], texts[5]);
    assert FieldSpecs(asked, t) == FieldSpecs(texts, t);
    hide FieldSpecs, Fields, Join;
    var a, b := c.(expression := Line(asked)), c.(expression := Line(texts));
    assert forall k :: 0 <= k < 6 ==> Word(a, k) == Word(b, k);
  }

  /** Anywhere else it makes the line unreadable. */
  lemma QuestionElsewhere(texts: seq<string>, t: Traits, c: CronExpr, k: nat)
    requires SixFields(texts) && Named(t) && k in {0, 1, 2, 4} && '?' in texts[k]
    ensures !Parses(Line(texts), t, c)
  {
    FieldsOfJoin(texts);
    if Parses(Line(texts), t, c) {
      hide Named, Fields, Join, FieldValues, Represents, Wildcard, Solid, NameTable;
      var (text, lo, hi, names) := FieldSpecs(texts, t)[k];
      assert text == texts[k] && FieldValues(text, lo, hi, names).Some?;
      NamesOfField(t, k);
      NoQuestion(text, lo, hi, names);
    }
  }

  lemma NamesOfField(t: Traits, k: nat)
    requires Named(t) && k < 6
    ensures NameTable(Tables(t)[k])
  {
  }

  lemma NoQuestion(text: string, minVal: int, maxVal: int, names: seq<string>)
    requires NameTable(names) && FieldValues(text, minVal, maxVal, names).Some?
    ensures '?' !in text
  {
    hide FieldValues, Substitute, NameTable;
    var ps := PartsAccepted(text, minVal, maxVal, names);
    PlainField(ps);
    if i :| 0 <= i < |text| && text[i] == '?' {
      assert text == text[..i] + ['?'] + text[i + 1..];
      SubstituteSplit(text[..i], '?', text[i + 1..], names);
    }
  }

  lemma {:induction false} PlainField(ps: seq<Part>)
    requires ps != [] && AllSpelled(ps)
    ensures '?' !in RenderField(ps)
  {
    hide Spelled, Render;
    PartChars(ps[0]);
    assert !Plainchar('?');
    if |ps| > 1 {
      PlainField(ps[1..]);
      assert Renders(ps)[1..] == Renders(ps[1..]);
    }
  }

  /** Any white space separates, also several in a row, before the first field or behind the last. */
  lemma {:induction false} SpaceSeparates(a: string, c: char, b: string, word: string)
    requires c == ' ' || c == '\t' || c == '\n' || c == '\r' || c == 11 as char || c == 12 as char
    ensures Fields(a + [c] + b, word) == Fields(a, word) + Fields(b, "")
    decreases |a|
  {
    if a == "" {
      assert a + [c] + b == [c] + b && ([c] + b)[1..] == b;
    } else {
      assert (a + [c] + b)[1..] == a[1..] + [c] + b;
      SpaceSeparates(a[1..], c, b, if IsSpace(a[0]) then "" else word + [a[0]]);
    }
  }

  // Numerals.

  lemma {:induction false} DigitsExactly(s: string)
    ensures Digits(s).Some? <==> s != "" && forall c <- s :: '0' <= c <= '9'
  {
    if Digits(s).Some? {
      DigitsOnly(s);
    }
    if s != "" && forall c <- s :: '0' <= c <= '9' {
      var n := |s| - 1;
      assert s[n] in s;
      forall c <- s[..n] ensures '0' <= c <= '9' {
        assert c in s;
      }
      DigitsExactly(s[..n]);
    }
  }

  lemma {:induction false} LeadingZero(s: string)
    requires Digits(s).Some?
    ensures Digits("0" + s) == Digits(s)
  {
    var n := |s| - 1;
    assert ("0" + s)[..|"0" + s| - 1] == "0" + s[..n];
    if n == 0 {
      assert Digits("0" + s[..n]) == Some(0) by { assert "0" + s[..n] == "0"; }
    } else {
      LeadingZero(s[..n]);
    }
  }

  function Within64(v: int): Option<int> {
    if -0x8000_0000_0000_0000 <= v < 0x8000_0000_0000_0000 then Some(v) else None
  }

  lemma Signed(body: string)
    ensures Atoi("+" + body) == (if Digits(body).Some? then Within64(Digits(body).value) else None)
    ensures Atoi("-" + body) == (if Digits(body).Some? then Within64(-(Digits(body).value as int)) else None)
  {
    hide Digits;
    assert ("+" + body)[1..] == body && ("-" + body)[1..] == body;
  }

  /** A number is digits with at most one sign before them, within 64 bits; leading zeros do not count, and the digits
      of Itoa are its decimal form. */
  lemma AtoiReads(body: string)
    requires body != "" && forall c <- body :: '0' <= c <= '9'
    ensures Digits(body).Some? && Digits("0" + body) == Digits(body)
    ensures var n := Digits(body).value as int;
            Atoi(body) == Atoi("+" + body) == Within64(n) && Atoi("-" + body) == Within64(-n)
  {
    DigitsExactly(body);
    LeadingZero(body);
    Signed(body);
    hide Digits, Within64;
    assert body[0] in body;
  }

  // Numbers and names.

  /** What a field's text stands for. */
  function Said(text: string, t: Traits, k: nat): Option<set<int>>
    requires k < 6
  {
    FieldValues(if k == 3 || k == 5 then Wildcard(text) else text, Bounds(t)[k].0, Bounds(t)[k].1, Tables(t)[k])
  }

  lemma SpecSaid(texts: seq<string>, t: Traits, k: nat)
    requires |texts| == 6 && k < 6
    ensures FieldSpecs(texts, t)[k]
         == (if k == 3 || k == 5 then Wildcard(texts[k]) else texts[k], Bounds(t)[k].0, Bounds(t)[k].1, Tables(t)[k])
    ensures Lists(FieldSpecs(texts, t)[k], 0) <==> Said(texts[k], t, k).Some? && 0 in Said(texts[k], t, k).value
  {
    hide Wildcard, FieldValues;
  }

  lemma FiresWhenSaid(texts: seq<string>, t: Traits, c: CronExpr, n: int)
    requires SixFields(texts) && BuiltIn(t) && Parses(Line(texts), t, c)
    ensures forall k :: 0 <= k < 6 ==> Said(texts[k], t, k).Some?
    ensures Matches(c, n) <==> forall k :: 0 <= k < 6 ==> Now(n, t)[k] in Said(texts[k], t, k).value
  {
    hide Wildcard, FieldValues, Represents, Solid, Matches, Now, BuiltIn, Join, FieldSpecs, Fields, Bounds, Tables;
    FieldsOfJoin(texts);
    forall k | 0 <= k < 6
      ensures Said(texts[k], t, k).Some?
      ensures Lists(FieldSpecs(texts, t)[k], Now(n, t)[k]) <==> Now(n, t)[k] in Said(texts[k], t, k).value
    {
      SpecSaid(texts, t, k);
    }
    hide Parses;
    FiresWhenListed(c, n);
  }

  ghost predicate Readable(line: string, t: Traits) { exists c :: Parses(line, t, c) }

  /** A line parses exactly when each of its fields says something. */
  lemma LineParses(texts: seq<string>, t: Traits)
    requires SixFields(texts)
    ensures Readable(Line(texts), t) <==> forall k :: 0 <= k < 6 ==> Said(texts[k], t, k).Some?
  {
    hide Wildcard, FieldValues, Represents, Solid, Join, FieldSpecs, Fields, Bounds, Tables;
    FieldsOfJoin(texts);
    forall k | 0 <= k < 6
      ensures FieldSpecs(texts, t)[k]
           == (if k == 3 || k == 5 then Wildcard(texts[k]) else texts[k], Bounds(t)[k].0, Bounds(t)[k].1, Tables(t)[k])
    {
      SpecSaid(texts, t, k);
    }
    if forall k :: 0 <= k < 6 ==> Said(texts[k], t, k).Some? {
      var w0 := SomeWord(Said(texts[0], t, 0).value, Bounds(t)[0].0);
      var w1 := SomeWord(Said(texts[1], t, 1).value, Bounds(t)[1].0);
      var w2 := SomeWord(Said(texts[2], t, 2).value, Bounds(t)[2].0);
      var w3 := SomeWord(Said(texts[3], t, 3).value, Bounds(t)[3].0);
      var w4 := SomeWord(Said(texts[4], t, 4).value, Bounds(t)[4].0);
      var w5 := SomeWord(Said(texts[5], t, 5).value, Bounds(t)[5].0);
      assert Parses(Line(texts), t, CronExpr(w0, w1, w2, w3, w4, w5, Line(texts), t));
    }
  }

  /** A star says nothing: every instant has a value of the field's range. */
  lemma StarSays(t: Traits, k: nat, n: int)
    requires BuiltIn(t) && k < 6
    ensures Said("*", t, k).Some? && Now(n, t)[k] in Said("*", t, k).value
  {
    NamesWithin(t, k);
    NowWithin(t, k, n);
    hide NameTable, FieldValues, BuiltIn, Bounds, Tables, Now;
    var ps := [Plain(Star)];
    assert RenderField(ps) == "*" && Wildcard("*") == "*";
    var (lo, hi) := Bounds(t)[k];
    FieldRoundTrip(ps, lo, hi, Tables(t)[k]);
    assert SpellAll(ps, Tables(t)[k]) == ps;
    OnePart(Plain(Star), lo, hi);
    assert Term(Now(n, t)[k], lo, 1);
  }

  lemma NowWithin(t: Traits, k: nat, n: int)
    requires BuiltIn(t) && k < 6
    ensures Bounds(t)[k].0 <= Now(n, t)[k] <= Bounds(t)[k].1
  {
    hide Second, Minute, Hour, Day, Month, Weekday;
    FieldRanges(n);
  }

  lemma NamesWithin(t: Traits, k: nat)
    requires BuiltIn(t) && k < 6
    ensures NameTable(Tables(t)[k])
  {
    hide NameTable;
    BuiltInNames(t);
  }

  lemma OnePart(p: Part, minVal: int, maxVal: int)
    ensures FieldMeaning([p], minVal, maxVal)
         == if Valid(p, minVal, maxVal) then Some(Values(p, minVal, maxVal)) else None
  {
    hide Valid, Values, FieldMeaning;
    MeaningOfLast([p], minVal, maxVal);
    MeaningOfNothing(minVal, maxVal);
    assert [p][..0] == [];
    if Valid(p, minVal, maxVal) {
      assert {} + Values(p, minVal, maxVal) == Values(p, minVal, maxVal);
    }
  }

  /** A single field filters the firings of the line with a star in its place. */
  lemma OneField(texts: seq<string>, t: Traits, k: nat, c: CronExpr, d: CronExpr, n: int)
    requires SixFields(texts) && BuiltIn(t) && k < 6 && Parses(Line(texts), t, c)
    requires SixFields(texts[k := "*"]) && Parses(Line(texts[k := "*"]), t, d)
    ensures Said(texts[k], t, k).Some?
    ensures Matches(c, n) <==> Matches(d, n) && Now(n, t)[k] in Said(texts[k], t, k).value
  {
    hide Said, Matches, Now, BuiltIn, Parses, Join, Solid;
    FiresWhenSaid(texts, t, c, n);
    FiresWhenSaid(texts[k := "*"], t, d, n);
    StarSays(t, k, n);
  }

  /** A field that says one value. */
  lemma SaysOne(s: string, t: Traits, k: nat)
    requires BuiltIn(t) && k < 6 && Atom(s, Tables(t)[k])
    ensures Numeral(Spelling(s, Tables(t)[k]))
    ensures var v := Number(Spelling(s, Tables(t)[k]));
            Said(s, t, k) == if Bounds(t)[k].0 <= v <= Bounds(t)[k].1 then Some({v}) else None
  {
    NamesWithin(t, k);
    hide NameTable, FieldValues, Number, Numeral;
    var names := Tables(t)[k];
    var (lo, hi) := Bounds(t)[k];
    SpellingIsNumeral(s, names);
    AtomSigns(s, names);
    NoWildcard(s);
    var ps, q := [Plain(One(s))], Plain(One(Spelling(s, names)));
    assert RenderField(ps) == s;
    FieldRoundTrip(ps, lo, hi, names);
    assert SpellAll(ps, names) == [q];
    OnePart(q, lo, hi);
    var v := Number(Spelling(s, names));
    if lo <= v <= hi {
      assert Values(q, lo, hi) == {v} by { assert Term(v, v, 1); }
    }
  }

  /** The calendar's numbers as people write them: Oracle counts months from 0, and only the standard table counts
      weekdays from 0; Sunday comes first in all three. */
  function Written(n: int, t: Traits): seq<int> {
    [Second(n), Minute(n), Hour(n), Day(n), if t == ORACLE then Month(n) - 1 else Month(n),
     (n / 86400 + 1) % 7 + (if t == STANDARD then 0 else 1)]
  }

  /** A field with a number lets exactly the instants with that number through. */
  lemma NumberFires(texts: seq<string>, t: Traits, k: nat, c: CronExpr, d: CronExpr, n: int)
    requires SixFields(texts) && BuiltIn(t) && k < 6 && Numeral(texts[k]) && Parses(Line(texts), t, c)
    requires SixFields(texts[k := "*"]) && Parses(Line(texts[k := "*"]), t, d)
    ensures Matches(c, n) <==> Matches(d, n) && Written(n, t)[k] == Number(texts[k])
  {
    hide Said, Matches, Parses, Join, Solid, Numeral, Number, Day, Month;
    OneField(texts, t, k, c, d, n);
    SaysOne(texts[k], t, k);
    assert Now(n, t)[k] == Written(n, t)[k];
  }

  const WEEK := ["MON", "TUE", "WED", "THU", "FRI", "SAT", "SUN"]

  const YEAR := ["JAN", "FEB", "MAR", "APR", "MAY", "JUN", "JUL", "AUG", "SEP", "OCT", "NOV", "DEC"]

  /** The names of the weekdays mean the weekdays: MON lets through exactly the days that lie a whole number of weeks
      after 1 January of year 1, a Monday, and so on. */
  lemma DayNameFires(texts: seq<string>, t: Traits, i: nat, c: CronExpr, d: CronExpr, n: int)
    requires SixFields(texts) && BuiltIn(t) && Parses(Line(texts), t, c)
    requires i < 7 && AnyCase(texts[5], WEEK[i])
    requires SixFields(texts[5 := "*"]) && Parses(Line(texts[5 := "*"]), t, d)
    ensures Matches(c, n) <==> Matches(d, n) && n / 86400 % 7 == i
  {
    var v := DayPlace(t, i, n);
    hide Said, Matches, Parses, Join, Solid, BuiltIn, WEEK, AnyCase, Now, Bounds, OnlyPlace, SixFields, Line;
    NameSays(texts[5], WEEK[i], t, 5, v);
    OneField(texts, t, 5, c, d, n);
  }

  /** The name in capital or small letters, or mixed. */
  predicate AnyCase(s: string, name: string) {
    |s| == |name| && forall j :: 0 <= j < |s| ==> s[j] == name[j] || s[j] as int == name[j] as int + 32
  }

  predicate Names(s: string, k: nat, i: nat) {
    (k == 5 && i < 7 && AnyCase(s, WEEK[i])) || (k == 4 && i < 12 && AnyCase(s, YEAR[i]))
  }

  /** A name does not make a line unreadable. */
  lemma NamedParses(texts: seq<string>, t: Traits, k: nat, i: nat)
    requires BuiltIn(t) && k < 6 && SixFields(texts) && SixFields(texts[k := "*"]) && Names(texts[k], k, i)
    ensures Readable(Line(texts), t) <==> Readable(Line(texts[k := "*"]), t)
  {
    var v;
    if k == 5 { v := DayPlace(t, i, 0); } else { v := MonthPlace(t, i, 0); }
    hide Said, Parses, Join, Solid, BuiltIn, WEEK, YEAR, AnyCase, Now, Bounds, OnlyPlace, Line;
    NameSays(texts[k], if k == 5 then WEEK[i] else YEAR[i], t, k, v);
    StarSays(t, k, 0);
    LineParses(texts, t);
    LineParses(texts[k := "*"], t);
    assert forall j :: 0 <= j < 6 && j != k ==> texts[k := "*"][j] == texts[j];
  }

  lemma DayAfter(k: int, i: nat)
    requires i < 7
    ensures (k + 1) % 7 == (i + 1) % 7 <==> k % 7 == i
  {
  }

  /** And the names of the months the months. */
  lemma MonthNameFires(texts: seq<string>, t: Traits, i: nat, c: CronExpr, d: CronExpr, n: int)
    requires SixFields(texts) && BuiltIn(t) && Parses(Line(texts), t, c)
    requires i < 12 && AnyCase(texts[4], YEAR[i])
    requires SixFields(texts[4 := "*"]) && Parses(Line(texts[4 := "*"]), t, d)
    ensures Matches(c, n) <==> Matches(d, n) && Month(n) == i + 1
  {
    var v := MonthPlace(t, i, n);
    hide Said, Matches, Parses, Join, Solid, BuiltIn, Month, YEAR, AnyCase, Now, Bounds, OnlyPlace, SixFields, Line;
    NameSays(texts[4], YEAR[i], t, 4, v);
    OneField(texts, t, 4, c, d, n);
  }

  lemma DayPlace(t: Traits, i: nat, n: int) returns (v: nat)
    requires BuiltIn(t) && i < 7
    ensures OnlyPlace(Tables(t)[5], v, WEEK[i]) && Bounds(t)[5].0 <= v <= Bounds(t)[5].1
    ensures Now(n, t)[5] == v <==> n / 86400 % 7 == i
  {
    v := (i + 1) % 7 + t.minDOW;
    DayTable(i);
    ShiftPlace(DAYS, (i + 1) % 7, WEEK[i]);
    DayAfter(n / 86400, i);
    hide DAYS, WEEK;
  }

  lemma MonthPlace(t: Traits, i: nat, n: int) returns (v: nat)
    requires BuiltIn(t) && i < 12
    ensures OnlyPlace(Tables(t)[4], v, YEAR[i]) && Bounds(t)[4].0 <= v <= Bounds(t)[4].1
    ensures Now(n, t)[4] == v <==> Month(n) == i + 1
  {
    v := i + t.minMonths;
    MonthTable(i);
    ShiftPlace(MONTHS, i, YEAR[i]);
    hide Month, MONTHS, YEAR;
  }

  lemma DayTable(i: nat)
    requires i < 7
    ensures OnlyPlace(DAYS, (i + 1) % 7, WEEK[i])
  {
    assert DAYS[0] == "SUN" && DAYS[1] == "MON" && DAYS[2] == "TUE" && DAYS[3] == "WED";
  }

  lemma MonthTable(i: nat)
    requires i < 12
    ensures OnlyPlace(MONTHS, i, YEAR[i])
  {
  }

  lemma ShiftPlace(names: seq<string>, v: int, name: string)
    requires OnlyPlace(names, v, name)
    ensures OnlyPlace(["NIL"] + names, v + 1, name)
  {
  }

  /** The name stands there, and nowhere before. */
  predicate OnlyPlace(names: seq<string>, v: int, name: string) {
    0 <= v < |names| && names[v] == name != "NIL" && forall j :: 0 <= j < v ==> names[j] != name
  }

  lemma UpperNumeral(s: string)
    requires Numeral(s)
    ensures ToUpper(s) == s && !Name(s)
  {
    NumeralChars(s);
    assert s[0] in s && forall i :: 0 <= i < |s| ==> s[i] in s;
  }

  lemma AnyCaseIsUpper(s: string, name: string)
    requires AnyCase(s, name) && Name(name)
    ensures ToUpper(s) == name
  {
  }

  lemma PlaceIsIndex(names: seq<string>, v: int, name: string)
    requires OnlyPlace(names, v, name) && NameTable(names)
    ensures IndexOf(names, name, 0) == v && Name(name)
  {
    assert Name(names[v]);
  }

  /** A name says its place in the table. */
  lemma NameSays(s: string, name: string, t: Traits, k: nat, v: nat)
    requires BuiltIn(t) && k < 6 && OnlyPlace(Tables(t)[k], v, name) && AnyCase(s, name)
    requires Bounds(t)[k].0 <= v <= Bounds(t)[k].1
    ensures Said(s, t, k) == Some({v})
  {
    NamesWithin(t, k);
    var names := Tables(t)[k];
    hide BuiltIn, Bounds, Tables, Said;
    AnyCaseIsUpper(s, name);
    PlaceIsIndex(names, v, name);
    hide IndexOf, OnlyPlace, AnyCase, ToUpper;
    if Numeral(s) {
      UpperNumeral(s);
    }
    SaysOne(s, t, k);
    ItoaIsNumeral(v);
  }

  // The printed bit sets.

  /** The value of a text of binary digits. */
  ghost function Binary(s: string): nat {
    if s == "" then 0 else 2 * Binary(s[..|s| - 1]) + (if s[|s| - 1] == '1' then 1 else 0)
  }

  lemma {:induction false} PrintedIsBinary(bits: nat, size: nat)
    requires size <= 64 && bits < Pow2(size)
    ensures Binary(BitString(bits, size)) == bits && ' ' !in BitString(bits, size)
  {
    var s := BitString(bits, size);
    if size > 0 {
      PrintedIsBinary(bits / 2, size - 1);
      forall k | 0 <= k < size - 1 ensures s[k] == BitString(bits / 2, size - 1)[k] {
        HigherBit(bits, size - 1 - k);
      }
      assert s[..size - 1] == BitString(bits / 2, size - 1);
      LowestBit(bits);
    }
  }

  lemma HigherBit(bits: nat, i: nat)
    requires 0 < i < 64
    ensures BitChar(bits, i) == BitChar(bits / 2, i - 1)
  {
    AndPow2(bits, i);
    AndPow2(bits / 2, i - 1);
  }

  lemma LowestBit(bits: nat)
    ensures BitChar(bits, 0) == if bits % 2 == 1 then '1' else '0'
  {
    AndPow2(bits, 0);
  }

  /** What is printed of a parsed expression are its six words in binary, each in the width of its field, separated
      by blanks. */
  lemma PrintedWords(c: CronExpr)
    requires Parsed(c)
    ensures var parts := Split(BitsetString(c), ' ');
            |parts| == 6 && forall k :: 0 <= k < 6 ==> |parts[k]| == WIDTHS[k] && Binary(parts[k]) == Word(c, k)
  {
    hide Parsed, BitString, Pow2, Binary;
    var texts := [BitString(c.seconds, 60), BitString(c.minutes, 60), BitString(c.hours, 24),
                  BitString(c.daysOfMonth, 31), BitString(c.months, 12), BitString(c.daysOfWeek, 7)];
    forall k | 0 <= k < 6 ensures ' ' !in texts[k] && |texts[k]| == WIDTHS[k] && Binary(texts[k]) == Word(c, k) {
      WordWidth(c, k);
      PrintedIsBinary(Word(c, k), WIDTHS[k]);
      PrintedLength(Word(c, k), WIDTHS[k]);
    }
    SplitOfJoin(texts, ' ');
    JoinOfSix(texts);
  }

  lemma PrintedLength(bits: nat, size: nat)
    ensures |BitString(bits, size)| == size
  {
  }

  lemma JoinOfSix(a: seq<string>)
    requires |a| == 6
    ensures Join(a, ' ') == a[0] + " " + a[1] + " " + a[2] + " " + a[3] + " " + a[4] + " " + a[5]
  {
    assert Join(a[4..], ' ') == a[4] + " " + a[5];
    assert Join(a[3..], ' ') == a[3] + " " + (a[4] + " " + a[5]) by { assert a[3..][1..] == a[4..]; }
    assert Join(a[2..], ' ') == a[2] + " " + Join(a[3..], ' ') by { assert a[2..][1..] == a[3..]; }
    assert Join(a[1..], ' ') == a[1] + " " + Join(a[2..], ' ') by { assert a[1..][1..] == a[2..]; }
  }
}
