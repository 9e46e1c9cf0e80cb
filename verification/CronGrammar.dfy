/** The grammar of a cron field over numerals and names, and the proof that the parser accepts exactly the texts
    whose substituted form is one of its valid sentences. */
module CronGrammar {
  import opened Common
  import opened Cron
  import opened CronParse

  /** Numbers are kept as they are written. */
  datatype Range = Star | One(num: string) | Span(from: string, to: string)
  datatype Part = Plain(range: Range) | Stepped(range: Range, step: string)

  function RenderRange(r: Range): string {
    match r
    case Star => "*"
    case One(v) => v
    case Span(a, b) => a + ['-'] + b
  }

  function Render(p: Part): string {
    match p
    case Plain(r) => RenderRange(r)
    case Stepped(r, step) => RenderRange(r) + ['/'] + step
  }

  function Join(texts: seq<string>, sep: char): string
    requires texts != []
  {
    if |texts| == 1 then texts[0] else texts[0] + [sep] + Join(texts[1..], sep)
  }

  function Renders(ps: seq<Part>): (texts: seq<string>)
    ensures |texts| == |ps|
  {
    seq(|ps|, i requires 0 <= i < |ps| => Render(ps[i]))
  }

  function RenderField(ps: seq<Part>): string
    requires ps != []
  {
    Join(Renders(ps), ',')
  }

  /** What strconv.Atoi reads as a number without a minus sign: digits, perhaps behind a plus sign. */
  predicate Numeral(s: string) { '-' !in s && Atoi(s).Some? }

  function Number(s: string): (n: int)
    requires Numeral(s)
    ensures n >= 0
  {
    assert s != "" && s[0] == '-' ==> '-' in s;
    Atoi(s).value
  }

  predicate SpelledRange(r: Range) {
    match r
    case Star => true
    case One(v) => Numeral(v)
    case Span(a, b) => Numeral(a) && Numeral(b)
  }

  /** All its numbers are numerals. */
  predicate Spelled(p: Part) { SpelledRange(p.range) && (p.Stepped? ==> Numeral(p.step)) }

  predicate AllSpelled(ps: seq<Part>) { forall i :: 0 <= i < |ps| ==> Spelled(ps[i]) }

  predicate ValidRange(r: Range, minVal: int, maxVal: int)
    requires SpelledRange(r)
  {
    match r
    case Star => true
    case One(v) => minVal <= Number(v) <= maxVal
    case Span(a, b) => minVal <= Number(a) <= Number(b) <= maxVal
  }

  predicate Valid(p: Part, minVal: int, maxVal: int) {
    Spelled(p) && ValidRange(p.range, minVal, maxVal) && (p.Stepped? ==> Number(p.step) > 0)
  }

  /** What a part means: every step-th value from its first one, up to its end or the field's. */
  ghost function Values(p: Part, minVal: int, maxVal: int): set<int>
    requires Valid(p, minVal, maxVal)
  {
    var first := match p.range case Star => minVal case One(v) => Number(v) case Span(a, _) => Number(a);
    var last := match p.range
                case Star => maxVal
                case One(v) => if p.Stepped? then maxVal else Number(v)
                case Span(_, b) => Number(b);
    Progression(first, last, if p.Stepped? then Number(p.step) else 1)
  }

  ghost function FieldMeaning(ps: seq<Part>, minVal: int, maxVal: int): Option<set<int>> {
    if forall p <- ps :: Valid(p, minVal, maxVal)
    then Some(set p, v | p in ps && v in Values(p, minVal, maxVal) :: v)
    else None
  }

  // Splitting and joining.

  lemma {:induction false} SplitWithout(s: string, sep: char)
    requires sep !in s
    ensures Split(s, sep) == [s]
  {
    if s != "" {
      assert s[0] in s && [s[0]] + s[1..] == s;
      SplitWithout(s[1..], sep);
    }
  }

  lemma {:induction false} SplitAt(a: string, b: string, sep: char)
    requires sep !in a
    ensures Split(a + [sep] + b, sep) == [a] + Split(b, sep)
  {
    var s := a + [sep] + b;
    if a == "" {
      assert s[1..] == b;
    } else {
      assert s[1..] == a[1..] + [sep] + b;
      SplitAt(a[1..], b, sep);
      assert a[0] in a && [a[0]] + a[1..] == a;
      assert ([a[1..]] + Split(b, sep))[1..] == Split(b, sep);
    }
  }

  lemma {:induction false} SplitOfJoin(texts: seq<string>, sep: char)
    requires texts != [] && forall i :: 0 <= i < |texts| ==> sep !in texts[i]
    ensures Split(Join(texts, sep), sep) == texts
  {
    if |texts| == 1 {
      SplitWithout(texts[0], sep);
    } else {
      SplitOfJoin(texts[1..], sep);
      SplitAt(texts[0], Join(texts[1..], sep), sep);
    }
  }

  lemma {:induction false} JoinOfSplit(s: string, sep: char)
    ensures Join(Split(s, sep), sep) == s
    ensures forall i :: 0 <= i < |Split(s, sep)| ==> sep !in Split(s, sep)[i]
  {
    if s != "" {
      JoinOfSplit(s[1..], sep);
      var rest := Split(s[1..], sep);
      assert [s[0]] + s[1..] == s;
      if s[0] == sep {
        assert ([""] + rest)[1..] == rest;
        assert "" + [sep] + Join(rest, sep) == s;
      } else {
        var parts := [[s[0]] + rest[0]] + rest[1..];
        assert parts[1..] == rest[1..];
        if |rest| > 1 {
          assert [s[0]] + rest[0] + [sep] + Join(rest[1..], sep) == [s[0]] + (rest[0] + [sep] + Join(rest[1..], sep));
        }
      }
    }
  }

  // Numerals.

  predicate Plainchar(c: char) { IsDigit(c) || c == '+' }

  lemma {:induction false} DigitsOnly(s: string)
    requires Digits(s).Some?
    ensures s != "" && forall c <- s :: IsDigit(c)
  {
    if |s| > 1 {
      DigitsOnly(s[..|s| - 1]);
      assert s == s[..|s| - 1] + [s[|s| - 1]];
    }
  }

  lemma NumeralChars(s: string)
    requires Numeral(s)
    ensures s != "" && s != "*" && forall c <- s :: Plainchar(c)
  {
    assert s != "" && s[0] == '-' ==> '-' in s;
    var body := if s != "" && s[0] == '+' then s[1..] else s;
    DigitsOnly(body);
    assert s == body || s == ['+'] + body;
  }

  lemma {:induction false} DigitsOfItoa(n: nat)
    ensures Digits(Itoa(n)) == Some(n)
  {
    var s := Itoa(n);
    if n >= 10 {
      DigitsOfItoa(n / 10);
      assert s[..|s| - 1] == Itoa(n / 10);
    }
  }

  /** The decimal form of a number is a numeral, as long as it fits a 64-bit int. */
  lemma ItoaIsNumeral(n: nat)
    ensures '-' !in Itoa(n) && Atoi(Itoa(n)) == if n < 0x8000_0000_0000_0000 then Some(n) else None
  {
    DigitsOfItoa(n);
    assert IsDigit(Itoa(n)[0]);
  }

  // Parts.

  lemma RangeRoundTrip(r: Range, minVal: int, maxVal: int)
    requires SpelledRange(r)
    ensures ParseRange(RenderRange(r), minVal, maxVal)
         == if !ValidRange(r, minVal, maxVal) then None
            else match r
                 case Star => Some((minVal, maxVal))
                 case One(v) => Some((Number(v), Number(v)))
                 case Span(a, b) => Some((Number(a), Number(b)))
    ensures '-' in RenderRange(r) <==> r.Span?
    ensures RenderRange(r) != "" && forall c <- RenderRange(r) :: Plainchar(c) || c == '*' || c == '-'
  {
    hide Atoi;
    match r
    case Star =>
    case One(v) => NumeralChars(v);
    case Span(a, b) =>
      NumeralChars(a);
      NumeralChars(b);
      SplitAt(a, b, '-');
      SplitWithout(b, '-');
      assert RenderRange(r)[|a|] == '-';
      assert Split(RenderRange(r), '-') == [a, b];
  }

  lemma PartRoundTrip(p: Part, minVal: int, maxVal: int)
    requires Spelled(p)
    ensures Valid(p, minVal, maxVal) <==> ParsePart(Render(p), minVal, maxVal).Some?
    ensures Valid(p, minVal, maxVal) ==>
              var (start, end, delta) := ParsePart(Render(p), minVal, maxVal).value;
              Progression(start, end, delta) == Values(p, minVal, maxVal)
  {
    hide Atoi, Split, ParseRange, RenderRange, Progression;
    RangeRoundTrip(p.range, minVal, maxVal);
    var text := RenderRange(p.range);
    if p.Stepped? {
      NumeralChars(p.step);
      SplitAt(text, p.step, '/');
      SplitWithout(p.step, '/');
      assert Render(p)[|text|] == '/';
      assert Split(Render(p), '/') == [text, p.step];
    }
  }

  lemma PartChars(p: Part)
    requires Spelled(p)
    ensures Render(p) != "" && forall c <- Render(p) :: Plainchar(c) || c == '*' || c == '-' || c == '/'
  {
    RangeRoundTrip(p.range, 0, 0);
    if p.Stepped? { NumeralChars(p.step); }
  }

  function RangeOf(text: string): Range {
    if text == "*" then Star
    else if '-' !in text then One(text)
    else
      var parts := Split(text, '-');
      if |parts| == 2 then Span(parts[0], parts[1]) else One(text)
  }

  /** The only part that a text can be a rendering of. */
  function PartOf(text: string): Part {
    var parts := Split(text, '/');
    if '/' in text && |parts| == 2 then Stepped(RangeOf(parts[0]), parts[1]) else Plain(RangeOf(text))
  }

  lemma TwoParts(s: string, sep: char)
    requires |Split(s, sep)| == 2
    ensures var parts := Split(s, sep); s == parts[0] + [sep] + parts[1] && sep !in parts[0] && sep !in parts[1]
  {
    JoinOfSplit(s, sep);
    var parts := Split(s, sep);
    assert parts[1..] == [parts[1]];
    assert Join([parts[1]], sep) == parts[1];
  }

  lemma RangeAccepted(text: string, minVal: int, maxVal: int)
    requires ParseRange(text, minVal, maxVal).Some?
    ensures var r := RangeOf(text); SpelledRange(r) && ValidRange(r, minVal, maxVal) && RenderRange(r) == text
  {
    if text != "*" && '-' in text {
      TwoParts(text, '-');
    }
  }

  /** Every text that the parser accepts as a part is the rendering of a valid one. */
  lemma PartAccepted(text: string, minVal: int, maxVal: int)
    requires ParsePart(text, minVal, maxVal).Some?
    ensures Valid(PartOf(text), minVal, maxVal) && Render(PartOf(text)) == text
  {
    if '/' in text {
      var parts := Split(text, '/');
      TwoParts(text, '/');
      RangeAccepted(parts[0], minVal, maxVal);
      StepIsNumeral(parts[1]);
    } else {
      RangeAccepted(text, minVal, maxVal);
    }
  }

  lemma StepIsNumeral(s: string)
    requires Atoi(s).Some? && Atoi(s).value > 0
    ensures Numeral(s)
  {
    if s != "" && s[0] != '-' {
      var body := if s != "" && s[0] == '+' then s[1..] else s;
      DigitsOnly(body);
      assert s == body || s == ['+'] + body;
    }
  }

  // Fields.

  /** The meaning of a field grows part by part. */
  lemma MeaningOfLast(ps: seq<Part>, minVal: int, maxVal: int)
    requires ps != []
    ensures var n := |ps| - 1;
            FieldMeaning(ps, minVal, maxVal)
            == if FieldMeaning(ps[..n], minVal, maxVal).Some? && Valid(ps[n], minVal, maxVal)
               then Some(FieldMeaning(ps[..n], minVal, maxVal).value + Values(ps[n], minVal, maxVal))
               else None
  {
    hide Valid, Values;
    var n := |ps| - 1;
    assert ps == ps[..n] + [ps[n]];
    assert forall p :: p in ps <==> p in ps[..n] || p == ps[n];
    if FieldMeaning(ps, minVal, maxVal).Some? {
      var all := FieldMeaning(ps, minVal, maxVal).value;
      var before := FieldMeaning(ps[..n], minVal, maxVal).value;
      forall v ensures v in all <==> v in before + Values(ps[n], minVal, maxVal) {
        if v in before {
          var p :| p in ps[..n] && v in Values(p, minVal, maxVal);
          assert p in ps;
        } else if v in Values(ps[n], minVal, maxVal) {
          assert ps[n] in ps;
        }
      }
      assert all == before + Values(ps[n], minVal, maxVal);
    }
  }

  lemma {:induction false} PartsRoundTrip(ps: seq<Part>, minVal: int, maxVal: int)
    requires AllSpelled(ps)
    ensures PartsValues(Renders(ps), minVal, maxVal) == FieldMeaning(ps, minVal, maxVal)
  {
    hide Spelled, Valid, Values, ParsePart, Render;
    if ps == [] {
      MeaningOfNothing(minVal, maxVal);
    } else {
      var n := |ps| - 1;
      PartsRoundTrip(ps[..n], minVal, maxVal);
      PartRoundTrip(ps[n], minVal, maxVal);
      MeaningOfLast(ps, minVal, maxVal);
      assert Renders(ps)[..n] == Renders(ps[..n]);
    }
  }

  lemma MeaningOfNothing(minVal: int, maxVal: int)
    ensures FieldMeaning([], minVal, maxVal) == Some({})
  {
    assert FieldMeaning([], minVal, maxVal).value == {};
  }

  lemma {:induction false} LastOfJoin(texts: seq<string>, sep: char)
    requires texts != [] && texts[|texts| - 1] != ""
    ensures var s, last := Join(texts, sep), texts[|texts| - 1]; s != "" && s[|s| - 1] == last[|last| - 1]
  {
    if |texts| > 1 {
      LastOfJoin(texts[1..], sep);
    }
  }

  /** A field whose substituted text renders a list of parts means what the parts mean, and is refused exactly when
      one of them is invalid. */
  lemma SentenceMeaning(text: string, ps: seq<Part>, minVal: int, maxVal: int, names: seq<string>)
    requires ps != [] && AllSpelled(ps) && NameTable(names) && Substitute(text, names) == RenderField(ps)
    ensures FieldValues(text, minVal, maxVal, names) == FieldMeaning(ps, minVal, maxVal)
  {
    hide Spelled, PartsValues, FieldMeaning, Substitute, Split, Render, Join;
    var texts := Renders(ps);
    forall i | 0 <= i < |texts| ensures ',' !in texts[i] && texts[i] != "" {
      PartChars(ps[i]);
    }
    SplitOfJoin(texts, ',');
    PartsRoundTrip(ps, minVal, maxVal);
    LastOfJoin(texts, ',');
    var last := texts[|texts| - 1];
    assert last[|last| - 1] in last;
    if text != "" && text[|text| - 1] == ',' {
      CommaStays(text, names);
    }
  }

  /** The parser accepts a field exactly when its substituted text is a list of valid parts, and then yields
      exactly their values. */
  lemma AcceptedExactly(text: string, minVal: int, maxVal: int, names: seq<string>)
    requires NameTable(names)
    ensures FieldValues(text, minVal, maxVal, names).Some? <==>
              exists ps :: ps != [] && AllSpelled(ps) && RenderField(ps) == Substitute(text, names)
                           && FieldMeaning(ps, minVal, maxVal).Some?
    ensures forall ps :: ps != [] && AllSpelled(ps) && RenderField(ps) == Substitute(text, names) ==>
              FieldValues(text, minVal, maxVal, names) == FieldMeaning(ps, minVal, maxVal)
  {
    hide FieldValues, FieldMeaning, AllSpelled, RenderField, Substitute, NameTable;
    forall ps | ps != [] && AllSpelled(ps) && RenderField(ps) == Substitute(text, names)
      ensures FieldValues(text, minVal, maxVal, names) == FieldMeaning(ps, minVal, maxVal)
    {
      SentenceMeaning(text, ps, minVal, maxVal, names);
    }
    if FieldValues(text, minVal, maxVal, names).Some? {
      var ps := PartsAccepted(text, minVal, maxVal, names);
    }
  }

  lemma PartsAccepted(text: string, minVal: int, maxVal: int, names: seq<string>) returns (ps: seq<Part>)
    requires FieldValues(text, minVal, maxVal, names).Some?
    ensures ps != [] && AllSpelled(ps) && RenderField(ps) == Substitute(text, names)
  {
    hide Substitute, ParsePart, Render, PartOf, Spelled, Join;
    var s := Substitute(text, names);
    var texts := Split(s, ',');
    ps := seq(|texts|, i requires 0 <= i < |texts| => PartOf(texts[i]));
    forall i | 0 <= i < |texts| ensures Spelled(ps[i]) && Render(ps[i]) == texts[i] {
      AllParsed(texts, i, |texts|, minVal, maxVal);
      PartAccepted(texts[i], minVal, maxVal);
      assert Valid(ps[i], minVal, maxVal);
    }
    assert Renders(ps) == texts;
    JoinOfSplit(s, ',');
  }

  lemma AllParsed(texts: seq<string>, i: nat, n: nat, minVal: int, maxVal: int)
    requires i < |texts| && PartsValues(texts, minVal, maxVal).Some? && n == |texts|
    ensures ParsePart(texts[i], minVal, maxVal).Some?
  {
    if ParsePart(texts[i], minVal, maxVal).None? {
      MalformedPart(texts, i, n, minVal, maxVal);
      assert texts[..n] == texts;
    }
  }

  // Names.

  /** Three capital letters. */
  predicate Name(s: string) {
    |s| == 3 && 'A' <= s[0] <= 'Z' && 'A' <= s[1] <= 'Z' && 'A' <= s[2] <= 'Z'
  }

  predicate NameTable(names: seq<string>) {
    |names| < 0x8000_0000_0000_0000 && forall i :: 0 <= i < |names| ==> Name(names[i])
  }

  /** Where a name stands first in the table from i on. */
  function IndexOf(names: seq<string>, name: string, i: nat): (k: nat)
    requires i <= |names|
    ensures i <= k <= |names| && (k < |names| ==> names[k] == name)
    ensures forall j :: i <= j < k ==> names[j] != name
    decreases |names| - i
  {
    if i == |names| || names[i] == name then i else IndexOf(names, name, i + 1)
  }

  /** A numeral, or a name of the table in any case. */
  predicate Atom(s: string, names: seq<string>) {
    Numeral(s) || (ToUpper(s) != "NIL" && IndexOf(names, ToUpper(s), 0) < |names|)
  }

  /** The numeral that stands for an atom: a name counts as its first index. */
  function Spelling(s: string, names: seq<string>): string {
    if Numeral(s) then s else Itoa(IndexOf(names, ToUpper(s), 0))
  }

  predicate RangeOfAtoms(r: Range, names: seq<string>) {
    match r
    case Star => true
    case One(v) => Atom(v, names)
    case Span(a, b) => Atom(a, names) && Atom(b, names)
  }

  predicate OfAtoms(p: Part, names: seq<string>) {
    RangeOfAtoms(p.range, names) && (p.Stepped? ==> Atom(p.step, names))
  }

  predicate AllOfAtoms(ps: seq<Part>, names: seq<string>) { forall i :: 0 <= i < |ps| ==> OfAtoms(ps[i], names) }

  function SpellRange(r: Range, names: seq<string>): Range {
    match r
    case Star => Star
    case One(v) => One(Spelling(v, names))
    case Span(a, b) => Span(Spelling(a, names), Spelling(b, names))
  }

  /** The part with its names replaced by their numbers. */
  function Spell(p: Part, names: seq<string>): Part {
    match p
    case Plain(r) => Plain(SpellRange(r, names))
    case Stepped(r, step) => Stepped(SpellRange(r, names), Spelling(step, names))
  }

  function SpellAll(ps: seq<Part>, names: seq<string>): (qs: seq<Part>)
    ensures |qs| == |ps|
  {
    seq(|ps|, i requires 0 <= i < |ps| => Spell(ps[i], names))
  }

  /** A character that no name contains. */
  predicate Outside(c: char) { !('A' <= c <= 'Z') && !('a' <= c <= 'z') }

  /** Names are replaced on both sides of such a character independently. */
  lemma {:induction false} ReplaceSplit(a: string, sep: char, b: string, name: string, text: string)
    requires Outside(sep) && Name(name)
    ensures ReplaceAll(a + [sep] + b, name, text) == ReplaceAll(a, name, text) + [sep] + ReplaceAll(b, name, text)
    decreases |a|
  {
    hide Name, Outside;
    PrefixSplit(a, sep, b, name);
    var s := a + [sep] + b;
    if name <= a {
      assert s[|name|..] == a[|name|..] + [sep] + b;
      ReplaceSplit(a[|name|..], sep, b, name, text);
    } else if a == "" {
      assert s[1..] == b;
    } else {
      assert s[1..] == a[1..] + [sep] + b;
      ReplaceSplit(a[1..], sep, b, name, text);
    }
  }

  lemma PrefixSplit(a: string, sep: char, b: string, name: string)
    requires Outside(sep) && Name(name)
    ensures name <= a + [sep] + b <==> name <= a
    ensures name != "" && !(name <= "")
  {
    NameLetters(name);
    var s := a + [sep] + b;
    if |name| <= |a| {
      assert s[..|name|] == a[..|name|];
    } else {
      assert s[|a|] == sep != name[|a|];
    }
  }

  lemma NameLetters(name: string)
    requires Name(name)
    ensures |name| == 3 && forall i :: 0 <= i < 3 ==> !Outside(name[i])
  {
  }

  lemma {:induction false} NamesSplit(a: string, sep: char, b: string, names: seq<string>, i: nat)
    requires Outside(sep) && NameTable(names) && i <= |names|
    ensures ReplaceNames(a + [sep] + b, names, i) == ReplaceNames(a, names, i) + [sep] + ReplaceNames(b, names, i)
    decreases |names| - i
  {
    hide Name, ReplaceAll;
    if i < |names| {
      if names[i] == "NIL" {
        NamesSplit(a, sep, b, names, i + 1);
      } else {
        ReplaceSplit(a, sep, b, names[i], Itoa(i));
        NamesSplit(ReplaceAll(a, names[i], Itoa(i)), sep, ReplaceAll(b, names[i], Itoa(i)), names, i + 1);
      }
    }
  }

  lemma SubstituteSplit(a: string, sep: char, b: string, names: seq<string>)
    requires Outside(sep) && NameTable(names)
    ensures Substitute(a + [sep] + b, names) == Substitute(a, names) + [sep] + Substitute(b, names)
  {
    if names != [] {
      assert ToUpper(a + [sep] + b) == ToUpper(a) + [sep] + ToUpper(b);
      NamesSplit(ToUpper(a), sep, ToUpper(b), names, 0);
    }
  }

  /** Text without letters stays as it is. */
  lemma {:induction false} NothingToReplace(s: string, name: string, text: string)
    requires Name(name) && forall c <- s :: Outside(c)
    ensures ReplaceAll(s, name, text) == s
  {
    if s != "" {
      assert s[0] in s && name[0] != s[0];
      NothingToReplace(s[1..], name, text);
    }
  }

  lemma {:induction false} NamesUntouched(s: string, names: seq<string>, i: nat)
    requires i <= |names| && NameTable(names) && forall c <- s :: Outside(c)
    ensures ReplaceNames(s, names, i) == s
    decreases |names| - i
  {
    if i < |names| {
      NothingToReplace(s, names[i], Itoa(i));
      NamesUntouched(s, names, i + 1);
    }
  }

  lemma SubstituteNothing(s: string, names: seq<string>)
    requires NameTable(names) && forall c <- s :: Outside(c)
    ensures Substitute(s, names) == s
  {
    forall i | 0 <= i < |s| ensures ToUpper(s)[i] == s[i] {
      assert s[i] in s;
    }
    assert ToUpper(s) == s;
    NamesUntouched(s, names, 0);
  }

  lemma CommaStays(text: string, names: seq<string>)
    requires NameTable(names) && text != "" && text[|text| - 1] == ','
    ensures var s := Substitute(text, names); s != "" && s[|s| - 1] == ','
  {
    hide Substitute;
    var n := |text| - 1;
    assert text == text[..n] + [','] + "";
    SubstituteSplit(text[..n], ',', "", names);
    SubstituteNothing("", names);
  }

  /** Names of one length replace each other only when they are equal. */
  lemma OneName(s: string, name: string, text: string)
    requires Name(s) && Name(name)
    ensures ReplaceAll(s, name, text) == if s == name then text else s
  {
    if s == name {
      assert s[3..] == "";
      assert ReplaceAll(s[3..], name, text) == "";
    } else {
      assert s[1..][1..] == s[2..] && s[2..][1..] == "";
      assert ReplaceAll(s[2..], name, text) == s[2..];
      assert ReplaceAll(s[1..], name, text) == s[1..];
      assert [s[0]] + s[1..] == s;
    }
  }

  lemma {:induction false} NameBecomesNumber(names: seq<string>, i: nat, j: nat)
    requires NameTable(names) && j <= i < |names| && names[i] != "NIL"
    requires forall k :: j <= k < i ==> names[k] != names[i]
    ensures ReplaceNames(names[i], names, j) == Itoa(i)
    decreases i - j
  {
    hide ReplaceAll, Name;
    if j < i {
      if names[j] != "NIL" {
        OneName(names[i], names[j], Itoa(j));
      }
      NameBecomesNumber(names, i, j + 1);
    } else {
      OneName(names[i], names[i], Itoa(i));
      DigitsOutside(Itoa(i));
      NamesUntouched(Itoa(i), names, i + 1);
    }
  }

  lemma DigitsOutside(s: string)
    requires forall c <- s :: Plainchar(c)
    ensures forall c <- s :: Outside(c)
  {
  }

  lemma SpellingIsNumeral(s: string, names: seq<string>)
    requires Atom(s, names) && NameTable(names)
    ensures Numeral(Spelling(s, names))
  {
    if !Numeral(s) {
      ItoaIsNumeral(IndexOf(names, ToUpper(s), 0));
    }
  }

  lemma SubstituteAtom(s: string, names: seq<string>)
    requires Atom(s, names) && NameTable(names)
    ensures Substitute(s, names) == Spelling(s, names)
  {
    hide Numeral, Name;
    if Numeral(s) {
      NumeralChars(s);
      DigitsOutside(s);
      SubstituteNothing(s, names);
    } else {
      NameBecomesNumber(names, IndexOf(names, ToUpper(s), 0), 0);
    }
  }

  lemma SubstituteRange(r: Range, names: seq<string>)
    requires RangeOfAtoms(r, names) && NameTable(names)
    ensures SpelledRange(SpellRange(r, names)) && Substitute(RenderRange(r), names) == RenderRange(SpellRange(r, names))
  {
    hide Atom, Spelling, Numeral, Substitute, NameTable;
    match r
    case Star => SubstituteNothing("*", names);
    case One(v) =>
      SubstituteAtom(v, names);
      SpellingIsNumeral(v, names);
    case Span(a, b) =>
      SubstituteAtom(a, names);
      SubstituteAtom(b, names);
      SpellingIsNumeral(a, names);
      SpellingIsNumeral(b, names);
      SubstituteSplit(a, '-', b, names);
  }

  lemma SubstitutePart(p: Part, names: seq<string>)
    requires OfAtoms(p, names) && NameTable(names)
    ensures Spelled(Spell(p, names)) && Substitute(Render(p), names) == Render(Spell(p, names))
  {
    hide Atom, Spelling, Numeral, Substitute, RangeOfAtoms, SpelledRange, SpellRange, RenderRange, NameTable;
    SubstituteRange(p.range, names);
    if p.Stepped? {
      SubstituteAtom(p.step, names);
      SpellingIsNumeral(p.step, names);
      SubstituteSplit(RenderRange(p.range), '/', p.step, names);
    }
  }

  lemma {:induction false} SubstituteField(ps: seq<Part>, names: seq<string>)
    requires ps != [] && AllOfAtoms(ps, names) && NameTable(names)
    ensures AllSpelled(SpellAll(ps, names)) && Substitute(RenderField(ps), names) == RenderField(SpellAll(ps, names))
  {
    hide Substitute, OfAtoms, Spelled, Spell, Render, NameTable;
    forall i | 0 <= i < |ps| ensures Spelled(SpellAll(ps, names)[i]) {
      SubstitutePart(ps[i], names);
    }
    SubstitutePart(ps[0], names);
    if |ps| > 1 {
      var qs := SpellAll(ps, names);
      SubstituteField(ps[1..], names);
      assert Renders(ps)[1..] == Renders(ps[1..]) && Renders(qs)[1..] == Renders(qs[1..]);
      assert SpellAll(ps[1..], names) == qs[1..];
      SubstituteSplit(Render(ps[0]), ',', RenderField(ps[1..]), names);
    }
  }

  /** Parsing a rendered field of numerals and names, in lists, ranges and steps, gives exactly its meaning with every
      name read as its first index in the table, and fails exactly when a part is invalid. */
  lemma FieldRoundTrip(ps: seq<Part>, minVal: int, maxVal: int, names: seq<string>)
    requires ps != [] && AllOfAtoms(ps, names) && NameTable(names)
    ensures FieldValues(RenderField(ps), minVal, maxVal, names) == FieldMeaning(SpellAll(ps, names), minVal, maxVal)
  {
    SubstituteField(ps, names);
    SentenceMeaning(RenderField(ps), SpellAll(ps, names), minVal, maxVal, names);
  }

  lemma BuiltInNames(t: Traits)
    requires BuiltIn(t)
    ensures NameTable(t.days) && NameTable(t.months) && NameTable([])
  {
    hide Name;
    DayNames();
    MonthNames();
  }

  lemma DayNames()
    ensures NameTable(DAYS) && NameTable(["NIL"] + DAYS)
  {
    assert Name("NIL");
  }

  lemma MonthNames()
    ensures NameTable(MONTHS) && NameTable(["NIL"] + MONTHS)
  {
    assert Name("NIL");
  }
}
