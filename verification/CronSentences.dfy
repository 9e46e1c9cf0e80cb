/** From the text of a whole expression to its firings: six rendered fields joined by blanks. */
module CronSentences {
  import opened Common
  import opened Calendar
  import opened Words
  import opened Cron
  import opened CronParse
  import opened CronGrammar
  import opened CronLaws

  /** The name table and the bounds of each field. */
  function Tables(t: Traits): (names: seq<seq<string>>)
    ensures |names| == 6
  {
    [[], [], [], [], t.months, t.days]
  }

  function Bounds(t: Traits): (bounds: seq<(int, int)>)
    ensures |bounds| == 6
  {
    [(t.minSeconds, t.maxSeconds), (t.minMinutes, t.maxMinutes), (t.minHours, t.maxHours),
     (t.minDOM, t.maxDOM), (t.minMonths, t.maxMonths), (t.minDOW, t.maxDOW)]
  }

  predicate Named(t: Traits) { NameTable(t.months) && NameTable(t.days) }

  /** Six lists of parts over numerals and the names of their fields. */
  predicate Sentence(fs: seq<seq<Part>>, t: Traits) {
    |fs| == 6 && forall k :: 0 <= k < 6 ==> fs[k] != [] && AllOfAtoms(fs[k], Tables(t)[k])
  }

  function Texts(fs: seq<seq<Part>>, t: Traits): (texts: seq<string>)
    requires Sentence(fs, t)
    ensures |texts| == 6 && forall k :: 0 <= k < 6 ==> texts[k] == RenderField(fs[k])
  {
    seq(6, k requires 0 <= k < 6 => RenderField(fs[k]))
  }

  function RenderSentence(fs: seq<seq<Part>>, t: Traits): string
    requires Sentence(fs, t)
  {
    Join(Texts(fs, t), ' ')
  }

  /** What the field stands for, or None if one of its parts is invalid. */
  ghost function Meaning(fs: seq<seq<Part>>, t: Traits, k: nat): Option<set<int>>
    requires Sentence(fs, t) && k < 6
  {
    FieldMeaning(SpellAll(fs[k], Tables(t)[k]), Bounds(t)[k].0, Bounds(t)[k].1)
  }

  // Reading the fields back.

  /** The characters of a rendered field. */
  predicate Sign(c: char) { Plainchar(c) || !Outside(c) || c == '*' || c == '-' || c == '/' || c == ',' }

  predicate Signs(s: string) { forall c <- s :: Sign(c) }

  lemma SignsJoin(a: string, sep: char, b: string)
    requires Signs(a) && Sign(sep) && Signs(b)
    ensures Signs(a + [sep] + b)
  {
  }

  lemma AtomSigns(s: string, names: seq<string>)
    requires Atom(s, names) && NameTable(names)
    ensures s != "" && Signs(s)
  {
    hide Numeral;
    if Numeral(s) {
      NumeralChars(s);
    } else {
      var u := ToUpper(s);
      assert Name(names[IndexOf(names, u, 0)]);
      forall i | 0 <= i < |s| ensures Sign(s[i]) {
        assert 'A' <= u[i] <= 'Z';
      }
    }
  }

  lemma PartSigns(p: Part, names: seq<string>)
    requires OfAtoms(p, names) && NameTable(names)
    ensures Render(p) != "" && Signs(Render(p))
  {
    hide Atom, NameTable, Signs, Sign;
    StarSigns();
    match p.range {
      case Star =>
      case One(v) => AtomSigns(v, names);
      case Span(a, b) =>
        AtomSigns(a, names);
        AtomSigns(b, names);
        SignsJoin(a, '-', b);
    }
    if p.Stepped? {
      AtomSigns(p.step, names);
      SignsJoin(RenderRange(p.range), '/', p.step);
    }
  }

  lemma StarSigns()
    ensures Signs("*") && Sign('-') && Sign('/') && Sign(',')
  {
  }

  lemma {:induction false} FieldSigns(ps: seq<Part>, names: seq<string>)
    requires ps != [] && AllOfAtoms(ps, names) && NameTable(names)
    ensures RenderField(ps) != "" && Signs(RenderField(ps))
  {
    hide OfAtoms, NameTable, Signs, Sign, Render;
    StarSigns();
    PartSigns(ps[0], names);
    if |ps| > 1 {
      FieldSigns(ps[1..], names);
      assert Renders(ps)[1..] == Renders(ps[1..]);
      SignsJoin(Render(ps[0]), ',', RenderField(ps[1..]));
    }
  }

  /** strings.Fields collects a word up to the next blank. */
  lemma {:induction false} FieldsWord(t: string, s: string, word: string)
    requires forall c <- t :: !IsSpace(c)
    ensures Fields(t + s, word) == Fields(s, word + t)
    decreases |t|
  {
    if t == "" {
      assert t + s == s && word + t == word;
    } else {
      assert (t + s)[0] == t[0] && (t + s)[1..] == t[1..] + s && t[0] in t;
      FieldsWord(t[1..], s, word + [t[0]]);
      assert word + [t[0]] + t[1..] == word + t;
    }
  }

  /** A text that strings.Fields returns as one field. */
  predicate Solid(s: string) { s != "" && forall c <- s :: !IsSpace(c) }

  lemma {:induction false} FieldsOfJoin(texts: seq<string>)
    requires texts != [] && forall i :: 0 <= i < |texts| ==> Solid(texts[i])
    ensures Fields(Join(texts, ' '), "") == texts
  {
    var t := texts[0];
    if |texts| == 1 {
      FieldsWord(t, "", "");
      assert t + "" == t && "" + t == t;
    } else {
      FieldsOfJoin(texts[1..]);
      var s := [' '] + Join(texts[1..], ' ');
      FieldsWord(t, s, "");
      assert s[1..] == Join(texts[1..], ' ') && "" + t == t;
      assert t + [' '] + Join(texts[1..], ' ') == t + s;
      assert [t] + texts[1..] == texts;
    }
  }

  lemma SignsAreSolid(s: string)
    requires s != "" && Signs(s)
    ensures Solid(s)
  {
  }

  lemma {:induction false} NoWildcard(s: string)
    requires Signs(s)
    ensures Wildcard(s) == s
  {
    if s != "" {
      assert s[0] in s;
      NoWildcard(s[1..]);
    }
  }

  lemma SentenceFields(fs: seq<seq<Part>>, t: Traits)
    requires Sentence(fs, t) && Named(t)
    ensures Fields(RenderSentence(fs, t), "") == Texts(fs, t)
    ensures forall k :: 0 <= k < 6 ==>
              FieldSpecs(Texts(fs, t), t)[k] == (RenderField(fs[k]), Bounds(t)[k].0, Bounds(t)[k].1, Tables(t)[k])
  {
    hide AllOfAtoms, RenderField, Signs, NameTable, Wildcard, Solid;
    var texts := Texts(fs, t);
    forall k | 0 <= k < 6 ensures Solid(texts[k]) && Wildcard(texts[k]) == texts[k] {
      NoNames();
      FieldSigns(fs[k], Tables(t)[k]);
      SignsAreSolid(texts[k]);
      NoWildcard(texts[k]);
    }
    FieldsOfJoin(texts);
  }

  lemma NoNames()
    ensures NameTable([])
  {
  }

  function UpTo(vs: set<int>, bound: int): set<int> { set v | v in vs && v < bound :: v }

  /** A word for any set of values, built from its first n bits. */
  lemma {:induction false} BitsBelow(vs: set<int>, minVal: int, n: nat) returns (bits: nat)
    requires n <= 64
    ensures Represents(bits, UpTo(vs, minVal + n), minVal)
  {
    if n == 0 {
      EmptyRepresents(minVal);
      bits := 0;
    } else {
      bits := BitsBelow(vs, minVal, n - 1);
      var v := minVal + n - 1;
      var before := UpTo(vs, minVal + n - 1);
      if v in vs {
        RepresentsMore(bits, before, v, minVal);
        assert before + {v} == UpTo(vs, minVal + n);
        bits := Or(bits, Mask(v - minVal));
      } else {
        assert before == UpTo(vs, minVal + n);
      }
    }
  }

  lemma SomeWord(vs: set<int>, minVal: int) returns (bits: nat)
    ensures Represents(bits, vs, minVal)
  {
    bits := BitsBelow(vs, minVal, 64);
  }

  lemma FieldIsMeaning(fs: seq<seq<Part>>, t: Traits, k: nat)
    requires Sentence(fs, t) && Named(t) && k < 6
    ensures FieldValues(RenderField(fs[k]), Bounds(t)[k].0, Bounds(t)[k].1, Tables(t)[k]) == Meaning(fs, t, k)
  {
    NoNames();
    FieldRoundTrip(fs[k], Bounds(t)[k].0, Bounds(t)[k].1, Tables(t)[k]);
  }

  /** Parsing the sentence, field by field. */
  lemma SentenceWords(fs: seq<seq<Part>>, t: Traits, c: CronExpr)
    requires Sentence(fs, t) && Named(t) && c.traits == t && c.expression == RenderSentence(fs, t)
    ensures Parses(RenderSentence(fs, t), t, c) <==>
              forall k :: 0 <= k < 6 ==>
                Meaning(fs, t, k).Some? && Represents(Word(c, k), Meaning(fs, t, k).value, Bounds(t)[k].0)
  {
    hide AllOfAtoms, Named, RenderField, FieldValues, Meaning, Represents, Fields, FieldSpecs, Word, RenderSentence;
    SentenceFields(fs, t);
    forall k | 0 <= k < 6
      ensures FieldValues(RenderField(fs[k]), Bounds(t)[k].0, Bounds(t)[k].1, Tables(t)[k]) == Meaning(fs, t, k)
    {
      FieldIsMeaning(fs, t, k);
    }
  }

  /** A sentence parses exactly when all its parts are valid. */
  lemma SentenceParses(fs: seq<seq<Part>>, t: Traits)
    requires Sentence(fs, t) && Named(t)
    ensures (exists c :: Parses(RenderSentence(fs, t), t, c)) <==> forall k :: 0 <= k < 6 ==> Meaning(fs, t, k).Some?
  {
    hide Sentence, Named, Meaning, Represents, RenderSentence, Parses;
    if c :| Parses(RenderSentence(fs, t), t, c) {
      ParsesKeeps(RenderSentence(fs, t), t, c);
      SentenceWords(fs, t, c);
    }
    if forall k :: 0 <= k < 6 ==> Meaning(fs, t, k).Some? {
      var seconds := SomeWord(Meaning(fs, t, 0).value, Bounds(t)[0].0);
      var minutes := SomeWord(Meaning(fs, t, 1).value, Bounds(t)[1].0);
      var hours := SomeWord(Meaning(fs, t, 2).value, Bounds(t)[2].0);
      var days := SomeWord(Meaning(fs, t, 3).value, Bounds(t)[3].0);
      var months := SomeWord(Meaning(fs, t, 4).value, Bounds(t)[4].0);
      var weekdays := SomeWord(Meaning(fs, t, 5).value, Bounds(t)[5].0);
      var c := CronExpr(seconds, minutes, hours, days, months, weekdays, RenderSentence(fs, t), t);
      SentenceWords(fs, t, c);
    }
  }

  lemma ParsesKeeps(expr: string, t: Traits, c: CronExpr)
    requires Parses(expr, t, c)
    ensures c.traits == t && c.expression == expr
  {
  }

  /** And once parsed over a built-in table, it fires exactly at the instants all of whose fields are among the
      values its parts stand for. */
  lemma SentenceFires(fs: seq<seq<Part>>, t: Traits, c: CronExpr, n: int)
    requires BuiltIn(t) && Sentence(fs, t) && Parses(RenderSentence(fs, t), t, c)
    ensures Matches(c, n) <==>
              forall k :: 0 <= k < 6 ==> Meaning(fs, t, k).Some? && Now(n, t)[k] in Meaning(fs, t, k).value
  {
    hide BuiltIn, AllOfAtoms, RenderField, FieldValues, Meaning, Fields, FieldSpecs, RenderSentence, Parses, Matches,
         NameTable, Now;
    BuiltInNames(t);
    ParsesKeeps(RenderSentence(fs, t), t, c);
    FiresWhenListed(c, n);
    SentenceFields(fs, t);
    forall k | 0 <= k < 6
      ensures Lists(FieldSpecs(Texts(fs, t), t)[k], Now(n, t)[k])
         <==> Meaning(fs, t, k).Some? && Now(n, t)[k] in Meaning(fs, t, k).value
    {
      FieldIsMeaning(fs, t, k);
    }
  }
}
