/** One matched element of a scanned page: its `id` attribute and the name of
    the file it was found in (`Section` in app.rb). Records whose id starts with
    `'s'` are section markers and carry the number written after the `'s'`. */
module Sections {
  import opened RubyText

  datatype Section = Section(id: string, file: string) {

    /** `is_section?`: the id starts with `'s'`. */
    predicate IsSection() {
      |id| > 0 && id[0] == 's'
    }

    /** `id_value`: `@id[1..-1].to_i`. For an id of length 0 Ruby's slice is
        `nil` and `nil.to_i` is 0, which is also what the empty rest gives. */
    function IdValue(): nat {
      ToI(if |id| == 0 then "" else id[1..])
    }

    /** `<=>`: by number when both records are sections, otherwise by the ids
        as strings. */
    function Cmp(other: Section): (r: int)
      ensures r == -1 || r == 0 || r == 1
      ensures IsSection() && other.IsSection() ==>
        (r < 0 <==> IdValue() < other.IdValue()) && (r == 0 <==> IdValue() == other.IdValue())
      ensures !(IsSection() && other.IsSection()) ==> (r == 0 <==> id == other.id)
    {
      if IsSection() && other.IsSection() then IntCmp(IdValue(), other.IdValue())
      else StrCmp(id, other.id)
    }

    /** Where a record sits relative to all section markers: 0 for an id that
        sorts before every id starting with `'s'` (empty, or a first character
        below `'s'`), 1 for a section, 2 for an id whose first character is
        above `'s'`. */
    function Band(): (b: nat)
      ensures b <= 2
      ensures b == 1 <==> IsSection()
    {
      if |id| == 0 || id[0] < 's' then 0 else if id[0] == 's' then 1 else 2
    }

    /** `to_csv`: `"#{@id},#{@file}"`. */
    function ToCsv(): string {
      id + "," + file
    }

    /** `to_json`: `"#{@id}" : "#{@file}"` with both parts quoted. */
    function ToJson(): string {
      "\"" + id + "\" : \"" + file + "\""
    }
  }

  /** A non-section record is never interleaved with the sections: it falls
      below all of them or above all of them, by its first character. */
  lemma BandOrder(a: Section, b: Section)
    requires a.Band() < b.Band()
    ensures a.Cmp(b) == -1
  {
  }

  lemma CmpReflexive(a: Section)
    ensures a.Cmp(a) == 0
  {
  }

  lemma {:induction false} CmpAntisymmetric(a: Section, b: Section)
    ensures b.Cmp(a) == -a.Cmp(b)
  {
    StrCmpAntisymmetric(a.id, b.id);
  }

  lemma {:induction false} CmpTransitive(a: Section, b: Section, c: Section)
    requires a.Cmp(b) <= 0 && b.Cmp(c) <= 0
    ensures a.Cmp(c) <= 0
  {
    if b.Band() < a.Band() {
      BandOrder(b, a);
      CmpAntisymmetric(a, b);
    } else if c.Band() < b.Band() {
      BandOrder(c, b);
      CmpAntisymmetric(b, c);
    } else if a.Band() < c.Band() {
      BandOrder(a, c);
    } else if !a.IsSection() {
      StrCmpTransitive(a.id, b.id, c.id);
    }
  }

  /** The comparator is a total preorder on all records, sections or not. */
  lemma CmpTotalPreorder(a: Section, b: Section, c: Section)
    ensures a.Cmp(a) == 0
    ensures a.Cmp(b) <= 0 || b.Cmp(a) <= 0
    ensures a.Cmp(b) <= 0 && b.Cmp(c) <= 0 ==> a.Cmp(c) <= 0
  {
    CmpReflexive(a);
    CmpAntisymmetric(a, b);
    if a.Cmp(b) <= 0 && b.Cmp(c) <= 0 {
      CmpTransitive(a, b, c);
    }
  }

  /** Outside the both-sections case, `<=>` is the lexicographic order of ids. */
  lemma CmpStringCase(a: Section, b: Section)
    requires !(a.IsSection() && b.IsSection())
    ensures a.Cmp(b) == -1 <==> LexLess(a.id, b.id)
  {
    StrCmpIsLexLess(a.id, b.id);
  }

  /** A section numbered `n` written as `s<n>` reads back as `n`. */
  lemma IdValueOfNumber(n: nat, rest: string, file: string)
    requires |rest| == 0 || !IsDigit(rest[0])
    ensures Section("s" + NatToString(n) + rest, file).IdValue() == n
  {
    ToINatToString(n, rest);
    IdValueAfterS(NatToString(n), rest, file);
  }

  /** The number of `s<ds><rest>` is the number `ds + rest` starts with. */
  lemma IdValueAfterS(ds: string, rest: string, file: string)
    ensures Section("s" + ds + rest, file).IdValue() == ToI(ds + rest)
  {
    assert ("s" + ds + rest)[1..] == ds + rest;
  }

  /** A one-digit section id. */
  lemma IdValueOneDigit(c: char, file: string)
    requires IsDigit(c)
    ensures Section(['s', c], file).IdValue() == DigitValue(c)
  {
    assert ['s', c][1..] == [c];
    assert LeadingDigits([c]) == [c];
    assert [c][..0] == [];
    assert DigitsValue([c]) == 10 * DigitsValue([]) + DigitValue(c);
  }

  /** With no digit right after the first character, the number is 0; this
      covers the id `"s"` on its own and the empty id. */
  lemma IdValueWithoutDigits(x: Section)
    requires |x.id| <= 1 || !IsDigit(x.id[1])
    ensures x.IdValue() == 0
  {
    if |x.id| > 1 {
      assert x.id[1..][0] == x.id[1];
    }
  }

  /** A CSV line read back: the id is everything before the first comma. */
  function ParseCsvLine(line: string): Option<Section> {
    var k := IndexOf(line, ',');
    if k == |line| then None else Some(Section(line[..k], line[k + 1..]))
  }

  lemma CsvLineRoundTrip(s: Section)
    requires ',' !in s.id
    ensures ParseCsvLine(s.ToCsv()) == Some(s)
  {
    var line := s.ToCsv();
    assert line[|s.id|] == ',';
    assert line[..|s.id|] == s.id;
    assert line[|s.id| + 1..] == s.file;
  }

  /** A JSON entry `"id" : "file"` read back: the id ends at the first quote. */
  function ParseJsonEntry(entry: string): Option<Section> {
    if |entry| == 0 || entry[0] != '"' then None
    else
      var rest := entry[1..];
      var k := IndexOf(rest, '"');
      if k == |rest| then None
      else
        var tail := rest[k + 1..];
        if |tail| >= 5 && tail[..4] == " : \"" && tail[|tail| - 1] == '"'
        then Some(Section(rest[..k], tail[4..|tail| - 1]))
        else None
  }

  /** An entry line holds a newline only if one of its fields does. */
  lemma JsonEntryNoNewline(x: Section)
    requires '\n' !in x.id && '\n' !in x.file
    ensures '\n' !in "  " + x.ToJson()
  {
    var e := "  " + x.ToJson();
    forall k | 0 <= k < |e| ensures e[k] != '\n' {
      if 3 <= k < 3 + |x.id| { assert e[k] == x.id[k - 3]; }
      else if 3 + |x.id| + 5 <= k < |e| - 1 { assert e[k] == x.file[k - 3 - |x.id| - 5]; }
    }
  }

  lemma JsonEntryRoundTrip(s: Section)
    requires '"' !in s.id
    ensures ParseJsonEntry(s.ToJson()) == Some(s)
  {
    var entry := s.ToJson();
    var rest := entry[1..];
    assert rest == s.id + "\" : \"" + s.file + "\"";
    assert rest[|s.id|] == '"';
    assert rest[..|s.id|] == s.id;
    var tail := rest[|s.id| + 1..];
    assert tail == " : \"" + s.file + "\"";
    assert tail[4..|tail| - 1] == s.file;
  }
}
