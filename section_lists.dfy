/** The record collection (`SectionList` in app.rb): the scanned records in a
    growable array that is appended to and then sorted in place, the filter to
    section markers, the grouping of section numbers by file, and the three
    renderers the command line chooses between. */
module SectionLists {
  import opened RubyText
  import opened Sections

  // ---------------------------------------------------------------------------
  // Order and filtering
  // ---------------------------------------------------------------------------

  /** Nondecreasing under `<=>`, every pair compared. */
  predicate Sorted(s: seq<Section>) {
    forall i, j :: 0 <= i < j < |s| ==> s[i].Cmp(s[j]) <= 0
  }

  /** `sections_only`: `select(&:is_section?)`. */
  function SectionsOnly(s: seq<Section>): (r: seq<Section>)
    ensures forall x :: x in r <==> x in s && x.IsSection()
    ensures forall x: Section :: x.IsSection() ==> multiset(r)[x] == multiset(s)[x]
  {
    if |s| == 0 then []
    else
      assert s == [s[0]] + s[1..];
      (if s[0].IsSection() then [s[0]] else []) + SectionsOnly(s[1..])
  }

  /** The filter keeps the existing order: it distributes over concatenation. */
  lemma {:induction false} SectionsOnlyAppend(a: seq<Section>, b: seq<Section>)
    ensures SectionsOnly(a + b) == SectionsOnly(a) + SectionsOnly(b)
  {
    if |a| > 0 {
      var ab := a + b;
      assert ab[0] == a[0] && ab[1..] == a[1..] + b;
      SectionsOnlyAppend(a[1..], b);
    } else {
      assert a + b == b;
    }
  }

  lemma {:induction false} SectionsOnlySorted(s: seq<Section>)
    requires Sorted(s)
    ensures Sorted(SectionsOnly(s))
  {
    if |s| > 0 {
      var tail := s[1..];
      SortedTail(s);
      SectionsOnlySorted(tail);
      var rest := SectionsOnly(tail);
      if s[0].IsSection() {
        forall y | y in rest ensures s[0].Cmp(y) <= 0 {
          var k :| 0 <= k < |tail| && tail[k] == y;
          assert s[k + 1] == y;
        }
        SortedCons(s[0], rest);
        assert SectionsOnly(s) == [s[0]] + rest;
      } else {
        assert SectionsOnly(s) == rest;
      }
    }
  }

  // ---------------------------------------------------------------------------
  // Sorting (the outcome of Ruby's `sort!`)
  // ---------------------------------------------------------------------------

  /** Puts `x` before the first element it is not above. */
  function Insert(s: seq<Section>, x: Section): (r: seq<Section>)
    ensures multiset(r) == multiset(s) + multiset{x}
  {
    if |s| == 0 then [x]
    else if x.Cmp(s[0]) <= 0 then [x] + s
    else
      assert s == [s[0]] + s[1..];
      [s[0]] + Insert(s[1..], x)
  }

  lemma SortedTail(s: seq<Section>)
    requires Sorted(s) && |s| > 0
    ensures Sorted(s[1..])
  {
    var tail := s[1..];
    forall i, j | 0 <= i < j < |tail| ensures tail[i].Cmp(tail[j]) <= 0 {
      assert tail[i] == s[i + 1] && tail[j] == s[j + 1];
    }
  }

  lemma SortedCons(x: Section, s: seq<Section>)
    requires Sorted(s)
    requires forall y :: y in s ==> x.Cmp(y) <= 0
    ensures Sorted([x] + s)
  {
    var r := [x] + s;
    forall i, j | 0 <= i < j < |r| ensures r[i].Cmp(r[j]) <= 0 {
      assert r[j] == s[j - 1];
      if i > 0 { assert r[i] == s[i - 1]; }
    }
  }

  lemma {:induction false} InsertSorted(s: seq<Section>, x: Section)
    requires Sorted(s)
    ensures Sorted(Insert(s, x))
  {
    if |s| == 0 {
    } else if x.Cmp(s[0]) <= 0 {
      InsertAtFront(s, x);
    } else {
      SortedTail(s);
      InsertSorted(s[1..], x);
      InsertBehind(s, x);
    }
  }

  /** Inserting below the head: `x` is below every element. */
  lemma InsertAtFront(s: seq<Section>, x: Section)
    requires Sorted(s) && |s| > 0 && x.Cmp(s[0]) <= 0
    ensures Sorted([x] + s)
  {
    forall y | y in s ensures x.Cmp(y) <= 0 {
      var k :| 0 <= k < |s| && s[k] == y;
      if k > 0 { CmpTransitive(x, s[0], y); }
    }
    SortedCons(x, s);
  }

  /** Inserting above the head: the head stays in front of the sorted rest. */
  lemma InsertBehind(s: seq<Section>, x: Section)
    requires Sorted(s) && |s| > 0 && x.Cmp(s[0]) > 0
    requires Sorted(Insert(s[1..], x))
    ensures Sorted([s[0]] + Insert(s[1..], x))
  {
    CmpAntisymmetric(x, s[0]);
    HeadBelowTail(s);
    var rest := Insert(s[1..], x);
    forall y | y in rest ensures s[0].Cmp(y) <= 0 {
      assert y in multiset(rest);
      assert y == x || y in multiset(s[1..]);
    }
    SortedCons(s[0], rest);
  }

  /** The head of a sorted sequence is below everything after it. */
  lemma HeadBelowTail(s: seq<Section>)
    requires Sorted(s) && |s| > 0
    ensures forall y :: y in s[1..] ==> s[0].Cmp(y) <= 0
  {
    forall y | y in s[1..] ensures s[0].Cmp(y) <= 0 {
      var k :| 0 <= k < |s[1..]| && s[1..][k] == y;
      assert s[k + 1] == y;
    }
  }

  /** One step of insertion sort: the sorted prefix grows by one element. */
  lemma InsertStep(sorted: seq<Section>, items: seq<Section>, i: nat)
    requires i < |items|
    requires Sorted(sorted) && multiset(sorted) == multiset(items[..i])
    ensures Sorted(Insert(sorted, items[i]))
    ensures multiset(Insert(sorted, items[i])) == multiset(items[..i + 1])
  {
    InsertSorted(sorted, items[i]);
    assert items[..i + 1] == items[..i] + [items[i]];
  }

  // ---------------------------------------------------------------------------
  // The grouping hash
  // ---------------------------------------------------------------------------

  /** A Ruby Hash from file names to arrays of section numbers; `keys` is its
      insertion order, which is the order Ruby iterates it in. */
  datatype Hash = Hash(keys: seq<string>, values: map<string, seq<nat>>) {
    ghost predicate Valid() {
      (forall i, j :: 0 <= i < j < |keys| ==> keys[i] != keys[j]) &&
      (forall k :: k in values <==> k in keys)
    }
  }

  /** `hsh[k] = v`: a new key goes last, an existing key keeps its place. */
  function Store(h: Hash, k: string, v: seq<nat>): (r: Hash)
    requires h.Valid()
    ensures r.Valid()
    ensures r.keys == if k in h.values then h.keys else h.keys + [k]
    ensures k in r.values && r.values[k] == v
    ensures forall g :: g != k ==> (g in r.values <==> g in h.values)
    ensures forall g :: g != k && g in h.values ==> r.values[g] == h.values[g]
  {
    Hash(if k in h.values then h.keys else h.keys + [k], h.values[k := v])
  }

  /** `arr[1] = v` on an array with at least one element. */
  function SetSecond(arr: seq<nat>, v: nat): (r: seq<nat>)
    requires |arr| >= 1
    ensures |r| == if |arr| == 1 then 2 else |arr|
    ensures r[0] == arr[0] && r[1] == v
    ensures forall k :: 2 <= k < |arr| ==> r[k] == arr[k]
  {
    if |arr| == 1 then arr + [v] else arr[1 := v]
  }

  lemma SetSecondOfRange(arr: seq<nat>, v: nat)
    requires |arr| == 1 || |arr| == 2
    ensures SetSecond(arr, v) == [arr[0], v]
  {
  }

  function Files(s: seq<Section>): seq<string> {
    seq(|s|, i requires 0 <= i < |s| => s[i].file)
  }

  /** The distinct elements of `s`, each once, in order of first appearance. */
  function Dedup(s: seq<string>): (d: seq<string>)
    ensures forall x :: x in d <==> x in s
    ensures forall i, j :: 0 <= i < j < |d| ==> d[i] != d[j]
  {
    if |s| == 0 then []
    else
      var d := Dedup(s[..|s| - 1]);
      assert s == s[..|s| - 1] + [s[|s| - 1]];
      if s[|s| - 1] in d then d else d + [s[|s| - 1]]
  }

  function FirstIndex(s: seq<string>, x: string): (k: nat)
    requires x in s
    ensures k < |s| && s[k] == x
    ensures forall i :: 0 <= i < k ==> s[i] != x
  {
    if s[0] == x then 0 else 1 + FirstIndex(s[1..], x)
  }

  function LastIndex(s: seq<string>, x: string): (k: nat)
    requires x in s
    ensures k < |s| && s[k] == x
    ensures forall i :: k < i < |s| ==> s[i] != x
  {
    var n := |s| - 1;
    if s[n] == x then n
    else
      assert s == s[..n] + [s[n]];
      LastIndex(s[..n], x)
  }

  /** Where the run of equal elements that ends at position `j` starts. */
  function RunStart(s: seq<string>, j: nat): (i: nat)
    requires j < |s|
    ensures i <= j
    ensures forall k :: i <= k <= j ==> s[k] == s[j]
    ensures i == 0 || s[i - 1] != s[j]
  {
    if j > 0 && s[j - 1] == s[j] then RunStart(s, j - 1) else j
  }

  lemma FirstIndexIs(s: seq<string>, x: string, k: nat)
    requires k < |s| && s[k] == x
    requires forall i :: 0 <= i < k ==> s[i] != x
    ensures FirstIndex(s, x) == k
  {
  }

  lemma LastIndexIs(s: seq<string>, x: string, k: nat)
    requires k < |s| && s[k] == x
    requires forall i :: k < i < |s| ==> s[i] != x
    ensures LastIndex(s, x) == k
  {
  }

  lemma RunStartIs(s: seq<string>, j: nat, i: nat)
    requires i <= j < |s|
    requires forall k :: i <= k <= j ==> s[k] == s[j]
    requires i == 0 || s[i - 1] != s[j]
    ensures RunStart(s, j) == i
  {
  }

  /** The range recorded for file `f`: the first and, when it has more than one
      record, the last section number of the last run of `f`'s records. */
  function RunRange(s: seq<Section>, f: string): seq<nat>
    requires f in Files(s)
  {
    var fs := Files(s);
    var j := LastIndex(fs, f);
    var i := RunStart(fs, j);
    if i == j then [s[i].IdValue()] else [s[i].IdValue(), s[j].IdValue()]
  }

  /** What `group_by_range` computes from the section records `s`, stated
      without the loop: one key per file in order of first appearance, each
      mapped to the range of that file's last run. */
  function Grouping(s: seq<Section>): (h: Hash)
    ensures h.Valid()
  {
    var keys := Dedup(Files(s));
    Hash(keys, map f | f in keys :: RunRange(s, f))
  }

  /** The keys of the grouping: exactly the files of the records, each once,
      in the order in which each file first appears. */
  lemma GroupingKeys(s: seq<Section>)
    ensures Grouping(s).Valid()
    ensures forall f :: f in Grouping(s).values <==> exists k :: 0 <= k < |s| && s[k].file == f
    ensures forall i, j :: 0 <= i < j < |Grouping(s).keys| ==>
      FirstIndex(Files(s), Grouping(s).keys[i]) < FirstIndex(Files(s), Grouping(s).keys[j])
  {
    var fs := Files(s);
    forall f ensures f in fs <==> exists k :: 0 <= k < |s| && s[k].file == f {
      if f in fs {
        var k :| 0 <= k < |fs| && fs[k] == f;
        assert s[k].file == f;
      }
      if exists k :: 0 <= k < |s| && s[k].file == f {
        var k :| 0 <= k < |s| && s[k].file == f;
        assert fs[k] == f;
      }
    }
    DedupFirstAppearance(fs);
    assert Grouping(s).keys == Dedup(fs);
  }

  lemma {:induction false} DedupFirstAppearance(s: seq<string>)
    ensures forall i, j :: 0 <= i < j < |Dedup(s)| ==> FirstIndex(s, Dedup(s)[i]) < FirstIndex(s, Dedup(s)[j])
  {
    if |s| > 0 {
      var n := |s| - 1;
      var p := s[..n];
      DedupFirstAppearance(p);
      var d' := Dedup(p);
      forall x | x in p ensures FirstIndex(s, x) == FirstIndex(p, x) {
        FirstIndexIs(s, x, FirstIndex(p, x));
      }
      var d := Dedup(s);
      if s[n] !in d' {
        assert d == d' + [s[n]];
        assert forall i :: 0 <= i < n ==> s[i] == p[i];
        FirstIndexIs(s, s[n], n);
        forall i, j | 0 <= i < j < |d| ensures FirstIndex(s, d[i]) < FirstIndex(s, d[j]) {
          assert d[i] == d'[i] && d'[i] in p;
          assert FirstIndex(s, d[i]) == FirstIndex(p, d'[i]) < |p|;
          if j < |d'| {
            assert d[j] == d'[j] && d'[j] in p;
            assert FirstIndex(s, d[j]) == FirstIndex(p, d'[j]);
          } else {
            assert d[j] == s[n];
          }
        }
      } else {
        assert d == d';
        forall i, j | 0 <= i < j < |d| ensures FirstIndex(s, d[i]) < FirstIndex(s, d[j]) {
          assert d[i] in p && d[j] in p;
          assert FirstIndex(s, d[i]) == FirstIndex(p, d'[i]);
          assert FirstIndex(s, d[j]) == FirstIndex(p, d'[j]);
        }
      }
    }
  }

  /** The value of a key, stated by the run itself: if positions `i..j` are a
      maximal run of file `f` and no later record is in `f`, the grouping maps
      `f` to `[first]`, or to `[first, last]` when the run has two or more
      records. */
  lemma GroupingValueIsLastRun(s: seq<Section>, f: string, i: nat, j: nat)
    requires i <= j < |s|
    requires forall k :: i <= k <= j ==> s[k].file == f
    requires i == 0 || s[i - 1].file != f
    requires forall k :: j < k < |s| ==> s[k].file != f
    ensures f in Grouping(s).values
    ensures Grouping(s).values[f] ==
      if i == j then [s[i].IdValue()] else [s[i].IdValue(), s[j].IdValue()]
  {
    var fs := Files(s);
    assert fs[j] == f;
    LastIndexIs(fs, f, j);
    RunStartIs(fs, j, i);
  }

  /** Every value has one or two elements. */
  lemma GroupingValueLengths(s: seq<Section>)
    ensures forall f :: f in Grouping(s).values ==>
      |Grouping(s).values[f]| == 1 || |Grouping(s).values[f]| == 2
  {
  }

  /** On a sorted collection the range of every file is ascending. */
  lemma GroupingAscendingWhenSorted(s: seq<Section>)
    requires Sorted(s)
    ensures var h := Grouping(SectionsOnly(s));
      forall f :: f in h.values && |h.values[f]| == 2 ==> h.values[f][0] <= h.values[f][1]
  {
    var secs := SectionsOnly(s);
    SectionsOnlySorted(s);
    var h := Grouping(secs);
    forall f | f in h.values && |h.values[f]| == 2 ensures h.values[f][0] <= h.values[f][1] {
      var fs := Files(secs);
      var j := LastIndex(fs, f);
      var i := RunStart(fs, j);
      assert secs[i] in secs && secs[j] in secs;
    }
  }

  /** A file whose records lie between positions `i` and `j`, with nothing
      else in between, is mapped to the numbers at the two ends. */
  lemma ContiguousRange(secs: seq<Section>, f: string, i: nat, j: nat)
    requires i <= j < |secs| && secs[i].file == f && secs[j].file == f
    requires forall k :: 0 <= k < i ==> secs[k].file != f
    requires forall k :: j < k < |secs| ==> secs[k].file != f
    requires forall p, q, r :: 0 <= p < q < r < |secs| && secs[p].file == f && secs[r].file == f ==> secs[q].file == f
    ensures f in Grouping(secs).values
    ensures Grouping(secs).values[f] ==
      if i == j then [secs[i].IdValue()] else [secs[i].IdValue(), secs[j].IdValue()]
  {
    forall k | i < k < j ensures secs[k].file == f {
      assert 0 <= i < k < j < |secs|;
    }
    if i > 0 {
      assert secs[i - 1].file != f;
    }
    GroupingValueIsLastRun(secs, f, i, j);
  }

  /** Section numbers that never decrease along the sequence. */
  predicate NumbersAscend(secs: seq<Section>) {
    forall p, q :: 0 <= p < q < |secs| ==> secs[p].IdValue() <= secs[q].IdValue()
  }

  /** For section records, sorted under `<=>` means ascending numbers. */
  lemma SortedSectionsAscend(secs: seq<Section>)
    requires Sorted(secs)
    requires forall k :: 0 <= k < |secs| ==> secs[k].IsSection()
    ensures NumbersAscend(secs)
  {
    forall p, q | 0 <= p < q < |secs| ensures secs[p].IdValue() <= secs[q].IdValue() {
      assert secs[p].IsSection() && secs[q].IsSection();
      assert secs[p].Cmp(secs[q]) <= 0;
    }
  }

  /** With ascending numbers, a block `i..j` holding every record of file
      `f` has the smallest of their numbers at `i` and the largest at `j`. */
  lemma AscendingBlockBounds(secs: seq<Section>, f: string, i: nat, j: nat)
    requires NumbersAscend(secs)
    requires i <= j < |secs|
    requires forall k :: 0 <= k < i ==> secs[k].file != f
    requires forall k :: j < k < |secs| ==> secs[k].file != f
    ensures forall k :: 0 <= k < |secs| && secs[k].file == f ==>
      secs[i].IdValue() <= secs[k].IdValue() <= secs[j].IdValue()
  {
    forall k | 0 <= k < |secs| && secs[k].file == f
      ensures secs[i].IdValue() <= secs[k].IdValue() <= secs[j].IdValue()
    {
      assert i <= k <= j;
    }
  }

  /** The first and the last position of file `f` among the records. */
  lemma FileExtent(secs: seq<Section>, f: string) returns (i: nat, j: nat)
    requires exists k :: 0 <= k < |secs| && secs[k].file == f
    ensures i <= j < |secs| && secs[i].file == f && secs[j].file == f
    ensures forall k :: 0 <= k < i ==> secs[k].file != f
    ensures forall k :: j < k < |secs| ==> secs[k].file != f
  {
    var m :| 0 <= m < |secs| && secs[m].file == f;
    var fs := Files(secs);
    assert fs[m] == f;
    i := FirstIndex(fs, f);
    j := LastIndex(fs, f);
    assert fs[i] == f && fs[j] == f;
    forall k | 0 <= k < i ensures secs[k].file != f { assert fs[k] != f; }
    forall k | j < k < |secs| ensures secs[k].file != f { assert fs[k] != f; }
  }

  /** File `f` is a key whose range starts at the smallest and ends at the
      largest number among `f`'s records, both of which occur. */
  ghost predicate RangeIsMinMax(secs: seq<Section>, f: string) {
    f in Grouping(secs).values && var v := Grouping(secs).values[f];
    (exists k :: 0 <= k < |secs| && secs[k].file == f && secs[k].IdValue() == v[0]) &&
    (exists k :: 0 <= k < |secs| && secs[k].file == f && secs[k].IdValue() == v[|v| - 1]) &&
    forall k :: 0 <= k < |secs| && secs[k].file == f ==> v[0] <= secs[k].IdValue() <= v[|v| - 1]
  }

  /** The first and last number of a range `[a]` or `[a, b]`. */
  lemma RangeEnds(v: seq<nat>, a: nat, b: nat, single: bool)
    requires v == if single then [a] else [a, b]
    requires single ==> a == b
    ensures v[0] == a && v[|v| - 1] == b
  {
  }

  /** Contiguity and ascending numbers pin a file's range to its extreme
      numbers, stated on the section records themselves. */
  lemma AscendingContiguousRange(secs: seq<Section>, f: string)
    requires NumbersAscend(secs)
    requires forall p, q, r :: 0 <= p < q < r < |secs| && secs[p].file == f && secs[r].file == f ==> secs[q].file == f
    requires exists k :: 0 <= k < |secs| && secs[k].file == f
    ensures RangeIsMinMax(secs, f)
  {
    var i, j := FileExtent(secs, f);
    ContiguousRange(secs, f, i, j);
    AscendingBlockBounds(secs, f, i, j);
    var v := Grouping(secs).values[f];
    RangeEnds(v, secs[i].IdValue(), secs[j].IdValue(), i == j);
    assert secs[i].file == f && secs[j].file == f;
  }

  /** When a file's section records are contiguous in a sorted collection, its
      range runs from the smallest to the largest of their numbers. */
  lemma GroupingIsMinMaxWhenContiguous(s: seq<Section>, f: string)
    requires Sorted(s)
    requires var secs := SectionsOnly(s);
      forall p, q, r :: 0 <= p < q < r < |secs| && secs[p].file == f && secs[r].file == f ==> secs[q].file == f
    requires exists k :: 0 <= k < |s| && s[k].IsSection() && s[k].file == f
    ensures RangeIsMinMax(SectionsOnly(s), f)
  {
    SectionsOnlySorted(s);
    SectionsOnlyFacts(s, f);
    SortedSectionsAscend(SectionsOnly(s));
    AscendingContiguousRange(SectionsOnly(s), f);
  }

  /** The kept records are all sections, and a section record of file `f`
      leaves a record of `f` among them. */
  lemma SectionsOnlyFacts(s: seq<Section>, f: string)
    requires exists k :: 0 <= k < |s| && s[k].IsSection() && s[k].file == f
    ensures forall k :: 0 <= k < |SectionsOnly(s)| ==> SectionsOnly(s)[k].IsSection()
    ensures exists k :: 0 <= k < |SectionsOnly(s)| && SectionsOnly(s)[k].file == f
  {
    var secs := SectionsOnly(s);
    forall k | 0 <= k < |secs| ensures secs[k].IsSection() {
      assert secs[k] in secs;
    }
    var k0 :| 0 <= k0 < |s| && s[k0].IsSection() && s[k0].file == f;
    assert s[k0] in secs;
    var m :| 0 <= m < |secs| && secs[m] == s[k0];
    assert secs[m].file == f;
  }

  /** Records that are not sections have no effect on the grouping. */
  lemma NonSectionsIgnored(a: seq<Section>, x: Section, b: seq<Section>)
    requires !x.IsSection()
    ensures Grouping(SectionsOnly(a + [x] + b)) == Grouping(SectionsOnly(a + b))
  {
    SectionsOnlyAppend(a + [x], b);
    SectionsOnlyAppend(a, [x]);
    SectionsOnlyAppend(a, b);
    assert SectionsOnly([x]) == [];
    assert SectionsOnly(a + [x]) == SectionsOnly(a);
    assert SectionsOnly(a + [x] + b) == SectionsOnly(a + b);
  }

  lemma FilesPrefix(t: seq<Section>, n: nat)
    requires n <= |t|
    ensures Files(t[..n]) == Files(t)[..n]
  {
  }

  /** Appending a record leaves the range of every other file as it was. */
  lemma RunRangeSnocOther(t: seq<Section>, y: string)
    requires |t| > 0 && y != t[|t| - 1].file && y in Files(t[..|t| - 1])
    ensures y in Files(t)
    ensures RunRange(t, y) == RunRange(t[..|t| - 1], y)
  {
    var n := |t| - 1;
    var s := t[..n];
    var fs, ps := Files(t), Files(s);
    FilesPrefix(t, n);
    var j := LastIndex(ps, y);
    LastIndexIs(fs, y, j);
    var i := RunStart(ps, j);
    RunStartIs(fs, j, i);
  }

  /** Appending a record of file `f` makes it the end of `f`'s last run: a run
      that continues keeps its first number, a new run starts from scratch. */
  lemma RunRangeSnocSame(t: seq<Section>)
    requires |t| > 0
    ensures t[|t| - 1].file in Files(t)
    ensures var n, f := |t| - 1, t[|t| - 1].file;
      if n > 0 && t[n - 1].file == f then
        f in Files(t[..n]) && |RunRange(t[..n], f)| >= 1 &&
        RunRange(t, f) == [RunRange(t[..n], f)[0], t[n].IdValue()]
      else RunRange(t, f) == [t[n].IdValue()]
  {
    var n := |t| - 1;
    var s, f := t[..n], t[n].file;
    var fs, ps := Files(t), Files(s);
    FilesPrefix(t, n);
    assert fs[n] == f;
    LastIndexIs(fs, f, n);
    if n > 0 && t[n - 1].file == f {
      assert ps[n - 1] == f;
      LastIndexIs(ps, f, n - 1);
      var i := RunStart(ps, n - 1);
      RunStartIs(fs, n, i);
    } else {
      RunStartIs(fs, n, n);
    }
  }

  /** `h` is the grouping of `s`, stated key by key. */
  ghost predicate IsGrouping(h: Hash, s: seq<Section>) {
    h.Valid() && h.keys == Dedup(Files(s)) &&
    forall y :: y in h.values ==> y in Files(s) && h.values[y] == RunRange(s, y)
  }

  lemma IsGroupingUnique(h: Hash, s: seq<Section>)
    requires IsGrouping(h, s)
    ensures h == Grouping(s)
  {
    var g := Grouping(s);
    GroupingDomain(s);
    forall y | y in g.values ensures y in h.values && h.values[y] == g.values[y] {
      GroupingAt(s, y);
      assert y in h.keys;
    }
    forall y | y in h.values ensures y in g.values {
      assert y in h.keys;
    }
    HashExtensionality(h, g);
  }

  /** Two hashes with the same keys in the same order and the same value at
      every key are equal. */
  lemma HashExtensionality(a: Hash, b: Hash)
    requires a.keys == b.keys
    requires forall y :: y in a.values <==> y in b.values
    requires forall y :: y in a.values ==> a.values[y] == b.values[y]
    ensures a == b
  {
  }

  /** The grouping's keys are the keys of its map. */
  lemma GroupingDomain(s: seq<Section>)
    ensures forall y :: y in Grouping(s).values <==> y in Grouping(s).keys
    ensures Grouping(s).keys == Dedup(Files(s))
  {
  }

  /** The grouping's value at a file is that file's range. */
  lemma GroupingAt(s: seq<Section>, y: string)
    requires y in Files(s)
    ensures y in Grouping(s).values && Grouping(s).values[y] == RunRange(s, y)
  {
  }

  lemma DedupFilesSnoc(t: seq<Section>)
    requires |t| > 0
    ensures var ks, f := Dedup(Files(t[..|t| - 1])), t[|t| - 1].file;
      Dedup(Files(t)) == if f in ks then ks else ks + [f]
  {
    var n := |t| - 1;
    FilesPrefix(t, n);
    assert Files(t)[..n] == Files(t[..n]);
  }

  /** One step of the loop in `group_by_range`: appending a record either
      opens a new range for its file or overwrites the second slot. */
  lemma IsGroupingSnoc(h: Hash, t: seq<Section>)
    requires |t| > 0 && IsGrouping(h, t[..|t| - 1])
    ensures var n, x := |t| - 1, t[|t| - 1];
      if n > 0 && t[n - 1].file == x.file then
        x.file in h.values && |h.values[x.file]| >= 1 &&
        IsGrouping(Store(h, x.file, SetSecond(h.values[x.file], x.IdValue())), t)
      else
        IsGrouping(Store(h, x.file, [x.IdValue()]), t)
  {
    var n := |t| - 1;
    var s, x := t[..n], t[n];
    var f := x.file;
    RunRangeSnocSame(t);
    var extend := n > 0 && t[n - 1].file == f;
    if extend {
      assert f in Dedup(Files(s));
    }
    var v := if extend then SetSecond(h.values[f], x.IdValue()) else [x.IdValue()];
    if extend {
      var r := h.values[f];
      assert r == RunRange(s, f);
      SetSecondOfRange(r, x.IdValue());
    }
    StoreSnoc(h, t, v);
  }

  /** Storing the new range of the appended record's file, when that range is
      right, gives the grouping of the longer sequence. */
  lemma StoreSnoc(h: Hash, t: seq<Section>, v: seq<nat>)
    requires |t| > 0 && IsGrouping(h, t[..|t| - 1])
    requires t[|t| - 1].file in Files(t) && v == RunRange(t, t[|t| - 1].file)
    ensures IsGrouping(Store(h, t[|t| - 1].file, v), t)
  {
    var f := t[|t| - 1].file;
    var st := Store(h, f, v);
    StoreKeysSnoc(h, t, v);
    forall y | y in st.values ensures y in Files(t) && st.values[y] == RunRange(t, y) {
      if y != f {
        assert y in h.values;
        RunRangeSnocOther(t, y);
      }
    }
  }

  /** Storing the appended record's file adds it to the keys exactly when it
      is new, as `Dedup` does. */
  lemma StoreKeysSnoc(h: Hash, t: seq<Section>, v: seq<nat>)
    requires |t| > 0 && h.Valid() && h.keys == Dedup(Files(t[..|t| - 1]))
    ensures Store(h, t[|t| - 1].file, v).keys == Dedup(Files(t))
  {
    DedupFilesSnoc(t);
    assert t[|t| - 1].file in h.values <==> t[|t| - 1].file in h.keys;
  }

  lemma TakeSnoc(s: seq<Section>, n: nat)
    requires n < |s|
    ensures s[..n + 1] == s[..n] + [s[n]]
  {
  }

  lemma GroupingIsGrouping(s: seq<Section>)
    ensures IsGrouping(Grouping(s), s)
  {
    GroupingDomain(s);
    forall y | y in Grouping(s).values ensures y in Files(s) && Grouping(s).values[y] == RunRange(s, y) {
      assert y in Grouping(s).keys;
    }
  }

  /** `group_by_range`'s loop step on the grouping of the records seen so far
      gives the grouping of one record more. */
  lemma GroupingSnoc(s: seq<Section>, x: Section)
    ensures var h := Grouping(s);
      if |s| > 0 && s[|s| - 1].file == x.file then
        x.file in h.values && |h.values[x.file]| >= 1 &&
        Store(h, x.file, SetSecond(h.values[x.file], x.IdValue())) == Grouping(s + [x])
      else
        Store(h, x.file, [x.IdValue()]) == Grouping(s + [x])
  {
    var h := Grouping(s);
    var t := s + [x];
    GroupingIsGrouping(s);
    assert t[..|s|] == s && t[|s|] == x;
    IsGroupingSnoc(h, t);
    if |s| > 0 && s[|s| - 1].file == x.file {
      assert t[|s| - 1] == s[|s| - 1];
      IsGroupingUnique(Store(h, x.file, SetSecond(h.values[x.file], x.IdValue())), t);
    } else {
      assert |s| > 0 ==> t[|s| - 1] == s[|s| - 1];
      IsGroupingUnique(Store(h, x.file, [x.IdValue()]), t);
    }
  }

  // ---------------------------------------------------------------------------
  // Renderers
  // ---------------------------------------------------------------------------

  function CsvLines(s: seq<Section>): (r: seq<string>)
    ensures |r| == |s| && forall i :: 0 <= i < |s| ==> r[i] == s[i].ToCsv()
  {
    if |s| == 0 then [] else [s[0].ToCsv()] + CsvLines(s[1..])
  }

  /** `SectionList#to_csv`: one `id,file` line per record, joined by newlines. */
  function Csv(s: seq<Section>): string {
    Join(CsvLines(s), "\n")
  }

  /** `wrap_as_obj`. */
  function WrapAsObj(body: string): string {
    "{\n" + body + "\n}"
  }

  function JsonEntries(s: seq<Section>): (r: seq<string>)
    ensures |r| == |s| && forall i :: 0 <= i < |s| ==> r[i] == "  " + s[i].ToJson()
  {
    if |s| == 0 then [] else ["  " + s[0].ToJson()] + JsonEntries(s[1..])
  }

  /** `SectionList#to_json`. */
  function Json(s: seq<Section>): string {
    WrapAsObj(Join(JsonEntries(s), ",\n"))
  }

  /** One entry of the grouped form: `  <file> : <range>}` with the stray
      closing brace the source prints. */
  function GroupedEntry(file: string, range: seq<nat>): string {
    "  " + file + " : " + InspectInts(range) + "}"
  }

  function GroupedEntries(keys: seq<string>, values: map<string, seq<nat>>): (r: seq<string>)
    requires forall k :: k in keys ==> k in values
    ensures |r| == |keys| && forall i :: 0 <= i < |keys| ==> r[i] == GroupedEntry(keys[i], values[keys[i]])
  {
    if |keys| == 0 then [] else [GroupedEntry(keys[0], values[keys[0]])] + GroupedEntries(keys[1..], values)
  }

  /** `SectionList#to_grouped_json` applied to a grouping hash. */
  function GroupedJson(h: Hash): string
    requires h.Valid()
  {
    WrapAsObj(Join(GroupedEntries(h.keys, h.values), ",\n"))
  }

  /** The lines a reader sees: every line but the last ends in a comma. */
  function Commas(xs: seq<string>): (r: seq<string>)
    ensures |r| == |xs|
    ensures forall i :: 0 <= i < |xs| - 1 ==> r[i] == xs[i] + ","
    ensures |xs| > 0 ==> r[|xs| - 1] == xs[|xs| - 1]
  {
    if |xs| <= 1 then xs else [xs[0] + ","] + Commas(xs[1..])
  }

  lemma {:induction false} JoinCommaNewline(xs: seq<string>)
    ensures Join(xs, ",\n") == Join(Commas(xs), "\n")
  {
    if |xs| > 1 {
      JoinCommaNewline(xs[1..]);
      var c := Commas(xs);
      assert c == [xs[0] + ","] + Commas(xs[1..]);
      assert c[1..] == Commas(xs[1..]);
      var rest := Join(xs[1..], ",\n");
      assert Join(c, "\n") == (xs[0] + ",") + "\n" + rest;
      CommaNewline(xs[0], rest);
    }
  }

  lemma CommaNewline(a: string, b: string)
    ensures a + ",\n" + b == (a + ",") + "\n" + b
  {
    assert ",\n" == "," + "\n";
  }

  /** `wrap_as_obj` over `,\n`-joined entries is the newline join of the
      brace lines around the comma-terminated entries. */
  lemma WrapAsJoin(entries: seq<string>)
    requires |entries| >= 1
    ensures WrapAsObj(Join(entries, ",\n")) == Join(["{"] + Commas(entries) + ["}"], "\n")
  {
    var c := Commas(entries);
    JoinCommaNewline(entries);
    var front := ["{"] + c;
    assert front[1..] == c;
    JoinSnoc(front, "}", "\n");
    BraceLines(Join(c, "\n"));
  }

  lemma BraceLines(body: string)
    ensures ("{" + "\n" + body) + "\n" + "}" == WrapAsObj(body)
  {
    assert "{" + "\n" == "{\n";
    assert "\n" + "}" == "\n}";
  }

  lemma CommasNoNewline(entries: seq<string>)
    requires forall i :: 0 <= i < |entries| ==> '\n' !in entries[i]
    ensures forall i :: 0 <= i < |entries| ==> '\n' !in Commas(entries)[i]
  {
    var c := Commas(entries);
    forall i | 0 <= i < |entries| ensures '\n' !in c[i] {
      if i < |entries| - 1 { assert c[i] == entries[i] + ","; }
    }
  }

  /** An object rendered by `wrap_as_obj` over `,\n`-joined entries, cut into
      lines: the opening brace, one line per entry, the closing brace. */
  lemma WrappedLines(entries: seq<string>)
    requires |entries| >= 1
    requires forall i :: 0 <= i < |entries| ==> '\n' !in entries[i]
    ensures Split(WrapAsObj(Join(entries, ",\n")), '\n') == ["{"] + Commas(entries) + ["}"]
  {
    WrapAsJoin(entries);
    CommasNoNewline(entries);
    var c := Commas(entries);
    var lines := ["{"] + c + ["}"];
    forall i | 0 <= i < |lines| ensures '\n' !in lines[i] {
      if 0 < i < |lines| - 1 { assert lines[i] == c[i - 1]; }
    }
    SplitJoin(lines, '\n');
  }

  /** Reading CSV back: the output of `to_csv`, cut into lines, each line cut at
      its first comma. */
  function ParseCsv(text: string): Option<seq<Section>> {
    if text == "" then Some([]) else ParseCsvLines(Split(text, '\n'))
  }

  function ParseCsvLines(lines: seq<string>): Option<seq<Section>> {
    if |lines| == 0 then Some([])
    else match (ParseCsvLine(lines[0]), ParseCsvLines(lines[1..]))
      case (Some(r), Some(rs)) => Some([r] + rs)
      case _ => None
  }

  /** CSV is a faithful rendering of every record, sections or not, as long
      as ids hold no comma and no field holds a newline. */
  lemma CsvRoundTrip(s: seq<Section>)
    requires forall r :: r in s ==> ',' !in r.id && '\n' !in r.id && '\n' !in r.file
    ensures ParseCsv(Csv(s)) == Some(s)
  {
    if |s| > 0 {
      var lines := CsvLines(s);
      forall i | 0 <= i < |lines| ensures '\n' !in lines[i] {
        assert s[i] in s;
      }
      SplitJoin(lines, '\n');
      assert lines[0] != "" by { assert lines[0][|s[0].id|] == ','; }
      if |lines| == 1 { assert Csv(s) == lines[0]; } else { assert |Csv(s)| >= |lines[0]|; }
      CsvLinesParse(s);
    }
  }

  lemma {:induction false} CsvLinesParse(s: seq<Section>)
    requires forall r :: r in s ==> ',' !in r.id
    ensures ParseCsvLines(CsvLines(s)) == Some(s)
  {
    if |s| > 0 {
      CsvLineRoundTrip(s[0]);
      CsvLinesParse(s[1..]);
      ParseCsvLinesCons(s[0].ToCsv(), CsvLines(s[1..]), s[0], s[1..]);
      assert [s[0]] + s[1..] == s;
    }
  }

  lemma ParseCsvLinesCons(line: string, lines: seq<string>, x: Section, xs: seq<Section>)
    requires ParseCsvLine(line) == Some(x) && ParseCsvLines(lines) == Some(xs)
    ensures ParseCsvLines([line] + lines) == Some([x] + xs)
  {
    assert ([line] + lines)[1..] == lines;
  }

  /** Reading the flat JSON form back. */
  function ParseJson(text: string): Option<seq<Section>> {
    var lines := Split(text, '\n');
    if |lines| < 3 || lines[0] != "{" || lines[|lines| - 1] != "}" then None
    else if lines == ["{", "", "}"] then Some([])
    else ParseJsonLines(lines[1..|lines| - 1])
  }

  /** One entry line: two spaces, an entry, and a trailing comma when more
      lines follow. */
  function ParseJsonLine(line: string, more: bool): Option<Section> {
    if more && (|line| == 0 || line[|line| - 1] != ',') then None
    else
      var body := if more then line[..|line| - 1] else line;
      if |body| < 2 || body[..2] != "  " then None else ParseJsonEntry(body[2..])
  }

  function ParseJsonLines(lines: seq<string>): Option<seq<Section>> {
    if |lines| == 0 then Some([])
    else match (ParseJsonLine(lines[0], |lines| > 1), ParseJsonLines(lines[1..]))
      case (Some(r), Some(rs)) => Some([r] + rs)
      case _ => None
  }

  /** One entry line read back. */
  lemma JsonLineRoundTrip(x: Section, more: bool)
    requires '"' !in x.id
    ensures ParseJsonLine("  " + x.ToJson() + (if more then "," else ""), more) == Some(x)
  {
    var line := "  " + x.ToJson() + (if more then "," else "");
    var body := if more then line[..|line| - 1] else line;
    assert body == "  " + x.ToJson();
    assert body[2..] == x.ToJson();
    JsonEntryRoundTrip(x);
  }

  lemma {:induction false} JsonLinesParse(s: seq<Section>)
    requires |s| >= 1
    requires forall r :: r in s ==> '"' !in r.id
    ensures ParseJsonLines(Commas(JsonEntries(s))) == Some(s)
  {
    var e := JsonEntries(s);
    var c := Commas(e);
    JsonLineRoundTrip(s[0], |s| > 1);
    assert c[0] == "  " + s[0].ToJson() + (if |s| > 1 then "," else "");
    if |s| > 1 {
      assert e[1..] == JsonEntries(s[1..]);
      assert c[1..] == Commas(e[1..]);
      JsonLinesParse(s[1..]);
    }
    assert ParseJsonLines(c) == Some([s[0]] + s[1..]);
    assert [s[0]] + s[1..] == s;
  }

  /** A hash without keys renders as the two brace lines around an empty one,
      as the flat form of an empty collection does. */
  lemma GroupedJsonEmpty()
    ensures GroupedJson(Hash([], map[])) == "{\n\n}"
  {
    assert GroupedEntries([], map[]) == [];
  }

  /** A collection without markers groups to the hash without keys. */
  lemma GroupingWithoutMarkers(s: seq<Section>)
    requires forall k :: 0 <= k < |s| ==> !s[k].IsSection()
    ensures Grouping(SectionsOnly(s)) == Hash([], map[])
  {
    var secs := SectionsOnly(s);
    assert secs == [];
    assert Files(secs) == [];
    HashExtensionality(Grouping(secs), Hash([], map[]));
  }

  /** An empty collection renders as the two brace lines around an empty one. */
  lemma JsonEmpty()
    ensures Json([]) == "{\n\n}"
    ensures ParseJson("{\n\n}") == Some([])
  {
    assert JsonEntries([]) == [];
    assert Join(["{", "", "}"], "\n") == "{\n\n}";
    SplitJoin(["{", "", "}"], '\n');
  }

  /** The flat JSON form of a non-empty collection cut into lines. */
  lemma JsonLines(s: seq<Section>)
    requires |s| >= 1
    requires forall r :: r in s ==> '\n' !in r.id && '\n' !in r.file
    ensures Split(Json(s), '\n') == ["{"] + Commas(JsonEntries(s)) + ["}"]
  {
    var e := JsonEntries(s);
    forall i | 0 <= i < |e| ensures '\n' !in e[i] {
      assert s[i] in s;
      JsonEntryNoNewline(s[i]);
    }
    WrappedLines(e);
  }

  /** The flat JSON form is a faithful rendering of every record, read back
      to the same records in order, as long as ids hold no double quote and no
      field holds a newline. */
  lemma JsonRoundTrip(s: seq<Section>)
    requires forall r :: r in s ==> '"' !in r.id && '\n' !in r.id && '\n' !in r.file
    ensures ParseJson(Json(s)) == Some(s)
  {
    if |s| == 0 {
      JsonEmpty();
    } else {
      var e := JsonEntries(s);
      var c := Commas(e);
      JsonLines(s);
      assert |c[0]| >= |e[0]| > 0;
      ParseJsonBraced(Json(s), c);
      JsonLinesParse(s);
    }
  }

  /** Text whose lines are entry lines between brace lines parses as those
      entry lines. */
  lemma ParseJsonBraced(text: string, c: seq<string>)
    requires |c| >= 1 && c[0] != ""
    requires Split(text, '\n') == ["{"] + c + ["}"]
    ensures ParseJson(text) == ParseJsonLines(c)
  {
    var lines := ["{"] + c + ["}"];
    assert lines[1] == c[0];
    assert lines[1..|lines| - 1] == c;
  }

  /** A grouped entry is one line when its file name is. */
  lemma GroupedEntryOneLine(file: string, range: seq<nat>)
    requires '\n' !in file
    ensures '\n' !in GroupedEntry(file, range)
  {
    InspectIntsOneLine(range);
    var e := GroupedEntry(file, range);
    var r := InspectInts(range);
    forall k | 0 <= k < |e| ensures e[k] != '\n' {
      if 2 <= k < 2 + |file| { assert e[k] == file[k - 2]; }
      else if 2 + |file| + 3 <= k < |e| - 1 { assert e[k] == r[k - 2 - |file| - 3]; }
    }
  }

  /** A grouped entry spelled out for the two range shapes. */
  lemma GroupedEntryShape(file: string, v: seq<nat>)
    requires |v| == 1 || |v| == 2
    ensures GroupedEntry(file, v) ==
      "  " + file + " : [" + NatToString(v[0]) +
      (if |v| == 2 then ", " + NatToString(v[1]) else "") + "]}"
  {
    if |v| == 1 {
      assert v == [v[0]];
      InspectOne(v[0]);
    } else {
      assert v == [v[0], v[1]];
      InspectTwo(v[0], v[1]);
    }
  }

  /** The grouped form cut into lines: the brace lines around the entries. */
  lemma GroupedJsonSplit(h: Hash)
    requires h.Valid() && |h.keys| >= 1
    requires forall i :: 0 <= i < |h.keys| ==> '\n' !in h.keys[i]
    ensures Split(GroupedJson(h), '\n') == ["{"] + Commas(GroupedEntries(h.keys, h.values)) + ["}"]
  {
    var e := GroupedEntries(h.keys, h.values);
    forall i | 0 <= i < |e| ensures '\n' !in e[i] {
      GroupedEntryOneLine(h.keys[i], h.values[h.keys[i]]);
    }
    WrappedLines(e);
  }

  /** Positions in a list of lines between brace lines. */
  lemma BracedAt(c: seq<string>)
    ensures var lines := ["{"] + c + ["}"];
      |lines| == |c| + 2 && lines[0] == "{" && lines[|lines| - 1] == "}" &&
      forall i :: 0 <= i < |c| ==> lines[i + 1] == c[i]
  {
  }

  /** The grouped form cut into lines: the brace lines around one entry line
      per key, in key order, every entry line but the last followed by a
      comma (`GroupedEntryShape` spells an entry out). */
  lemma GroupedJsonLines(h: Hash)
    requires h.Valid() && |h.keys| >= 1
    requires forall i :: 0 <= i < |h.keys| ==> '\n' !in h.keys[i]
    ensures var lines := Split(GroupedJson(h), '\n');
      |lines| == |h.keys| + 2 && lines[0] == "{" && lines[|lines| - 1] == "}" &&
      forall i :: 0 <= i < |h.keys| ==>
        lines[i + 1] == GroupedEntry(h.keys[i], h.values[h.keys[i]]) + (if i < |h.keys| - 1 then "," else "")
  {
    var e := GroupedEntries(h.keys, h.values);
    var c := Commas(e);
    forall i | 0 <= i < |h.keys|
      ensures c[i] == GroupedEntry(h.keys[i], h.values[h.keys[i]]) + (if i < |h.keys| - 1 then "," else "")
    {
      if i < |h.keys| - 1 { assert c[i] == e[i] + ","; } else { assert c[i] == e[i]; }
    }
    BracedAt(c);
    GroupedJsonSplit(h);
  }

  // ---------------------------------------------------------------------------
  // Worked examples
  // ---------------------------------------------------------------------------

  /** No records, no lines. */
  lemma CsvEmpty()
    ensures Csv([]) == ""
  {
  }

  /** One page with the markers `s1` and `s5`. */
  lemma CsvExample()
    ensures Csv([Section("s1", "page1.html"), Section("s5", "page1.html")]) ==
      "s1,page1.html\ns5,page1.html"
  {
    CsvTwo(Section("s1", "page1.html"), Section("s5", "page1.html"));
  }

  /** Two records give two lines. */
  lemma CsvTwo(x: Section, y: Section)
    ensures Csv([x, y]) == x.ToCsv() + "\n" + y.ToCsv()
  {
    assert CsvLines([x, y]) == [x.ToCsv(), y.ToCsv()];
    JoinTwo(x.ToCsv(), y.ToCsv(), "\n");
  }

  /** Two records of `a` then one of `b`: `a` gets a two-element range, `b`
      keeps the single number it was opened with. */
  lemma GroupingExample()
    ensures Grouping(ExampleRecords()).keys == ["a", "b"]
    ensures Grouping(ExampleRecords()).values["a"] == [1, 2]
    ensures Grouping(ExampleRecords()).values["b"] == [5]
  {
    ExampleKeys();
    var s := ExampleRecords();
    IdValueOneDigit('1', "a");
    IdValueOneDigit('2', "a");
    IdValueOneDigit('5', "b");
    GroupingValueIsLastRun(s, "a", 0, 1);
    GroupingValueIsLastRun(s, "b", 2, 2);
  }

  /** Records `s1` and `s2` of file `a`, then `s5` of file `b`. */
  function ExampleRecords(): (s: seq<Section>)
    ensures |s| == 3
  {
    [Section("s1", "a"), Section("s2", "a"), Section("s5", "b")]
  }

  lemma ExampleFiles()
    ensures Files(ExampleRecords()) == ["a", "a", "b"]
  {
    var fs := Files(ExampleRecords());
    assert fs[0] == "a" && fs[1] == "a" && fs[2] == "b";
  }

  /** The files of the example, each once. */
  lemma ExampleKeys()
    ensures Grouping(ExampleRecords()).keys == ["a", "b"]
  {
    ExampleFiles();
    ExampleDedup();
    GroupingDomain(ExampleRecords());
  }

  lemma ExampleDedup()
    ensures Dedup(["a", "a", "b"]) == ["a", "b"]
  {
    assert "a" != "b" by { assert "a"[0] != "b"[0]; }
    DedupPairThenOther("a", "b");
  }

  lemma DedupSingle(a: string)
    ensures Dedup([a]) == [a]
  {
    DedupSnoc([], a);
    assert [] + [a] == [a];
  }

  lemma DedupPair(a: string)
    ensures Dedup([a, a]) == [a]
  {
    DedupSingle(a);
    DedupSnoc([a], a);
    assert [a] + [a] == [a, a];
  }

  lemma DedupPairThenOther(a: string, b: string)
    requires a != b
    ensures Dedup([a, a, b]) == [a, b]
  {
    DedupPair(a);
    DedupSnoc([a, a], b);
    assert [a, a] + [b] == [a, a, b];
  }

  lemma DedupSnoc(s: seq<string>, x: string)
    ensures Dedup(s + [x]) == if x in Dedup(s) then Dedup(s) else Dedup(s) + [x]
  {
    assert (s + [x])[..|s|] == s;
  }

  /** A file whose records are split by another file keeps only its last run. */
  lemma GroupingLastRunExample()
    ensures Grouping([Section("s1", "a"), Section("s2", "b"), Section("s3", "a")]).values["a"] == [3]
  {
    var s := [Section("s1", "a"), Section("s2", "b"), Section("s3", "a")];
    IdValueOneDigit('3', "a");
    GroupingValueIsLastRun(s, "a", 2, 2);
  }

  // ---------------------------------------------------------------------------
  // Output modes (the command-line argument)
  // ---------------------------------------------------------------------------

  /** The three renderers a command-line argument can name. */
  datatype Mode = CsvMode | JsonMode | GroupedJsonMode

  /** The argument that selects a mode; the method called is `to_` + it. */
  function ModeName(m: Mode): string {
    match m
    case CsvMode => "csv"
    case JsonMode => "json"
    case GroupedJsonMode => "grouped_json"
  }

  function ParseMode(arg: string): Option<Mode> {
    if arg == "csv" then Some(CsvMode)
    else if arg == "json" then Some(JsonMode)
    else if arg == "grouped_json" then Some(GroupedJsonMode)
    else None
  }

  lemma ParseModeName(m: Mode)
    ensures ParseMode(ModeName(m)) == Some(m)
  {
    match m
    case CsvMode =>
    case JsonMode =>
    case GroupedJsonMode =>
  }

  /** An argument selects a mode exactly when it is that mode's name, and it
      selects none exactly when it names no mode. */
  lemma ParseModeInverse(arg: string, m: Mode)
    ensures ParseMode(arg) == Some(m) <==> arg == ModeName(m)
    ensures ParseMode(arg) == None <==> (forall m' :: arg != ModeName(m'))
  {
    ParseModeName(m);
    match ParseMode(arg)
    case Some(m0) =>
      assert arg == ModeName(m0);
    case None =>
      forall m' ensures arg != ModeName(m') {
        ParseModeName(m');
      }
  }

  // ---------------------------------------------------------------------------
  // The collection object
  // ---------------------------------------------------------------------------

  class SectionList {
    /** `@sections`, in the order the run last left it. */
    var sections: seq<Section>

    /** `initialize`: start empty, then `parse_files` over the records the
        scan produced, in scan order. */
    constructor (scanned: seq<Section>)
      ensures Sorted(sections)
      ensures multiset(sections) == multiset(scanned)
    {
      sections := [];
      new;
      ParseFiles(scanned);
    }

    /** `parse_files`: add every scanned record, then sort. */
    method ParseFiles(scanned: seq<Section>)
      modifies this
      ensures Sorted(sections)
      ensures multiset(sections) == multiset(old(sections)) + multiset(scanned)
    {
      var i := 0;
      while i < |scanned|
        invariant 0 <= i <= |scanned|
        invariant sections == old(sections) + scanned[..i]
      {
        AddSection(scanned[i].id, scanned[i].file);
        assert scanned[..i + 1] == scanned[..i] + [scanned[i]];
        i := i + 1;
      }
      assert scanned[..i] == scanned;
      SortSections();
    }

    /** `add_section`: `@sections << Section.new(section, file)`. */
    method AddSection(id: string, file: string)
      modifies this
      ensures sections == old(sections) + [Section(id, file)]
    {
      sections := sections + [Section(id, file)];
    }

    /** `sort_sections`: `@sections.sort!`. */
    method SortSections()
      modifies this
      ensures Sorted(sections)
      ensures multiset(sections) == multiset(old(sections))
    {
      var items := sections;
      var sorted: seq<Section> := [];
      var i := 0;
      while i < |items|
        invariant 0 <= i <= |items|
        invariant Sorted(sorted)
        invariant multiset(sorted) == multiset(items[..i])
      {
        InsertStep(sorted, items, i);
        sorted := Insert(sorted, items[i]);
        i := i + 1;
      }
      assert items[..i] == items;
      sections := sorted;
    }

    /** `group_by_range`. */
    method GroupByRange() returns (h: Hash)
      ensures h == Grouping(SectionsOnly(sections))
    {
      var secs := SectionsOnly(sections);
      var lastFile: Option<string> := None;
      h := Hash([], map[]);
      var n := 0;
      while n < |secs|
        invariant 0 <= n <= |secs|
        invariant h == Grouping(secs[..n])
        invariant lastFile == if n == 0 then None else Some(secs[n - 1].file)
      {
        var section := secs[n];
        var file := section.file;
        TakeSnoc(secs, n);
        GroupingSnoc(secs[..n], section);
        if lastFile != Some(file) {
          lastFile := Some(file);
          h := Store(h, file, [section.IdValue()]);
        } else {
          h := Store(h, file, SetSecond(h.values[file], section.IdValue()));
        }
        n := n + 1;
      }
      assert secs[..n] == secs;
    }

    /** `to_grouped_json`. */
    method ToGroupedJson() returns (out: string)
      ensures out == GroupedJson(Grouping(SectionsOnly(sections)))
    {
      var h := GroupByRange();
      out := WrapAsObj(Join(GroupedEntries(h.keys, h.values), ",\n"));
    }

    /** `sections.send("to_#{mode}")`. */
    method Render(mode: Mode) returns (out: string)
      ensures out == match mode
          case CsvMode => Csv(sections)
          case JsonMode => Json(sections)
          case GroupedJsonMode => GroupedJson(Grouping(SectionsOnly(sections)))
    {
      match mode
      case CsvMode => out := Csv(sections);
      case JsonMode => out := Json(sections);
      case GroupedJsonMode => out := ToGroupedJson();
    }
  }
}
