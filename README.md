# Section scanner — a Dafny model

`app.rb` collects the elements of class `smythp` from HTML pages. Each element
becomes a `Section` record: its `id` attribute plus the name of the file it was
found in. The records are sorted and printed in one of three forms, chosen by
the command-line argument:

- `csv`: one `id,file` line per record.
- `json`: an object with one `"id" : "file"` entry per record.
- `grouped_json`: one entry per file holding section markers, giving at most
  two numbers: the first and the last number of that file's last run of
  consecutive markers.

A section marker is a record whose id starts with `s`. Its number is the value
of the run of decimal digits right after the first character, or 0 if there is
none: `s12a3` has number 12.

The model has three modules:

- `RubyText` (`ruby_text.dfy`): the Ruby primitives the program relies on, on
  `seq<char>`.
  - `String#<=>` and `Integer#<=>`.
  - `String#to_i` restricted to leading decimal digits.
  - `Integer#to_s`.
  - `Array#join`.
  - `Array#inspect` on integers.
  - A line splitter of the model's own, used only to read rendered output
    back. The program never splits text, and unlike Ruby's `split` this one
    keeps empty pieces, so that it inverts `join`.
- `Sections` (`sections.dfy`): the `Section` value and its comparator, number
  and renderers.
- `SectionLists` (`section_lists.dfy`): the `SectionList` class, whose one
  field `sections` is the collection the Ruby object mutates. It holds:
  - the sort;
  - the grouping pass `group_by_range`, proved against a reference function
    `Grouping`;
  - the three renderers. The CSV and flat JSON forms are read back by
    parsers of the model's own. The grouped form is only cut into lines and
    described line by line;
  - the output-mode dispatch, as an enumerated `Mode`.

Some behaviour differs from what a first reading of the program suggests.
The model follows the code in each case:

- **Grouped entries are keyed by file.** `group_by_range` builds a hash from
  file to range. `to_grouped_json` then maps `|r, f|` over it, so `r` is the
  file and `f` the range. Each entry is therefore `  <file> : [a, b]}`: the
  file name is unquoted, the range is printed by `Array#inspect`, and a stray
  `}` is appended (`GroupedEntryShape`).
- **A file seen once gets a one-element range.** A file with one marker in its
  last run gets `[v]`, not `[v, v]`. Writing to index 1 of a one-element array
  appends (`SetSecond`).
- **Only a file's last run counts.** When another file's records separate a
  file's records, the hash entry is reopened. The file keeps only the range of
  its last run (`GroupingValueIsLastRun`, `GroupingLastRunExample`).
- **Mixed comparison is still a total preorder.** Comparing a marker with a
  non-marker falls back to comparing the ids as strings. This keeps the
  comparator a total preorder on all records. A non-marker id is empty or
  starts with a character other than `s`. So it sorts below every marker or
  above every marker, never between two of them (`BandOrder`), and
  `CmpTransitive` holds for every mix of records.

## Model

| member | source | states |
|---|---|---|
| Sections.Section.Cmp | app.rb:95-101 | returns -1, 0 or 1; for two markers, negative iff the first number is smaller and 0 iff the numbers are equal; otherwise 0 iff the ids are equal |
| Sections.CmpStringCase | app.rb:98-99 | unless both records are markers, `<=>` is -1 exactly when the first id is lexicographically less than the second |
| RubyText.StrCmpIsLexLess | app.rb:99 | `String#<=>` returns -1 exactly on lexicographic "less than" (a proper prefix, or a smaller character at the first difference) |
| RubyText.StrCmp | app.rb:99 | `String#<=>` returns -1, 0 or 1, and 0 exactly on equal strings; its order is `LexLess` by `StrCmpIsLexLess`, antisymmetric and transitive by the two lemmas below |
| RubyText.IntCmp | app.rb:97 | `Integer#<=>` returns -1, 0 or 1, negative, zero or positive exactly as the first number is smaller, equal or larger |
| RubyText.StrCmpAntisymmetric | app.rb:99 | swapping the operands of `String#<=>` negates the result |
| RubyText.StrCmpTransitive | app.rb:99 | `String#<=>` is transitive |
| Sections.CmpAntisymmetric | app.rb:95-101 | swapping the operands of `Section#<=>` negates the result |
| Sections.CmpTransitive | app.rb:95-105 | `Section#<=>` is transitive on every mix of markers and non-markers |
| Sections.CmpTotalPreorder | app.rb:95-105 | `Section#<=>` is reflexive, total and transitive |
| Sections.Section.IsSection | app.rb:103-105 | `is_section?`: the id starts with `s`; `Band` is 1 exactly on these records, and `BandOrder` places every other record below or above all of them |
| Sections.Section.IdValue | app.rb:91-93 | `id_value`: `ToI` of the id after its first character, 0 for the empty id; `IdValueOfNumber`, `IdValueOneDigit` and `IdValueWithoutDigits` state its value |
| RubyText.ToI | app.rb:92 | `String#to_i` on the leading digits; `ToINatToString` proves it inverts `Integer#to_s`, and `LeadingDigitsOfDigits` that it reads the maximal digit prefix |
| Sections.Section.Band | app.rb:103-105 | classifies a record into one of three bands, where band 1 is exactly the records with `is_section?` |
| Sections.BandOrder | app.rb:95-105 | a record in a lower band compares -1 with one in a higher band: non-markers never sort between markers |
| Sections.IdValueOfNumber | app.rb:91-93 | the id `s<n><rest>`, where `rest` does not start with a digit, has number `n` |
| Sections.IdValueWithoutDigits | app.rb:91-93 | an id with no digit right after its first character, including `""` and `"s"`, has number 0 |
| Sections.IdValueOneDigit | app.rb:91-93 | the id `s<d>` has the digit's value as its number |
| RubyText.ToINatToString | app.rb:92 | `to_i` reads back the decimal notation of `n`, followed by any non-digit text, as `n` |
| RubyText.LeadingDigitsOfDigits | app.rb:92 | the digits `to_i` reads are exactly the maximal digit prefix |
| Sections.Section.ToCsv | app.rb:107-109 | `to_csv`: `id,file`; `CsvLineRoundTrip` proves the line gives the record back |
| Sections.Section.ToJson | app.rb:111-113 | `to_json`: `"id" : "file"`; `JsonEntryRoundTrip` proves the entry gives the record back and `JsonEntryNoNewline` that it is one line |
| Sections.CsvLineRoundTrip | app.rb:107-109 | a record's CSV line, split at its first comma, gives the record back when its id has no comma |
| Sections.JsonEntryRoundTrip | app.rb:111-113 | a record's JSON entry gives the record back when its id has no quote |
| Sections.JsonEntryNoNewline | app.rb:111-113 | an entry contains a newline only if one of its fields does |
| SectionLists.SectionList.constructor | app.rb:13-16 | the new collection is sorted and is a permutation of the scanned records |
| SectionLists.SectionList.ParseFiles | app.rb:18-25 | after adding every scanned record and sorting, the collection is sorted and its multiset is the old one plus the scanned records |
| SectionLists.SectionList.AddSection | app.rb:75-77 | appends exactly one record at the end and changes nothing else |
| SectionLists.SectionList.SortSections | app.rb:27-29 | the collection becomes sorted under `<=>` and stays a permutation of what it was |
| SectionLists.InsertSorted | app.rb:28 | inserting into a sorted sequence keeps it sorted |
| SectionLists.InsertStep | app.rb:28 | one insertion step of the sort keeps the sorted prefix sorted and a permutation of the items seen so far |
| SectionLists.SectionsOnly | app.rb:51-53 | keeps exactly the markers, and each marker as often as it occurs |
| SectionLists.SectionsOnlyAppend | app.rb:51-53 | filtering distributes over concatenation, so the markers keep their order |
| SectionLists.SectionsOnlySorted | app.rb:51-53 | filtering a sorted collection gives a sorted sequence |
| SectionLists.SectionList.GroupByRange | app.rb:38-49 | the loop's hash equals the reference `Grouping` of the markers |
| SectionLists.GroupingSnoc | app.rb:40-47 | one loop step, opening a range or overwriting its second slot, turns the grouping of a prefix into the grouping of the prefix plus one record |
| SectionLists.Store | app.rb:44 | `hsh[k] = v`: a new key goes last, an existing key keeps its place, and only `k`'s value changes |
| SectionLists.SetSecond | app.rb:46 | `arr[1] = v`: a one-element array grows to two elements; otherwise slot 1 is overwritten and the other slots are kept |
| SectionLists.SetSecondOfRange | app.rb:46 | on a range of one or two numbers, the result is `[first, v]` |
| SectionLists.Grouping | app.rb:38-49 | the reference result of `group_by_range`, defined without a loop: keys are the distinct files in order of first appearance, and each file maps to the first and last number of its last run; it is a valid hash, and `GroupByRange` is proved equal to it |
| SectionLists.GroupingKeys | app.rb:40-47 | the keys are exactly the files of the markers, each once, in order of first appearance |
| SectionLists.DedupFirstAppearance | app.rb:44 | distinct files appear in the key order in which each first appears |
| SectionLists.GroupingValueIsLastRun | app.rb:40-47 | a file's value is `[first]` or `[first, last]` of its last run of consecutive records |
| SectionLists.GroupingValueLengths | app.rb:44-46 | every value holds one or two numbers |
| SectionLists.GroupingAscendingWhenSorted | app.rb:38-49 | on a sorted collection every two-number range is ascending |
| SectionLists.ContiguousRange | app.rb:40-47 | when a file's markers are contiguous, its value is built from its first and last marker |
| SectionLists.SortedSectionsAscend | app.rb:95-97 | markers sorted under `<=>` have ascending numbers |
| SectionLists.GroupingIsMinMaxWhenContiguous | app.rb:38-49 | on a sorted collection whose markers for a file are contiguous, that file's value starts at its smallest number and ends at its largest |
| SectionLists.NonSectionsIgnored | app.rb:40 | inserting a non-marker anywhere does not change the grouping |
| SectionLists.Csv | app.rb:55-57 | `SectionList#to_csv`: the records' CSV lines joined by newlines; `CsvRoundTrip`, `CsvEmpty`, `CsvTwo` and `CsvExample` state what it produces |
| SectionLists.CsvRoundTrip | app.rb:55-57 | the CSV text reads back as the whole collection, markers or not |
| SectionLists.CsvLinesParse | app.rb:56 | the lines, parsed one at a time, give the records back in order |
| SectionLists.CsvEmpty | app.rb:55-57 | the CSV text of an empty collection is `""` |
| SectionLists.CsvExample | app.rb:55-57 | records `s1` and `s5` of `page1.html` give `s1,page1.html\ns5,page1.html` |
| SectionLists.CsvTwo | app.rb:56 | two records give their two lines joined by one newline |
| SectionLists.WrapAsObj | app.rb:59-61 | `wrap_as_obj`: the body between a `{` line and a `}` line; `WrappedLines` states the lines it produces |
| SectionLists.WrappedLines | app.rb:59-61 | a wrapped body of one-line entries splits into `{`, one line per entry with a comma on all but the last, and `}` |
| SectionLists.JoinCommaNewline | app.rb:65 | joining with `",\n"` is joining the comma-suffixed entries with `"\n"` |
| SectionLists.Json | app.rb:63-67 | `SectionList#to_json`: the entries, each indented by two spaces, joined by `",\n"` and wrapped as an object; `JsonRoundTrip`, `JsonLines` and `JsonEmpty` state what it produces |
| SectionLists.JsonRoundTrip | app.rb:59-67 | the JSON text reads back as the whole collection |
| SectionLists.JsonLines | app.rb:63-67 | for a non-empty collection, the JSON text is a `{` line, one line per record, comma-suffixed except the last, and a `}` line |
| SectionLists.JsonEmpty | app.rb:59-67 | the JSON text of an empty collection is `{\n\n}` and reads back as empty |
| SectionLists.JsonLinesParse | app.rb:65 | the comma-suffixed entry lines parse back to the records |
| SectionLists.JsonLineRoundTrip | app.rb:65 | one entry line, with or without its comma, reads back as its record |
| SectionLists.GroupedEntry | app.rb:71 | one entry of `to_grouped_json`: `  <file> : <inspected range>}`; `GroupedEntryShape` and `GroupedEntryOneLine` state its form |
| SectionLists.GroupedEntryOneLine | app.rb:71 | an entry is one line when the file name holds no newline |
| SectionLists.GroupedJson | app.rb:69-73 | `SectionList#to_grouped_json` on a hash: the entries in key order, joined by `",\n"` and wrapped as an object; `GroupedJsonLines` states its lines for a hash with at least one key, and `GroupedJsonEmpty` its text for the hash without keys |
| SectionLists.GroupedEntryShape | app.rb:71 | an entry is `  <file> : [a]}` or `  <file> : [a, b]}` |
| SectionLists.GroupedJsonLines | app.rb:69-73 | for a hash with at least one key, the grouped text is `{`, one entry line per key in key order with a comma on all but the last, and `}` |
| SectionLists.GroupedJsonEmpty | app.rb:69-73 | the hash without keys renders as `{\n\n}`, an empty line between the braces |
| SectionLists.GroupingWithoutMarkers | app.rb:38-53 | a collection without markers groups to the hash without keys |
| SectionLists.SectionList.ToGroupedJson | app.rb:69-73 | renders the grouping of the markers of the current collection |
| RubyText.InspectInts | app.rb:71 | `Array#inspect` of non-negative integers; `InspectOne`, `InspectTwo` and `InspectIntsOneLine` state its output |
| RubyText.InspectOne | app.rb:71 | `Array#inspect` prints `[a]` for a one-element array |
| RubyText.InspectTwo | app.rb:71 | `Array#inspect` prints `[a, b]` for a two-element array |
| RubyText.InspectIntsOneLine | app.rb:71 | the inspected form of integers never holds a newline |
| SectionLists.GroupingExample | app.rb:38-49 | markers `s1`, `s2` of `a` and `s5` of `b` give keys `a`, `b` with values `[1, 2]` and `[5]` |
| SectionLists.GroupingLastRunExample | app.rb:38-49 | for `s1` of `a`, `s2` of `b`, `s3` of `a`, the value of `a` is `[3]` |
| SectionLists.ParseMode | app.rb:116 | the three arguments that name a renderer, mapped to their modes; `ParseModeInverse` proves it is the inverse of `ModeName` and rejects every other argument |
| SectionLists.ParseModeInverse | app.rb:116-119 | an argument selects a mode exactly when it is that mode's name, and selects none exactly when it names no mode |
| SectionLists.SectionList.Render | app.rb:116-119 | each mode produces its renderer's output on the current collection |
| RubyText.Join | app.rb:56-71 | `Array#join` with a separator: `""` for no pieces, the piece itself for one, and pieces separated by the separator otherwise; `JoinSnoc` and `JoinTwo` state how it grows, `JoinCommaNewline` how the `",\n"` join reads as lines, and `SplitJoin` that it loses nothing |
| RubyText.NatToString | app.rb:71 | `Integer#to_s` as `Array#inspect` prints each number: the shortest decimal notation, at least one digit, no leading zero, and its digits have value `n`; `ToINatToString` proves `to_i` reads it back |
| RubyText.SplitJoin | app.rb:56 | a property of the model's own line reader: splitting a newline-joined list of newline-free lines gives the lines back, so the text `Array#join` builds can be read back |

## Left out

- Parsing HTML with Nokogiri and selecting `.smythp` elements (app.rb:31-36) is left out, because it is a foreign library. The scan's result is the constructor's parameter, a sequence of (id, file) pairs in scan order.
- Reading the `data` directory and its files (app.rb:19-23) is left out, because it is file-system I/O.
- Taking the argument from `ARGV`, calling `send` and printing with `puts` (app.rb:116-119) are left out, because they are process I/O and dynamic dispatch. `Mode`, `ParseMode` and `Render` stand in for them, and the model keeps only the three renderer modes. Ruby runs any public method `to_<arg>` the object has: the argument `s` calls `Object#to_s` and prints `#<SectionList:0x…>`, and `enum` calls `Kernel#to_enum` and prints an Enumerator. Only an argument with no such method raises `NoMethodError`, and so does a missing argument, which gives `to_`. In the model every argument other than the three renderer names is `ParseMode`'s `None`.
- An element without an `id` is left out; in the model every id is a string. In Ruby the id is then `nil`. With two or more records, `sort!` (app.rb:28) raises. It raises `NoMethodError` when `<=>` calls `is_section?` on the `nil` (app.rb:96, app.rb:104). It raises `ArgumentError` when a non-marker's `<=>` gets the `nil` record as its argument: `&&` then skips the argument's `is_section?`, and `String#<=>` with `nil` (app.rb:99) returns `nil`, which `sort!` rejects. With that record alone, `sort!` makes no comparison and `"#{nil}"` is `""`: `csv` prints `,<file>` (app.rb:108) and `json` prints `  "" : "<file>"` (app.rb:112), and only `grouped_json` crashes, in `is_section?` (app.rb:104).
- `Sections.Section.IdValue` reads only an unsigned run of leading decimal digits. `String#to_i` also accepts leading whitespace, a sign and underscores between digits, which the model does not.
- `SectionLists.SectionList.SortSections` uses insertion sort in place of Ruby's `sort!`. It proves the same result up to the order of records that compare equal. Ruby's sort is not stable and the model does not fix an order for those ties.
- `SectionLists.CsvRoundTrip`, `SectionLists.JsonRoundTrip` and `SectionLists.GroupedJsonLines` require ids and file names free of commas, quotes and newlines, as applicable. The source does no escaping, so other inputs do not read back.
- Integer width is not relevant: section numbers are Ruby integers, modelled as `nat`.
