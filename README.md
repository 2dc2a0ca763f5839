# make_pyx in Dafny

`make_pyx.py` reads a C++ header that declares one plain `struct` and
produces the text of a Cython `.pyx` wrapper for it. This project models
that generator:

- `clean_struct` turns one field line such as `int a, b = 3;` into a type
  and the names it declares.
- `read` scans the header lines with a two-mode state machine. Outside a
  struct it collects `namespace X` names and waits for `struct X`. Inside
  it collects `enum class` lines and field lines up to the first line that
  ends the body.
- `make_enums` turns every captured `enum class` into a name, its ordered
  values and an extern declaration block.
- `make` builds the `<NAME>_NAMES` tables, decides which fields are
  enum-backed, renders the `__str__` format and the property accessors,
  and fills the templates.
- `make_enums.py` holds a later `make_enums` that also drops the `size`
  count sentinel.

Modules, one per part of the program:

| module | file | models |
|---|---|---|
| `Outcomes` | outcomes.dfy | `Option`, `Result` and the two errors: failed unpacking, failed `assert` |
| `Text` | text.dfy | `str.strip`, `str.split`, `str.find`, `str.join` and `str.upper` on ASCII |
| `FieldLines` | field_lines.dfy | `clean_struct` |
| `HeaderScanner` | header_scanner.dfy | the three patterns and `read` |
| `EnumSynth` | enum_synth.dfy | `make_enums` of make_pyx.py and its template |
| `SizedEnums` | sized_enums.dfy | `make_enums` of make_enums.py |
| `Binding` | binding.dfy | `make` and the templates it fills |

Every loop of the program is a method, proved equal to a function that
specifies it. The properties are lemmas about those functions. Where the
program fails, the model returns `Failure`:

- `typename, *parts = s.split()` on a blank line is `NothingToUnpack`;
- `assert typename and parts and variables` is `MalformedField`.

Where the behaviour as coded is easy to misread, the model follows the code:

- Every token of a field line loses one trailing `;` or `,`, not just the
  last one. So `int x = 1, y;` declares `x` and `y`: the `=` and the one
  token after it (`1,`) are skipped.
- make_pyx.py's `make_enums` removes no sentinel at all. make_enums.py
  removes the first value equal to `size`, wherever it stands. Neither
  removes a `last = ...` entry.
- The namespaces are joined with a single `:`.
- `variables_to_enum_type` is keyed by variable name. So "a field is
  enum-backed exactly when its own group's type is an enum" holds only when
  no name appears in two groups (`UniqueNames`). A struct that compiles can
  still break this: a default value longer than one token leaks its later
  tokens into the names of its group, so `int a = 1 + n;` followed by
  `int n;` puts `n` in both groups.

## Model

| member | source | states |
|---|---|---|
| Text.Strip | make_pyx.py:35 | the result is the infix of the line left after its leading and trailing whitespace; it is empty exactly when the line is all whitespace |
| Text.Split | make_pyx.py:7 | every token is non-empty and holds no whitespace |
| Text.SplitKeepsNonSpace | make_pyx.py:7 | the tokens, joined with no separator by `Join` (the model of `str.join`), are the line with its whitespace removed: no character is lost or invented |
| Text.SplitEmptyIff | make_pyx.py:7 | there is no token exactly when the line is all whitespace, the case where unpacking the type fails |
| Text.SplitJoin | make_pyx.py:7 | splitting tokens joined by a blank with `Join`, the model of `sep.join(parts)`, gives the tokens back |
| Text.SplitStrip | make_pyx.py:73-74 | stripping before splitting changes no token |
| Text.JoinEmptyIff | make_pyx.py:80-82 | a `Join` of non-empty parts, the `'\n\n'.join` behind `if decl:`, is empty exactly when there is nothing to join |
| Text.IndexOfChar | make_pyx.py:22 | the index of the first occurrence of the character, or the length when there is none |
| Text.CommentStart | make_pyx.py:32 | the position of the first `//`, or the length when the line has none |
| Text.Upper | make_pyx.py:99 | same length; ASCII lower-case letters become upper-case, every other character is kept |
| FieldLines.DropTerminator | make_pyx.py:12-13 | a token loses exactly one trailing `;` or `,`, and is otherwise unchanged |
| FieldLines.FlagMatchesRule | make_pyx.py:9-15 | the one-step `was_equal` flag keeps exactly the tokens that are neither `=` nor right after `=` |
| FieldLines.VariablesFollowRule | make_pyx.py:11-15 | the names kept are exactly the tokens the reference rule keeps, in order |
| FieldLines.NoEqualsKept | make_pyx.py:14-15 | `=` is never kept as a name, and there are never more names than tokens |
| FieldLines.NoDefaultsKeepsAll | make_pyx.py:11-15 | a line without `=` keeps every token, in order, each without its terminator |
| FieldLines.Cleaned | make_pyx.py:6-18 | success exactly when there is a token after the type and a name survives; then the type is the first token, the list of names is non-empty, no name is `=` itself, and the names are exactly the tokens after the type that are neither `=` nor right after `=`, in order |
| FieldLines.CleanStruct | make_pyx.py:6-18 | the loop returns exactly what `Cleaned` specifies, errors included |
| FieldLines.DefaultValueSkipped | make_pyx.py:7-15 | `int x = 1, y;` gives type `int` and names `x`, `y` |
| HeaderScanner.WordLen | make_pyx.py:20-22 | the length of the longest run of word characters at the start |
| HeaderScanner.MatchKeyword | make_pyx.py:20-21 | no match exactly when the keyword is not followed by a word character; a match is the keyword's longest word, a prefix of the line |
| HeaderScanner.MatchKeywordComplete | make_pyx.py:20-21 | every line made of the keyword, a maximal word and anything else matches with that word |
| HeaderScanner.MatchEnumClass | make_pyx.py:22 | a match is a non-empty word name and a non-empty body without `}`, and `enum class <name> {<body>}` is a prefix of the line |
| HeaderScanner.MatchEnumClassComplete | make_pyx.py:22 | every line of that shape matches, with its name and the text up to the first `}` |
| HeaderScanner.EnumLineHasBrace | make_pyx.py:40-51 | an `enum class` line always holds `{` |
| HeaderScanner.Normalize | make_pyx.py:32-35 | the normalized line holds no `//`, has no whitespace at either end, and is no longer than the line |
| HeaderScanner.InStructStep | make_pyx.py:39-52 | inside the struct an `enum class` line is captured although it is a terminator line; any other terminator stops the scan and adds nothing |
| HeaderScanner.CutLine | make_pyx.py:32-35 | the line cut at its first `//` and stripped is exactly `Normalize` of the raw line |
| HeaderScanner.ReadLine | make_pyx.py:39-65 | one iteration on a non-blank line gives exactly `StepLine`: its `continue`s go on with the updated lists, its `break` (the test `IsTerminator`, make_pyx.py:45-51) stops, and a failing `clean_struct` aborts |
| HeaderScanner.Read | make_pyx.py:24-67 | the loop, with its blank-line `continue`, its `break` and its errors, returns exactly `Scan`: the fold of `StepLine` over the normalized lines |
| HeaderScanner.StepKeepsCoherent | make_pyx.py:39-65 | one line never produces fields or enums without a struct name |
| HeaderScanner.ScanKeepsCoherent | make_pyx.py:31-65 | a coherent state stays coherent over any number of lines |
| HeaderScanner.ReadIsCoherent | make_pyx.py:24-67 | `structs` or `enum_class` are non-empty only together with a non-empty `classname` |
| HeaderScanner.InStructOnlyAppends | make_pyx.py:39-55 | inside the struct the namespaces and the struct name never change, and fields and enums are only appended |
| HeaderScanner.StopsAtTerminator | make_pyx.py:45-52 | nothing after the line that ends the body changes the result |
| HeaderScanner.OneEntryPerBodyLine | make_pyx.py:39-55 | before the end of the body, every non-blank line adds exactly one field group or enum capture |
| HeaderScanner.BodyContents | make_pyx.py:39-55 | before the end of the body, the scan adds exactly `BodyFields` (the `clean_struct` group of every field line, via `FieldOf`) to `structs` and `BodyEnums` (the name and body of every `enum class` line, via `EnumOf`) to `enum_class`, each in line order, and changes nothing else |
| HeaderScanner.OutsideStep | make_pyx.py:57-65 | outside the struct a line that does not open it adds at most its namespace |
| HeaderScanner.NoStructLine | make_pyx.py:57-67 | without a struct line, the scan only appends the namespaces, in line order |
| HeaderScanner.NoStructGivesEmptyModel | make_pyx.py:25-67 | a header with no struct line gives its namespaces, an empty struct name, no fields and no enums, without error |
| HeaderScanner.FirstStructLine | make_pyx.py:57-65 | the first struct line sets the struct name and enters the body; the lines before it contribute only namespaces |
| EnumSynth.EnumClassTemplate | make_pyx.py:176-201 | the declaration opens a `cdef extern from "<` block and ends with a newline |
| EnumSynth.DropComma | make_pyx.py:74 | a value loses exactly one trailing `,`, and is otherwise unchanged |
| EnumSynth.DropCommas | make_pyx.py:74 | one value per token, in order |
| EnumSynth.ValuesOfTokens | make_pyx.py:73-74 | the values are the whitespace tokens of the body, in order, each without one trailing comma |
| EnumSynth.EnumDefs | make_pyx.py:72-75 | one definition per capture, in capture order, with the stripped name and the body's values |
| EnumSynth.CdefLines | make_pyx.py:77 | one `    cdef <enum> <value>` line per value, in order |
| EnumSynth.Blocks | make_pyx.py:76-78 | one block per enum, in order: the template, then the value lines joined by newlines |
| EnumSynth.MakeEnums | make_pyx.py:70-83 | the loop returns exactly the definitions and the declaration text the functions specify |
| EnumSynth.ValuesRoundTrip | make_pyx.py:73-74 | a body written as the values joined by `, ` gives exactly those values back |
| EnumSynth.BlocksNonEmpty | make_pyx.py:76-78 | a template that is never empty never yields an empty block |
| EnumSynth.BlockDeclarations | make_pyx.py:80-83 | under a template that is never empty, `Declarations` is empty exactly when there is no enum; otherwise it is the blocks joined by a blank line plus one final newline |
| EnumSynth.DeclarationsShape | make_pyx.py:80-83 | with make_pyx.py's template, `decl` is empty exactly when there is no capture; otherwise it is the blocks joined by a blank line plus one final newline |
| SizedEnums.FirstIndex | make_enums.py:11 | the index of the first occurrence, with no occurrence before it |
| SizedEnums.RemoveFirstCounts | make_enums.py:10-13 | `RemoveFirst`, the model of `parts.remove('size')` with its `ValueError` caught, takes out one `size` when there is one and nothing else: as a multiset, the list minus one `size` |
| SizedEnums.RemoveFirstAt | make_enums.py:10-13 | `RemoveFirst` cuts the list exactly at its first `size`, and leaves it unchanged without one |
| SizedEnums.RemoveAbsent | make_enums.py:12-13 | a list without `size` is unchanged: the `ValueError` is swallowed |
| SizedEnums.SizedEnumDefs | make_enums.py:7-14 | one definition per capture, in capture order, without its first `size` value |
| SizedEnums.MakeEnumsSized | make_enums.py:5-21 | the loop returns exactly the definitions and the declaration text the functions specify, for any template |
| SizedEnums.SizedAgreesPerCapture | make_enums.py:8-14 | each definition is make_pyx.py's definition of the same capture with its first `size` removed |
| SizedEnums.SizedAgreesWithoutSentinel | make_enums.py:5-21 | without any `size` value both versions give the same definitions and the same declarations |
| SizedEnums.SizedDeclarationsShape | make_enums.py:15-21 | under a template that is never empty, `decl` is empty exactly when there is no capture; otherwise it is the blocks joined by a blank line plus one final newline |
| SizedEnums.EmptyTemplateHidesCapture | make_enums.py:15-21 | the template condition is needed: with an empty template, a capture whose only value is `size` gives an empty `decl` |
| SizedEnums.SentinelDropped | make_enums.py:8-13 | `Color { RED, GREEN, BLUE, size }` has the values `RED`, `GREEN`, `BLUE` |
| Binding.EnumNameSetMembers | make_pyx.py:96-97 | the keys of `enum_types` are exactly the enum names |
| Binding.QuotedValues | make_pyx.py:98 | each value quoted, in order |
| Binding.NamesLines | make_pyx.py:98-99 | one `<NAME>_NAMES` line per enum, in order |
| Binding.EnumTables | make_pyx.py:94-99 | the loop returns exactly the enum name set and the table lines |
| Binding.GroupLines | make_pyx.py:108 | one declaration line per field group, in order |
| Binding.ClassifyFields | make_pyx.py:115-121 | the loop returns exactly `EnumTyped` (each variable of an enum-typed group mapped to its type, later groups overriding earlier ones) and `Props` (all variable lists concatenated) |
| Binding.PropertyList | make_pyx.py:126-136 | the nested loop returns exactly one `PropText` per field, in order: `EnumPropTemplate` for an enum-backed name, `PropTemplate` otherwise |
| Binding.Make | make_pyx.py:86-141 | `make` returns `Generate`: the scan's error, or `Render` of the scanned model, which is `MainTemplate` with the timestamp and the enum declarations, followed, when the property list is not empty, by `ClassTemplate` filled with `NamespacePath` (the `':'` join), `StructDefinition`, `EnumNamesBlock`, the joined `FormatItems` and `SelfItems` and the property list |
| Binding.EnumTypedKeys | make_pyx.py:117-120 | a variable is in `variables_to_enum_type` exactly when some group declaring it has an enum type, and it always maps to an enum name |
| Binding.EnumTypedUnique | make_pyx.py:117-120 | with unique names, a variable is enum-backed exactly when its own group's type is an enum, and maps to that type |
| Binding.FieldsAndProps | make_pyx.py:121 | the fields and `props` agree name by name |
| Binding.FieldFromGroup | make_pyx.py:117-121 | every field is some variable of some group, with that group's type |
| Binding.FieldsInOrder | make_pyx.py:117-121 | `props` lists the variables group by group in declaration order |
| Binding.FieldRendering | make_pyx.py:122-135 | `FormatItems` (`str_format`), `SelfItems` (`variable_names`) and `PropTexts` (`property_list`) have one entry per prop, in order; with unique names, an enum-typed field gets `='%s'` and `EnumPropTemplate` with the upper-cased type, any other field `=%s` and `PropTemplate` |
| Binding.EnumBackedHasTable | make_pyx.py:96-131 | every enum-backed variable names, through its upper-cased type, a `<NAME>_NAMES` table that the class defines |
| Binding.PropTextsNonEmpty | make_pyx.py:126-135 | no rendered property is empty |
| Binding.ClassSectionEmptyIff | make_pyx.py:136-140 | the class section is empty exactly when there is no prop |
| Binding.ClassSectionIff | make_pyx.py:138-140 | the output starts with the filled main template, and is only that exactly when there is no prop |
| Binding.MainTemplateTimestamp | make_pyx.py:143-146 | in the main template the timestamp sits right after the fixed opening words |
| Binding.TimestampOnly | make_pyx.py:137-146 | the output for any timestamp is the same text with only the timestamp swapped in |

## Left out

- Reading the file (`open(header_file)`): the header is given as its sequence of lines.
- The command-line loop, the `.h` check and the output path (make_pyx.py:213-219): file-system glue around `make`.
- The clock (`datetime.utcnow()`): the timestamp is a string parameter.
- Python's regular-expression engine: the three anchored patterns are written as prefix matchers, with `\w` meaning ASCII letters, digits and `_`.
- Unicode: whitespace, word characters and `str.upper` are modelled on ASCII only.
- `str.format(**locals())`: every template is an explicit concatenation of its slots.
- The runtime of the generated Cython (`clearStruct`, `_Wrapper`, `.index` on an unknown name): it is emitted text, never executed by the generator.
- The unused `prejoin` and the first definition of `ENUM_CLASS_TEMPLATE`, which the second one replaces.
- `Context` and `read_header_file`, imported by make_enums.py, are not part of this model: `MakeEnumsSized` returns the pair of values instead.
- `ENUM_CLASS_TEMPLATE` is not defined in make_enums.py: `MakeEnumsSized` takes the template as a parameter.
- `parts.remove('size')` updates the list in place: `SizedEnums.RemoveFirst` computes the new list as a value, since nothing else refers to the list.
- Running Python with `-O` turns the `assert` of `clean_struct` off: the model always checks it.
- Binding.FieldRendering: proved only for structs whose variable names are unique across groups, because `variables_to_enum_type` is keyed by name and is complete before the properties are rendered, so any plain group, earlier or later, that shares a name with an enum-typed group gets the enum rendering for that name (`EnumTypedKeys` states the general case).
