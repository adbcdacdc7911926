# clibind in Dafny

A model of the Go package `clibind`, which maps between a tagged Go struct
and the flags of an urfave/cli command in both directions:

- `FlagsFromStruct` walks a struct type and builds one flag descriptor per
  leaf field. The descriptor's name comes from the `cli` tag, or from the
  field's Go name in lower case, and is put under the inherited prefix.
  Long aliases get the prefix as well. The default comes from `cliDefault`
  and the usage text from `cliUsage`. A field is required when it is not
  `omitempty` and has no default. The flag kind follows the field's type.
  A nested struct with a `cliPrefix` tag adds its own fields under the
  extended prefix. An embedded struct without a name is flattened into its
  parent.
- `Bind` walks the same struct type. For every leaf it reads the value the
  parsed command holds under that leaf's flag name. It builds a fresh
  struct, recursing into nested structs. It returns the struct, or nothing
  when no field was assigned, or the first error.
- The helpers of `utils.go` are shared by both directions. They strip
  pointers, decide whether a type is a struct to recurse into, split a
  comma-separated text, parse a `cli` tag into a name, aliases and the
  `omitempty` option, and set integer fields.

Go reflection becomes data: a finite tree of types (`Reflect.Ty`,
`Reflect.Field`) with each field's kind and struct tags, and the values a
variable can hold (`Reflect.Value`). An addressable field is a cell of an
array (`Reflect.Loc`); the setters write through it. The parsed command is a
`Binding.Source`, which holds the value of every flag and the set of flags
given explicitly. The parsers of `strconv`, `time` and `uuid`, and `unicode.ToLower`, are
function-valued fields of `Foreign.Parsers`, so every property holds
whatever they do. A Go string's `len` is its UTF-8 byte length,
`Text.ByteLen`. Errors are `Binding.BindError`, wrapped as `fmt.Errorf`
wraps them. A reflect panic is `Binding.Failure.Panic` and unwinds unchanged.

Each walker is written twice:

- a specification function: `Flags.GenFlags` / `Flags.FieldFlags`,
  `Binding.BindStructSpec` / `Binding.BindField`, `Binding.SetFieldSpec`,
  `Binding.ElemsSpec`, `Utils.ParseNames`, `Utils.CSV`;
- an imperative method that follows the Go code loop by loop and is proved
  equal to its specification function: `Flags.GenFlagsForStruct` appending
  to a `Flags.FlagList`, `Binding.BindStruct` filling an array of field
  values, `Binding.SetFieldValue`, `Binding.CollectElements`,
  `Utils.ParseNamesWithOptions`, `Utils.SplitCSV`.

The properties are proved as lemmas about the specification functions.
The binder's specification stores a bound nested struct the way bind.go:100
evidently intends, behind fresh pointers when the field is a pointer
(`Binding.AssignSubstruct`; see Findings). Every statement about the values
it binds is about that corrected store.
`Symmetry` relates the two walkers: when the struct tags are consistent, the
flags the generator defines are exactly the flags the binder reads. It also
gives two struct shapes where the walkers disagree. `EndToEnd` walks a
two-field configuration struct in both directions.

## Model

| member | source | states |
|---|---|---|
| `Text.TrimSpaceTrims` | utils.go:40 | The trimmed text is a contiguous slice of the input with no white space at either end, and everything dropped before and after it is white space. |
| `Text.TrimSpaceKeepsTrimmed` | utils.go:101 | Trimming text that has no surrounding white space returns it unchanged, so the second trim of a token is a no-op. |
| `Text.TrimSpaceIdempotent` | utils.go:92 | Trimming twice is the same as trimming once. |
| `Text.SplitCount` | utils.go:38 | Splitting on a separator yields one more piece than there are separators. |
| `Text.SplitPiecesLackSeparator` | utils.go:38 | No piece contains the separator. |
| `Text.JoinSplit` | utils.go:38 | Joining the pieces with the separator gives back the input. |
| `Text.SplitJoin` | utils.go:38 | Splitting a join of separator-free pieces gives back the pieces. |
| `Text.ToLowerAscii` | flags.go:42 | On an ASCII Go name the derived flag name is ASCII, has no capital letter, and differs from the name only where it had a capital. |
| `Text.ToLowerKeepsLower` | bind.go:82 | ASCII text without capitals is left unchanged by lower-casing. |
| `Text.ToLowerIdempotent` | bind.go:82 | Lower-casing ASCII text twice is the same as lower-casing it once. |
| `Text.ByteLen` | flags.go:53 | A string's byte length is at least its character count and at most four times it, and equals it exactly when the string is ASCII. |
| `Text.ByteLenAboveOne` | flags.go:53 | An alias is longer than one byte exactly when it has more than one character or its one character is not ASCII. |
| `Utils.UnreferenceType` | utils.go:21-26 | The loop returns the type left after stripping every pointer layer. |
| `Utils.UnreferencedIsNotPointer` | utils.go:22-25 | The stripped type is never a pointer. |
| `Utils.UnreferencedIdempotent` | utils.go:21-26 | Stripping an already stripped type changes nothing. |
| `Utils.UnreferenceValue` | utils.go:10-18 | On a zero field: a non-pointer field is returned itself; a nil pointer field yields a fresh zero value of the pointee type, not connected to the field. |
| `Utils.IsStructLikeExactly` | utils.go:29-32 | A type is struct-like exactly when, after stripping pointers, it is a struct with declared fields (time.Time is not). |
| `Utils.IntKindsDisjoint` | utils.go:45-60 | No kind is both a signed and an unsigned integer kind. |
| `Utils.CastAndSetInt` | utils.go:62-75 | Writes only the field's own cell. An integer field gets the value. A pointer to an integer, nil or not, gets a pointer to the value; this is the corrected setter (see Findings). Reading the field afterwards gives the value. Any other field is left alone. |
| `Utils.CastAndSetUint` | utils.go:76-88 | The same for the unsigned kinds and uintptr. |
| `Utils.IntSetStores` | utils.go:62-75 | After the corrected setter, reading an integer field, or the integer behind a pointer field (nil before or not), gives the value set; a field of any other type is unchanged. |
| `Utils.UintSetStores` | utils.go:76-88 | The same for the unsigned kinds and uintptr. |
| `Utils.NilIntPointerLeftNil` | utils.go:68-72 | The setter as written leaves a nil `*int` nil, so reading the field afterwards finds no value. |
| `Utils.NilUintPointerLeftNil` | utils.go:81-85 | The same for a nil `*uint`. |
| `Utils.SettersAgreeOffNilPointers` | utils.go:62-88 | The setters as written and as corrected agree on every field except a pointer that holds no target. |
| `Utils.SplitCSV` | utils.go:34-43 | The loop trims every piece in place: the empty text yields nothing, and any other text yields its comma-separated pieces, each trimmed. |
| `Utils.CSVPieces` | utils.go:34-43 | A non-empty text yields one element per comma plus one, each the matching piece trimmed; empty pieces are kept. |
| `Utils.CSVElementsTrimmed` | utils.go:38-41 | No element has surrounding white space or contains a comma. |
| `Utils.CSVJoin` | utils.go:34-43 | When no piece carries surrounding white space, joining the elements with commas gives back the input. |
| `Utils.WithoutMembers` | utils.go:100-107 | The alias loop drops every "omitempty" token and keeps every other token. |
| `Utils.ParseNamesWithOptions` | utils.go:91-110 | The loop computes the name, aliases and omitempty flag that `Utils.ParseNames` specifies. |
| `Utils.ParseNamesNoName` | utils.go:92-99 | The tag yields no name exactly when it is blank or its first token is empty, and then yields no aliases and no omitempty either. |
| `Utils.ParseNamesTokens` | utils.go:96-109 | Otherwise the name is the trimmed first token. omitempty holds iff some later token is "omitempty". The aliases are the other later tokens in order, empty ones included. |
| `Utils.ParseNamesNameShape` | utils.go:96-109 | The name has no surrounding white space and no comma. |
| `Flags.FlagList.constructor` | flags.go:20 | The accumulator starts empty. |
| `Flags.GenFlagsForStruct` | flags.go:25-158 | Appends to the accumulator the flags of the struct's fields, in declaration order, and changes nothing else. |
| `Flags.GenFlagsForField` | flags.go:27-156 | Appends one field's flags: recursing into prefixed and embedded structs, or building one leaf descriptor. |
| `Flags.AppendLeafFlag` | flags.go:51-155 | Prefixes the name and the aliases longer than one byte, infers `required`, and appends the flag of the first matching kind case, or nothing. |
| `Flags.FlagsFromStruct` | flags.go:15-23 | A struct type, behind any number of pointers, yields its fields' flags under the empty prefix; any other type yields none. |
| `Flags.GenFlagsAppend` | flags.go:26-157 | The flags of a concatenation of fields are the concatenation of their flags, so the flags follow declaration order. |
| `Flags.UnexportedFieldsIgnored` | flags.go:28-30 | Dropping the unexported fields changes no flag. |
| `Flags.GenFlagsUnderPrefix` | flags.go:33-56 | Every generated name starts with the inherited prefix, and so does every alias longer than one byte, at any nesting depth. |
| `Flags.LeafDescriptor` | flags.go:40-155 | A leaf yields at most one flag, and one exactly when its type has a flag kind. Its name is the prefix plus the tag name or the lowered Go name. The flag carries the prefixed aliases and the usage text, and is required iff not omitempty and without a default. |
| `Flags.StringAndSliceDefaults` | flags.go:66-154 | Durations, timestamps, UUIDs and strings become string flags whose value and default text are the raw default. Slices become string-slice flags whose value is the comma-split default. |
| `Flags.MalformedDefaultsBecomeZero` | flags.go:76-104 | A bool, int or uint default that does not parse does not stop generation; the flag's value is false or zero. |
| `Flags.PointerToNamedTypes` | flags.go:61-136 | Named types are matched on the declared type: `*time.Duration` becomes an int64 flag, and `*time.Time` and `*uuid.UUID` get no flag. |
| `Flags.UnprefixedStructsEmitNothing` | flags.go:33-155 | A named struct field without `cliPrefix`, and an embedded one with a `cli` name, produce no flag. |
| `Flags.StructLikeHasNoKind` | flags.go:66-155 | No flag kind applies to a struct-like type. |
| `Binding.SetFieldValue` | bind.go:121-186 | Writes only the field's cell: the value `Binding.SetFieldSpec` gives for the field's type, or on failure leaves the cell as it was and reports the error or panic. |
| `Binding.ParseElement` | bind.go:199-272 | One slice element is appended, skipped or fails, as `Binding.ElemSpec` states. |
| `Binding.CollectElements` | bind.go:197-273 | The loop collects the appended elements in order and stops at the first failure, as `Binding.ElemsSpec` states. |
| `Binding.SetSliceField` | bind.go:189-276 | An empty string-slice value leaves the field alone. Otherwise the field gets a new slice of the collected elements, or the cell is unchanged and the failure is reported. |
| `Binding.BindStruct` | bind.go:67-118 | The loop over a fresh struct returns what `Binding.BindStructSpec` specifies: the first failure, nil when no field was assigned, or the built struct (corrected store, see bind.go:100 under Findings). |
| `Binding.BindFieldInto` | bind.go:74-112 | One iteration writes at most its own field's cell: skipped, assigned or failed as `Binding.BindField` states (corrected store, see bind.go:100 under Findings). |
| `Binding.Bind` | bind.go:52-65 | As documented (see Findings): a non-pointer, a nil pointer or a pointer to a non-struct is an InvalidDest error. Otherwise dest receives the bound struct when one was built (corrected store, see bind.go:100 under Findings), and is left alone when nothing was assigned or binding failed. |
| `Binding.FoldShape` | bind.go:73-117 | The loop succeeds iff every field step succeeds. Each visited field then holds its step's value or stays zero, and the struct is defined iff some step assigned a value. |
| `Binding.BindStructFirstFailure` | bind.go:73-111 | The bind fails with the failure of the first field that fails; later fields are not visited. |
| `Binding.BindStructSucceeds` | bind.go:73-117 | Binding a struct fails exactly when binding one of its fields fails. |
| `Binding.BindStructNil` | bind.go:98-117 | The result is nil exactly when no field was assigned. |
| `Binding.BindStructValue` | bind.go:70-117 | Otherwise every assigned field holds its new value and every other field is zero, so writing the struct replaces every field (corrected store, see bind.go:100 under Findings). |
| `Binding.BindStructAllAssigned` | bind.go:70-117 | A struct every field of which is assigned binds to exactly those values (corrected store, see bind.go:100 under Findings). |
| `Binding.BindStructOfNonStruct` | bind.go:68-73 | time.Time binds to nothing; any other type that is not a struct panics in NumField. |
| `Binding.UnsetOmitEmptySkipped` | bind.go:105-107 | An omitempty leaf whose flag was not set explicitly is skipped: it stays zero and does not define the struct. |
| `Binding.LeafAssigned` | bind.go:105-112 | Every other leaf is assigned and defines the struct, unless setting it fails, and its error names the field. A non-pointer leaf gets its setter's value. A pointer leaf stays nil. |
| `Binding.NestedStructField` | bind.go:86-103 | An embedded struct with a `cli` tag is an error. Otherwise the struct is bound under the parent prefix when embedded, or the prefix plus `cliPrefix` when named. It stays unchanged when nothing inside was assigned, receives the bound struct behind fresh pointers otherwise, and wraps an inner error with its name (corrected store, see bind.go:100 under Findings). |
| `Binding.EmptyTextIsZero` | bind.go:127-171 | A duration, timestamp or UUID leaf read from an empty flag string holds its type's zero value, without error. |
| `Binding.DurationParsed` | bind.go:127-137 | A duration leaf holds the parsed flag string, or the bind fails with an error naming the field and the text. |
| `Binding.TimeParsed` | bind.go:151-165 | A timestamp is parsed with its `cliTimeLayout` tag, or RFC 3339 when the tag is empty. A rejected text is an error naming the field, the layout and the text. |
| `Binding.UUIDParsed` | bind.go:167-177 | A UUID leaf holds the parsed flag string, or the bind fails with an error naming the field and the text. |
| `Binding.ScalarsRead` | bind.go:139-180 | Bool, signed, unsigned, float and string leaves hold the typed value the command holds for their flag. |
| `Binding.CollectAllSucceed` | bind.go:199-273 | When no element fails, the result is the appended values in input order, skipped ones left out. |
| `Binding.CollectFirstFailure` | bind.go:199-273 | Otherwise the failure of the first failing element is the result. |
| `Binding.ElemsResult` | bind.go:197-275 | Both cases stated for the elements of a string-slice value. |
| `Binding.ElementRules` | bind.go:203-270 | Empty duration, timestamp and UUID elements are dropped. An unparseable bool is false. An unparseable int, uint or float fails with its text. Any element of a slice-of-slices fails. |
| `Binding.StringElementsKept` | bind.go:265-272 | A string slice keeps every element, in order. |
| `Binding.SliceFieldRules` | bind.go:190-193 | An empty string-slice value leaves the field alone, even a slice of slices. A non-empty one fails for a slice of slices. |
| `Binding.ElemsFailWithErrors` | bind.go:199-272 | A slice element fails only with an error, never with a panic. |
| `Binding.StructBindNoNumField` | bind.go:73-94 | Binding a struct-kind type never reaches NumField on a non-struct, at any depth. |
| `Binding.SetFieldNoNumField` | bind.go:121-186 | Setting a field never panics in NumField. |
| `Binding.DerefAssignSubstruct` | bind.go:98-101 | The corrected assignment leaves the bound struct behind the field's pointers. |
| `Binding.PointerSubstructPanics` | bind.go:100 | As written, a field declared as a pointer to a struct panics on assignment. The corrected assignment stores a pointer to the struct. Both agree on a plain struct field. |
| `Binding.BindOfPointerToIntPanics` | bind.go:52-57 | As written, Bind with a pointer to an int panics in NumField; the documented behaviour is an InvalidDest error. |
| `Binding.BindOfPointerToPointerAsWritten` | bind.go:57-62 | As written, Bind with a pointer to a pointer to a struct binds the struct; it then reports nothing when no field was assigned and panics on the wrong-typed Set otherwise. The documented behaviour is an InvalidDest error. |
| `Binding.BindOutcomeAgrees` | bind.go:47-65 | The documented Bind rejects every dest that is not a non-nil pointer to a struct with an InvalidDest error and never panics in NumField. It agrees with the code as written whenever dest points to a struct; below the dest checks both use the corrected store. |
| `Symmetry.SetFieldReadsOnly` | bind.go:121-186 | Setting a field reads the command only under the flag name it is given. |
| `Symmetry.LeafReadsItsName` | bind.go:105-108 | Two commands that agree on a leaf's flag name bind the leaf alike. |
| `Symmetry.BindReadsOnlyBoundNames` | bind.go:67-118 | Binding a struct reads the command only at the names the binder derives for its leaves, at any depth (corrected store, see bind.go:100 under Findings). |
| `Symmetry.GeneratedNamesAreBound` | flags.go:25-157 | When every named nested struct has a `cliPrefix`, no embedded struct has `cliPrefix` or `cli`, and every leaf has a flag kind, the generator emits exactly the names the binder reads, in the same order. |
| `Symmetry.BindReadsGeneratedFlags` | bind.go:80-92 | Under that condition, the bound struct depends only on the flags the generator defined (corrected store, see bind.go:100 under Findings). |
| `Symmetry.NamedStructWithoutPrefix` | flags.go:33-48 | A named struct field without `cliPrefix` gets no flag, but the binder still reads its inner field under the parent prefix. |
| `Symmetry.EmbeddedStructWithPrefix` | flags.go:33-37 | An embedded struct with `cliPrefix` has its inner flag generated under the prefix, but the binder reads it without the prefix. |
| `EndToEnd.FieldsAsDeclared` | bind.go:5-6 | The `Name` and `Count` fields of the documented configuration: their `cli` tags parse to `name` with aliases `n` and `A`, and to `count` with alias `c`, neither omitempty. |
| `EndToEnd.ConfigFlags` | flags.go:40-94 | For these two fields the generator defines `name` (aliases `n` and `A`, usage "User name", string default "guest") and `count` (alias `c`, usage "How many items", int default parsed from "3"), neither required. |
| `EndToEnd.ConfigBound` | bind.go:67-118 | When the command reports `name` holding "guest" and `count` holding 7, the bind yields {Name: "guest", Count: 7}. |

## Left out

- Go reflection itself is replaced by the type tree. Types outside it are modelled only by kind, as `Other`; this covers maps, interfaces, functions, channels and arrays other than uuid.UUID. Named types other than time.Duration, time.Time and uuid.UUID are not modelled. Cyclic types through pointers are not modelled, since a `Ty` is a finite tree.
- The urfave/cli library is not part of this model. Its command-line tokenizing, its enforcement of `Required`, how it turns a flag's default into the value the command reports, and `IsSet` are represented only by the `Binding.Source` they produce. `EndToEnd.ConfigBound` therefore assumes the command reports the defaults as values.
- `strconv`, `time.ParseDuration`, `time.Parse`, `uuid.FromString` and `unicode.ToLower` are parameters. Only the documented strconv promise about syntax errors (`Foreign.StrconvContract`) is assumed, and only where a lemma says so.
- `Text.ToLower`: Unicode's case tables are not modelled. `unicode.ToLower` is the parameter `Foreign.Parsers.toLower`, and only its ASCII behaviour (`Text.LowersAscii`) is assumed, by the lower-casing lemmas and the `Symmetry` examples. The flag names derived from non-ASCII Go names are therefore known only up to that parameter.
- `Flags.PrefixedAliases`: a struct tag is taken to be valid UTF-8, so `Text.ByteLen` counts the bytes of its encoding. Invalid byte sequences in a tag are not modelled.
- `Flags.FlagsFromStruct` takes a type, so the untyped `nil` argument is not modelled. In Go, `reflect.TypeOf(nil)` is nil and `rt.Kind()` on it panics (flags.go:16-17).
- `Binding.BindOutcomeAsWritten` is as written only for the dest checks of bind.go:52-62. Below them it walks the struct with the corrected store of bind.go:100.
- Floating point is opaque: a float64 is a bit pattern, and the rounding of SetFloat into a float32 field is not modelled.
- Integer width is not modelled. `Utils.CastAndSetInt` and `Utils.CastAndSetUint` store the unbounded value, where reflect's SetInt and SetUint wrap it to the field's width. The flag library delivers values already within int64 and uint64.
- `Utils.UnreferenceValue` requires the field to hold its zero value: the binder applies it only to fields of a freshly allocated struct. Following a non-nil pointer, and the aliasing between a field and its pointee, are not modelled. A leaf declared as a pointer therefore keeps its nil value, as `Binding.LeafAssigned` states.
- The `log.Printf` calls of bind.go:112 and bind.go:122 are output only and are not modelled.
- `WithBinding` and `CommandWithBinding` (bind.go:278-329) only wrap `Bind` in a handler and are not modelled.
- The error texts of `fmt.Errorf` are represented by the `Binding.BindError` constructors, which carry the same data (field name, layout, text), not the formatted strings.
- `Symmetry.GeneratedNamesAreBound` and `Symmetry.BindReadsGeneratedFlags` are stated under the side condition `Symmetry.Aligned`. Without it the two walkers disagree, as `Symmetry.NamedStructWithoutPrefix` and `Symmetry.EmbeddedStructWithPrefix` show.

## Findings

| source | as written | input that shows it | evidently intended | confidence | as-written member | corrected member |
|---|---|---|---|---|---|---|
| utils.go:68-72 | The pointer case tests the kind of `field.Elem()`, which for a nil pointer is the invalid kind, so the `IsNil` allocation never runs and a nil `*int` stays nil. | `castAndSetInt` on a nil `*int` field with v = 5 | Allocate the `*int` and store 5 through it. | not executed | `Utils.NilIntPointerLeftNil` | `Utils.IntSetStores` |
| utils.go:81-85 | The same dead allocation in the unsigned setter. | `castAndSetUint` on a nil `*uint` field with v = 5 | Allocate the `*uint` and store 5 through it. | not executed | `Utils.NilUintPointerLeftNil` | `Utils.UintSetStores` |
| bind.go:100 | `fv.Set(*subv)` stores the bound struct value into the field as it is. For a field declared `*Inner`, the value of type `Inner` is not assignable and Set panics. | A struct with field `DB *Inner` tagged `cliPrefix:"db-"`, where some flag of `Inner` is assigned | Store a freshly allocated pointer to the bound struct. | not executed | `Binding.PointerSubstructPanics` | `Binding.DerefAssignSubstruct` |
| bind.go:52-57 | Only a non-pointer or nil dest is rejected. A pointer to a non-struct reaches `t.NumField()` and panics, against the documented "dest must be a non-nil pointer to a struct, otherwise Bind returns an error". | `Bind(cmd, &n)` with `n int` | Return the InvalidDest error. | not executed | `Binding.BindOfPointerToIntPanics` | `Binding.BindOutcomeAgrees` |
| bind.go:57-62 | A pointer to a pointer to a struct passes the dest checks. The binder strips every pointer and binds the struct. The result is then Set through one pointer level, where the type does not match. | `Bind(cmd, &p)` with `p *Config`, where some flag of `Config` is assigned, panics; with none assigned, Bind returns nil and leaves `p` alone | Return the InvalidDest error. | not executed | `Binding.BindOfPointerToPointerAsWritten` | `Binding.BindOutcomeAgrees` |
