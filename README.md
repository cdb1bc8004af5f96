# zstructs, modelled in Dafny

zstructs is a small Go engine that reads a struct through `reflect` and projects
it into other shapes. `Map`/`FillMap` produce a `map[string]interface{}`, and
`Values` produces a flat `[]interface{}`. `Fields`, `Names` and `Field`/`FieldOk`
list the fields, and `IsZero`/`HasZero` run the zero tests. Each field is steered by
the directives in its struct tag:
- a rename;
- `omitempty`, `omitnested`, `flatten` and `string`;
- the exclusion sentinel `"-"`.

The `Field` handle reads a field's metadata and writes the field in place with
`Set` and `Zero`.

This project replaces `reflect` with finite trees and models the engine on them.

- `reflect.dfy` (module `Reflect`) holds what the engine relies on from `reflect`:
  - `Type` and `Value` trees (pointees inline, maps keyed by strings);
  - `ZeroOf` for `reflect.Zero`, so that `DeepEqual` with zero becomes equality with `ZeroOf`;
  - `Dynamic` for `reflect.ValueOf(v.Interface())`;
  - `Indirect1` for one `Elem()`;
  - `StructValue` for `strctVal`;
  - `TagGet` for `StructTag.Get`, over tag maps that never hold the empty key, as parsed tags do not.
- `tags.dfy` (module `Tags`) holds `parseTag` and `tagOptions.Has`, with the
  split/join round trips.
- `fields.dfy` (module `FieldAccess`) holds the storage and the `Field` handle:
  - a `Cell` class holds the value handed to `New`;
  - a `View` is a path into the cell with reflect's addressable flag and its two
    read-only flags: the sticky one, set by a non-embedded unexported field, and the
    embedded one, set by an unexported embedded field and dropped by the next field step.
    It plays the part of a `reflect.Value`;
  - `Set` and `Zero` are methods that rewrite the cell at the field's path;
  - `Value` and `IsZero` read through `Value.Interface()`, which panics when either
    read-only flag is set;
  - `getFields` is a loop proved against a function of the field list.
- `structs.dfy` (module `Structs`) holds the accessor:
  - `New`, `structFields`, `Names` (which fills an array by index), `FieldOk`, `nested`;
  - `FillMap`, which writes into a caller-supplied map object, field by field;
  - `Values`, `IsZero` and `HasZero`.
  Each loop is a method proved against a function that states its result.
  `FillMap`, `Map` and `nested` follow the corrected `flatten` (see Findings).
  The code as written, with its panics, is the `AsWritten` family of functions,
  which give no map exactly where the code panics.
- `properties.dfy` (module `StructsProperties`) holds the lemmas about the projections:
  - how the directives interact;
  - `FillMap` never removes a key;
  - excluded fields have no effect;
  - the round trip for records of plain fields;
  - `Values` and `Map` agree field by field;
  - a panic inside a nested record reaches the enclosing field.
- `scenarios.dfy` (module `Scenarios`) holds worked examples and the inputs that
  exhibit the finding below.

`fmt.Stringer` is a parameter of the accessor: a function from a value to the text
its `String()` method gives, if it has one.

## Model

| member | source | states |
|---|---|---|
| Tags.Split | tags.go:18 | `strings.Split(tag, ",")` gives at least one segment, and no segment holds a comma |
| Tags.JoinSplit | tags.go:17-20 | joining the segments of a split with `","` gives the tag back |
| Tags.SplitJoin | tags.go:17-20 | splitting the join of comma-free segments gives the segments back |
| Tags.ParseTag | tags.go:17-20 | joining name and options with `","` reproduces the tag; neither the name nor any option holds a comma |
| Tags.ParseTagNoComma | tags.go:18-19 | a tag without a comma is all name with no options; the empty tag gives name `""` and no options |
| Tags.ParseTagFirstComma | tags.go:18-19 | with the first comma at index c, the name is the text before it and the options are the segments after it, in order, empty ones kept |
| Tags.Has | tags.go:7-15 | `Has` holds iff some option equals opt exactly; it is false on no options |
| Tags.NoCommaNoDirective | tags.go:18-19 | no directive is set on a tag without a comma |
| Reflect.ZeroOf | field.go:37 | `reflect.Zero(t)` has type t |
| Reflect.Dynamic | structs.go:62 | `reflect.ValueOf(v.Interface())` is never an interface; it is v itself unless v is an interface slot, and otherwise a part of v |
| Reflect.Indirect1 | structs.go:62-65 | one `Elem()` after `ValueOf(v.Interface())` gives v or a part of v |
| Reflect.StructValue | structs.go:281-293 | `strctVal` either gives a struct or panics "not struct" |
| Reflect.StructValueDepth | structs.go:281-293 | `strctVal` succeeds exactly when following every pointer ends at a struct, and gives that struct |
| Reflect.TagGetLookup | field.go:20-22 | `StructTag.Get` gives the value recorded under the key, and "" when the key is absent, so an absent key and an empty value read the same; the empty key matches nothing |
| Reflect.KindOf | field.go:47-49 | a type's kind is never Invalid |
| FieldAccess.Cell.constructor | structs.go:18-24 | the storage holds the value handed to New |
| FieldAccess.AtAppend | field.go:66 | reaching the part at p + q is reaching q from the part at p |
| FieldAccess.AtDerefs | structs.go:284-286 | following Derefs(v) pointer steps reaches the value `strctVal` stops at |
| FieldAccess.AtPut | field.go:66 | after the write, the part at the path is the new value |
| FieldAccess.PutApart | field.go:66 | a write changes nothing at any path apart from the one written |
| FieldAccess.SiblingsApart | field.go:66 | two different fields of one struct are apart, so a write to one leaves the other |
| FieldAccess.Interface | field.go:25 | `Value.Interface()` panics exactly when either read-only flag is set, and otherwise gives the value there |
| FieldAccess.Value | field.go:24-26 | Field.Value panics exactly when the handle's view is read-only (the field is unexported, or a non-embedded unexported field lies on the way to it); otherwise it gives the field's current value |
| FieldAccess.IsEmbedded | field.go:28-30 | holds iff the field is anonymous |
| FieldAccess.IsExported | field.go:32-34 | holds iff the field's package path is empty; under a readable parent, exactly the fields whose Value does not panic (HandlesReadable) |
| FieldAccess.IsZero | field.go:36-41 | panics exactly when Value does, on a read-only view; otherwise holds iff the field's current value equals the zero value of its type |
| FieldAccess.Kind | field.go:47-49 | the kind of the field's type, never Invalid |
| FieldAccess.SetCheck | field.go:51-64 | the checks run in order: an unexported field gives errNotExported even when unsettable; then an unsettable one gives errNotSettable; then a kind mismatch gives the wrong-kind error carrying both kinds |
| FieldAccess.Set | field.go:51-68 | error exactly as SetCheck says; when every check passes but the value's type is not the field's, reflect's Set panics; a failed or panicking Set changes nothing; a successful one makes the field hold the given value with its type unchanged, and leaves every path apart from the field as it was |
| FieldAccess.Zero | field.go:70-73 | Set with the zero value of the field's type: the same error as Set; a failure changes nothing; on success the storage is the old one with the field replaced by that zero value, and IsZero gives true |
| FieldAccess.Selected | structs.go:260-279 | the indices of the kept fields are increasing, and each names a field that is not tagged `"-"` (and is exported, for structFields) |
| FieldAccess.SelectedComplete | structs.go:260-279 | every kept field is among the selected ones |
| FieldAccess.HandlesSelected | structs.go:155-169 | getFields makes one handle per selected field, in order |
| FieldAccess.StructView | structs.go:147-149 | getFields looks through one pointer, into the same storage |
| FieldAccess.Slot | structs.go:164 | `FieldByName` on a field's name finds the first field with that name: the field itself unless an earlier one shares its name |
| FieldAccess.SlotOfFreshName | structs.go:164 | a field whose name no earlier field has is found by its own name |
| FieldAccess.HandlesView | structs.go:146-172 | every handle carries its field's declaration and the value of the field FieldByName finds under that name, has no default tag, is read-only exactly when the field is unexported or the struct view carries the sticky flag, and is settable exactly when, besides, the struct view is addressable; an unexported embedded struct on the way does not stop its exported fields being read or set |
| FieldAccess.HandlesIndependent | structs.go:155-169 | a write through one handle getFields returns leaves what any handle of a differently named field shows unchanged; handles of fields that share a name (repeated blank fields) view the same field |
| FieldAccess.HandlesReadable | field.go:24-41 | on the handles of a struct view without the sticky flag (an unexported embedded struct included), Value and IsZero panic exactly on the handles IsExported rejects, and Value gives the others' values |
| FieldAccess.GetFields | structs.go:146-172 | the loop returns the handles of the fields not tagged `"-"`, unexported ones included, in declaration order, each viewing the field FieldByName finds; a non-struct panics |
| FieldAccess.Fields | field.go:75-77 | Field.Fields is getFields on the field's value under the handle's defaultTag |
| FieldAccess.FirstIndex | field.go:98 | FieldByName on direct fields finds the first field with that name, or none iff no field has it |
| FieldAccess.FieldOk | field.go:88-107 | panics when unaddressable, when its view is read-only, or when not a struct, exactly in those cases; otherwise not found iff no field has the name; a found handle views the first field with the name, at its path behind every pointer, is settable iff exported, and has no default tag |
| FieldAccess.FieldNamed | field.go:79-86 | Field panics "field not found" when FieldOk finds nothing, and otherwise agrees with FieldOk |
| Structs.OutMap.constructor | structs.go:27 | a fresh output map is empty |
| Structs.RootViewTarget | structs.go:281-293 | the accessor's view resolves to the struct strctVal reached |
| Structs.New | structs.go:18-24 | succeeds exactly when a struct remains after every pointer, otherwise panics "not struct"; the tag name starts at "json" and the target is that struct |
| Structs.IsStructAccepts | structs.go:323-334 | IsStruct accepts a struct or a non-nil pointer to one, never nil or a nil pointer; whatever it accepts, New accepts too, and both reach the same struct |
| Structs.IsStructOneLevel | structs.go:323-334 | IsStruct looks through one pointer only, while New looks through all of them |
| Structs.StructFields | structs.go:260-279 | the loop returns exactly the exported fields not tagged `"-"`, in declaration order |
| Structs.Fields | structs.go:130-132 | Fields is getFields on the accessor's value under its tag name |
| Structs.Names | structs.go:134-144 | one name per getFields handle, in the same order, unexported fields included |
| Structs.FieldOk | structs.go:183-196 | not found iff no direct field has the name; a found handle views the first such field, carries the accessor's tag name, and is settable iff New was given a pointer and the field is exported |
| Structs.FieldNamed | structs.go:174-181 | Field panics "field not found" exactly when FieldOk finds nothing |
| Structs.Nested | structs.go:340-405 | nested never yields text; a value it passes through is the value itself; a map result comes only from a struct or map (through one pointer); a list result comes only from a slice or array of structs or struct pointers, with the same length |
| Structs.NestedStruct | structs.go:349-358 | a struct becomes its own map under the parent's tag name, or stays as it is when that map is empty |
| Structs.NestedMap | structs.go:359-379 | a map of structs or of slices of structs becomes a map with the same keys, entry by entry |
| Structs.NestedList | structs.go:382-399 | a slice or array of structs or struct pointers becomes a list of the same length, element by element |
| Structs.NestedOther | structs.go:380-402 | everything else passes through unchanged |
| Structs.AsObject | structs.go:84-85 | a map projection is a `map[string]interface{}`; text and lists are not |
| Structs.AsObjectRaw | structs.go:84 | a value passed through as it is passes the type assertion exactly when it holds a `map[string]interface{}`; a `map[string]int` or a `map[string]error` does not |
| Structs.Contribute | structs.go:39-90 | the corrected loop body. A field is skipped iff it is an empty omitempty field or a `string` field whose value has no String method. A stored entry goes under the tag name, or under the field name when the tag name is empty. A merge happens only under flatten, without omitnested or string, on a struct or map |
| Structs.NestedAsWritten | structs.go:340-405 | nested as written: wherever no record inside it panics, it gives what Nested gives |
| Structs.NestedStructPanics | structs.go:349-352 | nested as written panics on a struct exactly when that struct's own map fill panics |
| Structs.ContributeAsWritten | structs.go:39-90 | the loop body as written: wherever it does not panic, it does what Contribute does |
| Structs.ContributePanics | structs.go:50-86 | the loop body as written panics exactly when nested runs (the field is neither an empty omitempty field nor omitnested) and either panics inside, or, without string, flatten meets a sub-struct or map whose projection is not a `map[string]interface{}`; string does not shield a panic inside nested, which runs first |
| Structs.FillUpToAsWritten | structs.go:39-90 | FillMap as written: wherever it does not panic, it leaves the map the corrected fold leaves |
| Structs.FillPanicsIff | structs.go:39-90 | FillMap as written panics exactly when some kept field among the first n panics |
| Structs.MapOfAsWritten | structs.go:26-30 | Map as written gives the corrected map wherever it does not panic |
| Structs.MergeInto | structs.go:84-86 | the flatten loop copies every entry in, later entries winning |
| Structs.ContributeText | structs.go:75-81 | under string, a field that is not omitted contributes its String() text under its key, or nothing when it has none |
| Structs.ContributeProjected | structs.go:59-89 | without string, a field that is not omitted is merged when it is a sub-struct under flatten whose projection is a map, and otherwise stored under its key as projected |
| Structs.Project | structs.go:59-73 | the projection is nested's result, or the value as it is under omitnested; the field counts as a sub-struct iff it is not omitnested and is a struct or map after one pointer |
| Structs.StoreText | structs.go:75-81 | the String() text is stored under the key, and nothing changes when there is none |
| Structs.StoreOrMerge | structs.go:83-89 | a flattened map projection is copied in entry by entry; anything else is stored under the key |
| Structs.FillField | structs.go:40-89 | one iteration updates the map as the corrected Contribute says |
| Structs.FillMap | structs.go:32-91 | a nil map is left alone; otherwise the map ends as the fold of the corrected Contribute over the kept fields, in order |
| Structs.Map | structs.go:26-30 | Map is FillMap into a fresh map |
| Structs.FieldValuesIn | structs.go:99-124 | one iteration of Values appends FieldValues of the field; StructsProperties.FieldValuesRules states what that is for each directive |
| Structs.ValuesIn | structs.go:93-128 | the loop, recursing through the package-level Values, gives ValuesOf |
| Structs.Values | structs.go:93-128 | Values on the accessor's struct under its tag name |
| Structs.IsZeroFromAll | structs.go:198-225 | the IsZero scan from field i holds iff every kept field from i on is zero |
| Structs.HasZeroFromAny | structs.go:227-254 | the HasZero scan from field i holds iff some kept field from i on has a zero |
| Structs.IsZero | structs.go:198-225 | IsZero holds iff every field structFields keeps is zero, a nested struct (unless omitnested) judged by its own IsZero |
| Structs.HasZero | structs.go:227-254 | HasZero holds iff some field structFields keeps is zero, a nested struct (unless omitnested) judged by its own HasZero |
| StructsProperties.FillNeverRemoves | structs.go:39-90 | FillMap only inserts or overwrites; every key already in the map survives |
| StructsProperties.OmitEmptyAddsNothing | structs.go:50-57 | an omitempty field equal to its zero value adds no key |
| StructsProperties.OmittedAddsNothing | structs.go:103-110 | the same field adds nothing to Values |
| StructsProperties.StringWins | structs.go:75-81 | under string, the key holds the String() text, or is absent when there is none, whatever flatten and omitnested say |
| StructsProperties.OmitNestedStoresRaw | structs.go:59-73 | under omitnested (without string), the field is stored under its key as it is, even with flatten |
| StructsProperties.FlattenMergesStruct | structs.go:83-86 | flatten on a sub-struct with a non-empty projection merges that map into the output, later entries winning, with no key for the field |
| StructsProperties.FlattenNeedsSubStruct | structs.go:62-70 | flatten on anything but a struct or map (through one pointer) stores the nested projection under the key |
| StructsProperties.FlattenFallsBack | structs.go:83-89 | corrected flatten: a sub-struct or map whose projection is not a `map[string]interface{}` is stored under its key, as it is |
| StructsProperties.EmptyStructStaysRaw | structs.go:349-358 | a struct with an empty projection passes through nested and cannot be merged |
| StructsProperties.ScalarMapStaysRaw | structs.go:359-381 | a map of scalars other than `interface{}` passes through nested and cannot be merged |
| StructsProperties.NestedPanicPropagates | structs.go:59-75 | a panic in the map fill of a sub-struct's kept field reaches the enclosing field, whatever its string and flatten directives say |
| StructsProperties.FillAsWrittenAgrees | structs.go:39-90 | when no kept field panics, FillMap as written leaves exactly the corrected fold |
| StructsProperties.FieldValuesRules | structs.go:103-124 | a field adds nothing to Values when omitted; under string its String() text or nothing; a struct (after one pointer) not marked omitnested adds its own values under "json"; anything else adds itself |
| StructsProperties.ValuesFollowContribute | structs.go:40-124 | a field Map skips adds no value; a String() text Map stores is the one value Values adds; an omitnested field is stored as it is and is its own value |
| StructsProperties.SkippedAddsNoValue | structs.go:99-124 | a kept field that Map skips leaves Values unchanged |
| StructsProperties.KeyOfNoComma | structs.go:45-48 | a tag without a comma is the key, or the field name when the tag is empty |
| StructsProperties.KeyOfFirstComma | structs.go:45-48 | the key is the text before the first comma, or the field name when that text is empty |
| StructsProperties.FillExcluded | structs.go:267-273 | FillMap's result does not depend on the value of a field that is excluded or unexported |
| StructsProperties.ValuesExcluded | structs.go:267-273 | nor does Values' |
| StructsProperties.ZeroScansExcluded | structs.go:267-273 | nor do the IsZero and HasZero scans |
| StructsProperties.ExcludedFieldIrrelevant | structs.go:271-273 | a field tagged `"-"` or unexported has no effect on Map, Values, IsZero or HasZero |
| StructsProperties.PlainContribution | structs.go:40-89 | a scalar field without a tag is stored under its declared name, as it is, and is its own value in Values |
| StructsProperties.PlainFill | structs.go:39-90 | after n fields of a record whose kept fields are untagged scalars with distinct names, each kept field among them is stored under its name and there are no other keys |
| StructsProperties.PlainFillKeys | structs.go:39-90 | every key in the map of such a record is the name of a kept field |
| StructsProperties.PlainRoundTrip | structs.go:26-91 | Map of a record whose kept fields are untagged scalars with distinct names has one entry per kept field, under its name, holding its value, and no other entries; the other fields may be anything |
| StructsProperties.PlainValuesUpTo | structs.go:96-125 | after n fields of a record whose kept fields are untagged scalars, Values holds the kept fields' values in order |
| StructsProperties.PlainValues | structs.go:93-128 | Values of such a record is the values of the kept fields, in declaration order |
| StructsProperties.NoFieldsZero | structs.go:198-254 | with no kept field, IsZero holds and HasZero does not |
| StructsProperties.ZeroValueIsZero | structs.go:198-225 | a record equal to its type's zero value passes IsZero under any tag name |
| StructsProperties.EmptyNestedRecord | structs.go:235-242 | a record whose only field is an empty struct is zero and passes IsZero, yet fails HasZero |
| Scenarios.OneOption | tags.go:17-20 | the directives of `"name,opt"`: key and which of the four options is set |
| Scenarios.FlattenTag | tags.go:17-20 | `json:",flatten"` keeps the field name as key and sets only flatten |
| Scenarios.StoredSkippedExcluded | structs.go:32-128 | a record of a stored, a skipped and an excluded field maps to the one stored entry and has its one value |
| Scenarios.OmitAndExcludeExample | structs.go:32-128 | `{Name; Age "age,omitempty"; Secret "-"}` with Age zero maps to `{"Name": Name}` and has values `[Name]` |
| Scenarios.ExportedUnderEmbedded | field.go:24-26 | for `type inner struct{X int}; type Outer struct{inner}` behind a pointer, the `inner` handle panics on Value, while the X handle its Fields() gives reads X and is settable |
| Scenarios.RepeatedBlankFields | structs.go:164 | for `struct { _ int; _ string }`, the second handle shows the declaration `_ string` but the first field's int value, and its kind is Int |
| Scenarios.OnePlainField | structs.go:32-128 | one untagged scalar field maps to itself under its name and is the only value |
| Scenarios.OneKeptField | structs.go:39-90 | the map of a record with one kept field is what that field contributes |
| Scenarios.FlattenExample | structs.go:83-86 | `{Inner struct{X int} ",flatten"}` maps to `{"X": X}` |
| Scenarios.ValuesUseDefaultTag | structs.go:120-121 | Map reads a nested struct under the parent's tag name, Values under "json": a field excluded under "yaml" is missing from the map and present among the values |
| Scenarios.AllOmittedEmpty | structs.go:50-57 | a struct whose kept fields are all omitted projects to the empty map |
| Scenarios.FlattenEmptyProjectionPanics | structs.go:83-86 | as written, flatten on a struct with an empty projection panics; corrected, the struct is stored under the field's name |
| Scenarios.FlattenScalarMapPanics | structs.go:83-86 | as written, flatten on a `map[string]int` or `map[string]error` field panics; corrected, the map is stored under the field's name |
| Scenarios.OmittedInnerEmpty | structs.go:50-57 | `struct{X int "x,omitempty"}` with X zero projects to the empty map |
| Scenarios.FlattenPanicWitness | structs.go:83-86 | the concrete input `Inner struct{X int "x,omitempty"}` tagged `",flatten"`, with X zero |
| Scenarios.StringOverPanickingRecord | structs.go:59-81 | a field tagged `",string"` holding a record whose one kept field panics panics as written; corrected, it stores the String() text or is skipped |
| Scenarios.NestedPanicUnderString | structs.go:59-81 | the concrete input: a record tagged `",string"` whose one field is FlattenPanicWitness's field |

## Left out

- Floating-point, complex, channel and function kinds are not modelled. Scalars are bool, int, uint and string.
- Structs.Nested: map keys are strings. The `k.String()` formatting of other key kinds (structs.go:375) is not modelled, and neither is Go's map iteration order.
- Pointers are inline in the value tree, so aliasing between pointers and cyclic pointer graphs are not modelled.
- FieldAccess.FirstIndex: the name lookup looks at direct fields only. Fields promoted from embedded structs, which `FieldByName` also finds, are not modelled.
- FieldAccess.Set: Go's assignability rules (named types, interface implementation) are reduced to equality of the structural types modelled here.
- Named non-struct types are not modelled. A named map type, for instance, also fails the type assertion at structs.go:84 in Go.
- Panics and errors are result values. Their message text, and the Go panic mechanism, are not modelled.
- `fmt.Stringer` dispatch is a function parameter of the accessor (`Structs.Stringer`).
- The package-level wrappers at structs.go:295-338 are not modelled separately. Each one builds `New` with the default tag name and calls the method, which is what `Structs.ValuesIn` does for the nested `Values` call.
- `Field.Tag`, `Field.Name` and `Struct.Name` are plain reads and carry no contract.
- Structs.FillField, Structs.FillMap, Structs.Map, Structs.MapOf and Structs.Nested model the corrected `flatten`: where the type assertion at structs.go:84 would panic, they store the field under its key. The code as written is the `AsWritten` family (Structs.NestedAsWritten, Structs.ContributeAsWritten, Structs.FillUpToAsWritten, Structs.MapOfAsWritten); see Findings.
- Structs.ContributeAsWritten: a panic is a missing result. Which field panicked, and the partly filled map FillMap leaves behind when it panics mid-loop, are not modelled.
- HasZero is false on a record with no kept fields, and on a record whose only field is an empty struct, though every field there is zero (StructsProperties.NoFieldsZero, StructsProperties.EmptyNestedRecord). The model keeps this behaviour of structs.go:227-254.

## Findings

| source | as written | input that shows it | evidently intended | confidence | as-written member | corrected member |
|---|---|---|---|---|---|---|
| structs.go:83-86 | under `flatten`, any field whose value is a struct or map after one pointer has its projection asserted to be `map[string]interface{}` | `Inner struct{X int "json:\"x,omitempty\""}` tagged `json:",flatten"` with X zero: nested returns the struct itself, so the assertion panics; a `map[string]int` field tagged `",flatten"` panics too, and so does any field that holds such a record, even under `string`, because nested runs before the string check | merge only a projection that is a `map[string]interface{}`, and store anything else under the field's key | not executed | Structs.ContributeAsWritten (exhibited by Scenarios.FlattenPanicWitness, Scenarios.FlattenScalarMapPanics and Scenarios.NestedPanicUnderString) | Structs.Contribute (proved by StructsProperties.FlattenFallsBack) |
