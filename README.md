# structkeys in Dafny

A model of `structkeys`, a Go lint rule that flags struct composite literals whose fields are
given by position (`A{"hello", 1}`) rather than by name (`A{Field1: "hello", Field2: 1}`).

The model covers the two core files.

- `validator.go`:
  - `NewValidator` and its five nil checks;
  - `asStructCompositeLit`, which decides whether a node is a struct literal, from an inline `struct{...}` type or from an identifier whose object has a struct as underlying type;
  - `Visit`, the rule itself: empty literals are allowed, and the first element alone decides between keyed and positional.
- `failure.go`: the `Failure` record, `NewFailure`, and the `file:line:column: message` rendering.

The Go front end is not modelled; its results are inputs instead.

- **Syntax tree:** `Ast.Node` stands for what `go/parser` produces. `Ast.Preorder` lists the nodes in the order `ast.Walk` offers them, except for the field list node of a struct type, which the model leaves out.
- **Type information:** `TypeInfo.Info` stands for what `go/types` fills in. It has `Defs` and `Uses`, with each object reduced to the shape of its underlying type.
- **File set:** `Failures.FileSet` stands for the `token.FileSet`. It maps a position to its file, line and column.

The test driver in `validator_test.go` is modelled as `Validation.Validate`. It builds the validator with a callback that appends to a slice, and `Validation.Walk` / `Validation.WalkList` walk the file. The package's tests are the methods of the `Scenarios` module.

Modules: `Wrappers` (Option, Result), `Ast`, `TypeInfo`, `Decimal` (Go's `%d` for the line and
column), `Failures` (failure.go), `Validation` (validator.go and the walk), `Scenarios` (the tests).

Where the code differs from what one might expect of a lint rule, the model follows the code.

- **Unresolved type name.** A lint rule might be expected to skip a literal whose type name does not resolve. This code instead calls `Type()` on the nil object that `ObjectOf` returns (validator.go:93-94), which is a panic. The model makes resolution a precondition (`Validation.Resolves`) of classifying a literal, and of every walk.
- **File set check.** The rule itself does not need the file set to be checked. The code checks it first, so the model does too.

## Model

| member | source | states |
|---|---|---|
| Validation.NewValidator | validator.go:16-38 | Succeeds iff the file set, the info, its Defs and Uses maps and the callback are all present; the first missing one, checked in that order, names the error; on success the validator's fields are the arguments |
| Validation.AsStructCompositeLit | validator.go:74-100 | Only a composite literal can qualify, and then as itself; an inline `struct{...}` type always qualifies; an identifier type qualifies iff its object's underlying type is a struct; any other or elided type never does |
| TypeInfo.ObjectOf | validator.go:93 | The object an identifier defines if Defs has it, otherwise the one Uses has for it, otherwise none |
| Validation.Validator.Visit | validator.go:40-72 | Always hands back the same validator, so the walk never prunes; appends exactly what the node reports (one failure for an unkeyed struct literal, nothing otherwise) to the collected failures |
| Validation.VisitReportsAtMostOne | validator.go:49-71 | One node reports at most one failure, exactly when it is an unkeyed struct literal, and that failure carries the fixed message, the literal itself and its resolved start position |
| Validation.NotCompositeLitNotReported | validator.go:74-78 | A node that is not a composite literal is not classified as a struct literal and reports nothing |
| Validation.EmptyLiteralAllowed | validator.go:54-58 | A struct literal without elements reports nothing |
| Validation.FirstElementDecides | validator.go:60-71 | For a struct literal with elements: a keyed first element means no failure, a positional one means exactly the failure NewFailure builds for the literal |
| Validation.OtherLiteralTypeNotReported | validator.go:86-90 | A composite literal whose type is neither an identifier nor an inline struct (a slice, a map, an elided type) reports nothing |
| Validation.UnkeyedStructLitsFilter | validator.go:49-71 | The literals the rule flags among a sequence of nodes are exactly its unkeyed struct literals, each as many times as it occurs |
| Validation.Reports | validator.go:68-70 | One failure per flagged literal, in order, each with the fixed message, the literal and its resolved position |
| Validation.ReportedAreUnkeyedStructLits | validator.go:49-71 | Over any sequence of visited nodes, the i-th failure is about the i-th unkeyed struct literal; every failure is about such a literal among the nodes, and every such literal has its failure |
| Validation.ReportedAppend | validator_test.go:161 | Visiting two stretches of nodes one after the other reports the first stretch's failures followed by the second's |
| Validation.SamplingAgreesWithClassification | validator.go:60-66 | For literals Go accepts (never mixing keyed and positional elements), sampling the first element flags a literal iff it is an unkeyed struct literal in the all-elements sense |
| Validation.MixedLiteralSampledByFirstElement | validator.go:60-66 | The first-element sample flags a literal whose first element is positional even when a later one is keyed |
| Validation.FailureCollector.constructor | validator_test.go:152 | The test driver's slice starts empty |
| Validation.FailureCollector.OnFailure | validator_test.go:153-155 | The callback appends the failure and changes nothing else |
| Validation.Walk | validator_test.go:161 | Walking a tree appends, in pre-order, the failures of all of its nodes to what was collected before |
| Validation.WalkList | validator_test.go:161 | Walking the children of a node one after the other appends the failures of all their trees, in order |
| Validation.Validate | validator_test.go:136-164 | The failures collected for a file are one per unkeyed struct literal of the file, in pre-order, each with the fixed message, the literal and its position |
| Failures.NewFailure | failure.go:15-22 | The failure keeps the message and the node unchanged, and its position is the file set's resolution of the node's start position |
| Failures.PositionString | failure.go:25 | The rendering of a position starts with the file name followed by a colon |
| Failures.Failure.String | failure.go:24-26 | The rendering is the position's `file:line:column`, then ": ", then the message, and nothing more |
| Failures.StringRoundTrip | failure.go:24-26 | For a file name without a colon, the position and the message can be read back from the rendering |
| Failures.StringInjective | failure.go:24-26 | Two failures with the same rendering have the same position and message |
| Decimal.NatToString | failure.go:25 | The decimal numeral of the line or column is non-empty, all digits, and has no leading zero |
| Decimal.ParseNatToString | failure.go:25 | Reading the numeral back gives the number |
| Decimal.NatToStringInjective | failure.go:25 | Different numbers render differently |
| Scenarios.IgnoresNonStructCompositeLiterals | validator_test.go:18-28 | A file with a slice literal and a map literal, for any leaf and keyed-leaf elements, yields no failure |
| Scenarios.EmptyStructLiteralAllowed | validator_test.go:31-46 | `var a = A{}` with `A` a struct type yields no failure |
| Scenarios.KeyedStructLiteralAllowed | validator_test.go:48-63 | `var a = A{Field1: ..., Field2: ...}`, for any keyed leaf elements, yields no failure |
| Scenarios.UnkeyedStructLiteralReported | validator_test.go:65-80 | `var a = A{"hello", 1}`, for any non-empty leaf elements, yields exactly one failure, about that literal and placed at `A` |
| Scenarios.InlineUnkeyedStructLiteralReported | validator_test.go:82-92 | `var e = struct{ Field1 string }{"hello"}`, for any non-empty leaf elements, yields exactly one failure, placed at `struct` |
| Scenarios.InlineKeyedStructLiteralAllowed | validator_test.go:94-104 | `var e = struct{ Field1 string }{Field1: "hello"}`, for any keyed leaf elements, yields no failure |
| Scenarios.RenderAtLine4Column12 | validator_test.go:126-131 | A failure at line 4, column 12 of test.go renders as `test.go:4:12: struct literals must use keys during initialization` |
| Scenarios.ReportsFailurePosition | validator_test.go:109-131 | The inline unkeyed literal whose start the file set places at line 4, column 12 of test.go gives exactly one failure, with the fixed message, that literal and that position, and the failure's String is `test.go:4:12: struct literals must use keys during initialization` |

## Left out

- The debug `fmt.Printf` of every identifier's name in `Visit` (validator.go:42-47) is console output and is not modelled.
- `go/parser`, `go/types` and the importer (validator_test.go:136-150) are not modelled. The tree, the Defs and Uses maps and the file set are inputs.
- The test driver discards the type checker's error. That is how an undeclared type name reaches the validator.
- Validation.AsStructCompositeLit: requires that an identifier type resolves (`Validation.Resolves`). The Go code panics on a nil object there, and a panic is outside the model. `Validate`, `Walk` and `Visit` carry the same requirement for every node.
- `ast.Walk`'s final `Visit(nil)` after a node's children is not modelled. In this visitor it only returns the validator.
- TypeInfo.ObjectOf: Defs entries that map an identifier to a nil object (package names, for example) are not modelled; every entry holds an object. An object is reduced to whether its underlying type is a struct.
- The `*ast.FieldList` node that go/ast places between a struct type and its fields is not modelled: `Ast.Node.StructType` holds its fields directly, so the walk offers the fields right after the struct type. A field list is never a composite literal, so no failure changes.
- Identifiers are compared by name and position, standing in for Go's pointer identity of `*ast.Ident`.
- Failures.Failure.String: requires a file name, a line and a column. The fallback renderings of `token.Position.String` for a missing file name or line are not modelled, and neither is the byte offset of a position.
- `NewValidator` returns a value rather than a pointer. The callback is the test driver's appending closure, modelled as the `FailureCollector` class; any other callback is not modelled.
- Scenarios: the token positions of the test files are illustrative offsets, except that the file set of `ReportsFailurePosition` places the literal's position at test.go line 4, column 12. Element values are left general (any leaf or keyed-leaf elements) instead of the tests' particular strings and numbers.
- Nothing in the code is concurrent, and concurrency is not modelled.
