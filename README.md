# toml-schema, modelled in Dafny

toml-schema is a procedural macro. It reads a small dialect of TOML written as Rust tokens and expands it into two things:

- Rust struct declarations: one per table, and one per inline table that is the value of a top-level or table property (an inline table nested inside another inline table gets none);
- a `Default` impl for a root struct named `Root`.

This project models the whole pipeline behind the macro:

- **Parsing.** The parser works over token trees (`Tokens.Token`) and builds a document (`Ast.Document`). Module `Grammar` gives the reference definition as pure functions. Module `Parser` gives the cursor-advancing loops as the source writes them: the item loop, the table-contents loop, and the inline-table loop with its `ate_last_comma` flag. Each method is proved to return exactly what its `Grammar` function returns.
- **Printing.** Module `Unparse` prints a document back to tokens. The round trip back to the same document holds exactly when no property item follows a table item.
- **Naming.** Generated type names are built in module `Naming`. The PascalCase conversion is a parameter `pascal` of the emitter, and nothing is assumed about it unless a lemma says so.
- **Rendering.** The three renderers (field, prelude, default) are defined per value, inline table, property, table and item, in modules `ValueRender`, `PropertyRender`, `TableRender` and `ItemRender`. Their output is abstract: struct declarations with typed fields, and default expressions `Bool | Num | StrInto | StructLit`.
- **Whole document.** Module `Compiler` renders a whole document. The result is the preludes in item order, then `struct Root`, then the root default. The module proves:
  - the root fields and the default entries correspond to the items one to one;
  - every struct is declared before it is referred to, under two hypotheses. The first is that no inline table sits directly inside another inline table. The second is that the casing leaves the type name of each table that has inline members unchanged.
- **Examples.** Module `Scenarios` shows concrete inputs. Each of the two hypotheses is shown to be needed by a document that breaks declaration-before-use without it.

Three behaviours of the code are modelled as written and proved about the model:

- **Commas are never demanded.** The inline-table comma flag starts true and is never reset. So no input makes any parser report a missing comma, and `{a = 1 b = 2}` is two entries. TOML requires commas between inline-table entries; this code does not, and the model follows the code.
- **Doubly nested inline tables are never declared.** An inline table inside an inline table gets a field type, but no struct is emitted for it.
- **Table and inline-table names can disagree.** Inside a table, an inline member's field type is the table's type name joined to the converted member name. The struct declared for that member converts the table's type name a second time. These two names agree exactly when the casing leaves the table's type name unchanged.

The root struct is always named `Root` (src/document.rs:23). A value that is not a literal and a literal of a kind with no value are two distinct errors (src/property.rs:30 and src/property.rs:27), and the model keeps them apart as `NotALiteral` and `InvalidLiteral`.

Declaration-before-use is stated with `Scope.ScopedIn`, a recursive predicate over the declarations in order. `Scope.ScopedIndexed` shows that it means what it says: every struct a field refers to is declared at a strictly earlier position.

## Model

| member | source | states |
|---|---|---|
| Ast.LitToValue | src/lib.rs:38-50 | Bool gives Boolean, Str gives String, and both Int and Float give the same Number with the same digits. Every other literal kind is refused, and only those are refused. |
| Grammar.ParseProperty | src/property.rs:9-34 | A successful parse starts at an identifier, keeps its name and consumes input. The value and error rules are in the lemmas that follow. |
| Grammar.PropertyCases | src/property.rs:10-31 | A missing name, `=` or value gives its error. A literal becomes the property with the converted value and consumes exactly three tokens, or fails as a refused literal. An expression that is not a literal (another token or a non-brace group) fails as not a literal. |
| Grammar.PropertyBraceValue | src/property.rs:14-18 | A brace-group value is the inline-table parse of the group. Its failure is the property's failure, and tokens left in the group are an error. Otherwise the property holds that inline table and consumes three tokens. |
| Grammar.PropertyRest | src/property.rs:10-33 | A successful property consumes exactly its name, `=` and the value's token or group. |
| Grammar.PropertyErrorKinds | src/property.rs:10-31 | A property fails only with a missing name, `=` or value, a group not used up, a non-literal or a refused literal. It never fails for a missing comma, `;`, bracket or item. |
| Grammar.InlineErrorKinds | src/inline_table.rs:10-24 | An inline table fails only with the errors a property fails with. |
| Grammar.ParseInlineTable | src/inline_table.rs:9-24 | On success, what is left does not start with an identifier and is no larger. Grammar.InlineTableIsLoop ties it to the entry loop. Order and stopping are stated by the loop lemmas, Grammar.InlineTableRestIsSuffix and Unparse.InlineRoundTrip. |
| Grammar.InlineTableIsLoop | src/inline_table.rs:9-24 | An inline table is exactly the entry loop started with the flag set: its entries in order and what it leaves on success, and its error on failure. |
| Grammar.ParseInlineProps | src/inline_table.rs:10-21 | On success, what is left does not start with an identifier. The stopping, comma and ordering rules are stated by the lemmas that follow. |
| Grammar.InlinePropsCases | src/inline_table.rs:12-16 | A non-identifier stops the loop with no entries and nothing consumed. With the flag clear, an identifier demands a comma. The loop fails as its first property fails. On success, the first entry is the first property parsed. |
| Grammar.InlinePropsStep | src/inline_table.rs:16-20 | One turn with the flag set: a property, then a comma consumed if one follows, then the rest of the loop, whose entries come after this one. |
| Grammar.InlineRestIsSuffix | src/inline_table.rs:12-21 | What the loop leaves is a suffix of its input: the entries consume a prefix. |
| Grammar.InlineTableRestIsSuffix | src/inline_table.rs:9-24 | What an inline-table parse leaves is a suffix of its input. |
| Grammar.ParseTableContents | src/lib.rs:27-35 | The result is empty and nothing is consumed when the input does not start with an identifier. On success the rest never starts with an identifier. How each line ends is stated by Grammar.TableContentsCases. |
| Grammar.TableContentsCases | src/lib.rs:29-32 | A failing property fails the contents with its error. A property not followed by `;` fails with `ExpectedSemi`. A line ended by `;` comes first, then the lines parsed after the `;`, and a later failure fails the contents. |
| Grammar.ParseTable | src/table.rs:17-24 | On success the first token is a bracket group holding exactly the heading identifier, and the contents are the table-contents parse of what follows. |
| Grammar.TableCases | src/table.rs:17-24 | No bracket group gives `ExpectedBracket`. A heading that does not start with an identifier gives `ExpectedIdent`. A heading with tokens after its identifier gives `UnexpectedToken`. A heading of exactly one identifier gives the table named by it, holding the contents that follow, or else the contents' error. |
| Grammar.ParseItem | src/item.rs:13-26 | A bracket group succeeds iff the table parses, and then gives that table. An identifier succeeds iff the property parses and `;` follows. A property item comes from such a property, with the `;` consumed. Anything else is `InvalidItem`. |
| Grammar.ItemCases | src/item.rs:14-23 | A failing table or property fails the item with its error. A property without `;` fails with `ExpectedSemi`. A property ended by `;` gives that property item and consumes the `;`, so an identifier gives only property items. |
| Grammar.ParseDocument | src/document.rs:8-18 | Empty input gives the empty document. A failing first item fails the document with that item's error. |
| Grammar.DocumentStep | src/document.rs:10-17 | After a first item that parses, the document is that item followed by the rest's items, and a failure anywhere in the rest is the document's failure. |
| Grammar.PropertyNeverDemandsComma | src/property.rs:14-18 | Parsing a property never fails with a missing comma, including inside its brace group. |
| Grammar.InlineNeverDemandsComma | src/inline_table.rs:11-19 | Started with the flag set, the entry loop never fails for a missing comma, because the flag is never cleared. |
| Grammar.TableContentsNeverDemandsComma | src/lib.rs:28-35 | Table contents never fail with a missing comma. |
| Grammar.DocumentNeverDemandsComma | src/document.rs:9-18 | No token sequence makes the document parser report a missing comma. |
| Grammar.OnlyTablesAfterNonIdent | src/document.rs:10-16 | A document that parses from input not starting with an identifier holds table items only. |
| Grammar.ParsedTablesLast | src/document.rs:9-18 | In every document that parses, no property item comes after a table item, because tables absorb the following lines. |
| Parser.ParseProperty | src/property.rs:9-34 | The step-by-step cursor version returns exactly the reference parse result. |
| Parser.ParseInlineTable | src/inline_table.rs:9-24 | The `while` loop with the `ate_last_comma` flag returns exactly the reference parse result. |
| Parser.ParseTableContents | src/lib.rs:27-35 | The `while` loop pushing properties returns exactly the reference parse result. |
| Parser.ParseTable | src/table.rs:17-24 | The bracketed-heading parse returns exactly the reference parse result. |
| Parser.ParseItem | src/item.rs:13-26 | The peek-then-parse dispatch returns exactly the reference parse result. |
| Parser.ParseDocument | src/document.rs:8-18 | The item loop until the input is empty returns exactly the reference parse result. |
| Unparse.PropertyRoundTrip | src/property.rs:9-34 | A printed property parses back to itself and leaves the following tokens untouched. |
| Unparse.InlineRoundTrip | src/inline_table.rs:10-24 | Comma-terminated entries, trailing comma included, parse back to the same entries in order. |
| Unparse.ContentsRoundTrip | src/lib.rs:27-35 | Printed `name = value;` lines parse back to the same properties when the tokens after them do not start with an identifier. |
| Unparse.TableRoundTrip | src/table.rs:17-24 | A printed table parses back to itself when the tokens after it do not start with an identifier. |
| Unparse.ItemRoundTrip | src/item.rs:13-26 | A printed item parses back to itself. For a table item, the following tokens must not start with an identifier. |
| Unparse.TablesPrintBracketFirst | src/item.rs:14-17 | A run of table items prints to tokens that start with a bracket group, not an identifier. |
| Unparse.DocumentRoundTrip | src/document.rs:9-18 | A document whose tables come last prints to tokens that parse back to it. |
| Unparse.DocumentRoundTripExactly | src/document.rs:9-18 | Printing then parsing gives a document back if and only if no property item follows a table item. |
| Naming.MemberTypeNameAgrees | src/table.rs:104-108 | An inline member's field type name inside a table equals the name of the struct declared for it iff the casing leaves the table's type name unchanged. |
| ValueRender.ScalarType | src/inline_table.rs:79-82 | Boolean maps to `bool`, String to `String` and Number to `f64`, each in both directions. |
| ValueRender.InlineTableTokens | src/inline_table.rs:47-51 | An inline table by itself renders nothing. |
| ValueRender.InlineTablePrelude | src/inline_table.rs:63-103 | One `pub` struct named `pascal(parent) + pascal(name)`, with one field per entry in order. Scalars get their scalar type. An inline entry gets the struct's name joined to the converted entry name. |
| ValueRender.InlineTableDefault | src/inline_table.rs:115-149 | A struct literal of the same name, with one entry per property in order. Each value is rendered with that struct's name as parent and the entry's name as property. |
| ValueRender.ChildValueDefault | src/lib.rs:66-82 | Boolean and Number are emitted as their payload and String as its payload with `.into()`. An inline table is the inline default with the property name as name and the same parent. |
| ValueRender.ScalarDefaultRoundTrip | src/lib.rs:69-71 | A scalar default gives back the value it was rendered from and has the scalar's field type, in any position. |
| ValueRender.MemberConforms | src/inline_table.rs:83-90 | A member's default has the member's declared type iff the member is a scalar or the casing leaves the enclosing struct's name unchanged. |
| ValueRender.InlineDefaultConforms | src/inline_table.rs:115-149 | An inline table's default matches its declaration entry by entry (name, order and type) iff it has no inline entry or the casing leaves its name unchanged. |
| PropertyRender.PropertyField | src/property.rs:52-72 | The field is the property's name with its scalar type, or, for an inline table, `pascal(parent) + pascal(name)`. |
| PropertyRender.PropertyPrelude | src/property.rs:77-87 | Nothing for a scalar. For an inline table, exactly its prelude with the same parent and name. That struct's name is the field's type, with no hypothesis on the casing. |
| PropertyRender.PropertyDefault | src/property.rs:99-111 | `name: value`, with the value rendered with the field's parent and property name. It always has the field's type. |
| TableRender.TableField | src/table.rs:42-59 | `heading: pascal(parent) + pascal(heading)`. |
| TableRender.MemberPreludesInOrder | src/table.rs:98-103 | The preludes written from inside the member loop are exactly those of the inline members, in member order, each with the table's type name as parent. |
| TableRender.TablePrelude | src/table.rs:74-123 | The inline members' preludes come first, then exactly one non-`pub` struct with the table's type name and one field per property in order. Scalars get their type. An inline member gets the heading type joined to the converted member name. |
| TableRender.TableDefault | src/table.rs:136-173 | `heading: HeadingType { ... }`, with one property default per property in order, each with the heading type as parent. |
| TableRender.TableNamesAgree | src/table.rs:44-53 | The field, the declared struct and the default literal of a table use one type name. |
| TableRender.TableDefaultConforms | src/table.rs:149-171 | A table's default matches its struct entry by entry iff it has no inline member or the casing leaves the heading type unchanged. |
| ItemRender.IntoChildItem | src/item.rs:30-37 | The variant and payload are kept, and the given parent name is attached. |
| ItemRender.IntoItemPrelude | src/item.rs:56-63 | Table maps to Table and Property to Property, with the same payload. |
| ItemRender.IntoItemDefault | src/item.rs:65-72 | Table maps to Table and Property to Property, with the same payload. |
| ItemRender.ItemField | src/item.rs:46-53 | Emits exactly the wrapped table's or property's field. |
| ItemRender.ItemPrelude | src/item.rs:81-88 | Emits exactly the wrapped table's or property's prelude. |
| ItemRender.ItemDefault | src/item.rs:96-103 | Emits exactly the wrapped table's or property's default entry. |
| ItemRender.ItemDefaultMatchesField | src/item.rs:96-103 | An item's default entry has its field's name and a value of its field's type, for any casing. |
| ItemRender.ItemPreludeDeclaresField | src/item.rs:81-88 | An item's prelude is non-empty iff its field has a named type, and its last struct declares exactly that type. |
| Compiler.RenderDocument | src/document.rs:21-66 | The preludes of the items come in item order, all with parent `Root`. Then comes a non-`pub` `Root` with one field per item, then a `Root { ... }` default with one entry per item, in the same order. |
| Compiler.RootFieldsMatchDefaults | src/document.rs:44-64 | Field `i` of `Root` and entry `i` of its default both carry the name of item `i`, and the entry has the field's type, for any casing. |
| Compiler.FlatInlinePrelude | src/inline_table.rs:77-91 | An inline table without inline entries declares a struct that refers to no other struct. |
| Compiler.TablePreludeScoped | src/table.rs:87-121 | A table's prelude is declared before use when its inline members hold no inline tables and the casing leaves its type name unchanged. |
| Compiler.ItemPreludeScoped | src/item.rs:81-88 | An item's prelude is declared before use under the same two hypotheses. |
| Compiler.DocumentPreludesScoped | src/document.rs:32-36 | The concatenated preludes of all items are declared before use under the two hypotheses. |
| Compiler.DocumentPreludesNames | src/document.rs:44-50 | Every struct an item's prelude declares is among the document's preludes. |
| Compiler.RootRefsDeclared | src/document.rs:44-56 | Every type a field of `Root` names is declared by the preludes, for any casing. |
| Compiler.RenderedDeclaredBeforeUse | src/document.rs:44-64 | The whole expansion declares every struct before `Root` or any other struct refers to it, under the two hypotheses. |
| Scenarios.EntriesWithoutComma | src/inline_table.rs:11-19 | `{a = 1 b = 2}` parses to two entries. |
| Scenarios.NonLiteralRefused | src/property.rs:22-31 | `x = -1` and `x = [1, 2]` are refused as non-literals. |
| Scenarios.CharLiteralRefused | src/lib.rs:47 | `x = 'c'` is refused as a literal kind without a value. |
| Scenarios.DoubleCommaBody | src/inline_table.rs:17-20 | Inside `{a = 1,, b = 2}` the loop takes one entry and one comma, then stops at the second comma. |
| Scenarios.DoubleCommaRefused | src/inline_table.rs:17-20 | `x = {a = 1,, b = 2}` stops at the second comma and fails because the group is not fully consumed. |
| Scenarios.LastContentLine | src/lib.rs:28-35 | `y = 2;` is one line of table contents. |
| Scenarios.AbsorbedContents | src/lib.rs:28-35 | Two `name = value;` lines parse, in order, as one table's contents. |
| Scenarios.TableAbsorbsProperty | src/document.rs:9-18 | `[t] x = 1; y = 2;` is one table with two properties, not a table and a property item. |
| Scenarios.DoublyNestedNotDeclared | src/inline_table.rs:83-90 | With the identity casing, `a = { b = {} };` refers to `Rootab`, which is never declared. |
| Scenarios.UnstableCasingNotDeclared | src/table.rs:98-108 | With a casing that is not idempotent, a table's inline member names a type other than the one declared for it. |

## Left out

- The `toml` procedural-macro entry point and `parse_macro_input!` are host glue.
- syn is not modelled. Its lexer, its delimiter matching and its `Expr` parser are replaced by token trees, in which a value position holds one token: a literal, a brace group, or `OtherExpr`. Negative numbers are `OtherExpr`, because syn reads them as unary expressions. Operator precedence is not modelled.
- A delimited group that is not fully consumed fails at once with `UnexpectedToken`. syn instead records the leftover token when the group's buffer is dropped, and reports it only after the whole input has parsed; an error met later in the input is returned first. Both fail on the same inputs, but the error reported can differ: for `x = {a = 1 2}; y;` syn reports the missing `=` after `y`, and the model reports the unfinished group. The error identities stated by Grammar.PropertyBraceValue, Grammar.TableCases, Grammar.ItemCases and Grammar.DocumentStep follow the immediate check.
- The `base10_digits().parse::<f64>()` conversion is floating point and is not modelled: `Number` keeps the literal's digit string. That parse accepts every digit string syn produces, but a literal too large for an `f64`, such as `1e400`, becomes infinity, and emitting an infinite `f64` literal then makes the expansion fail. The model renders it as `Num("1e400")` instead.
- convert_case's PascalCase algorithm is a foreign library. The model takes it as the parameter `pascal`, and lemmas state explicitly where idempotence is needed.
- quote's token output is not modelled. Spacing, the `struct`/`pub`/`impl` keywords as text, `Default` impl boilerplate, error messages and spans are all left out; the output is abstract declarations and expressions.
- The `Clone` derives, the `Deref` impls and the `TableContents` newtype are plumbing. The model uses the property sequence directly.
- Emission is deterministic and only reads the document by construction: `Compiler.RenderDocument` is a function, so rendering the same document twice gives the same output. No separate lemma states this.
- The parse cursor (`ParseStream`) is passed as a value: each parser takes the remaining tokens and returns what it leaves. There is no shared mutable stream.
