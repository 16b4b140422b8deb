# derive_asref, modelled in Dafny

`#[derive(AsRef)]` is a Rust procedural macro. It reads a struct definition and
emits `impl AsRef<T> for S { fn as_ref(&self) -> &T { &self.field } }` for
every field that carries `#[as_ref(target = "T")]`. This project models its
three stages as pure Dafny functions over an abstraction of `syn`'s syntax
tree, and proves what each stage accepts, rejects and produces.

- `wrappers.dfy` (module `Wrappers`): `Option`, a `Result` usable with `:-`
  (Rust's `?`), and `CollectResults`, the fail-fast
  `map(..).collect::<Result<Vec<_>, _>>()` the macro uses for every list.
- `syn.dfy` (module `Syn`): the input. It covers paths with
  `get_ident`/`is_ident`, literals, meta items, attributes, fields, the derive
  input and the kinds of error. `ValidIdent` is the set of strings
  `syn::Ident::new` accepts.
- `attrs.rs` → `attrs.dfy` (module `Attrs`): the shape check of
  `#[as_ref(key = value)]` (`AbstractFromSyn`), the specialisation by key
  (`AttributeFromAbstract`, `TargetFromLit`), their composition
  (`AttributeFromSyn`) and `ToTarget`.
- `structs.rs` → `structs.dfy` (module `Structs`): `FieldFromSyn` and
  `StructFromSyn`, with lemmas on tuple structs, empty field lists and rejected
  attributes.
- `lib.rs` → `derive.dfy` (module `Derive`): the impl synthesiser
  (`ProduceImplAsRef`, `ProduceAllImplAsRef`), the entry point `DeriveAsRef`,
  and lemmas on the count, order and origin of the generated impls. It also
  has end-to-end examples, including the struct `UserWithName` from
  `tests/impl_asref.rs`.

Three behaviours of the code are easy to assume otherwise; the model follows
the code:
- An attribute whose path is not `as_ref` is rejected with the invalid-format
  error, not ignored (src/attrs.rs:73-75). Field and struct attributes are all
  passed through this check (src/structs.rs:37-41, src/structs.rs:60-64). So a
  doc comment or another derive's helper attribute makes the expansion fail.
  See `ForeignAttributeRejected` and `ForeignFieldAttributeFails`.
- A struct with an empty field list (`struct S {}`, `struct S();`) is accepted
  with no fields. Only a unit struct `struct S;` is refused
  (src/structs.rs:19-35). See `EmptyFieldListAccepted`.
- A `target` string that is not an identifier does not produce an error value.
  `syn::Ident::new` panics on it (src/attrs.rs:57). The model reports this as
  the error kind `InvalidIdent`. The panic also ends the expansion at that
  point, so the first-error-wins order is the same.

## Model

| member | source | states |
|---|---|---|
| `Wrappers.CollectResults` | src/structs.rs:37-41 | Succeeds iff every element converts; then the output has the same length and order, and each entry is that element's converted value. Otherwise the error is the one from the first element that fails. |
| `Syn.GetIdent` | src/attrs.rs:89-95 | Returns `Some(s)` exactly when the path is the single plain identifier `s`: no leading `::`, one segment, no generic arguments. |
| `Syn.IsIdent` | src/attrs.rs:73 | `is_ident(s)` holds exactly when the path is the single plain identifier `s`. |
| `Attrs.ToTarget` | src/attrs.rs:14-18 | Returns `Some` for every attribute, carrying that attribute's target, because `Target` is the only variant. |
| `Attrs.TargetFromLit` | src/attrs.rs:51-59 | Succeeds iff the literal is a string that forms an identifier, and the target's text is that string. A non-string is "is not string". A string that is not an identifier is the `Ident::new` failure. |
| `Attrs.AbstractFromSyn` | src/attrs.rs:71-98 | Succeeds exactly on `#[as_ref(key = value)]`, giving back that key and value (both directions). A different path is invalid-format whatever follows it. The only other error is a meta parse failure on an `as_ref` path. Every other shape is invalid-format: a non-list, zero or several items, a literal or list item, a multi-segment key. |
| `Attrs.AttributeFromAbstract` | src/attrs.rs:32-40 | Succeeds iff the key is `target` and the value is a string that forms an identifier, and the target equals that string. Any other key is "unsupported attribute". With key `target`, a non-string literal is "is not string" and a string that is not an identifier is the invalid-identifier error. |
| `Attrs.AttributeFromSyn` | src/attrs.rs:21-26 | Succeeds exactly on `#[as_ref(target = "T")]` with `T` an identifier, and yields target `T` (both directions). Shape errors are returned unchanged before the key is looked at. Key errors only occur on well-shaped attributes: another key is "unsupported attribute", a non-string is "is not string", a string that is not an identifier is the invalid-identifier error. |
| `Structs.FieldFromSyn` | src/structs.rs:59-72 | Succeeds iff every attribute parses and the field has a name. Then the name is kept and the attributes are the parsed ones, in source order. The first bad attribute's error comes before the missing-name error. |
| `Structs.DeclaredFields` | src/structs.rs:19-31 | The braced and the parenthesised field lists are handled alike: the result is the declared list of whichever form the struct uses. |
| `Structs.StructFromSyn` | src/structs.rs:13-48 | An enum or union is "is not a struct"; a unit struct is "There is no field". Otherwise it succeeds iff every field and every struct attribute converts. Then it keeps the ident, and the fields and struct attributes are converted one-to-one in order. The first failing field decides the error whatever the struct attributes are. Struct attributes are judged only once every field passed. |
| `Structs.TupleStructRejected` | src/structs.rs:26-31 | A tuple struct with at least one field fails with its first field's error. That error is the first bad attribute on the field, or else "We only support named field". |
| `Structs.RejectedAttributeFailsStruct` | src/structs.rs:60-64 | A rejected attribute on the struct or on any field makes the whole conversion fail. |
| `Structs.ForeignAttributeRejected` | src/attrs.rs:73-75 | An attribute whose path is not `as_ref`, on the struct or on any field, makes the whole conversion fail. |
| `Structs.EmptyFieldListAccepted` | src/structs.rs:19-35 | `struct S {}` and `struct S();` with no attributes are accepted with an empty field list. |
| `Derive.ProduceImplAsRef` | src/lib.rs:39-50 | The impl has the struct's ident as implementing type. The attribute's target is both the trait parameter and the return type. It borrows the field by its name. |
| `Derive.TargetAttrs` | src/lib.rs:30-33 | `filter_map(to_target)` drops nothing: one target per attribute, in order, each that attribute's target. |
| `Derive.FieldImpls` | src/lib.rs:29-34 | One impl per attribute of the field, in source order; impl `j` is the one for attribute `j`'s target, borrowing that field. |
| `Derive.ImplsOf` | src/lib.rs:26-36 | Produces exactly as many impls as there are attributes over all the given fields. |
| `Derive.ProduceAllImplAsRef` | src/lib.rs:25-37 | The number of impls equals the total number of field attributes; the function has no failure path. |
| `Derive.DeriveAsRef` | src/lib.rs:15-23 | The output is a compile error, with no impls, exactly when building the struct model fails, and carries that error. Otherwise it is the synthesised impls of the model. |
| `Derive.ImplAt` | src/lib.rs:26-35 | The impl for attribute `j` of field `i` is at position (attributes of fields before `i`) + `j`. It uses that attribute's target, the struct ident and the field name. So output order is fields in declaration order, then attributes in source order. |
| `Derive.ImplOrigin` | src/lib.rs:26-35 | Every generated impl is the one for some attribute `j` of some field `i`, at exactly that position. |
| `Derive.StructAttrsIgnored` | src/lib.rs:26-28 | Changing the struct-level attributes does not change the generated impls. |
| `Derive.NoAttrsNoImpls` | src/lib.rs:29-34 | Fields with no attributes give an attribute count of zero and an empty list of impls. |
| `Derive.UnannotatedStructExpandsToNothing` | src/lib.rs:15-37 | A struct with named fields and no attributes anywhere expands to an empty list of impls, not an error. |
| `Derive.UserWithNameExpansion` | tests/impl_asref.rs:7-20 | `UserWithName` expands to exactly `impl AsRef<User> for UserWithName` borrowing `inner`; `_name` contributes nothing. |
| `Derive.UserWithNameImpls` | src/lib.rs:39-49 | The model of `UserWithName` (field `inner` with target `User`, field `_name` bare) synthesises exactly the one impl of tests/impl_asref.rs:9-13. |
| `Derive.NonIdentifierTargetFails` | src/attrs.rs:56-58 | `target = "NotAnIdentifier!!"` makes the expansion fail with the invalid-identifier error. |
| `Derive.ForeignFieldAttributeFails` | src/structs.rs:60-64 | A `#[serde(skip)]` attribute on a field makes the expansion fail with invalid-format. It is not ignored. |

## Left out

- Token streams (`proc_macro`, `proc_macro2`, `quote!`) and `syn::parse_macro_input!`. The input is the datatype `DeriveInput` and the output is `Impl` records, not tokens.
- The grammar behind `Attribute::parse_meta` (src/attrs.rs:77). Its failure is the opaque `Unparseable` token value, which gives `MetaParseError`. The path of a top-level meta list is not modelled because the code checks the attribute's own path instead.
- Spans, `to_compile_error` and the wording of messages, including the text built by `invalid_format_err` (src/attrs.rs:101-109). Errors are the `ErrorKind` enumeration; that function's error is `InvalidFormat`.
- Literal kinds other than string (integer, byte string, character, boolean, float) are all the single constructor `NonStr`, since the code only tells strings apart.
- `Syn.ValidIdent`: ASCII approximation of the identifiers `syn::Ident::new` accepts. Unicode XID characters are not modelled. Raw identifiers are out of scope because they are built with a different constructor.
- The panic of `syn::Ident::new` becomes the error value `InvalidIdent`. The model does not distinguish a panic from a reported error.
- Generics and visibility of the input struct. The code does not read them, and the generated impl names only the struct ident.
- Compiling and running the generated impl (tests/impl_asref.rs:22-31). That is the Rust compiler's behaviour, not this crate's.
