/** `#[derive(AsRef)]`: build the structure model and, if that succeeds,
    emit one `AsRef` impl per target attribute of every field. */
module Derive {
  import opened Wrappers
  import opened Syn
  import opened Attrs
  import opened Structs

  /** `impl AsRef<traitTarget> for selfType { fn as_ref(&self) -> &returnType { &self.fieldName } }` */
  datatype Impl = Impl(traitTarget: Ident, selfType: string, returnType: Ident, fieldName: string)

  /** The expansion: a compile error alone, or the generated impls. */
  datatype Output = CompileError(error: ErrorKind) | Expansion(impls: seq<Impl>)

  /** `produce_impl_asref`: the struct converts to `&target` by borrowing the field. */
  function ProduceImplAsRef(input: Struct, field: Field, target: Ident): (r: Impl)
    ensures r.traitTarget == target && r.returnType == r.traitTarget
    ensures r.selfType == input.ident && r.fieldName == field.ident
  {
    Impl(target, input.ident, target, field.ident)
  }

  /** `filter_map(Attribute::to_target)` over a field's attributes. */
  function TargetAttrs(attrs: seq<Attribute>): (ts: seq<TargetAttribute>)
    ensures |ts| == |attrs|
    ensures forall j :: 0 <= j < |attrs| ==> ts[j] == attrs[j].attr
  {
    if attrs == [] then
      []
    else
      var rest := TargetAttrs(attrs[1..]);
      match ToTarget(attrs[0])
      case Some(t) => [t] + rest
      case None => rest
  }

  /** The impls of one field, one per target attribute, in attribute order. */
  function FieldImpls(input: Struct, field: Field): (r: seq<Impl>)
    ensures |r| == |field.attrs|
    ensures forall j :: 0 <= j < |field.attrs| ==>
              r[j] == ProduceImplAsRef(input, field, field.attrs[j].attr.target)
  {
    var ts := TargetAttrs(field.attrs);
    seq(|ts|, j requires 0 <= j < |ts| => ProduceImplAsRef(input, field, ts[j].target))
  }

  /** The number of attributes over all of `fields`. */
  function AttrCount(fields: seq<Field>): nat {
    if fields == [] then 0 else |fields[0].attrs| + AttrCount(fields[1..])
  }

  /** The `flat_map` over the fields, in declaration order. */
  function ImplsOf(input: Struct, fields: seq<Field>): (r: seq<Impl>)
    ensures |r| == AttrCount(fields)
  {
    if fields == [] then [] else FieldImpls(input, fields[0]) + ImplsOf(input, fields[1..])
  }

  /** `produce_all_impl_asref`: one impl per attribute of every field; the
      struct-level attributes are not consulted. */
  function ProduceAllImplAsRef(input: Struct): (r: seq<Impl>)
    ensures |r| == AttrCount(input.fields)
  {
    ImplsOf(input, input.fields)
  }

  /** `derive`: a failed conversion yields the compile error and nothing else. */
  function DeriveAsRef(origin: DeriveInput): (r: Output)
    ensures r.CompileError? <==> StructFromSyn(origin).Failure?
    ensures r.CompileError? ==> r.error == StructFromSyn(origin).error
    ensures r.Expansion? ==> r.impls == ProduceAllImplAsRef(StructFromSyn(origin).value)
  {
    match StructFromSyn(origin)
    case Failure(e) => CompileError(e)
    case Success(input) => Expansion(ProduceAllImplAsRef(input))
  }

  /** The attribute count of a prefix grows by the next field's attributes. */
  lemma {:induction false} AttrCountSnoc(fields: seq<Field>, i: nat)
    requires i < |fields|
    ensures AttrCount(fields[..i + 1]) == AttrCount(fields[..i]) + |fields[i].attrs|
  {
    if i > 0 {
      assert fields[..i + 1][1..] == fields[1..][..i];
      assert fields[..i][1..] == fields[1..][..i - 1];
      AttrCountSnoc(fields[1..], i - 1);
    }
  }

  /** The impl for attribute `j` of field `i` sits after the impls of all the
      earlier fields and of the earlier attributes of field `i`. */
  lemma {:induction false} ImplAt(input: Struct, fields: seq<Field>, i: nat, j: nat)
    requires i < |fields| && j < |fields[i].attrs|
    ensures AttrCount(fields[..i]) + j < |ImplsOf(input, fields)|
    ensures ImplsOf(input, fields)[AttrCount(fields[..i]) + j]
            == Impl(fields[i].attrs[j].attr.target, input.ident, fields[i].attrs[j].attr.target, fields[i].ident)
  {
    AttrCountSnoc(fields, i);
    PrefixCountBound(fields, i + 1);
    if i == 0 {
      assert fields[..0] == [];
    } else {
      assert fields[..i][1..] == fields[1..][..i - 1];
      ImplAt(input, fields[1..], i - 1, j);
    }
  }

  /** A prefix has no more attributes than the whole sequence. */
  lemma {:induction false} PrefixCountBound(fields: seq<Field>, n: nat)
    requires n <= |fields|
    ensures AttrCount(fields[..n]) <= AttrCount(fields)
  {
    if n > 0 {
      assert fields[..n][1..] == fields[1..][..n - 1];
      PrefixCountBound(fields[1..], n - 1);
    }
  }

  /** Position `k` of the impls of `fields` holds the impl for attribute `j`
      of field `i`. */
  ghost predicate ImplFrom(input: Struct, fields: seq<Field>, k: nat, i: nat, j: nat)
  {
    && i < |fields| && j < |fields[i].attrs|
    && k == AttrCount(fields[..i]) + j
    && k < |ImplsOf(input, fields)|
    && ImplsOf(input, fields)[k] == ProduceImplAsRef(input, fields[i], fields[i].attrs[j].attr.target)
  }

  /** Position `k` is attribute `j` of field `i`, counted after the
      attributes of the fields before `i`. */
  ghost predicate IsPosition(fields: seq<Field>, k: nat, i: nat, j: nat)
  {
    i < |fields| && j < |fields[i].attrs| && k == AttrCount(fields[..i]) + j
  }

  /** Every position below the attribute count of `fields` is the position of
      one attribute of one field. */
  lemma {:induction false} PositionSplit(fields: seq<Field>, k: nat)
    requires k < AttrCount(fields)
    ensures exists i: nat, j: nat :: IsPosition(fields, k, i, j)
  {
    var n := |fields[0].attrs|;
    if k < n {
      assert fields[..0] == [];
      assert IsPosition(fields, k, 0, k);
    } else {
      var rest := fields[1..];
      PositionSplit(rest, k - n);
      var i: nat, j: nat :| IsPosition(rest, k - n, i, j);
      assert fields[..i + 1][1..] == rest[..i];
      assert IsPosition(fields, k, i + 1, j);
    }
  }

  /** Every generated impl comes from one attribute of one field. */
  lemma ImplOrigin(input: Struct, fields: seq<Field>, k: nat)
    requires k < |ImplsOf(input, fields)|
    ensures exists i: nat, j: nat :: ImplFrom(input, fields, k, i, j)
  {
    PositionSplit(fields, k);
    var i: nat, j: nat :| IsPosition(fields, k, i, j);
    ImplAt(input, fields, i, j);
    assert ImplFrom(input, fields, k, i, j);
  }

  /** The struct-level attributes have no effect on the generated impls. */
  lemma {:induction false} StructAttrsIgnored(input: Struct, attrs: seq<Attribute>, fields: seq<Field>)
    ensures ImplsOf(input, fields) == ImplsOf(input.(attrs := attrs), fields)
  {
    if fields != [] {
      StructAttrsIgnored(input, attrs, fields[1..]);
    }
  }

  /** Fields without attributes contribute nothing. */
  lemma {:induction false} NoAttrsNoImpls(input: Struct, fields: seq<Field>)
    requires forall i :: 0 <= i < |fields| ==> fields[i].attrs == []
    ensures AttrCount(fields) == 0
    ensures ImplsOf(input, fields) == []
  {
    if fields != [] {
      NoAttrsNoImpls(input, fields[1..]);
    }
  }

  /** A struct whose fields all have names and no attributes, and which has
      no attributes itself, expands to no impls and no error. */
  lemma UnannotatedStructExpandsToNothing(origin: DeriveInput)
    requires origin.data.StructData? && origin.data.fields.Named?
    requires forall i :: 0 <= i < |origin.data.fields.named| ==>
               origin.data.fields.named[i] == SynField(origin.data.fields.named[i].ident, [])
               && origin.data.fields.named[i].ident.Some?
    requires origin.attrs == []
    ensures DeriveAsRef(origin) == Expansion([])
  {
    var fs := origin.data.fields.named;
    forall i | 0 <= i < |fs| ensures FieldFromSyn(fs[i]).Success? {
      assert fs[i].attrs == [];
    }
    var s := StructFromSyn(origin).value;
    forall i | 0 <= i < |s.fields| ensures s.fields[i].attrs == [] {
      assert FieldFromSyn(fs[i]) == Success(s.fields[i]);
    }
    NoAttrsNoImpls(s, s.fields);
  }

  /** The field `inner` of `UserWithName` carries `#[as_ref(target = "User")]`
      and the field `_name` carries nothing. */
  function UserWithName(): DeriveInput {
    DeriveInput("UserWithName", [], StructData(Named([
      SynField(Some("inner"), [AsRefAttr(KEY, Str("User"))]),
      SynField(Some("_name"), [])])))
  }

  /** Its structure model: both fields kept, `inner` with target `User`. */
  lemma {:induction false} UserWithNameModel()
    ensures StructFromSyn(UserWithName()) == Success(Struct("UserWithName", [],
              [Field("inner", [Target(TargetAttribute("User"))]), Field("_name", [])]))
  {
    var fs := UserWithName().data.fields.named;
    assert ValidIdent("User");
    assert AttributeFromSyn(fs[0].attrs[0]) == Success(Target(TargetAttribute("User")));
    assert FieldFromSyn(fs[0]).Success?;
    var inner := FieldFromSyn(fs[0]).value;
    assert inner.attrs == [inner.attrs[0]];
    assert FieldFromSyn(fs[1]) == Success(Field("_name", []));
    var model := StructFromSyn(UserWithName()).value;
    assert model.fields == [model.fields[0], model.fields[1]];
  }

  /** It expands to exactly `impl AsRef<User> for UserWithName`, borrowing `inner`. */
  lemma UserWithNameExpansion()
    ensures DeriveAsRef(UserWithName()) == Expansion([Impl("User", "UserWithName", "User", "inner")])
  {
    UserWithNameModel();
    UserWithNameImpls(StructFromSyn(UserWithName()).value);
  }

  /** The impls synthesised from the structure model of `UserWithName`. */
  lemma UserWithNameImpls(s: Struct)
    requires s == Struct("UserWithName", [], [Field("inner", [Target(TargetAttribute("User"))]), Field("_name", [])])
    ensures ProduceAllImplAsRef(s) == [Impl("User", "UserWithName", "User", "inner")]
  {
    assert s.fields[1..][1..] == [] && s.fields[..0] == [];
    ImplAt(s, s.fields, 0, 0);
    var out := ProduceAllImplAsRef(s);
    assert out == [out[0]];
  }

  /** A target string that is not an identifier stops the expansion. */
  lemma NonIdentifierTargetFails(field: string)
    ensures DeriveAsRef(DeriveInput("Wrapper", [], StructData(Named([
              SynField(Some(field), [AsRefAttr(KEY, Str("NotAnIdentifier!!"))])]))))
            == CompileError(InvalidIdent)
  {
    var bad := AsRefAttr(KEY, Str("NotAnIdentifier!!"));
    assert !IsIdentContinue("NotAnIdentifier!!"[15]);
    assert AttributeFromSyn(bad) == Failure(InvalidIdent);
    assert FirstFailureAt([bad], AttributeFromSyn, 0);
  }

  /** An attribute of another macro, `#[serde(skip)]`, on a field stops the
      expansion instead of being ignored. */
  lemma ForeignFieldAttributeFails(field: string)
    ensures DeriveAsRef(DeriveInput("Wrapper", [], StructData(Named([
              SynField(Some(field), [Attr(IdentPath("serde"), Parsed(List([M(PathOnly(IdentPath("skip")))])))])]))))
            == CompileError(InvalidFormat)
  {
  }
}
