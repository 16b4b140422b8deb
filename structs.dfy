/** The structure model: the derive input reduced to its name, its parsed
    struct-level attributes and its named fields with their parsed
    attributes. Every conversion stops at the first error. */
module Structs {
  import opened Wrappers
  import opened Syn
  import opened Attrs

  datatype Field = Field(ident: string, attrs: seq<Attribute>)

  datatype Struct = Struct(ident: string, attrs: seq<Attribute>, fields: seq<Field>)

  /** `Field::try_from`: the attributes are parsed first, in order, and only
      then is the field required to have a name. */
  function FieldFromSyn(origin: SynField): (r: Result<Field, ErrorKind>)
    ensures r.Success? <==>
              && (forall i :: 0 <= i < |origin.attrs| ==> AttributeFromSyn(origin.attrs[i]).Success?)
              && origin.ident.Some?
    ensures r.Success? ==>
              && r.value.ident == origin.ident.value
              && |r.value.attrs| == |origin.attrs|
              && forall i :: 0 <= i < |origin.attrs| ==>
                   AttributeFromSyn(origin.attrs[i]) == Success(r.value.attrs[i])
    // a bad attribute is reported before a missing name
    ensures forall k :: FirstFailureAt(origin.attrs, AttributeFromSyn, k) ==>
              r == Failure(AttributeFromSyn(origin.attrs[k]).error)
    ensures && (forall i :: 0 <= i < |origin.attrs| ==> AttributeFromSyn(origin.attrs[i]).Success?)
            && origin.ident.None?
            ==> r == Failure(UnnamedField)
  {
    var attrs :- CollectResults(origin.attrs, AttributeFromSyn);
    if origin.ident.None? then
      Failure(UnnamedField)
    else
      Success(Field(origin.ident.value, attrs))
  }

  /** The fields of a struct that has a field list (braced or parenthesised). */
  function DeclaredFields(fields: Fields): (r: seq<SynField>)
    requires !fields.Unit?
    ensures fields == Named(r) || fields == Unnamed(r)
  {
    if fields.Named? then fields.named else fields.unnamed
  }

  /** The input is a struct with a field list, possibly an empty one. */
  predicate HasFieldList(origin: DeriveInput) {
    origin.data.StructData? && !origin.data.fields.Unit?
  }

  /** `Struct::try_from`: enums and unions are refused, then unit structs;
      then every field is converted in order, and only after all of them the
      struct-level attributes. */
  function StructFromSyn(origin: DeriveInput): (r: Result<Struct, ErrorKind>)
    ensures !origin.data.StructData? ==> r == Failure(NotAStruct)
    ensures origin.data.StructData? && origin.data.fields.Unit? ==> r == Failure(NoField)
    ensures r.Success? <==>
              && HasFieldList(origin)
              && (forall i :: 0 <= i < |DeclaredFields(origin.data.fields)| ==>
                    FieldFromSyn(DeclaredFields(origin.data.fields)[i]).Success?)
              && (forall i :: 0 <= i < |origin.attrs| ==> AttributeFromSyn(origin.attrs[i]).Success?)
    ensures r.Success? ==>
              && r.value.ident == origin.ident
              && |r.value.fields| == |DeclaredFields(origin.data.fields)|
              && (forall i :: 0 <= i < |r.value.fields| ==>
                    FieldFromSyn(DeclaredFields(origin.data.fields)[i]) == Success(r.value.fields[i]))
              && |r.value.attrs| == |origin.attrs|
              && (forall i :: 0 <= i < |origin.attrs| ==>
                    AttributeFromSyn(origin.attrs[i]) == Success(r.value.attrs[i]))
    // the first failing field decides the error, whatever the struct attributes are
    ensures HasFieldList(origin) ==>
              forall k :: FirstFailureAt(DeclaredFields(origin.data.fields), FieldFromSyn, k) ==>
                r == Failure(FieldFromSyn(DeclaredFields(origin.data.fields)[k]).error)
    // struct attributes are looked at only once every field is accepted
    ensures HasFieldList(origin)
            && (forall i :: 0 <= i < |DeclaredFields(origin.data.fields)| ==>
                  FieldFromSyn(DeclaredFields(origin.data.fields)[i]).Success?) ==>
              forall k :: FirstFailureAt(origin.attrs, AttributeFromSyn, k) ==>
                r == Failure(AttributeFromSyn(origin.attrs[k]).error)
  {
    match origin.data
    case EnumData => Failure(NotAStruct)
    case UnionData => Failure(NotAStruct)
    case StructData(fields) =>
      if fields.Unit? then
        Failure(NoField)
      else
        var fields :- CollectResults(DeclaredFields(fields), FieldFromSyn);
        var attrs :- CollectResults(origin.attrs, AttributeFromSyn);
        Success(Struct(origin.ident, attrs, fields))
  }

  /** A struct whose every field lacks a name (a tuple struct) and that has at
      least one field is refused with the error of its first field: the first
      bad attribute on it, or else the missing name. */
  lemma {:induction false} TupleStructRejected(origin: DeriveInput)
    requires origin.data.StructData? && origin.data.fields.Unnamed?
    requires |origin.data.fields.unnamed| > 0
    requires forall i :: 0 <= i < |origin.data.fields.unnamed| ==> origin.data.fields.unnamed[i].ident.None?
    ensures StructFromSyn(origin) == Failure(FieldFromSyn(origin.data.fields.unnamed[0]).error)
    ensures StructFromSyn(origin).error in {UnnamedField, InvalidFormat, MetaParseError,
                                            UnsupportedAttribute, NotString, InvalidIdent}
  {
    var fs := origin.data.fields.unnamed;
    assert FirstFailureAt(fs, FieldFromSyn, 0);
    var first := fs[0];
    if forall i :: 0 <= i < |first.attrs| ==> AttributeFromSyn(first.attrs[i]).Success? {
      assert FieldFromSyn(first) == Failure(UnnamedField);
    } else {
      var e := FieldFromSyn(first).error;
      assert exists k :: FirstFailureAt(first.attrs, AttributeFromSyn, k)
                         && AttributeFromSyn(first.attrs[k]).error == e;
    }
  }

  /** An attribute anywhere, on the struct or on one of its fields, that is
      rejected makes the whole conversion fail. */
  lemma RejectedAttributeFailsStruct(origin: DeriveInput, a: Attr)
    requires AttributeFromSyn(a).Failure?
    requires a in origin.attrs || (HasFieldList(origin) &&
               exists f :: f in DeclaredFields(origin.data.fields) && a in f.attrs)
    ensures StructFromSyn(origin).Failure?
  {
    if a !in origin.attrs {
      var f :| f in DeclaredFields(origin.data.fields) && a in f.attrs;
      var i :| 0 <= i < |DeclaredFields(origin.data.fields)| && DeclaredFields(origin.data.fields)[i] == f;
      var j :| 0 <= j < |f.attrs| && f.attrs[j] == a;
      assert FieldFromSyn(DeclaredFields(origin.data.fields)[i]).Failure?;
    }
  }

  /** In particular an attribute whose path is not `as_ref`, such as a doc
      comment or another macro's attribute, is not ignored: it makes the whole
      conversion fail. */
  lemma ForeignAttributeRejected(origin: DeriveInput, a: Attr)
    requires !IsIdent(a.path, PATH)
    requires a in origin.attrs || (HasFieldList(origin) &&
               exists f :: f in DeclaredFields(origin.data.fields) && a in f.attrs)
    ensures StructFromSyn(origin).Failure?
  {
    RejectedAttributeFailsStruct(origin, a);
  }

  /** A struct with an empty field list, `struct S {}` or `struct S();`, and no
      attributes is accepted with no fields. */
  lemma EmptyFieldListAccepted(origin: DeriveInput)
    requires origin.data == StructData(Named([])) || origin.data == StructData(Unnamed([]))
    requires origin.attrs == []
    ensures StructFromSyn(origin) == Success(Struct(origin.ident, [], []))
  {
  }
}
