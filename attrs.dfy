/** The `#[as_ref(key = "value")]` attribute: first checked for shape and
    reduced to a key/value pair (`AbstractAttribute`), then specialised by its
    key into the closed set of known attributes (`Attribute`). */
module Attrs {
  import opened Wrappers
  import opened Syn

  /** The path every accepted attribute carries. */
  const PATH: string := "as_ref"

  /** The only key that is understood. */
  const KEY: string := "target"

  /** `#[as_ref(target = "T")]`: the field can be borrowed as a `&T`. */
  datatype TargetAttribute = TargetAttribute(target: Ident)

  /** The closed set of understood attributes; `Target` is its only variant. */
  datatype Attribute = Target(attr: TargetAttribute)

  /** The key/value pair of a well-shaped attribute, before its key is looked at. */
  datatype AbstractAttribute = AbstractAttribute(key: string, value: Lit)

  /** The attribute written `#[as_ref(key = value)]`, the one shape that the
      shape check lets through. */
  function AsRefAttr(key: string, value: Lit): Attr {
    Attr(IdentPath(PATH), Parsed(List([M(NameValue(IdentPath(key), value))])))
  }

  /** `Attribute::to_target`: every attribute is a target attribute. */
  function ToTarget(a: Attribute): (r: Option<TargetAttribute>)
    ensures r.Some?
    ensures r.value == a.attr
  {
    match a
    case Target(t) => Some(t)
  }

  /** `TargetAttribute::try_from_lit`: the literal must be a string, and the
      string must be an identifier for `syn::Ident::new` not to panic. */
  function TargetFromLit(lit: Lit): (r: Result<TargetAttribute, ErrorKind>)
    ensures r.Success? <==> lit.Str? && ValidIdent(lit.value)
    ensures r.Success? ==> r.value.target == lit.value
    ensures lit.NonStr? ==> r == Failure(NotString)
    ensures lit.Str? && !ValidIdent(lit.value) ==> r == Failure(InvalidIdent)
  {
    match lit
    case NonStr => Failure(NotString)
    case Str(s) => if ValidIdent(s) then Success(TargetAttribute(s)) else Failure(InvalidIdent)
  }

  /** `AbstractAttribute::try_from`: the shape check. The path must be the
      identifier `as_ref`; the tokens must parse as a list holding exactly one
      item; that item must be `key = literal` with `key` a single identifier. */
  function AbstractFromSyn(origin: Attr): (r: Result<AbstractAttribute, ErrorKind>)
    // accepted exactly when the attribute is written `#[as_ref(key = value)]`
    ensures r.Success? ==> origin == AsRefAttr(r.value.key, r.value.value)
    ensures forall k, v :: origin == AsRefAttr(k, v) ==> r == Success(AbstractAttribute(k, v))
    // another path is rejected whatever follows it
    ensures !IsIdent(origin.path, PATH) ==> r == Failure(InvalidFormat)
    // otherwise the only failure that is not `InvalidFormat` is a parse error
    ensures r.Failure? ==>
              r.error == (if IsIdent(origin.path, PATH) && origin.tokens.Unparseable?
                          then MetaParseError else InvalidFormat)
  {
    if !IsIdent(origin.path, PATH) then
      Failure(InvalidFormat)
    else if origin.tokens.Unparseable? then
      Failure(MetaParseError)
    else
      match origin.tokens.meta {
        case List(nested) =>
          if |nested| != 1 then
            Failure(InvalidFormat)
          else
            match nested[0] {
              case M(NameValue(path, lit)) =>
                match GetIdent(path) {
                  case Some(key) =>
                    assert nested == [nested[0]];
                    Success(AbstractAttribute(key, lit))
                  case None => Failure(InvalidFormat)
                }
              case _ => Failure(InvalidFormat)
            }
        case _ => Failure(InvalidFormat)
      }
  }

  /** `Attribute::try_from(AbstractAttribute)`: specialisation by key. */
  function AttributeFromAbstract(item: AbstractAttribute): (r: Result<Attribute, ErrorKind>)
    ensures r.Success? <==> item.key == KEY && item.value.Str? && ValidIdent(item.value.value)
    ensures r.Success? ==> r.value.attr.target == item.value.value
    ensures item.key != KEY ==> r == Failure(UnsupportedAttribute)
    ensures item.key == KEY && item.value.NonStr? ==> r == Failure(NotString)
    ensures item.key == KEY && item.value.Str? && !ValidIdent(item.value.value) ==> r == Failure(InvalidIdent)
  {
    if item.key == KEY then
      var t :- TargetFromLit(item.value);
      Success(Target(t))
    else
      Failure(UnsupportedAttribute)
  }

  /** `Attribute::try_from(syn::Attribute)`: the shape check, then the key. */
  function AttributeFromSyn(origin: Attr): (r: Result<Attribute, ErrorKind>)
    // accepted exactly when written `#[as_ref(target = "T")]` with `T` an identifier
    ensures r.Success? ==> origin == AsRefAttr(KEY, Str(r.value.attr.target))
    ensures forall t: Ident :: origin == AsRefAttr(KEY, Str(t)) ==> r == Success(Target(TargetAttribute(t)))
    // shape errors come first: the key is only looked at on a well-shaped attribute
    ensures AbstractFromSyn(origin).Failure? ==> r == Failure(AbstractFromSyn(origin).error)
    ensures r.Failure? && r.error in {UnsupportedAttribute, NotString, InvalidIdent} ==>
              exists k, v :: origin == AsRefAttr(k, v)
    ensures forall k, v :: origin == AsRefAttr(k, v) && k != KEY ==> r == Failure(UnsupportedAttribute)
    ensures forall v :: origin == AsRefAttr(KEY, v) && v.NonStr? ==> r == Failure(NotString)
    ensures forall s :: origin == AsRefAttr(KEY, Str(s)) && !ValidIdent(s) ==> r == Failure(InvalidIdent)
  {
    var item :- AbstractFromSyn(origin);
    AttributeFromAbstract(item)
  }
}
