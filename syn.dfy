/** The part of `syn`'s syntax tree that the derive macro inspects: attribute
    paths and their parsed meta items, literals, fields and the derive input,
    together with the kinds of error the macro can report. Token streams and
    spans are not modelled. */
module Syn {
  import opened Wrappers

  /** One segment of a path; `hasArguments` is true for a segment written
      with generic arguments, such as `Vec<T>`. */
  datatype PathSegment = PathSegment(ident: string, hasArguments: bool)

  /** A path such as `as_ref`, `::as_ref` or `a::b`. */
  datatype Path = Path(leadingColon: bool, segments: seq<PathSegment>)

  /** The path written as the single plain identifier `s`. */
  function IdentPath(s: string): Path {
    Path(false, [PathSegment(s, false)])
  }

  /** `Path::get_ident`: the identifier of a path that is one plain identifier. */
  function GetIdent(p: Path): (r: Option<string>)
    ensures r.Some? ==> p == IdentPath(r.value)
    ensures forall s :: p == IdentPath(s) ==> r == Some(s)
  {
    if !p.leadingColon && |p.segments| == 1 && !p.segments[0].hasArguments then
      Some(p.segments[0].ident)
    else
      None
  }

  /** `Path::is_ident`. */
  predicate IsIdent(p: Path, s: string): (b: bool)
    ensures b <==> p == IdentPath(s)
  {
    GetIdent(p) == Some(s)
  }

  /** A literal: a string literal with its unescaped value, or any other kind
      (integer, byte string, character, boolean, ...). */
  datatype Lit = Str(value: string) | NonStr

  /** A parsed meta item: `path`, `path = lit` or `path(nested, ...)`. The
      path of a list is not consulted by the macro and is left out. */
  datatype Meta =
    | PathOnly(path: Path)
    | NameValue(path: Path, lit: Lit)
    | List(nested: seq<NestedMeta>)

  datatype NestedMeta = M(meta: Meta) | L(lit: Lit)

  /** The outcome of `Attribute::parse_meta` on an attribute's tokens. */
  datatype MetaParse = Parsed(meta: Meta) | Unparseable

  /** An attribute `#[path tokens]`. */
  datatype Attr = Attr(path: Path, tokens: MetaParse)

  /** A field as declared: its name (absent in a tuple struct) and attributes. */
  datatype SynField = SynField(ident: Option<string>, attrs: seq<Attr>)

  datatype Fields =
    | Named(named: seq<SynField>)
    | Unnamed(unnamed: seq<SynField>)
    | Unit

  datatype Data = StructData(fields: Fields) | EnumData | UnionData

  /** The item the derive is applied to. */
  datatype DeriveInput = DeriveInput(ident: string, attrs: seq<Attr>, data: Data)

  /** The errors the macro reports, by kind; messages and spans are left out.
      `InvalidIdent` stands for the panic of `syn::Ident::new` on a string that
      is not an identifier, which aborts the expansion at the same point. */
  datatype ErrorKind =
    | InvalidFormat
    | MetaParseError
    | UnsupportedAttribute
    | NotString
    | InvalidIdent
    | NotAStruct
    | NoField
    | UnnamedField

  predicate IsIdentStart(c: char) {
    'a' <= c <= 'z' || 'A' <= c <= 'Z' || c == '_'
  }

  predicate IsIdentContinue(c: char) {
    IsIdentStart(c) || '0' <= c <= '9'
  }

  /** The strings `syn::Ident::new` accepts (ASCII identifiers). */
  predicate ValidIdent(s: string) {
    && |s| > 0
    && IsIdentStart(s[0])
    && forall i :: 1 <= i < |s| ==> IsIdentContinue(s[i])
  }

  type Ident = s: string | ValidIdent(s) witness "T"
}
