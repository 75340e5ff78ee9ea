/** The template syntax tree of packages/avosetta-macros/src/ast.rs.
    Punctuation the parser only checks (`@`, `=`, `=>`, braces, brackets) is not kept,
    host-language expressions and patterns are opaque leaves. */
module Ast {
  import opened Wrappers

  /** A host-language expression. The generator only looks inside string and bool literals. */
  datatype Expr = StrLit(text: string) | BoolLit(flag: bool) | Code(source: string)

  /** A host-language pattern, carried verbatim. */
  datatype Pat = Pat(source: string)

  /** Ordered template content; may be empty. */
  datatype Group = Group(nodes: seq<Node>)

  /** Exactly one of an element, an `@` interpolation or a literal string. */
  datatype Node =
    | Elem(element: Element)
    | Interp(value: InterpValue)
    | Literal(text: string)

  /** A Normal element has an optional child group; a Void element has no child slot at all. */
  datatype Element =
    | Normal(name: Name, attrs: Option<Attrs>, inner: Option<Group>)
    | Void(name: Name, attrs: Option<Attrs>)

  /** A tag or attribute name: a string literal or an identifier. */
  datatype Name = LitName(text: string) | IdentName(ident: Identifier)

  /** The words syn's `Ident` parser and `Ident` peek refuse: Rust's strict and reserved
      keywords and `_`. A raw identifier such as `r#type` is not among them. */
  predicate Keyword(s: string)
  {
    s in {"_", "abstract", "as", "async", "await", "become", "box", "break", "const", "continue",
          "crate", "do", "dyn", "else", "enum", "extern", "false", "final", "fn", "for", "if",
          "impl", "in", "let", "loop", "macro", "match", "mod", "move", "mut", "override", "priv",
          "pub", "ref", "return", "Self", "self", "static", "struct", "super", "trait", "true",
          "try", "type", "typeof", "unsafe", "unsized", "use", "virtual", "where", "while", "yield"}
  }

  /** An identifier as syn's `Ident` parser accepts it: never a keyword. */
  type Identifier = s: string | !Keyword(s) witness "a"

  /** The bracketed attribute list: ordered, duplicate names allowed. */
  datatype Attrs = Attrs(items: seq<Attr>)

  /** An attribute; an absent value is the boolean-true shorthand. */
  datatype Attr = Attr(name: Name, value: Option<Expr>)

  datatype InterpValue =
    | Match(matchValue: InterpMatch)
    | If(ifValue: InterpIf)
    | ExprValue(expr: Expr)
    | For(forValue: InterpFor)

  /** `for pat in iter { body }`. */
  datatype InterpFor = InterpFor(pat: Pat, iter: Expr, body: Group)

  /** `match scrutinee { arms }`; exhaustiveness is left to the host compiler. */
  datatype InterpMatch = InterpMatch(scrutinee: Expr, arms: seq<InterpArm>)

  /** `if cond { then } else if .. { .. } .. else { .. }`: one then-group, ordered else-ifs,
      at most one else. */
  datatype InterpIf = InterpIf(cond: Expr, thenBranch: Group, elseIfs: seq<ElseIf>, elseBranch: Option<Group>)

  datatype ElseIf = ElseIf(cond: Expr, group: Group)

  /** A match arm; `comma` records whether the optional trailing comma was written. */
  datatype InterpArm = InterpArm(pat: Pat, body: ArmBody, comma: bool)

  /** A match-arm body: a braced group or a single literal string. */
  datatype ArmBody = ArmGroup(group: Group) | ArmLiteral(text: string)

  /** The text a name stands for once generated. */
  function NameText(n: Name): string
  {
    match n
    case LitName(s) => s
    case IdentName(x) => x
  }

  // Well-formedness: the one invariant the parser guarantees and the types do not,
  // a Normal element's child group, when present, is non-empty.

  predicate WfGroup(g: Group)
  {
    WfNodes(g.nodes)
  }

  predicate WfNodes(ns: seq<Node>)
  {
    forall i :: 0 <= i < |ns| ==> WfNode(ns[i])
  }

  predicate WfNode(n: Node)
  {
    match n
    case Elem(e) => WfElement(e)
    case Interp(v) => WfInterp(v)
    case Literal(_) => true
  }

  predicate WfElement(e: Element)
  {
    match e
    case Normal(_, _, inner) => inner.Some? ==> inner.value.nodes != [] && WfGroup(inner.value)
    case Void(_, _) => true
  }

  predicate WfInterp(v: InterpValue)
  {
    match v
    case Match(m) => WfMatch(m)
    case If(i) => WfIf(i)
    case ExprValue(_) => true
    case For(f) => WfFor(f)
  }

  predicate WfMatch(m: InterpMatch)
  {
    WfArms(m.arms)
  }

  predicate WfFor(f: InterpFor)
  {
    WfGroup(f.body)
  }

  predicate WfIf(i: InterpIf)
  {
    WfGroup(i.thenBranch) && WfElseIfs(i.elseIfs) && WfElse(i.elseBranch)
  }

  predicate WfElse(el: Option<Group>)
  {
    el.Some? ==> WfGroup(el.value)
  }

  predicate WfElseIfs(eis: seq<ElseIf>)
  {
    forall i :: 0 <= i < |eis| ==> WfElseIf(eis[i])
  }

  predicate WfElseIf(ei: ElseIf)
  {
    WfGroup(ei.group)
  }

  predicate WfArms(arms: seq<InterpArm>)
  {
    forall i :: 0 <= i < |arms| ==> WfArm(arms[i])
  }

  predicate WfArm(a: InterpArm)
  {
    a.body.ArmGroup? ==> WfGroup(a.body.group)
  }
}
