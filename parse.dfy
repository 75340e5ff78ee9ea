/** The recursive-descent parser of packages/avosetta-macros/src/parse.rs, over a sequence of
    token trees. A bracket or brace group is one token, as syn's `peek2`/`peek3` see it. Each parse
    function returns the value and the tokens it left, or the single error outcome. */
module Parse {
  import opened Wrappers
  import opened Ast

  /** A token tree. `Ident` is any identifier token, keywords included; the keywords the
      grammar itself looks for (`if`, `else`, `match`, `for`, `in`, `true`, `false`) have tokens
      of their own, so `Ident("if")` or `Ident("true")` is a token no lexer produces. The parser
      would refuse it anyway: a keyword `Ident` is not a name, and expressions take only `Kw`
      forms. `HostExpr` and `HostPat` stand for the
      whole run of tokens syn's expression and pattern parsers would take, so an identifier in
      expression or pattern position is written `HostExpr`/`HostPat` (`@x` is
      `[At, HostExpr("x")]`); a string literal or `true`/`false` in expression position is the
      literal expression. */
  datatype Tok =
    | LitStr(text: string)
    | Ident(name: string)
    | Brace(inner: seq<Tok>)
    | Bracket(inner: seq<Tok>)
    | Semi | At | Eq | Comma | FatArrow
    | KwIf | KwElse | KwMatch | KwFor | KwIn | KwTrue | KwFalse
    | HostExpr(code: string)
    | HostPat(source: string)

  datatype Parsed<+T> = Parsed(value: T, rest: seq<Tok>)

  /** Token count with nested groups counted in full; every parse step lowers it. */
  function TokSize(t: Tok): nat
  {
    match t
    case Brace(inner) => 1 + SeqSize(inner)
    case Bracket(inner) => 1 + SeqSize(inner)
    case _ => 1
  }

  function SeqSize(ts: seq<Tok>): nat
  {
    if ts == [] then 0 else TokSize(ts[0]) + SeqSize(ts[1..])
  }

  // Lookahead: `peek`, `peek2` and `peek3` look at positions 0, 1 and 2.

  predicate BraceAt(ts: seq<Tok>, k: nat) { k < |ts| && ts[k].Brace? }
  predicate BracketAt(ts: seq<Tok>, k: nat) { k < |ts| && ts[k].Bracket? }
  predicate TokAt(ts: seq<Tok>, k: nat, t: Tok) { k < |ts| && ts[k] == t }
  /** syn's `LitStr` or `Ident` peek; the latter refuses keywords. */
  predicate NameAt(ts: seq<Tok>, k: nat)
  {
    k < |ts| && (ts[k].LitStr? || (ts[k].Ident? && !Keyword(ts[k].name)))
  }

  /** After a name: `{`, `;`, or a bracket group followed by `{` or `;`. */
  predicate ElementAhead(ts: seq<Tok>)
  {
    || BraceAt(ts, 1)
    || (BracketAt(ts, 1) && BraceAt(ts, 2))
    || TokAt(ts, 1, Semi)
    || (BracketAt(ts, 1) && TokAt(ts, 2, Semi))
  }

  /** After a name: `;`, or a bracket group followed by `;`. */
  predicate VoidAhead(ts: seq<Tok>)
  {
    TokAt(ts, 1, Semi) || (BracketAt(ts, 1) && TokAt(ts, 2, Semi))
  }

  /** Consumes one expected token. */
  function Expect(ts: seq<Tok>, t: Tok): (r: Result<seq<Tok>>)
    ensures r.Ok? <==> TokAt(ts, 0, t)
    ensures r.Ok? ==> r.value == ts[1..] && SeqSize(r.value) < SeqSize(ts)
  {
    if TokAt(ts, 0, t) then Ok(ts[1..]) else Err
  }

  /** `Name::parse`: a string literal or a non-keyword identifier, anything else is an error. */
  function ParseName(ts: seq<Tok>): (r: Result<Parsed<Name>>)
    ensures r.Ok? <==> NameAt(ts, 0)
    ensures r.Ok? ==> r.value.rest == ts[1..] && SeqSize(r.value.rest) < SeqSize(ts)
    ensures r.Ok? ==> NameText(r.value.value) == (if ts[0].LitStr? then ts[0].text else ts[0].name)
  {
    if ts != [] && ts[0].LitStr? then Ok(Parsed(LitName(ts[0].text), ts[1..]))
    else if ts != [] && ts[0].Ident? && !Keyword(ts[0].name) then Ok(Parsed(IdentName(ts[0].name), ts[1..]))
    else Err
  }

  /** A `LitStr`: the only token a literal text node may be. */
  function ParseLitStr(ts: seq<Tok>): (r: Result<Parsed<string>>)
    ensures r.Ok? <==> ts != [] && ts[0].LitStr?
    ensures r.Ok? ==> r.value == Parsed(ts[0].text, ts[1..]) && SeqSize(r.value.rest) < SeqSize(ts)
  {
    if ts != [] && ts[0].LitStr? then Ok(Parsed(ts[0].text, ts[1..])) else Err
  }

  /** A host expression (one opaque token, a string literal, or `true`/`false`). */
  function ParseExpr(ts: seq<Tok>): (r: Result<Parsed<Expr>>)
    ensures r.Ok? <==> ts != [] && (ts[0].LitStr? || ts[0] == KwTrue || ts[0] == KwFalse || ts[0].HostExpr?)
    ensures r.Ok? ==> r.value.rest == ts[1..] && SeqSize(r.value.rest) < SeqSize(ts)
  {
    if ts == [] then Err
    else match ts[0]
      case LitStr(s) => Ok(Parsed(StrLit(s), ts[1..]))
      case KwTrue => Ok(Parsed(BoolLit(true), ts[1..]))
      case KwFalse => Ok(Parsed(BoolLit(false), ts[1..]))
      case HostExpr(c) => Ok(Parsed(Code(c), ts[1..]))
      case _ => Err
  }

  /** A host pattern (one opaque token). */
  function ParsePat(ts: seq<Tok>): (r: Result<Parsed<Pat>>)
    ensures r.Ok? <==> ts != [] && ts[0].HostPat?
    ensures r.Ok? ==> r.value.rest == ts[1..] && SeqSize(r.value.rest) < SeqSize(ts)
  {
    if ts != [] && ts[0].HostPat? then Ok(Parsed(Pat(ts[0].source), ts[1..])) else Err
  }

  /** `Attr::parse`: a name, then a value exactly when `=` follows it. */
  function ParseAttr(ts: seq<Tok>): (r: Result<Parsed<Attr>>)
    ensures r.Ok? ==> SeqSize(r.value.rest) < SeqSize(ts)
    ensures r.Ok? ==> (r.value.value.value.Some? <==> TokAt(ts, 1, Eq))
  {
    var name :- ParseName(ts);
    if TokAt(name.rest, 0, Eq) then
      var e :- ParseExpr(name.rest[1..]);
      Ok(Parsed(Attr(name.value, Some(e.value)), e.rest))
    else
      Ok(Parsed(Attr(name.value, None), name.rest))
  }

  /** syn's `parse_terminated` over `Attr` and `,`: attributes separated by commas, with an
      optional trailing comma, until the bracket's tokens run out. */
  function ParseAttrList(ts: seq<Tok>): (r: Result<seq<Attr>>)
    ensures TokAt(ts, 0, Comma) ==> r.Err?
    ensures r.Ok? ==> (r.value == [] <==> ts == [])
    decreases SeqSize(ts)
  {
    if ts == [] then Ok([])
    else
      var a :- ParseAttr(ts);
      if a.rest == [] then Ok([a.value])
      else if a.rest[0] != Comma then Err
      else
        var more :- ParseAttrList(a.rest[1..]);
        Ok([a.value] + more)
  }

  /** `Attrs::parse`: a bracket group holding the attribute list. */
  function ParseAttrs(ts: seq<Tok>): (r: Result<Parsed<Attrs>>)
    ensures r.Ok? ==> BracketAt(ts, 0) && r.value.rest == ts[1..] && SeqSize(r.value.rest) < SeqSize(ts)
  {
    if BracketAt(ts, 0) then
      var items :- ParseAttrList(ts[0].inner);
      Ok(Parsed(Attrs(items), ts[1..]))
    else Err
  }

  /** The optional attribute list of an element: present exactly when a bracket group comes next. */
  function ParseAttrsOpt(ts: seq<Tok>): (r: Result<Parsed<Option<Attrs>>>)
    ensures r.Ok? ==> SeqSize(r.value.rest) <= SeqSize(ts)
    ensures r.Ok? ==> (r.value.value.Some? <==> BracketAt(ts, 0))
    ensures r.Ok? ==> r.value.rest == if BracketAt(ts, 0) then ts[1..] else ts
  {
    if BracketAt(ts, 0) then
      var a :- ParseAttrs(ts);
      Ok(Parsed(Some(a.value), a.rest))
    else
      Ok(Parsed(None, ts))
  }

  lemma SizeFirst(ts: seq<Tok>)
    requires ts != []
    ensures TokSize(ts[0]) <= SeqSize(ts)
  {
  }

  /** `Group::parse`: nodes until the tokens run out; the first node error aborts the group. */
  function ParseNodes(ts: seq<Tok>): (r: Result<seq<Node>>)
    ensures r.Ok? ==> WfNodes(r.value)
    decreases SeqSize(ts), 3
  {
    if ts == [] then Ok([])
    else
      var n :- ParseNode(ts);
      var ns :- ParseNodes(n.rest);
      Ok([n.value] + ns)
  }

  /** A brace group parsed as a `Group` (`braced!` followed by `Group::parse`). */
  function ParseBraced(ts: seq<Tok>): (r: Result<Parsed<Group>>)
    ensures r.Ok? ==> BraceAt(ts, 0) && r.value.rest == ts[1..] && SeqSize(r.value.rest) < SeqSize(ts)
    ensures r.Ok? ==> WfGroup(r.value.value)
    decreases SeqSize(ts), 0
  {
    if BraceAt(ts, 0) then
      SizeFirst(ts);
      var ns :- ParseNodes(ts[0].inner);
      Ok(Parsed(Group(ns), ts[1..]))
    else Err
  }

  /** `Node::parse`: a name starts an element when `ElementAhead` holds and must otherwise be a
      literal string; `@` starts an interpolation; any other token is an error. */
  function ParseNode(ts: seq<Tok>): (r: Result<Parsed<Node>>)
    ensures r.Ok? ==> SeqSize(r.value.rest) < SeqSize(ts) && WfNode(r.value.value)
    ensures r.Ok? ==> (r.value.value.Elem? <==> NameAt(ts, 0) && ElementAhead(ts))
    ensures r.Ok? ==> (r.value.value.Literal? <==> ts[0].LitStr? && !ElementAhead(ts))
    ensures r.Ok? ==> (r.value.value.Interp? <==> ts[0] == At)
    ensures NameAt(ts, 0) && !ElementAhead(ts) ==> (r.Ok? <==> ts[0].LitStr?)
    ensures !NameAt(ts, 0) && !TokAt(ts, 0, At) ==> r.Err?
    decreases SeqSize(ts), 2
  {
    if NameAt(ts, 0) then
      if ElementAhead(ts) then
        var e :- ParseElement(ts);
        Ok(Parsed(Elem(e.value), e.rest))
      else
        var s :- ParseLitStr(ts);
        Ok(Parsed(Literal(s.value), s.rest))
    else if TokAt(ts, 0, At) then
      var v :- ParseInterpValue(ts[1..]);
      Ok(Parsed(Interp(v.value), v.rest))
    else Err
  }

  /** `Element::parse`: Void exactly when `VoidAhead`, otherwise Normal. */
  function ParseElement(ts: seq<Tok>): (r: Result<Parsed<Element>>)
    ensures r.Ok? ==> SeqSize(r.value.rest) < SeqSize(ts) && WfElement(r.value.value)
    ensures r.Ok? ==> (r.value.value.Void? <==> VoidAhead(ts))
    decreases SeqSize(ts), 1
  {
    if VoidAhead(ts) then
      var name :- ParseName(ts);
      var attrs :- ParseAttrsOpt(name.rest);
      var rest :- Expect(attrs.rest, Semi);
      Ok(Parsed(Void(name.value, attrs.value), rest))
    else
      ParseNormal(ts)
  }

  /** `Normal::parse`: name, optional attributes, then a brace group; an empty group gives no
      children and a non-empty one is parsed as a `Group`. */
  function ParseNormal(ts: seq<Tok>): (r: Result<Parsed<Element>>)
    ensures r.Ok? ==> SeqSize(r.value.rest) < SeqSize(ts) && WfElement(r.value.value)
    ensures r.Ok? ==> r.value.value.Normal?
    decreases SeqSize(ts), 0
  {
    var name :- ParseName(ts);
    var attrs :- ParseAttrsOpt(name.rest);
    if !BraceAt(attrs.rest, 0) then Err
    else
      SizeFirst(attrs.rest);
      var inner := attrs.rest[0].inner;
      if inner == [] then
        Ok(Parsed(Normal(name.value, attrs.value, None), attrs.rest[1..]))
      else
        var ns :- ParseNodes(inner);
        Ok(Parsed(Normal(name.value, attrs.value, Some(Group(ns))), attrs.rest[1..]))
  }

  /** A normal element's brace group comes after the name and, when present, the attributes;
      the element has no children exactly when that group is empty. */
  lemma NormalInner(ts: seq<Tok>)
    requires ParseNormal(ts).Ok?
    ensures var b := if BracketAt(ts, 1) then 2 else 1;
      && BraceAt(ts, b) && ParseNormal(ts).value.rest == ts[b + 1..]
      && (ParseNormal(ts).value.value.inner.None? <==> ts[b].inner == [])
  {
    var name := ParseName(ts).value;
    assert BracketAt(name.rest, 0) <==> BracketAt(ts, 1);
    if BracketAt(ts, 1) {
      assert ParseAttrsOpt(name.rest).value.rest == ts[2..];
    }
  }

  /** The first node that fails to parse fails the whole group. */
  lemma NodesAbort(ts: seq<Tok>)
    requires ts != [] && ParseNode(ts).Err?
    ensures ParseNodes(ts).Err? && ParseTemplate(ts).Err?
  {
  }

  /** `InterpValue::parse` (after `@`): `if`, `match` and `for` select that construct and
      anything else is an expression. */
  function ParseInterpValue(ts: seq<Tok>): (r: Result<Parsed<InterpValue>>)
    ensures r.Ok? ==> SeqSize(r.value.rest) < SeqSize(ts) && WfInterp(r.value.value)
    ensures r.Ok? ==> (r.value.value.If? <==> TokAt(ts, 0, KwIf))
    ensures r.Ok? ==> (r.value.value.Match? <==> TokAt(ts, 0, KwMatch))
    ensures r.Ok? ==> (r.value.value.For? <==> TokAt(ts, 0, KwFor))
    decreases SeqSize(ts), 1
  {
    if TokAt(ts, 0, KwIf) then
      var i :- ParseIf(ts);
      Ok(Parsed(If(i.value), i.rest))
    else if TokAt(ts, 0, KwMatch) then
      var m :- ParseMatch(ts);
      Ok(Parsed(Match(m.value), m.rest))
    else if TokAt(ts, 0, KwFor) then
      var f :- ParseFor(ts);
      Ok(Parsed(For(f.value), f.rest))
    else
      var e :- ParseExpr(ts);
      Ok(Parsed(ExprValue(e.value), e.rest))
  }

  /** `InterpIf::parse`: `if`, condition, braced group, then the `else if` clauses, then at most
      one plain `else`. */
  function ParseIf(ts: seq<Tok>): (r: Result<Parsed<InterpIf>>)
    ensures r.Ok? ==> SeqSize(r.value.rest) < SeqSize(ts) && WfInterp(If(r.value.value))
    ensures r.Ok? && r.value.value.elseBranch.None? ==> !TokAt(r.value.rest, 0, KwElse)
    decreases SeqSize(ts), 0
  {
    var afterIf :- Expect(ts, KwIf);
    var cond :- ParseExpr(afterIf);
    var then_ :- ParseBraced(cond.rest);
    var elseIfs :- ParseElseIfs(then_.rest);
    if TokAt(elseIfs.rest, 0, KwElse) then
      var el :- ParseElse(elseIfs.rest);
      Ok(Parsed(InterpIf(cond.value, then_.value, elseIfs.value, Some(el.value)), el.rest))
    else
      Ok(Parsed(InterpIf(cond.value, then_.value, elseIfs.value, None), elseIfs.rest))
  }

  /** The `else if` collector: clauses while `else` is followed by `if`. */
  function ParseElseIfs(ts: seq<Tok>): (r: Result<Parsed<seq<ElseIf>>>)
    ensures r.Ok? ==> SeqSize(r.value.rest) <= SeqSize(ts) && WfElseIfs(r.value.value)
    ensures r.Ok? ==> !(TokAt(r.value.rest, 0, KwElse) && TokAt(r.value.rest, 1, KwIf))
    decreases SeqSize(ts), 1
  {
    if TokAt(ts, 0, KwElse) && TokAt(ts, 1, KwIf) then
      var ei :- ParseElseIf(ts);
      var more :- ParseElseIfs(ei.rest);
      Ok(Parsed([ei.value] + more.value, more.rest))
    else
      Ok(Parsed([], ts))
  }

  /** `InterpElseIf::parse`: `else`, `if`, condition, braced group. */
  function ParseElseIf(ts: seq<Tok>): (r: Result<Parsed<ElseIf>>)
    ensures r.Ok? ==> SeqSize(r.value.rest) < SeqSize(ts) && WfElseIf(r.value.value)
    decreases SeqSize(ts), 0
  {
    var afterElse :- Expect(ts, KwElse);
    var afterIf :- Expect(afterElse, KwIf);
    var cond :- ParseExpr(afterIf);
    var g :- ParseBraced(cond.rest);
    Ok(Parsed(ElseIf(cond.value, g.value), g.rest))
  }

  /** `InterpElse::parse`: `else`, braced group. */
  function ParseElse(ts: seq<Tok>): (r: Result<Parsed<Group>>)
    ensures r.Ok? ==> SeqSize(r.value.rest) < SeqSize(ts) && WfGroup(r.value.value)
    decreases SeqSize(ts), 0
  {
    var afterElse :- Expect(ts, KwElse);
    ParseBraced(afterElse)
  }

  /** `InterpFor::parse`: `for`, pattern, `in`, expression, braced body. */
  function ParseFor(ts: seq<Tok>): (r: Result<Parsed<InterpFor>>)
    ensures r.Ok? ==> SeqSize(r.value.rest) < SeqSize(ts) && WfGroup(r.value.value.body)
    decreases SeqSize(ts), 0
  {
    var afterFor :- Expect(ts, KwFor);
    var pat :- ParsePat(afterFor);
    var afterIn :- Expect(pat.rest, KwIn);
    var e :- ParseExpr(afterIn);
    var body :- ParseBraced(e.rest);
    Ok(Parsed(InterpFor(pat.value, e.value, body.value), body.rest))
  }

  /** `InterpMatch::parse`: `match`, scrutinee, then a brace group of arms until it runs out. */
  function ParseMatch(ts: seq<Tok>): (r: Result<Parsed<InterpMatch>>)
    ensures r.Ok? ==> SeqSize(r.value.rest) < SeqSize(ts) && WfArms(r.value.value.arms)
    decreases SeqSize(ts), 0
  {
    var afterMatch :- Expect(ts, KwMatch);
    var e :- ParseExpr(afterMatch);
    if !BraceAt(e.rest, 0) then Err
    else
      SizeFirst(e.rest);
      var arms :- ParseArms(e.rest[0].inner);
      Ok(Parsed(InterpMatch(e.value, arms), e.rest[1..]))
  }

  /** The arm collector: arms until the match's brace group runs out. */
  function ParseArms(ts: seq<Tok>): (r: Result<seq<InterpArm>>)
    ensures r.Ok? ==> WfArms(r.value)
    decreases SeqSize(ts), 1
  {
    if ts == [] then Ok([])
    else
      var a :- ParseArm(ts);
      var more :- ParseArms(a.rest);
      Ok([a.value] + more)
  }

  /** `InterpArm::parse`: pattern, `=>`, body, optional `,`. */
  function ParseArm(ts: seq<Tok>): (r: Result<Parsed<InterpArm>>)
    ensures r.Ok? ==> SeqSize(r.value.rest) < SeqSize(ts) && WfArm(r.value.value)
    ensures r.Ok? && !r.value.value.comma ==> !TokAt(r.value.rest, 0, Comma)
    decreases SeqSize(ts), 0
  {
    var pat :- ParsePat(ts);
    var afterArrow :- Expect(pat.rest, FatArrow);
    var body :- ParseArmBody(afterArrow);
    if TokAt(body.rest, 0, Comma) then
      Ok(Parsed(InterpArm(pat.value, body.value, true), body.rest[1..]))
    else
      Ok(Parsed(InterpArm(pat.value, body.value, false), body.rest))
  }

  /** `InterpArmExpr::parse`: a brace group or a literal string; anything else is an error. */
  function ParseArmBody(ts: seq<Tok>): (r: Result<Parsed<ArmBody>>)
    ensures r.Ok? ==> SeqSize(r.value.rest) < SeqSize(ts) && (r.value.value.ArmGroup? ==> WfGroup(r.value.value.group))
    ensures r.Ok? <==> (BraceAt(ts, 0) && ParseNodes(ts[0].inner).Ok?) || (ts != [] && ts[0].LitStr?)
    ensures r.Ok? ==> (r.value.value.ArmGroup? <==> BraceAt(ts, 0))
    decreases SeqSize(ts), 1
  {
    if BraceAt(ts, 0) then
      var g :- ParseBraced(ts);
      Ok(Parsed(ArmGroup(g.value), g.rest))
    else if ts != [] && ts[0].LitStr? then
      Ok(Parsed(ArmLiteral(ts[0].text), ts[1..]))
    else Err
  }

  /** The whole template: one `Group` taking every token. */
  function ParseTemplate(ts: seq<Tok>): (r: Result<Group>)
    ensures r.Ok? ==> WfGroup(r.value)
  {
    var ns :- ParseNodes(ts);
    Ok(Group(ns))
  }

  // The three `while` loops of parse.rs, each proved to give what its collector function gives.

  /** `v` in front of a successful result; an error stays an error. */
  function Prepend<T>(v: seq<T>, r: Result<seq<T>>): Result<seq<T>>
  {
    match r
    case Ok(more) => Ok(v + more)
    case Err => Err
  }

  lemma PrependNil<T>(r: Result<seq<T>>)
    ensures Prepend([], r) == r
  {
    if r.Ok? {
      assert [] + r.value == r.value;
    }
  }

  lemma PrependTwice<T>(v: seq<T>, w: seq<T>, r: Result<seq<T>>)
    ensures Prepend(v, Prepend(w, r)) == Prepend(v + w, r)
  {
    if r.Ok? {
      assert v + (w + r.value) == (v + w) + r.value;
    }
  }

  lemma PrependParsedNil<T>(r: Result<Parsed<seq<T>>>)
    ensures PrependParsed([], r) == r
  {
    if r.Ok? {
      assert [] + r.value.value == r.value.value;
    }
  }

  lemma PrependParsedTwice<T>(v: seq<T>, w: seq<T>, r: Result<Parsed<seq<T>>>)
    ensures PrependParsed(v, PrependParsed(w, r)) == PrependParsed(v + w, r)
  {
    if r.Ok? {
      assert v + (w + r.value.value) == (v + w) + r.value.value;
    }
  }

  function PrependParsed<T>(v: seq<T>, r: Result<Parsed<seq<T>>>): Result<Parsed<seq<T>>>
  {
    match r
    case Ok(more) => Ok(Parsed(v + more.value, more.rest))
    case Err => Err
  }

  /** `Group::parse` as written: push nodes while tokens remain; the first error returns. */
  method ParseGroup(ts: seq<Tok>) returns (r: Result<Group>)
    ensures r == ParseTemplate(ts)
  {
    var v: seq<Node> := [];
    var rest := ts;
    PrependNil(ParseNodes(ts));
    while rest != []
      invariant ParseNodes(ts) == Prepend(v, ParseNodes(rest))
      decreases SeqSize(rest)
    {
      var n := ParseNode(rest);
      if n.Err? {
        return Err;
      }
      assert ParseNodes(rest) == Prepend([n.value.value], ParseNodes(n.value.rest));
      PrependTwice(v, [n.value.value], ParseNodes(n.value.rest));
      v := v + [n.value.value];
      rest := n.value.rest;
    }
    assert v + [] == v;
    return Ok(Group(v));
  }

  /** The `else if` loop of `InterpIf::parse`. */
  method CollectElseIfs(ts: seq<Tok>) returns (r: Result<Parsed<seq<ElseIf>>>)
    ensures r == ParseElseIfs(ts)
  {
    var v: seq<ElseIf> := [];
    var rest := ts;
    PrependParsedNil(ParseElseIfs(ts));
    while TokAt(rest, 0, KwElse) && TokAt(rest, 1, KwIf)
      invariant ParseElseIfs(ts) == PrependParsed(v, ParseElseIfs(rest))
      decreases SeqSize(rest)
    {
      var ei := ParseElseIf(rest);
      if ei.Err? {
        return Err;
      }
      assert ParseElseIfs(rest) == PrependParsed([ei.value.value], ParseElseIfs(ei.value.rest));
      PrependParsedTwice(v, [ei.value.value], ParseElseIfs(ei.value.rest));
      v := v + [ei.value.value];
      rest := ei.value.rest;
    }
    assert v + [] == v;
    return Ok(Parsed(v, rest));
  }

  /** The arm loop of `InterpMatch::parse`, over the tokens of the match's brace group. */
  method CollectArms(ts: seq<Tok>) returns (r: Result<seq<InterpArm>>)
    ensures r == ParseArms(ts)
  {
    var v: seq<InterpArm> := [];
    var rest := ts;
    PrependNil(ParseArms(ts));
    while rest != []
      invariant ParseArms(ts) == Prepend(v, ParseArms(rest))
      decreases SeqSize(rest)
    {
      var a := ParseArm(rest);
      if a.Err? {
        return Err;
      }
      assert ParseArms(rest) == Prepend([a.value.value], ParseArms(a.value.rest));
      PrependTwice(v, [a.value.value], ParseArms(a.value.rest));
      v := v + [a.value.value];
      rest := a.value.rest;
    }
    assert v + [] == v;
    return Ok(v);
  }
}
