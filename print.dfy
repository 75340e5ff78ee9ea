/** A printer from syntax trees back to token trees. It is not part of the system: it is the
    inverse the parser is proved against. Parsing a printed tree gives the tree back exactly
    when the tree is well formed. */
module Print {
  // The lemmas named `...Steps` and `...Cons` (and `TrailingCommaCons`) are solver aids, not
  // properties: each unfolds one parser step over plain variables, so that a round-trip lemma
  // never has to unfold the printer and the parser in the same query.

  import opened Wrappers
  import opened Ast
  import opened Parse
  import opened Sequences

  function NameTok(n: Name): Tok
  {
    match n
    case LitName(s) => LitStr(s)
    case IdentName(x) => Ident(x)
  }

  function ExprTok(e: Expr): Tok
  {
    match e
    case StrLit(s) => LitStr(s)
    case BoolLit(b) => if b then KwTrue else KwFalse
    case Code(c) => HostExpr(c)
  }

  function PrintAttr(a: Attr): seq<Tok>
  {
    [NameTok(a.name)] + (if a.value.Some? then [Eq, ExprTok(a.value.value)] else [])
  }

  /** Attributes separated by commas, without a trailing comma. */
  function PrintAttrList(attrs: seq<Attr>): seq<Tok>
  {
    if attrs == [] then []
    else if |attrs| == 1 then PrintAttr(attrs[0])
    else PrintAttr(attrs[0]) + [Comma] + PrintAttrList(attrs[1..])
  }

  function PrintAttrsOpt(o: Option<Attrs>): seq<Tok>
  {
    match o
    case None => []
    case Some(a) => [Bracket(PrintAttrList(a.items))]
  }

  function PrintGroup(g: Group): seq<Tok>
  {
    PrintNodes(g.nodes)
  }

  function PrintNodes(ns: seq<Node>): seq<Tok>
  {
    if ns == [] then [] else PrintNode(ns[0]) + PrintNodes(ns[1..])
  }

  function PrintNode(n: Node): seq<Tok>
  {
    match n
    case Elem(e) => PrintElement(e)
    case Interp(v) => [At] + PrintInterp(v)
    case Literal(s) => [LitStr(s)]
  }

  function PrintElement(e: Element): seq<Tok>
  {
    match e
    case Normal(name, attrs, inner) => [NameTok(name)] + PrintAttrsOpt(attrs) + [Brace(PrintInner(inner))]
    case Void(name, attrs) => [NameTok(name)] + PrintAttrsOpt(attrs) + [Semi]
  }

  function PrintInner(inner: Option<Group>): seq<Tok>
  {
    match inner
    case None => []
    case Some(g) => PrintGroup(g)
  }

  function PrintInterp(v: InterpValue): seq<Tok>
  {
    match v
    case ExprValue(e) => [ExprTok(e)]
    case If(i) => PrintIf(i)
    case Match(m) => PrintMatch(m)
    case For(f) => PrintFor(f)
  }

  function PrintFor(f: InterpFor): seq<Tok>
  {
    [KwFor, HostPat(f.pat.source), KwIn, ExprTok(f.iter), Brace(PrintGroup(f.body))]
  }

  function PrintMatch(m: InterpMatch): seq<Tok>
  {
    [KwMatch, ExprTok(m.scrutinee), Brace(PrintArms(m.arms))]
  }

  function PrintIf(i: InterpIf): seq<Tok>
  {
    [KwIf, ExprTok(i.cond), Brace(PrintGroup(i.thenBranch))] + PrintElseIfs(i.elseIfs) + PrintElse(i.elseBranch)
  }

  function PrintElseIfs(eis: seq<ElseIf>): seq<Tok>
  {
    if eis == [] then [] else PrintElseIf(eis[0]) + PrintElseIfs(eis[1..])
  }

  function PrintElseIf(ei: ElseIf): seq<Tok>
  {
    [KwElse, KwIf, ExprTok(ei.cond), Brace(PrintGroup(ei.group))]
  }

  function PrintElse(el: Option<Group>): seq<Tok>
  {
    match el
    case None => []
    case Some(g) => [KwElse, Brace(PrintGroup(g))]
  }

  function PrintArms(arms: seq<InterpArm>): seq<Tok>
  {
    if arms == [] then [] else PrintArm(arms[0]) + PrintArms(arms[1..])
  }

  function PrintArm(a: InterpArm): seq<Tok>
  {
    [HostPat(a.pat.source), FatArrow, PrintArmBody(a.body)] + (if a.comma then [Comma] else [])
  }

  function PrintArmBody(b: ArmBody): Tok
  {
    match b
    case ArmGroup(g) => Brace(PrintGroup(g))
    case ArmLiteral(s) => LitStr(s)
  }

  /** What may follow a node inside a group: nothing, or the first token of another node. */
  predicate NodeStart(ts: seq<Tok>)
  {
    ts == [] || ts[0].LitStr? || ts[0].Ident? || ts[0] == At
  }

  lemma ExprRoundTrip(e: Expr, rest: seq<Tok>)
    ensures ParseExpr([ExprTok(e)] + rest) == Ok(Parsed(e, rest))
  {
    assert ([ExprTok(e)] + rest)[1..] == rest;
  }

  lemma NameRoundTrip(n: Name, rest: seq<Tok>)
    ensures ParseName([NameTok(n)] + rest) == Ok(Parsed(n, rest))
  {
    assert ([NameTok(n)] + rest)[1..] == rest;
  }

  lemma AttrRoundTrip(a: Attr, rest: seq<Tok>)
    requires !TokAt(rest, 0, Eq)
    ensures ParseAttr(PrintAttr(a) + rest) == Ok(Parsed(a, rest))
  {
    var ts := PrintAttr(a) + rest;
    var tail := ts[1..];
    NameRoundTrip(a.name, tail);
    assert ts == [NameTok(a.name)] + tail;
    if a.value.Some? {
      assert tail == [Eq] + ([ExprTok(a.value.value)] + rest);
      ExprRoundTrip(a.value.value, rest);
    } else {
      assert tail == rest;
    }
  }

  lemma {:induction false} AttrListRoundTrip(attrs: seq<Attr>)
    ensures ParseAttrList(PrintAttrList(attrs)) == Ok(attrs)
  {
    if |attrs| == 1 {
      AttrRoundTrip(attrs[0], []);
      assert PrintAttr(attrs[0]) + [] == PrintAttr(attrs[0]);
      assert [attrs[0]] == attrs;
    } else if |attrs| > 1 {
      var more := PrintAttrList(attrs[1..]);
      var tail := [Comma] + more;
      var ts := PrintAttr(attrs[0]) + tail;
      AttrRoundTrip(attrs[0], tail);
      assert PrintAttrList(attrs) == ts;
      assert tail[1..] == more;
      AttrListRoundTrip(attrs[1..]);
      AttrListSteps(ts, attrs[0], tail, attrs[1..]);
      assert [attrs[0]] + attrs[1..] == attrs;
    }
  }

  /** A trailing comma after the last attribute is accepted and changes nothing. */
  lemma {:induction false} TrailingCommaRoundTrip(attrs: seq<Attr>)
    requires attrs != []
    ensures ParseAttrList(PrintAttrList(attrs) + [Comma]) == Ok(attrs)
  {
    if |attrs| == 1 {
      var ts := PrintAttr(attrs[0]) + [Comma];
      AttrRoundTrip(attrs[0], [Comma]);
      assert [Comma][1..] == [];
      AttrListSteps(ts, attrs[0], [Comma], []);
      assert [attrs[0]] + [] == attrs;
    } else {
      TrailingCommaRoundTrip(attrs[1..]);
      TrailingCommaCons(attrs[0], PrintAttrList(attrs[1..]), attrs[1..]);
      assert PrintAttrList(attrs) == PrintAttr(attrs[0]) + [Comma] + PrintAttrList(attrs[1..]);
      assert [attrs[0]] + attrs[1..] == attrs;
    }
  }

  /** One attribute and a comma in front of a list that ends in a trailing comma. */
  lemma TrailingCommaCons(a: Attr, more: seq<Tok>, moreAttrs: seq<Attr>)
    requires ParseAttrList(more + [Comma]) == Ok(moreAttrs)
    ensures ParseAttrList(PrintAttr(a) + [Comma] + more + [Comma]) == Ok([a] + moreAttrs)
  {
    var tail := [Comma] + more + [Comma];
    AttrRoundTrip(a, tail);
    Append3(PrintAttr(a), [Comma], more, [Comma]);
    assert tail[1..] == more + [Comma];
    AttrListSteps(PrintAttr(a) + tail, a, tail, moreAttrs);
  }

  /** One turn of `parse_terminated`: an attribute, a comma, then the rest of the list. */
  lemma AttrListSteps(ts: seq<Tok>, a: Attr, t1: seq<Tok>, more: seq<Attr>)
    requires ts != [] && ParseAttr(ts) == Ok(Parsed(a, t1))
    requires t1 != [] && t1[0] == Comma && ParseAttrList(t1[1..]) == Ok(more)
    ensures ParseAttrList(ts) == Ok([a] + more)
  { }

  lemma AttrsOptRoundTrip(o: Option<Attrs>, rest: seq<Tok>)
    requires o.None? ==> !BracketAt(rest, 0)
    ensures ParseAttrsOpt(PrintAttrsOpt(o) + rest) == Ok(Parsed(o, rest))
  {
    if o.Some? {
      var ts := PrintAttrsOpt(o) + rest;
      assert ts[0] == Bracket(PrintAttrList(o.value.items)) && ts[1..] == rest;
      AttrListRoundTrip(o.value.items);
    } else {
      assert PrintAttrsOpt(o) + rest == rest;
    }
  }

  lemma PrintNodeStart(n: Node)
    ensures PrintNode(n) != [] && NodeStart(PrintNode(n))
  {
    match n
    case Elem(e) =>
      assert PrintElement(e)[0] == NameTok(e.name);
    case Interp(_) =>
    case Literal(_) =>
  }

  lemma PrintNodesStart(ns: seq<Node>)
    ensures NodeStart(PrintNodes(ns))
  {
    if ns != [] {
      PrintNodeStart(ns[0]);
      assert PrintNodes(ns)[0] == PrintNode(ns[0])[0];
    }
  }

  /** Every node sequence the printer emits parses back into the same nodes. */
  lemma {:induction false} NodesRoundTrip(ns: seq<Node>)
    requires WfNodes(ns)
    ensures ParseNodes(PrintNodes(ns)) == Ok(ns)
    decreases ns, 1
  {
    if ns != [] {
      PrintNodesStart(ns[1..]);
      assert WfNodes(ns[1..]) by {
        forall i | 0 <= i < |ns[1..]| ensures WfNode(ns[1..][i]) { assert ns[1..][i] == ns[i + 1]; }
      }
      NodesRoundTrip(ns[1..]);
      NodesCons(ns);
    }
  }

  /** The first printed node in front of the rest, which parse. */
  lemma {:induction false} NodesCons(ns: seq<Node>)
    requires ns != [] && WfNode(ns[0]) && NodeStart(PrintNodes(ns[1..]))
    requires ParseNodes(PrintNodes(ns[1..])) == Ok(ns[1..])
    ensures ParseNodes(PrintNodes(ns)) == Ok(ns)
    decreases ns, 0
  {
    var more := PrintNodes(ns[1..]);
    PrintNodeStart(ns[0]);
    NodeRoundTrip(ns[0], more);
    assert PrintNodes(ns) == PrintNode(ns[0]) + more;
    NodesSteps(PrintNodes(ns), ns[0], more, ns[1..]);
    assert [ns[0]] + ns[1..] == ns;
  }

  /** One turn of the node loop of `Group::parse`. */
  lemma NodesSteps(ts: seq<Tok>, n: Node, t1: seq<Tok>, more: seq<Node>)
    requires ts != [] && ParseNode(ts) == Ok(Parsed(n, t1)) && ParseNodes(t1) == Ok(more)
    ensures ParseNodes(ts) == Ok([n] + more)
  { }

  lemma {:induction false} GroupRoundTrip(g: Group)
    requires WfGroup(g)
    ensures ParseNodes(PrintGroup(g)) == Ok(g.nodes)
    decreases g, 2
  {
    NodesRoundTrip(g.nodes);
  }

  lemma {:induction false} BracedRoundTrip(g: Group, rest: seq<Tok>)
    requires WfGroup(g)
    ensures ParseBraced([Brace(PrintGroup(g))] + rest) == Ok(Parsed(g, rest))
    decreases g, 3
  {
    var ts := [Brace(PrintGroup(g))] + rest;
    assert ts[0] == Brace(PrintGroup(g)) && ts[1..] == rest;
    GroupRoundTrip(g);
  }

  lemma {:induction false} NodeRoundTrip(n: Node, rest: seq<Tok>)
    requires WfNode(n) && NodeStart(rest)
    ensures ParseNode(PrintNode(n) + rest) == Ok(Parsed(n, rest))
    decreases n, 0
  {
    var ts := PrintNode(n) + rest;
    match n
    case Literal(s) =>
      assert ts[0] == LitStr(s) && ts[1..] == rest;
      assert !ElementAhead(ts);
    case Elem(e) =>
      ElementRoundTrip(e, rest);
      ElemSteps(ts, e, rest);
    case Interp(v) =>
      assert ts[0] == At && ts[1..] == PrintInterp(v) + rest;
      InterpRoundTrip(v, rest);
      InterpSteps(ts, v, rest);
  }

  /** `Node::parse` on a name that starts an element. */
  lemma ElemSteps(ts: seq<Tok>, e: Element, rest: seq<Tok>)
    requires NameAt(ts, 0) && ElementAhead(ts) && ParseElement(ts) == Ok(Parsed(e, rest))
    ensures ParseNode(ts) == Ok(Parsed(Elem(e), rest))
  { }

  /** `Node::parse` on `@` and an interpolated value. */
  lemma InterpSteps(ts: seq<Tok>, v: InterpValue, rest: seq<Tok>)
    requires TokAt(ts, 0, At) && ParseInterpValue(ts[1..]) == Ok(Parsed(v, rest))
    ensures ParseNode(ts) == Ok(Parsed(Interp(v), rest))
  { }

  lemma {:induction false} ElementRoundTrip(e: Element, rest: seq<Tok>)
    requires WfElement(e)
    ensures NameAt(PrintElement(e) + rest, 0) && ElementAhead(PrintElement(e) + rest)
    ensures ParseElement(PrintElement(e) + rest) == Ok(Parsed(e, rest))
    decreases e, 0
  {
    match e
    case Normal(name, attrs, inner) => NormalRoundTrip(name, attrs, inner, rest);
    case Void(name, attrs) => VoidRoundTrip(name, attrs, rest);
  }

  /** The name and the optional attributes of a printed element parse back, and the token
      that closes the head (`;` or the brace group) comes right after them. */
  lemma ElementHeadRoundTrip(name: Name, attrs: Option<Attrs>, close: Tok, rest: seq<Tok>)
    requires !close.Bracket?
    ensures var ts := [NameTok(name)] + PrintAttrsOpt(attrs) + [close] + rest;
      var k := if attrs.Some? then 2 else 1;
      && ParseName(ts) == Ok(Parsed(name, ts[1..]))
      && ParseAttrsOpt(ts[1..]) == Ok(Parsed(attrs, [close] + rest))
      && NameAt(ts, 0) && (BracketAt(ts, 1) <==> attrs.Some?) && k < |ts| && ts[k] == close
  {
    var ts := [NameTok(name)] + PrintAttrsOpt(attrs) + [close] + rest;
    var tail := PrintAttrsOpt(attrs) + ([close] + rest);
    assert ts == [NameTok(name)] + tail;
    assert ts[0] == NameTok(name) && ts[1..] == tail;
    NameRoundTrip(name, tail);
    AttrsOptRoundTrip(attrs, [close] + rest);
    if attrs.Some? {
      assert ts[1].Bracket? && ts[2] == close;
    } else {
      assert ts[1] == close;
    }
  }

  lemma VoidRoundTrip(name: Name, attrs: Option<Attrs>, rest: seq<Tok>)
    ensures NameAt(PrintElement(Void(name, attrs)) + rest, 0) && ElementAhead(PrintElement(Void(name, attrs)) + rest)
    ensures ParseElement(PrintElement(Void(name, attrs)) + rest) == Ok(Parsed(Void(name, attrs), rest))
  {
    var ts := PrintElement(Void(name, attrs)) + rest;
    ElementHeadRoundTrip(name, attrs, Semi, rest);
    assert VoidAhead(ts);
    assert ([Semi] + rest)[0] == Semi && ([Semi] + rest)[1..] == rest;
  }

  lemma {:induction false} NormalRoundTrip(name: Name, attrs: Option<Attrs>, inner: Option<Group>, rest: seq<Tok>)
    requires WfElement(Normal(name, attrs, inner))
    ensures NameAt(PrintElement(Normal(name, attrs, inner)) + rest, 0)
    ensures ElementAhead(PrintElement(Normal(name, attrs, inner)) + rest)
    ensures ParseElement(PrintElement(Normal(name, attrs, inner)) + rest) == Ok(Parsed(Normal(name, attrs, inner), rest))
    decreases inner, 2
  {
    var close := Brace(PrintInner(inner));
    var ts := PrintElement(Normal(name, attrs, inner)) + rest;
    ElementHeadRoundTrip(name, attrs, close, rest);
    assert !VoidAhead(ts);
    assert ([close] + rest)[0] == close && ([close] + rest)[1..] == rest;
    InnerRoundTrip(inner);
  }

  /** The children of a normal element: no children print as an empty brace group, and the
      parser reads a non-empty one back as the same group. */
  lemma {:induction false} InnerRoundTrip(inner: Option<Group>)
    requires inner.Some? ==> inner.value.nodes != [] && WfGroup(inner.value)
    ensures PrintInner(inner) == [] <==> inner.None?
    ensures inner.Some? ==> ParseNodes(PrintInner(inner)) == Ok(inner.value.nodes)
    decreases inner, 1
  {
    if inner.Some? {
      GroupRoundTrip(inner.value);
      PrintNodeStart(inner.value.nodes[0]);
    }
  }

  lemma {:induction false} InterpRoundTrip(v: InterpValue, rest: seq<Tok>)
    requires WfInterp(v) && NodeStart(rest)
    ensures ParseInterpValue(PrintInterp(v) + rest) == Ok(Parsed(v, rest))
    decreases v, 0
  {
    match v
    case ExprValue(e) =>
      ExprRoundTrip(e, rest);
    case If(i) =>
      IfRoundTrip(i, rest);
    case Match(m) =>
      MatchRoundTrip(m, rest);
    case For(f) =>
      ForRoundTrip(f, rest);
  }

  lemma {:induction false} ForRoundTrip(f: InterpFor, rest: seq<Tok>)
    requires WfFor(f)
    ensures ParseFor(PrintFor(f) + rest) == Ok(Parsed(f, rest))
    decreases f, 0
  {
    var ts := PrintFor(f) + rest;
    var afterBody := [Brace(PrintGroup(f.body))] + rest;
    var afterIn := [ExprTok(f.iter)] + afterBody;
    var afterPat := [KwIn] + afterIn;
    var afterFor := [HostPat(f.pat.source)] + afterPat;
    assert ts == [KwFor] + afterFor;
    assert Expect(ts, KwFor) == Ok(afterFor);
    assert ParsePat(afterFor) == Ok(Parsed(f.pat, afterPat));
    assert Expect(afterPat, KwIn) == Ok(afterIn);
    ExprRoundTrip(f.iter, afterBody);
    BracedRoundTrip(f.body, rest);
    ForSteps(ts, afterFor, f.pat, afterPat, afterIn, f.iter, afterBody, f.body, rest);
  }

  /** `InterpFor::parse` is its five steps in sequence. */
  lemma ForSteps(ts: seq<Tok>, t1: seq<Tok>, pat: Pat, t2: seq<Tok>, t3: seq<Tok>, iter: Expr, t4: seq<Tok>,
                 body: Group, rest: seq<Tok>)
    requires Expect(ts, KwFor) == Ok(t1) && ParsePat(t1) == Ok(Parsed(pat, t2)) && Expect(t2, KwIn) == Ok(t3)
    requires ParseExpr(t3) == Ok(Parsed(iter, t4)) && ParseBraced(t4) == Ok(Parsed(body, rest))
    ensures ParseFor(ts) == Ok(Parsed(InterpFor(pat, iter, body), rest))
  { }

  lemma {:induction false} MatchRoundTrip(m: InterpMatch, rest: seq<Tok>)
    requires WfMatch(m)
    ensures ParseMatch(PrintMatch(m) + rest) == Ok(Parsed(m, rest))
    decreases m, 0
  {
    var ts := PrintMatch(m) + rest;
    var afterMatch := [ExprTok(m.scrutinee), Brace(PrintArms(m.arms))] + rest;
    assert ts[0] == KwMatch && ts[1..] == afterMatch;
    assert afterMatch == [ExprTok(m.scrutinee)] + ([Brace(PrintArms(m.arms))] + rest);
    ExprRoundTrip(m.scrutinee, [Brace(PrintArms(m.arms))] + rest);
    assert ([Brace(PrintArms(m.arms))] + rest)[1..] == rest;
    ArmsRoundTrip(m.arms);
  }

  lemma {:induction false} IfRoundTrip(i: InterpIf, rest: seq<Tok>)
    requires WfIf(i) && NodeStart(rest)
    ensures ParseIf(PrintIf(i) + rest) == Ok(Parsed(i, rest))
    decreases i, 1
  {
    var afterThen := PrintElseIfs(i.elseIfs) + PrintElse(i.elseBranch) + rest;
    var afterCond := [Brace(PrintGroup(i.thenBranch))] + afterThen;
    var afterIf := [ExprTok(i.cond)] + afterCond;
    var ts := PrintIf(i) + rest;
    assert ts == [KwIf] + afterIf by {
      Append3([KwIf, ExprTok(i.cond), Brace(PrintGroup(i.thenBranch))], PrintElseIfs(i.elseIfs), PrintElse(i.elseBranch), rest);
      Append2(PrintElseIfs(i.elseIfs), PrintElse(i.elseBranch), rest);
    }
    assert Expect(ts, KwIf) == Ok(afterIf);
    ExprRoundTrip(i.cond, afterCond);
    BracedRoundTrip(i.thenBranch, afterThen);
    IfTailRoundTrip(i, rest);
  }

  /** The `else if` clauses and the optional `else` of a printed `if` parse back. */
  lemma {:induction false} IfTailRoundTrip(i: InterpIf, rest: seq<Tok>)
    requires WfIf(i) && NodeStart(rest)
    ensures var elseTail := PrintElse(i.elseBranch) + rest;
      && ParseElseIfs(PrintElseIfs(i.elseIfs) + PrintElse(i.elseBranch) + rest) == Ok(Parsed(i.elseIfs, elseTail))
      && (TokAt(elseTail, 0, KwElse) <==> i.elseBranch.Some?)
      && (i.elseBranch.Some? ==> ParseElse(elseTail) == Ok(Parsed(i.elseBranch.value, rest)))
      && (i.elseBranch.None? ==> elseTail == rest)
    decreases i, 0
  {
    var elseTail := PrintElse(i.elseBranch) + rest;
    ElseRoundTrip(i.elseBranch, rest);
    ElseIfsRoundTrip(i.elseIfs, elseTail);
    Append2(PrintElseIfs(i.elseIfs), PrintElse(i.elseBranch), rest);
  }

  lemma {:induction false} ElseRoundTrip(el: Option<Group>, rest: seq<Tok>)
    requires el.Some? ==> WfGroup(el.value)
    requires NodeStart(rest)
    ensures var tail := PrintElse(el) + rest;
      !(TokAt(tail, 0, KwElse) && TokAt(tail, 1, KwIf)) &&
      (TokAt(tail, 0, KwElse) <==> el.Some?) &&
      (el.Some? ==> ParseElse(tail) == Ok(Parsed(el.value, rest))) &&
      (el.None? ==> tail == rest)
    decreases el, 0
  {
    var tail := PrintElse(el) + rest;
    if el.Some? {
      var g := el.value;
      assert tail == [KwElse] + ([Brace(PrintGroup(g))] + rest);
      assert tail[1] == Brace(PrintGroup(g));
      assert Expect(tail, KwElse) == Ok([Brace(PrintGroup(g))] + rest);
      BracedRoundTrip(g, rest);
    } else {
      assert tail == rest;
    }
  }

  lemma {:induction false} ElseIfsRoundTrip(eis: seq<ElseIf>, rest: seq<Tok>)
    requires WfElseIfs(eis) && !(TokAt(rest, 0, KwElse) && TokAt(rest, 1, KwIf))
    ensures ParseElseIfs(PrintElseIfs(eis) + rest) == Ok(Parsed(eis, rest))
    decreases eis, 0
  {
    if eis == [] {
      assert PrintElseIfs(eis) + rest == rest;
    } else {
      var ei := eis[0];
      var more := PrintElseIfs(eis[1..]) + rest;
      var ts := PrintElseIfs(eis) + rest;
      Append2(PrintElseIf(ei), PrintElseIfs(eis[1..]), rest);
      assert ts == PrintElseIf(ei) + more;
      assert ts[0] == KwElse && ts[1] == KwIf;
      ElseIfRoundTrip(ei, more);
      assert WfElseIfs(eis[1..]) by {
        forall k | 0 <= k < |eis[1..]| ensures WfElseIf(eis[1..][k]) { assert eis[1..][k] == eis[k + 1]; }
      }
      ElseIfsRoundTrip(eis[1..], rest);
      ElseIfsSteps(ts, ei, more, eis[1..], rest);
      assert [ei] + eis[1..] == eis;
    }
  }

  /** One turn of the else-if loop of `InterpIf::parse`. */
  lemma ElseIfsSteps(ts: seq<Tok>, ei: ElseIf, t1: seq<Tok>, more: seq<ElseIf>, rest: seq<Tok>)
    requires TokAt(ts, 0, KwElse) && TokAt(ts, 1, KwIf)
    requires ParseElseIf(ts) == Ok(Parsed(ei, t1)) && ParseElseIfs(t1) == Ok(Parsed(more, rest))
    ensures ParseElseIfs(ts) == Ok(Parsed([ei] + more, rest))
  { }

  lemma {:induction false} ElseIfRoundTrip(ei: ElseIf, rest: seq<Tok>)
    requires WfElseIf(ei)
    ensures ParseElseIf(PrintElseIf(ei) + rest) == Ok(Parsed(ei, rest))
    decreases ei, 0
  {
    var afterCond := [Brace(PrintGroup(ei.group))] + rest;
    var afterIf := [ExprTok(ei.cond)] + afterCond;
    var ts := PrintElseIf(ei) + rest;
    assert ts == [KwElse] + ([KwIf] + afterIf);
    assert ts[1..] == [KwIf] + afterIf && ([KwIf] + afterIf)[1..] == afterIf;
    assert Expect(ts, KwElse) == Ok([KwIf] + afterIf);
    assert Expect([KwIf] + afterIf, KwIf) == Ok(afterIf);
    ExprRoundTrip(ei.cond, afterCond);
    BracedRoundTrip(ei.group, rest);
    ElseIfSteps(ts, [KwIf] + afterIf, afterIf, ei.cond, afterCond, ei.group, rest);
  }

  /** `InterpElseIf::parse` is its four steps in sequence. */
  lemma ElseIfSteps(ts: seq<Tok>, t1: seq<Tok>, t2: seq<Tok>, cond: Expr, t3: seq<Tok>, g: Group, rest: seq<Tok>)
    requires Expect(ts, KwElse) == Ok(t1) && Expect(t1, KwIf) == Ok(t2)
    requires ParseExpr(t2) == Ok(Parsed(cond, t3)) && ParseBraced(t3) == Ok(Parsed(g, rest))
    ensures ParseElseIf(ts) == Ok(Parsed(ElseIf(cond, g), rest))
  {
  }

  lemma {:induction false} ArmsRoundTrip(arms: seq<InterpArm>)
    requires WfArms(arms)
    ensures ParseArms(PrintArms(arms)) == Ok(arms)
    decreases arms, 1
  {
    if arms != [] {
      ArmsStart(arms[1..]);
      assert WfArms(arms[1..]) by {
        forall k | 0 <= k < |arms[1..]| ensures WfArm(arms[1..][k]) { assert arms[1..][k] == arms[k + 1]; }
      }
      ArmsRoundTrip(arms[1..]);
      ArmsCons(arms);
    }
  }

  /** The first printed arm in front of the rest, which parse. */
  lemma {:induction false} ArmsCons(arms: seq<InterpArm>)
    requires arms != [] && WfArm(arms[0])
    requires PrintArms(arms[1..]) == [] || PrintArms(arms[1..])[0].HostPat?
    requires ParseArms(PrintArms(arms[1..])) == Ok(arms[1..])
    ensures ParseArms(PrintArms(arms)) == Ok(arms)
    decreases arms, 0
  {
    var more := PrintArms(arms[1..]);
    ArmRoundTrip(arms[0], more);
    assert PrintArms(arms) == PrintArm(arms[0]) + more;
    ArmsSteps(PrintArms(arms), arms[0], more, arms[1..]);
    assert [arms[0]] + arms[1..] == arms;
  }

  /** Printed arms start with the first arm's pattern. */
  lemma ArmsStart(arms: seq<InterpArm>)
    ensures arms == [] ==> PrintArms(arms) == []
    ensures arms != [] ==> PrintArms(arms) != [] && PrintArms(arms)[0] == HostPat(arms[0].pat.source)
  { }

  /** One turn of the arm loop of `InterpMatch::parse`. */
  lemma ArmsSteps(ts: seq<Tok>, a: InterpArm, t1: seq<Tok>, more: seq<InterpArm>)
    requires ts != [] && ParseArm(ts) == Ok(Parsed(a, t1)) && ParseArms(t1) == Ok(more)
    ensures ParseArms(ts) == Ok([a] + more)
  { }

  lemma {:induction false} ArmRoundTrip(a: InterpArm, rest: seq<Tok>)
    requires WfArm(a) && (rest == [] || rest[0].HostPat?)
    ensures ParseArm(PrintArm(a) + rest) == Ok(Parsed(a, rest))
    decreases a, 0
  {
    var tail := (if a.comma then [Comma] else []) + rest;
    var afterArrow := [PrintArmBody(a.body)] + tail;
    var afterPat := [FatArrow] + afterArrow;
    var ts := PrintArm(a) + rest;
    assert ts == [HostPat(a.pat.source)] + afterPat;
    assert ParsePat(ts) == Ok(Parsed(a.pat, afterPat));
    assert Expect(afterPat, FatArrow) == Ok(afterArrow);
    ArmBodyRoundTrip(a.body, tail);
    if a.comma {
      assert tail[0] == Comma && tail[1..] == rest;
    } else {
      assert tail == rest;
    }
    ArmSteps(ts, a.pat, afterPat, afterArrow, a.body, tail);
  }

  /** `InterpArm::parse` is its three steps, then an optional comma. */
  lemma ArmSteps(ts: seq<Tok>, pat: Pat, t1: seq<Tok>, t2: seq<Tok>, body: ArmBody, t3: seq<Tok>)
    requires ParsePat(ts) == Ok(Parsed(pat, t1)) && Expect(t1, FatArrow) == Ok(t2)
    requires ParseArmBody(t2) == Ok(Parsed(body, t3))
    ensures ParseArm(ts) == if TokAt(t3, 0, Comma) then Ok(Parsed(InterpArm(pat, body, true), t3[1..]))
                            else Ok(Parsed(InterpArm(pat, body, false), t3))
  { }

  lemma {:induction false} ArmBodyRoundTrip(b: ArmBody, rest: seq<Tok>)
    requires b.ArmGroup? ==> WfGroup(b.group)
    ensures ParseArmBody([PrintArmBody(b)] + rest) == Ok(Parsed(b, rest))
    decreases b, 0
  {
    assert ([PrintArmBody(b)] + rest)[1..] == rest;
    if b.ArmGroup? {
      BracedRoundTrip(b.group, rest);
    }
  }

  /** Parsing a printed template gives the template back exactly when it is well formed:
      a Normal element's child group, when present, is non-empty. */
  lemma TemplateRoundTrip(g: Group)
    ensures ParseTemplate(PrintGroup(g)) == Ok(g) <==> WfGroup(g)
  {
    if WfGroup(g) {
      GroupRoundTrip(g);
    }
  }

  /** `parse_terminated` refuses two attributes with no comma between them. */
  lemma MissingComma(a: Attr, b: Attr, rest: seq<Tok>)
    ensures ParseAttrList(PrintAttr(a) + PrintAttr(b) + rest).Err?
  {
    var tail := PrintAttr(b) + rest;
    AttrRoundTrip(a, tail);
    assert PrintAttr(a) + PrintAttr(b) + rest == PrintAttr(a) + tail;
    assert tail[0] == NameTok(b.name);
  }

  /** `parse_terminated` refuses a doubled comma after an attribute. */
  lemma DoubledComma(a: Attr, rest: seq<Tok>)
    ensures ParseAttrList(PrintAttr(a) + [Comma, Comma] + rest).Err?
  {
    var tail := [Comma, Comma] + rest;
    AttrRoundTrip(a, tail);
    assert PrintAttr(a) + [Comma, Comma] + rest == PrintAttr(a) + tail;
    assert tail[1..] == [Comma] + rest;
  }

  /** A keyword is not a name: `input[type = "text"];` fails. */
  lemma KeywordAttrName()
    ensures ParseTemplate([Ident("input"), Bracket([Ident("type"), Eq, LitStr("text")]), Semi]).Err?
  {
    var inner := [Ident("type"), Eq, LitStr("text")];
    var ts := [Ident("input"), Bracket(inner), Semi];
    assert Keyword("type");
    assert ParseName(inner).Err?;
    assert ParseAttrList(inner).Err?;
    assert ParseAttrsOpt(ts[1..]).Err?;
    assert VoidAhead(ts) && ParseElement(ts).Err?;
    assert ParseNode(ts).Err?;
  }

  /** With the keyword quoted, `input["type" = "text"];` parses into a void element. */
  lemma QuotedAttrName()
    ensures ParseTemplate([Ident("input"), Bracket([LitStr("type"), Eq, LitStr("text")]), Semi])
         == Ok(Group([Elem(Void(IdentName("input"), Some(Attrs([Attr(LitName("type"), Some(StrLit("text")))]))))]))
  {
    assert !Keyword("input");
    var quoted := Void(IdentName("input"), Some(Attrs([Attr(LitName("type"), Some(StrLit("text")))])));
    var ts := [Ident("input"), Bracket([LitStr("type"), Eq, LitStr("text")]), Semi];
    assert PrintGroup(Group([Elem(quoted)])) == ts by {
      assert PrintAttrList([Attr(LitName("type"), Some(StrLit("text")))]) == [LitStr("type"), Eq, LitStr("text")];
      assert PrintNodes([Elem(quoted)][1..]) == [];
      assert PrintElement(quoted) == ts;
      assert PrintNodes([Elem(quoted)]) == PrintNode(Elem(quoted)) + [];
    }
    TemplateRoundTrip(Group([Elem(quoted)]));
  }
}
