/** What a generated program writes when the closure of packages/avosetta-macros/src/generate.rs:100-110
    runs, for templates whose interpolations are plain expressions, and the HTML a template
    stands for. Running the generated program of such a template appends exactly that HTML,
    except that a dynamic attribute whose value is `false` or `None` still leaves the space
    the generator emits in front of it. */
module Semantics {
  import opened Wrappers
  import opened Ast
  import opened Escaping
  import opened Program
  import opened Runtime
  import opened Generator
  import opened Sequences

  /** The host program's values for the expressions a template interpolates, by source text. */
  type Env = string -> Value

  /** A literal denotes itself; any other expression is looked up. */
  function Eval(e: Expr, env: Env): Value
  {
    match e
    case StrLit(s) => Str(s)
    case BoolLit(b) => Bool(b)
    case Code(c) => env(c)
  }

  /** Both present: the first text followed by the second. */
  function Cat(a: Option<string>, b: Option<string>): (r: Option<string>)
    ensures r.Some? <==> a.Some? && b.Some?
    ensures r.Some? ==> r.value == a.value + b.value
  {
    if a.Some? && b.Some? then Some(a.value + b.value) else None
  }

  /** What one straight-line instruction appends to `__s`: a flush its literal, a write what
      `Html::write` appends for the value. `Attr(k, v)` does not type-check when `v` has no
      `Attr` impl, and control flow is not run here; both give `None`. */
  function Emit(i: Instr, env: Env): Option<string>
  {
    match i
    case Flush(t) => Some(t)
    case Write(Val(e)) => Some(Render(Eval(e, env)))
    case Write(AttrPair(k, e)) =>
      if Attrable(Eval(e, env)) then Some(RenderAttr(k, Eval(e, env))) else None
    case Head(_) => None
    case Block(_) => None
  }

  /** What the generated closure body appends to `__s`: every instruction's text, in order. */
  function Run(p: seq<Instr>, env: Env): Option<string>
  {
    if p == [] then Some([]) else Cat(Emit(p[0], env), Run(p[1..], env))
  }

  /** The same, before merging: a static character appends itself. */
  function Output(items: seq<Piece>, env: Env): Option<string>
  {
    if items == [] then Some([])
    else
      var first := match items[0] case Chr(c) => Some([c]) case Op(i) => Emit(i, env);
      Cat(first, Output(items[1..], env))
  }

  lemma CatAssoc(a: Option<string>, b: Option<string>, c: Option<string>)
    ensures Cat(a, Cat(b, c)) == Cat(Cat(a, b), c)
  {
    if a.Some? && b.Some? && c.Some? {
      Append2(a.value, b.value, c.value);
    }
  }

  lemma {:induction false} OutputAppend(a: seq<Piece>, b: seq<Piece>, env: Env)
    ensures Output(a + b, env) == Cat(Output(a, env), Output(b, env))
    decreases |a|
  {
    if a == [] {
      assert a + b == b;
      if Output(b, env).Some? {
        assert [] + Output(b, env).value == Output(b, env).value;
      }
    } else {
      assert (a + b)[0] == a[0] && (a + b)[1..] == a[1..] + b;
      OutputAppend(a[1..], b, env);
      var first := match a[0] case Chr(c) => Some([c]) case Op(i) => Emit(i, env);
      CatAssoc(first, Output(a[1..], env), Output(b, env));
    }
  }

  lemma {:induction false} OutputChars(s: string, env: Env)
    ensures Output(Chars(s), env) == Some(s)
    decreases |s|
  {
    if s != [] {
      assert Chars(s)[0] == Chr(s[0]) && Chars(s)[1..] == Chars(s[1..]);
      OutputChars(s[1..], env);
      assert [s[0]] + s[1..] == s;
    }
  }

  /** Merging literals does not change what the program writes: the merged program writes
      the pending literal and then what the pieces write. */
  lemma {:induction false} RunCompile(pending: string, items: seq<Piece>, env: Env)
    ensures Run(CompileFrom(pending, items), env) == Cat(Some(pending), Output(items, env))
    decreases |items|
  {
    if items == [] {
      if pending == [] {
        assert Run([], env) == Some([]);
      } else {
        assert Run([Flush(pending)], env) == Cat(Some(pending), Some([]));
      }
      assert pending + [] == pending;
    } else {
      match items[0]
      case Chr(c) =>
        RunCompile(pending + [c], items[1..], env);
        CatAssoc(Some(pending), Some([c]), Output(items[1..], env));
      case Op(i) =>
        var rest := CompileFrom([], items[1..]);
        RunCompile([], items[1..], env);
        RunAppend(FlushOf(pending) + [i], rest, env);
        RunAppend(FlushOf(pending), [i], env);
        assert Run([i], env) == Cat(Emit(i, env), Some([]));
        assert Run(FlushOf(pending), env) == Some(pending) by {
          if pending != [] {
            assert Run([Flush(pending)], env) == Cat(Some(pending), Some([]));
            assert pending + [] == pending;
          }
        }
        if Emit(i, env).Some? {
          assert Emit(i, env).value + [] == Emit(i, env).value;
        }
        if Output(items[1..], env).Some? {
          assert [] + Output(items[1..], env).value == Output(items[1..], env).value;
        }
        CatAssoc(Some(pending), Emit(i, env), Output(items[1..], env));
    }
  }

  lemma {:induction false} RunAppend(a: seq<Instr>, b: seq<Instr>, env: Env)
    ensures Run(a + b, env) == Cat(Run(a, env), Run(b, env))
    decreases |a|
  {
    if a == [] {
      assert a + b == b;
      if Run(b, env).Some? {
        assert [] + Run(b, env).value == Run(b, env).value;
      }
    } else {
      assert (a + b)[0] == a[0] && (a + b)[1..] == a[1..] + b;
      RunAppend(a[1..], b, env);
      CatAssoc(Emit(a[0], env), Run(a[1..], env), Run(b, env));
    }
  }

  // ---------------------------------------------------------------------------------------
  // The HTML a template stands for.

  /** The value an attribute gives `Attr(name, value)`; no value is the `true` shorthand. */
  function AttrValue(a: Attr, env: Env): Value
  {
    if a.value.Some? then Eval(a.value.value, env) else Bool(true)
  }

  /** An attribute is a space and what `Attr(name, value)` writes, or nothing at all when the
      value omits it. */
  function HtmlAttr(a: Attr, env: Env): string
  {
    var v := AttrValue(a, env);
    if !Attrable(v) || Omitted(v) then [] else " " + RenderAttr(NameText(a.name), v)
  }

  function HtmlAttrList(attrs: seq<Attr>, env: Env): string
  {
    if attrs == [] then [] else HtmlAttrList(attrs[..|attrs| - 1], env) + HtmlAttr(attrs[|attrs| - 1], env)
  }

  function HtmlAttrs(o: Option<Attrs>, env: Env): string
  {
    if o.Some? then HtmlAttrList(o.value.items, env) else []
  }

  /** `<name attrs>`, then for a normal element its children and `</name>`. */
  function HtmlElement(e: Element, env: Env): string
    decreases e, 1
  {
    var open := "<" + NameText(e.name) + HtmlAttrs(e.attrs, env) + ">";
    match e
    case Normal(name, _, inner) =>
      open + (if inner.Some? then HtmlGroup(inner.value, env) else []) + "</" + NameText(name) + ">"
    case Void(_, _) => open
  }

  /** Literal text is escaped; an interpolated value is what `Html::write` writes for it;
      control flow is not given a meaning here. */
  function HtmlNode(n: Node, env: Env): string
    decreases n, 0
  {
    match n
    case Elem(e) => HtmlElement(e, env)
    case Interp(v) => if v.ExprValue? then Render(Eval(v.expr, env)) else []
    case Literal(s) => Escape(s)
  }

  function HtmlNodes(ns: seq<Node>, env: Env): string
    decreases ns, 0
  {
    if ns == [] then [] else HtmlNodes(ns[..|ns| - 1], env) + HtmlNode(ns[|ns| - 1], env)
  }

  function HtmlGroup(g: Group, env: Env): string
    decreases g, 1
  {
    HtmlNodes(g.nodes, env)
  }

  // ---------------------------------------------------------------------------------------
  // Which templates the theorem covers.

  /** A dynamic attribute's value has an `Attr` impl and is not omitted. */
  predicate AttrOk(a: Attr, env: Env)
  {
    a.value.Some? && a.value.value.Code? ==> Attrable(env(a.value.value.source)) && !Omitted(env(a.value.value.source))
  }

  predicate AttrsOk(o: Option<Attrs>, env: Env)
  {
    o.Some? ==> forall k :: 0 <= k < |o.value.items| ==> AttrOk(o.value.items[k], env)
  }

  /** No `if`, `match` or `for` anywhere, and every dynamic attribute is `AttrOk`. */
  predicate Straight(g: Group, env: Env)
    decreases g, 1
  {
    forall k :: 0 <= k < |g.nodes| ==> StraightNode(g.nodes[k], env)
  }

  predicate StraightNode(n: Node, env: Env)
    decreases n, 0
  {
    match n
    case Elem(e) =>
      && AttrsOk(e.attrs, env)
      && (e.Normal? && e.inner.Some? ==> Straight(e.inner.value, env))
    case Interp(v) => v.ExprValue?
    case Literal(_) => true
  }

  // ---------------------------------------------------------------------------------------
  // The generated pieces write that HTML.

  lemma AttrOutput(a: Attr, env: Env)
    requires AttrOk(a, env)
    ensures Output(AttrPieces(a), env) == Some(HtmlAttr(a, env))
  {
    var k := NameText(a.name);
    var v := AttrValue(a, env);
    if a.value.None? || (a.value.value.BoolLit? && a.value.value.flag) {
      OutputChars(" " + k, env);
      CharsAppend(" ", k);
      assert Chars(" ") == [Chr(' ')];
    } else if a.value.value.StrLit? {
      var t := " " + k + "=\"" + Escape(a.value.value.text) + "\"";
      assert HtmlAttr(a, env) == t;
      CharsAppend(" ", k);
      CharsAppend(" " + k, "=");
      CharsAppend(" " + k + "=", "\"");
      CharsAppend(" " + k + "=\"", Escape(a.value.value.text));
      CharsAppend(" " + k + "=\"" + Escape(a.value.value.text), "\"");
      assert Chars(" ") == [Chr(' ')] && Chars("=") == [Chr('=')] && Chars("\"") == [Chr('"')];
      assert " " + k + "=" + "\"" == " " + k + "=\"";
      OutputChars(t, env);
    } else if a.value.value.BoolLit? {
      assert AttrPieces(a) == [];
    } else {
      var w := Op(Write(AttrPair(k, a.value.value)));
      OutputAppend([Chr(' ')], [w], env);
      assert Output([Chr(' ')], env) == Cat(Some([' ']), Some([]));
      assert Output([w], env) == Cat(Some(RenderAttr(k, v)), Some([]));
      assert RenderAttr(k, v) + [] == RenderAttr(k, v);
    }
  }

  lemma {:induction false} AttrListOutput(attrs: seq<Attr>, env: Env)
    requires forall k :: 0 <= k < |attrs| ==> AttrOk(attrs[k], env)
    ensures Output(AttrListPieces(attrs), env) == Some(HtmlAttrList(attrs, env))
    decreases |attrs|
  {
    if attrs != [] {
      var init := attrs[..|attrs| - 1];
      AttrListOutput(init, env);
      AttrOutput(attrs[|attrs| - 1], env);
      OutputAppend(AttrListPieces(init), AttrPieces(attrs[|attrs| - 1]), env);
    }
  }

  lemma {:induction false} GroupOutput(g: Group, env: Env)
    requires Straight(g, env)
    ensures Output(GroupPieces(g), env) == Some(HtmlGroup(g, env))
    decreases g, 2
  {
    NodesOutput(g.nodes, env);
  }

  lemma {:induction false} NodesOutput(ns: seq<Node>, env: Env)
    requires forall k :: 0 <= k < |ns| ==> StraightNode(ns[k], env)
    ensures Output(NodesPieces(ns), env) == Some(HtmlNodes(ns, env))
    decreases ns, 1
  {
    if ns != [] {
      var init := ns[..|ns| - 1];
      NodesOutput(init, env);
      NodeOutput(ns[|ns| - 1], env);
      OutputAppend(NodesPieces(init), NodePieces(ns[|ns| - 1]), env);
    }
  }

  lemma {:induction false} NodeOutput(n: Node, env: Env)
    requires StraightNode(n, env)
    ensures Output(NodePieces(n), env) == Some(HtmlNode(n, env))
    decreases n, 1
  {
    match n
    case Elem(e) =>
      ElementOutput(e, env);
    case Interp(v) =>
      if v.expr.StrLit? {
        OutputChars(Escape(v.expr.text), env);
      } else {
        assert Output([Op(Write(Val(v.expr)))], env) == Cat(Some(Render(Eval(v.expr, env))), Some([]));
        assert Render(Eval(v.expr, env)) + [] == Render(Eval(v.expr, env));
      }
    case Literal(s) =>
      OutputChars(Escape(s), env);
  }

  lemma {:induction false} ElementOutput(e: Element, env: Env)
    requires StraightNode(Elem(e), env)
    ensures Output(ElementPieces(e), env) == Some(HtmlElement(e, env))
    decreases e, 2
  {
    var k := NameText(e.name);
    var attrs := HtmlAttrs(e.attrs, env);
    assert Output(AttrsPieces(e.attrs), env) == Some(attrs) by {
      if e.attrs.Some? {
        AttrListOutput(e.attrs.value.items, env);
      }
    }
    OpenTagOutput(e.name, e.attrs, attrs, env);
    if e.Normal? {
      var inner := if e.inner.Some? then HtmlGroup(e.inner.value, env) else [];
      assert Output(InnerPieces(e.inner), env) == Some(inner) by {
        if e.inner.Some? {
          GroupOutput(e.inner.value, env);
        }
      }
      CloseTagOutput(e.name, env);
      OutputAppend(OpenTagPieces(e.name, e.attrs), InnerPieces(e.inner), env);
      OutputAppend(OpenTagPieces(e.name, e.attrs) + InnerPieces(e.inner), CloseTagPieces(e.name), env);
      Append3("<" + k + attrs + ">" + inner, "</", k, ">");
    }
  }

  lemma OpenTagOutput(name: Name, o: Option<Attrs>, attrs: string, env: Env)
    requires Output(AttrsPieces(o), env) == Some(attrs)
    ensures Output(OpenTagPieces(name, o), env) == Some("<" + NameText(name) + attrs + ">")
  {
    var k := NameText(name);
    CharsAppend("<", k);
    assert Chars("<") == [Chr('<')] && Chars(">") == [Chr('>')];
    OutputChars("<" + k, env);
    OutputChars(">", env);
    assert OpenTagPieces(name, o) == Chars("<" + k) + AttrsPieces(o) + Chars(">");
    OutputAppend(Chars("<" + k), AttrsPieces(o), env);
    OutputAppend(Chars("<" + k) + AttrsPieces(o), Chars(">"), env);
  }

  lemma CloseTagOutput(name: Name, env: Env)
    ensures Output(CloseTagPieces(name), env) == Some("</" + NameText(name) + ">")
  {
    var k := NameText(name);
    CharsAppend("</", k);
    CharsAppend("</" + k, ">");
    assert Chars("</") == [Chr('<')] + [Chr('/')] && Chars(">") == [Chr('>')];
    assert CloseTagPieces(name) == Chars("</" + k + ">");
    OutputChars("</" + k + ">", env);
  }

  /** The generated program of a template without control flow, run, appends exactly the
      template's HTML. */
  lemma GeneratedHtml(g: Group, env: Env)
    requires Straight(g, env)
    ensures Run(Compile(GroupPieces(g)), env) == Some(HtmlGroup(g, env))
  {
    RunCompile([], GroupPieces(g), env);
    GroupOutput(g, env);
    assert [] + HtmlGroup(g, env) == HtmlGroup(g, env);
  }

  // ---------------------------------------------------------------------------------------
  // The space in front of a dynamic attribute.

  /** A dynamic attribute whose value omits it still writes the space the generator put in
      front of the write, where the attribute alone writes nothing. */
  lemma DynamicOmittedSpace(a: Attr, env: Env)
    requires a.value.Some? && a.value.value.Code?
    requires Attrable(AttrValue(a, env)) && Omitted(AttrValue(a, env))
    ensures Output(AttrPieces(a), env) == Some(" ")
    ensures HtmlAttr(a, env) == []
  {
    var k := NameText(a.name);
    var v := AttrValue(a, env);
    var w := Op(Write(AttrPair(k, a.value.value)));
    RenderAttrOmitted(k, v);
    OutputAppend([Chr(' ')], [w], env);
    assert Output([Chr(' ')], env) == Cat(Some([' ']), Some([]));
    assert Output([w], env) == Cat(Some([]), Some([]));
    assert [' '] + [] + ([] + []) == " ";
  }

  lemma {:induction false} RenderAttrOmitted(k: string, v: Value)
    requires Attrable(v) && Omitted(v)
    ensures RenderAttr(k, v) == []
  {
    if v.Opt? && v.opt.Some? {
      RenderAttrOmitted(k, v.opt.value);
    }
  }

  /** A template that is one void element runs to its open tag. */
  lemma VoidRun(name: Name, o: Option<Attrs>, attrs: string, env: Env)
    requires Output(AttrsPieces(o), env) == Some(attrs)
    ensures Run(Compile(GroupPieces(Group([Elem(Void(name, o))]))), env) == Some("<" + NameText(name) + attrs + ">")
  {
    var g := Group([Elem(Void(name, o))]);
    assert [Elem(Void(name, o))][..0] == [];
    assert NodePieces(Elem(Void(name, o))) == ElementPieces(Void(name, o)) == OpenTagPieces(name, o);
    assert GroupPieces(g) == NodesPieces([]) + NodePieces(Elem(Void(name, o)));
    assert [] + OpenTagPieces(name, o) == OpenTagPieces(name, o);
    OpenTagOutput(name, o, attrs, env);
    RunCompile([], GroupPieces(g), env);
    assert [] + ("<" + NameText(name) + attrs + ">") == "<" + NameText(name) + attrs + ">";
  }

  /** The template `input[checked = value];`. */
  function InputChecked(value: Expr): Group
  {
    Group([Elem(Void(LitName("input"), Some(Attrs([Attr(LitName("checked"), Some(value))]))))])
  }

  /** With `c == false`, `input[checked = c];` runs to `<input >`. */
  lemma DynamicFalseRun(env: Env)
    requires env("c") == Bool(false)
    ensures Run(Compile(GroupPieces(InputChecked(Code("c")))), env) == Some("<input >")
  {
    var dyn := Attr(LitName("checked"), Some(Code("c")));
    assert [dyn][..0] == [];
    DynamicOmittedSpace(dyn, env);
    assert AttrListPieces([dyn]) == [] + AttrPieces(dyn);
    assert [] + AttrPieces(dyn) == AttrPieces(dyn);
    VoidRun(LitName("input"), Some(Attrs([dyn])), " ", env);
    assert "<" + "input" + " " + ">" == "<input >";
  }

  /** `input[checked = false];` runs to `<input>`. */
  lemma LiteralFalseRun(env: Env)
    ensures Run(Compile(GroupPieces(InputChecked(BoolLit(false)))), env) == Some("<input>")
  {
    var lit := Attr(LitName("checked"), Some(BoolLit(false)));
    assert [lit][..0] == [];
    assert AttrPieces(lit) == [];
    assert AttrListPieces([lit]) == [] + [];
    assert Output([], env) == Some([]);
    VoidRun(LitName("input"), Some(Attrs([lit])), [], env);
    assert "<" + "input" + [] + ">" == "<input>";
  }

  /** With `c == false`, the HTML `input[checked = c];` stands for is `<input>`. */
  lemma DynamicFalseHtml(env: Env)
    requires env("c") == Bool(false)
    ensures HtmlGroup(InputChecked(Code("c")), env) == "<input>"
  {
    var dyn := Attr(LitName("checked"), Some(Code("c")));
    var e := Void(LitName("input"), Some(Attrs([dyn])));
    assert [dyn][..0] == [];
    assert HtmlAttrList([dyn], env) == [] + [];
    assert HtmlAttrs(e.attrs, env) == [];
    assert HtmlElement(e, env) == "<" + "input" + [] + ">";
    assert HtmlNode(Elem(e), env) == HtmlElement(e, env);
    assert HtmlGroup(InputChecked(Code("c")), env) == HtmlNodes([], env) + HtmlNode(Elem(e), env);
  }

  /** With `c == false`, `input[checked = c];` renders `<input >` where the HTML it stands for,
      and what `input[checked = false];` renders, is `<input>`. */
  lemma InputCheckedFalse(env: Env)
    requires env("c") == Bool(false)
    ensures Run(Compile(GroupPieces(InputChecked(Code("c")))), env) == Some("<input >")
    ensures HtmlGroup(InputChecked(Code("c")), env) == "<input>"
    ensures Run(Compile(GroupPieces(InputChecked(BoolLit(false)))), env) == Some("<input>")
  {
    DynamicFalseRun(env);
    DynamicFalseHtml(env);
    LiteralFalseRun(env);
  }

  // ---------------------------------------------------------------------------------------
  // Templates with only static content.

  /** No interpolation other than a string literal and no attribute value other than a
      literal: everything the template writes is known when it is generated. */
  predicate Static(g: Group)
    decreases g, 1
  {
    forall k :: 0 <= k < |g.nodes| ==> StaticNode(g.nodes[k])
  }

  predicate StaticNode(n: Node)
    decreases n, 0
  {
    match n
    case Elem(e) =>
      && (e.attrs.Some? ==> forall k :: 0 <= k < |e.attrs.value.items| ==> StaticAttr(e.attrs.value.items[k]))
      && (e.Normal? && e.inner.Some? ==> Static(e.inner.value))
    case Interp(v) => v.ExprValue? && v.expr.StrLit?
    case Literal(_) => true
  }

  predicate StaticAttr(a: Attr)
  {
    a.value.Some? ==> !a.value.value.Code?
  }

  predicate AllChr(items: seq<Piece>)
  {
    forall k :: 0 <= k < |items| ==> items[k].Chr?
  }

  lemma AllChrAppend(a: seq<Piece>, b: seq<Piece>)
    requires AllChr(a) && AllChr(b)
    ensures AllChr(a + b)
  {
    forall k | 0 <= k < |a + b| ensures (a + b)[k].Chr? {
      if k >= |a| { assert (a + b)[k] == b[k - |a|]; }
    }
  }

  /** Characters that write `t` are the characters of `t`. */
  lemma {:induction false} AllChrOutput(items: seq<Piece>, t: string, env: Env)
    requires AllChr(items) && Output(items, env) == Some(t)
    ensures items == Chars(t)
    decreases |items|
  {
    if items != [] {
      assert items[0].Chr?;
      assert AllChr(items[1..]) by {
        forall k | 0 <= k < |items[1..]| ensures items[1..][k].Chr? { assert items[1..][k] == items[k + 1]; }
      }
      var rest := Output(items[1..], env).value;
      AllChrOutput(items[1..], rest, env);
      assert t == [items[0].c] + rest;
      assert items == [items[0]] + items[1..];
      assert Chars(t)[1..] == Chars(rest) && Chars(t)[0] == items[0];
    }
  }

  lemma StaticStraight(g: Group, env: Env)
    requires Static(g)
    ensures Straight(g, env)
    decreases g, 1
  {
    forall k | 0 <= k < |g.nodes| ensures StraightNode(g.nodes[k], env) {
      var n := g.nodes[k];
      assert StaticNode(n);
      if n.Elem? {
        var e := n.element;
        if e.attrs.Some? {
          forall j | 0 <= j < |e.attrs.value.items| ensures AttrOk(e.attrs.value.items[j], env) {
            assert StaticAttr(e.attrs.value.items[j]);
          }
        }
        if e.Normal? && e.inner.Some? {
          StaticStraight(e.inner.value, env);
        }
      }
    }
  }

  lemma {:induction false} StaticGroupChars(g: Group)
    requires Static(g)
    ensures AllChr(GroupPieces(g))
    decreases g, 2
  {
    StaticNodesChars(g.nodes);
  }

  lemma {:induction false} StaticNodesChars(ns: seq<Node>)
    requires forall k :: 0 <= k < |ns| ==> StaticNode(ns[k])
    ensures AllChr(NodesPieces(ns))
    decreases ns, 1
  {
    if ns != [] {
      StaticNodesChars(ns[..|ns| - 1]);
      StaticNodeChars(ns[|ns| - 1]);
      AllChrAppend(NodesPieces(ns[..|ns| - 1]), NodePieces(ns[|ns| - 1]));
    }
  }

  lemma {:induction false} StaticNodeChars(n: Node)
    requires StaticNode(n)
    ensures AllChr(NodePieces(n))
    decreases n, 1
  {
    if n.Elem? {
      var e := n.element;
      assert AllChr(AttrsPieces(e.attrs)) by {
        if e.attrs.Some? {
          StaticAttrListChars(e.attrs.value.items);
        }
      }
      AllChrAppend([Chr('<')], Chars(NameText(e.name)));
      AllChrAppend([Chr('<')] + Chars(NameText(e.name)), AttrsPieces(e.attrs));
      AllChrAppend([Chr('<')] + Chars(NameText(e.name)) + AttrsPieces(e.attrs), [Chr('>')]);
      if e.Normal? {
        assert AllChr(InnerPieces(e.inner)) by {
          if e.inner.Some? {
            StaticGroupChars(e.inner.value);
          }
        }
        AllChrAppend([Chr('<')], [Chr('/')]);
        AllChrAppend([Chr('<')] + [Chr('/')], Chars(NameText(e.name)));
        AllChrAppend([Chr('<')] + [Chr('/')] + Chars(NameText(e.name)), [Chr('>')]);
        AllChrAppend(OpenTagPieces(e.name, e.attrs), InnerPieces(e.inner));
        AllChrAppend(OpenTagPieces(e.name, e.attrs) + InnerPieces(e.inner), CloseTagPieces(e.name));
      }
    }
  }

  lemma {:induction false} StaticAttrListChars(attrs: seq<Attr>)
    requires forall k :: 0 <= k < |attrs| ==> StaticAttr(attrs[k])
    ensures AllChr(AttrListPieces(attrs))
    decreases |attrs|
  {
    if attrs != [] {
      var a := attrs[|attrs| - 1];
      StaticAttrListChars(attrs[..|attrs| - 1]);
      assert AllChr(AttrPieces(a)) by {
        var k := Chars(NameText(a.name));
        AllChrAppend([Chr(' ')], k);
        if a.value.Some? && a.value.value.StrLit? {
          AllChrAppend([Chr(' ')] + k, [Chr('=')]);
          AllChrAppend([Chr(' ')] + k + [Chr('=')], [Chr('"')]);
          AllChrAppend([Chr(' ')] + k + [Chr('=')] + [Chr('"')], Chars(Escape(a.value.value.text)));
          AllChrAppend([Chr(' ')] + k + [Chr('=')] + [Chr('"')] + Chars(Escape(a.value.value.text)), [Chr('"')]);
        }
      }
      AllChrAppend(AttrListPieces(attrs[..|attrs| - 1]), AttrPieces(a));
    }
  }

  /** A template with only static content is generated as one raw write of its HTML (none
      when that is empty): no other instruction, whatever the host values are. */
  lemma StaticOneFlush(g: Group, env: Env)
    requires Static(g)
    ensures Compile(GroupPieces(g)) == FlushOf(HtmlGroup(g, env))
  {
    StaticStraight(g, env);
    GroupOutput(g, env);
    StaticGroupChars(g);
    AllChrOutput(GroupPieces(g), HtmlGroup(g, env), env);
    CompileChars([], HtmlGroup(g, env), []);
    assert Chars(HtmlGroup(g, env)) + [] == Chars(HtmlGroup(g, env));
    assert [] + HtmlGroup(g, env) == HtmlGroup(g, env);
  }
}
