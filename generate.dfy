/** The code generator of packages/avosetta-macros/src/generate.rs: a `Stream` that gathers
    static text in a pending buffer and flushes it as one raw write whenever an instruction
    has to be emitted, and one `Gen` method per AST type. Each method is proved against the
    pieces the AST node contributes (static characters and instructions, in order), and the
    finished stream is proved to be the literal-merged program of those pieces. */
module Generator {
  import opened Wrappers
  import opened Ast
  import opened Escaping
  import opened Program
  import opened Sequences

  // ---------------------------------------------------------------------------------------
  // What each AST node contributes to the output, before merging.

  /** A braced block whose body is an independent stream of the given pieces. */
  function Nested(items: seq<Piece>): Piece
  {
    Op(Block(Compile(items)))
  }

  function GroupPieces(g: Group): seq<Piece>
    decreases g, 1
  {
    NodesPieces(g.nodes)
  }

  function NodesPieces(ns: seq<Node>): seq<Piece>
    decreases ns, 0
  {
    if ns == [] then [] else NodesPieces(ns[..|ns| - 1]) + NodePieces(ns[|ns| - 1])
  }

  function NodePieces(n: Node): seq<Piece>
    decreases n, 0
  {
    match n
    case Elem(e) => ElementPieces(e)
    case Interp(v) => InterpPieces(v)
    case Literal(s) => Chars(Escape(s))
  }

  /** A normal element is its open tag, its children and its close tag; a void element is
      its open tag alone. The name is not escaped. */
  function ElementPieces(e: Element): seq<Piece>
    decreases e, 1
  {
    match e
    case Normal(name, attrs, inner) => OpenTagPieces(name, attrs) + InnerPieces(inner) + CloseTagPieces(name)
    case Void(name, attrs) => OpenTagPieces(name, attrs)
  }

  function OpenTagPieces(name: Name, attrs: Option<Attrs>): seq<Piece>
  {
    [Chr('<')] + Chars(NameText(name)) + AttrsPieces(attrs) + [Chr('>')]
  }

  function CloseTagPieces(name: Name): seq<Piece>
  {
    [Chr('<')] + [Chr('/')] + Chars(NameText(name)) + [Chr('>')]
  }

  function InnerPieces(inner: Option<Group>): seq<Piece>
    decreases inner, 0
  {
    if inner.Some? then GroupPieces(inner.value) else []
  }

  function AttrsPieces(o: Option<Attrs>): seq<Piece>
  {
    if o.Some? then AttrListPieces(o.value.items) else []
  }

  function AttrListPieces(attrs: seq<Attr>): seq<Piece>
  {
    if attrs == [] then [] else AttrListPieces(attrs[..|attrs| - 1]) + AttrPieces(attrs[|attrs| - 1])
  }

  /** A literal string value is escaped into ` name="..."`; `true` or no value is ` name`;
      `false` is nothing; any other value is a space followed by a runtime `Attr` write. */
  function AttrPieces(a: Attr): seq<Piece>
  {
    var k := Chars(NameText(a.name));
    match a.value
    case None => [Chr(' ')] + k
    case Some(StrLit(s)) => [Chr(' ')] + k + [Chr('=')] + [Chr('"')] + Chars(Escape(s)) + [Chr('"')]
    case Some(BoolLit(b)) => if b then [Chr(' ')] + k else []
    case Some(Code(c)) => [Chr(' ')] + [Op(Write(AttrPair(NameText(a.name), Code(c))))]
  }

  /** A string literal is escaped into the text; any other expression is one runtime write. */
  function InterpPieces(v: InterpValue): seq<Piece>
    decreases v, 0
  {
    match v
    case ExprValue(e) => if e.StrLit? then Chars(Escape(e.text)) else [Op(Write(Val(e)))]
    case If(i) =>
      [Op(Head(IfHead(i.cond)))] + [Nested(GroupPieces(i.thenBranch))]
      + ElseIfsPieces(i.elseIfs) + ElsePieces(i.elseBranch)
    case Match(m) => [Op(Head(MatchHead(m.scrutinee)))] + [Nested(ArmsPieces(m.arms))]
    case For(f) => [Op(Head(ForHead(f.pat, f.iter)))] + [Nested(GroupPieces(f.body))]
  }

  function ElseIfsPieces(eis: seq<ElseIf>): seq<Piece>
    decreases eis, 0
  {
    if eis == [] then [] else ElseIfsPieces(eis[..|eis| - 1]) + ElseIfPieces(eis[|eis| - 1])
  }

  function ElseIfPieces(ei: ElseIf): seq<Piece>
    decreases ei, 0
  {
    [Op(Head(ElseIfHead(ei.cond)))] + [Nested(GroupPieces(ei.group))]
  }

  function ElsePieces(el: Option<Group>): seq<Piece>
    decreases el, 0
  {
    if el.Some? then [Op(Head(ElseHead))] + [Nested(GroupPieces(el.value))] else []
  }

  function ArmsPieces(arms: seq<InterpArm>): seq<Piece>
    decreases arms, 0
  {
    if arms == [] then [] else ArmsPieces(arms[..|arms| - 1]) + ArmPieces(arms[|arms| - 1])
  }

  /** An arm is its pattern header and a block holding the body's own stream; a braced body
      is therefore a block inside that block. */
  function ArmPieces(a: InterpArm): seq<Piece>
    decreases a, 0
  {
    [Op(Head(ArmHead(a.pat)))] + [Nested(ArmBodyPieces(a.body))]
  }

  function ArmBodyPieces(b: ArmBody): seq<Piece>
    decreases b, 0
  {
    match b
    case ArmGroup(g) => [Nested(GroupPieces(g))]
    case ArmLiteral(s) => Chars(Escape(s))
  }

  /** A bare attribute and one given the literal `true` generate the same text, ` name`, with
      no instruction; the literal `false` generates nothing at all. */
  lemma BoolShorthand(n: Name)
    ensures AttrPieces(Attr(n, None)) == AttrPieces(Attr(n, Some(BoolLit(true))))
    ensures AttrPieces(Attr(n, None)) == Chars(" " + NameText(n))
    ensures AttrPieces(Attr(n, Some(BoolLit(false)))) == []
  {
    CharsAppend(" ", NameText(n));
  }

  /** A compiled arm is its header and one block; inside it, a braced body is one more block
      around the group's own program, and a literal body is a single flush of its escaped text. */
  lemma ArmBlocks(a: InterpArm)
    ensures Compile(ArmPieces(a)) == [Head(ArmHead(a.pat)), Block(Compile(ArmBodyPieces(a.body)))]
    ensures a.body.ArmGroup? ==> Compile(ArmBodyPieces(a.body)) == [Block(Compile(GroupPieces(a.body.group)))]
    ensures a.body.ArmLiteral? ==> Compile(ArmBodyPieces(a.body)) == FlushOf(Escape(a.body.text))
  {
    var items := ArmPieces(a);
    var body := Block(Compile(ArmBodyPieces(a.body)));
    assert items[1..] == [Op(body)] && items[1..][1..] == [];
    assert CompileFrom([], [Op(body)]) == [] + [body] + [];
    assert Compile(items) == [] + [Head(ArmHead(a.pat))] + [body];
    if a.body.ArmGroup? {
      var b := ArmBodyPieces(a.body);
      var inner := Block(Compile(GroupPieces(a.body.group)));
      assert b == [Op(inner)] && b[1..] == [];
      assert CompileFrom([], b) == [] + [inner] + [];
    } else {
      CompileChars([], Escape(a.body.text), []);
      assert Chars(Escape(a.body.text)) + [] == Chars(Escape(a.body.text));
      assert [] + Escape(a.body.text) == Escape(a.body.text);
    }
  }

  // ---------------------------------------------------------------------------------------
  // The stream.

  /** A canonical program that does not end in a flush stays canonical when a flush of a
      pending literal and then a non-flush instruction are appended. */
  lemma PushKeepsMerged(p: seq<Instr>, pending: string, i: Instr)
    requires WellMerged(p) && (p != [] ==> !p[|p| - 1].Flush?)
    requires !i.Flush? && WellMergedInstr(i)
    ensures WellMerged(p + FlushOf(pending) + [i])
    ensures Explode(p + FlushOf(pending) + [i]) == Explode(p) + Chars(pending) + [Op(i)]
  {
    var q := p + FlushOf(pending);
    assert Canonical(q) by {
      forall k | 0 <= k < |q| - 1 && q[k].Flush? ensures !q[k + 1].Flush? {
        assert q[k] == p[k];
        if k + 1 < |p| { assert q[k + 1] == p[k + 1]; }
      }
      forall k | 0 <= k < |q| && q[k].Flush? ensures q[k].text != [] {
        if k < |p| { assert q[k] == p[k]; }
      }
    }
    CanonicalJoin(q, i, []);
    assert q + [i] + [] == q + [i];
    forall k | 0 <= k < |q + [i]| ensures WellMergedInstr((q + [i])[k]) {
      if k < |p| { assert (q + [i])[k] == p[k]; }
    }
    ExplodeAppend(q, [i]);
    ExplodeAppend(p, FlushOf(pending));
    assert Explode([i]) == [Op(i)];
    assert Explode(FlushOf(pending)) == Chars(pending) by {
      if pending != [] { assert Explode([Flush(pending)]) == Chars(pending) + []; }
    }
  }

  /** The emitted instructions are merged and never end in a flush, so flushing the buffer
      can never put two flushes side by side; together with the buffer they hold exactly
      what was pushed. */
  ghost predicate StreamInv(stream: seq<Instr>, buffer: string, content: seq<Piece>)
  {
    && WellMerged(stream)
    && (stream != [] ==> !stream[|stream| - 1].Flush?)
    && content == Explode(stream) + Chars(buffer)
  }

  /** The generator's output under construction: `stream` holds the emitted instructions and
      `buffer` the static text not yet flushed. */
  class Stream {
    var stream: seq<Instr>
    var buffer: string
    /** Everything pushed so far, piece by piece. */
    ghost var content: seq<Piece>

    ghost predicate Valid()
      reads this
    {
      StreamInv(stream, buffer, content)
    }

    constructor ()
      ensures Valid() && stream == [] && buffer == [] && content == []
    {
      stream := [];
      buffer := [];
      content := [];
    }

    method PushChar(ch: char)
      requires Valid()
      modifies this
      ensures Valid() && stream == old(stream) && buffer == old(buffer) + [ch]
      ensures content == old(content) + [Chr(ch)]
    {
      buffer := buffer + [ch];
      content := content + [Chr(ch)];
      CharsAppend(old(buffer), [ch]);
      assert Chars([ch]) == [Chr(ch)];
      Append2(Explode(stream), Chars(old(buffer)), [Chr(ch)]);
    }

    method PushRaw(s: string)
      requires Valid()
      modifies this
      ensures Valid() && stream == old(stream) && buffer == old(buffer) + s
      ensures content == old(content) + Chars(s)
    {
      buffer := buffer + s;
      content := content + Chars(s);
      CharsAppend(old(buffer), s);
      Append2(Explode(stream), Chars(old(buffer)), Chars(s));
    }

    /** Escapes `s` character by character into the buffer. */
    method PushEscaped(s: string)
      requires Valid()
      modifies this
      ensures Valid() && stream == old(stream) && buffer == old(buffer) + Escape(s)
      ensures content == old(content) + Chars(Escape(s))
    {
      var b := buffer;
      for i := 0 to |s|
        invariant unchanged(this) && b == old(buffer) + Escape(s[..i])
      {
        EscapeSnoc(s, i);
        Append2(old(buffer), Escape(s[..i]), EscapeChar(s[i]));
        b := b + EscapeChar(s[i]);
      }
      assert s[..|s|] == s;
      buffer := b;
      content := content + Chars(Escape(s));
      CharsAppend(old(buffer), Escape(s));
      Append2(Explode(stream), Chars(old(buffer)), Chars(Escape(s)));
    }

    /** Flushes a non-empty buffer as one raw write, then emits the instruction. */
    method PushTokens(i: Instr)
      requires Valid() && !i.Flush? && WellMergedInstr(i)
      modifies this
      ensures Valid() && stream == old(stream) + FlushOf(old(buffer)) + [i] && buffer == []
      ensures content == old(content) + [Op(i)]
    {
      PushKeepsMerged(stream, buffer, i);
      if buffer != [] {
        stream := stream + [Flush(buffer)];
        buffer := [];
      } else {
        assert old(stream) + FlushOf(old(buffer)) == stream;
      }
      stream := stream + [i];
      content := content + [Op(i)];
      assert Chars(buffer) == [];
      assert content == Explode(stream) + Chars(buffer);
    }

    method PushWrite(arg: Arg)
      requires Valid()
      modifies this
      ensures Valid() && stream == old(stream) + FlushOf(old(buffer)) + [Write(arg)] && buffer == []
      ensures content == old(content) + [Op(Write(arg))]
    {
      PushTokens(Write(arg));
    }

    /** Emits the finished nested stream as one block. */
    method PushBraced(nested: Stream)
      requires Valid() && nested.Valid() && nested != this
      modifies this
      ensures Valid() && buffer == []
      ensures stream == old(stream) + FlushOf(old(buffer)) + [Block(Compile(nested.content))]
      ensures content == old(content) + [Nested(nested.content)]
    {
      var body := nested.ToTokens();
      PushTokens(Block(body));
    }

    /** The finished program: the instructions followed by a flush of what is left in the
        buffer. It is the literal-merged form of everything pushed, and loses nothing. */
    function ToTokens(): (p: seq<Instr>)
      reads this
      requires Valid()
      ensures p == stream + FlushOf(buffer)
      ensures WellMerged(p) && Explode(p) == content
      ensures p == Compile(content)
    {
      var p := stream + FlushOf(buffer);
      assert WellMerged(p) by {
        if buffer != [] {
          forall k | 0 <= k < |p| - 1 && p[k].Flush? ensures !p[k + 1].Flush? {
            assert p[k] == stream[k];
            if k + 1 < |stream| { assert p[k + 1] == stream[k + 1]; }
          }
          forall k | 0 <= k < |p| ensures WellMergedInstr(p[k]) && (p[k].Flush? ==> p[k].text != []) {
            if k < |stream| { assert p[k] == stream[k]; }
          }
        } else {
          assert p == stream;
        }
      }
      ExplodeAppend(stream, FlushOf(buffer));
      assert Explode(FlushOf(buffer)) == Chars(buffer) by {
        if buffer != [] { assert Explode([Flush(buffer)]) == Chars(buffer) + []; }
      }
      CompileOfCanonical(p);
      p
    }
  }

  // ---------------------------------------------------------------------------------------
  // One generate method per AST type.

  method GenGroup(g: Group, s: Stream)
    requires s.Valid()
    modifies s
    ensures s.Valid() && s.content == old(s.content) + GroupPieces(g)
    decreases g, 1
  {
    for i := 0 to |g.nodes|
      invariant s.Valid() && s.content == old(s.content) + NodesPieces(g.nodes[..i])
    {
      GenNode(g.nodes[i], s);
      assert g.nodes[..i + 1][..i] == g.nodes[..i];
      Append2(old(s.content), NodesPieces(g.nodes[..i]), NodePieces(g.nodes[i]));
    }
    assert g.nodes[..|g.nodes|] == g.nodes;
  }

  /** `push_braced` with the closure `|stream| group.generate(stream)`: the group is generated
      into a fresh stream, which is emitted as one block. */
  method GenBracedGroup(g: Group, s: Stream)
    requires s.Valid()
    modifies s
    ensures s.Valid() && s.content == old(s.content) + [Nested(GroupPieces(g))]
    decreases g, 2
  {
    var nested := new Stream();
    GenGroup(g, nested);
    assert nested.content == GroupPieces(g);
    s.PushBraced(nested);
  }

  method GenNode(n: Node, s: Stream)
    requires s.Valid()
    modifies s
    ensures s.Valid() && s.content == old(s.content) + NodePieces(n)
    decreases n, 0
  {
    match n
    case Elem(e) => GenElement(e, s);
    case Interp(v) => GenInterp(v, s);
    case Literal(text) => GenLitStr(text, s);
  }

  /** A literal string is escaped at generation time. */
  method GenLitStr(text: string, s: Stream)
    requires s.Valid()
    modifies s
    ensures s.Valid() && s.content == old(s.content) + Chars(Escape(text))
  {
    s.PushEscaped(text);
  }

  method GenName(n: Name, s: Stream)
    requires s.Valid()
    modifies s
    ensures s.Valid() && s.content == old(s.content) + Chars(NameText(n))
  {
    match n
    case LitName(text) => s.PushRaw(text);
    case IdentName(ident) => s.PushRaw(ident);
  }

  method GenElement(e: Element, s: Stream)
    requires s.Valid()
    modifies s
    ensures s.Valid() && s.content == old(s.content) + ElementPieces(e)
    decreases e, 0
  {
    match e
    case Normal(name, attrs, inner) => GenNormal(name, attrs, inner, s);
    case Void(name, attrs) => GenVoid(name, attrs, s);
  }

  method GenNormal(name: Name, attrs: Option<Attrs>, inner: Option<Group>, s: Stream)
    requires s.Valid()
    modifies s
    ensures s.Valid() && s.content == old(s.content) + ElementPieces(Normal(name, attrs, inner))
    decreases inner, 1
  {
    ghost var c0 := s.content;
    s.PushChar('<');
    GenName(name, s);
    ghost var c1 := s.content;
    if attrs.Some? {
      GenAttrs(attrs.value, s);
    } else {
      assert c1 + AttrsPieces(attrs) == c1;
    }
    s.PushChar('>');
    Append4(c0, [Chr('<')], Chars(NameText(name)), AttrsPieces(attrs), [Chr('>')]);
    ghost var c2 := s.content;
    if inner.Some? {
      GenGroup(inner.value, s);
    } else {
      assert c2 + InnerPieces(inner) == c2;
    }
    ghost var c3 := s.content;
    s.PushChar('<');
    s.PushChar('/');
    GenName(name, s);
    s.PushChar('>');
    Append4(c3, [Chr('<')], [Chr('/')], Chars(NameText(name)), [Chr('>')]);
    Append3(c0, OpenTagPieces(name, attrs), InnerPieces(inner), CloseTagPieces(name));
  }

  method GenVoid(name: Name, attrs: Option<Attrs>, s: Stream)
    requires s.Valid()
    modifies s
    ensures s.Valid() && s.content == old(s.content) + ElementPieces(Void(name, attrs))
  {
    ghost var c0 := s.content;
    s.PushChar('<');
    GenName(name, s);
    ghost var c1 := s.content;
    if attrs.Some? {
      GenAttrs(attrs.value, s);
    } else {
      assert c1 + AttrsPieces(attrs) == c1;
    }
    s.PushChar('>');
    Append4(c0, [Chr('<')], Chars(NameText(name)), AttrsPieces(attrs), [Chr('>')]);
  }

  method GenAttrs(attrs: Attrs, s: Stream)
    requires s.Valid()
    modifies s
    ensures s.Valid() && s.content == old(s.content) + AttrListPieces(attrs.items)
  {
    for i := 0 to |attrs.items|
      invariant s.Valid() && s.content == old(s.content) + AttrListPieces(attrs.items[..i])
    {
      GenAttr(attrs.items[i], s);
      assert attrs.items[..i + 1][..i] == attrs.items[..i];
      Append2(old(s.content), AttrListPieces(attrs.items[..i]), AttrPieces(attrs.items[i]));
    }
    assert attrs.items[..|attrs.items|] == attrs.items;
  }

  method GenAttr(a: Attr, s: Stream)
    requires s.Valid()
    modifies s
    ensures s.Valid() && s.content == old(s.content) + AttrPieces(a)
  {
    ghost var c0 := s.content;
    if a.value.Some? {
      match a.value.value
      case StrLit(text) =>
        s.PushChar(' ');
        GenName(a.name, s);
        s.PushChar('=');
        s.PushChar('"');
        s.PushEscaped(text);
        s.PushChar('"');
        Append6(c0, [Chr(' ')], Chars(NameText(a.name)), [Chr('=')], [Chr('"')], Chars(Escape(text)), [Chr('"')]);
      case BoolLit(flag) =>
        if flag {
          s.PushChar(' ');
          GenName(a.name, s);
          Append2(c0, [Chr(' ')], Chars(NameText(a.name)));
        } else {
          assert c0 + AttrPieces(a) == c0;
        }
      case Code(source) =>
        s.PushChar(' ');
        s.PushWrite(AttrPair(NameText(a.name), a.value.value));
        Append2(c0, [Chr(' ')], [Op(Write(AttrPair(NameText(a.name), a.value.value)))]);
    } else {
      s.PushChar(' ');
      GenName(a.name, s);
      Append2(c0, [Chr(' ')], Chars(NameText(a.name)));
    }
  }

  method GenInterp(v: InterpValue, s: Stream)
    requires s.Valid()
    modifies s
    ensures s.Valid() && s.content == old(s.content) + InterpPieces(v)
    decreases v, 0
  {
    match v
    case Match(m) => GenMatch(m, s);
    case If(i) => GenIf(i, s);
    case ExprValue(e) =>
      if e.StrLit? {
        s.PushEscaped(e.text);
      } else {
        s.PushWrite(Val(e));
      }
    case For(f) => GenFor(f, s);
  }

  method GenMatch(m: InterpMatch, s: Stream)
    requires s.Valid()
    modifies s
    ensures s.Valid() && s.content == old(s.content) + InterpPieces(Match(m))
    decreases m, 0
  {
    s.PushTokens(Head(MatchHead(m.scrutinee)));
    var nested := new Stream();
    GenArms(m.arms, nested);
    assert nested.content == ArmsPieces(m.arms);
    s.PushBraced(nested);
    Append2(old(s.content), [Op(Head(MatchHead(m.scrutinee)))], [Nested(ArmsPieces(m.arms))]);
  }

  /** The closure `push_braced` is given in a `match`: every arm in order. */
  method GenArms(arms: seq<InterpArm>, s: Stream)
    requires s.Valid()
    modifies s
    ensures s.Valid() && s.content == old(s.content) + ArmsPieces(arms)
    decreases arms, 1
  {
    for i := 0 to |arms|
      invariant s.Valid() && s.content == old(s.content) + ArmsPieces(arms[..i])
    {
      GenArm(arms[i], s);
      assert arms[..i + 1][..i] == arms[..i];
      Append2(old(s.content), ArmsPieces(arms[..i]), ArmPieces(arms[i]));
    }
    assert arms[..|arms|] == arms;
  }

  method GenArm(a: InterpArm, s: Stream)
    requires s.Valid()
    modifies s
    ensures s.Valid() && s.content == old(s.content) + ArmPieces(a)
    decreases a, 1
  {
    s.PushTokens(Head(ArmHead(a.pat)));
    var nested := new Stream();
    GenArmBody(a.body, nested);
    assert nested.content == ArmBodyPieces(a.body);
    s.PushBraced(nested);
    Append2(old(s.content), [Op(Head(ArmHead(a.pat)))], [Nested(ArmBodyPieces(a.body))]);
  }

  method GenArmBody(b: ArmBody, s: Stream)
    requires s.Valid()
    modifies s
    ensures s.Valid() && s.content == old(s.content) + ArmBodyPieces(b)
    decreases b, 0
  {
    match b
    case ArmGroup(g) =>
      GenBracedGroup(g, s);
    case ArmLiteral(text) =>
      GenLitStr(text, s);
  }

  method GenFor(f: InterpFor, s: Stream)
    requires s.Valid()
    modifies s
    ensures s.Valid() && s.content == old(s.content) + InterpPieces(For(f))
    decreases f, 0
  {
    s.PushTokens(Head(ForHead(f.pat, f.iter)));
    GenBracedGroup(f.body, s);
    Append2(old(s.content), [Op(Head(ForHead(f.pat, f.iter)))], [Nested(GroupPieces(f.body))]);
  }

  method GenIf(i: InterpIf, s: Stream)
    requires s.Valid()
    modifies s
    ensures s.Valid() && s.content == old(s.content) + InterpPieces(If(i))
    decreases i, 0
  {
    ghost var c0 := s.content;
    s.PushTokens(Head(IfHead(i.cond)));
    GenBracedGroup(i.thenBranch, s);
    GenElseIfs(i.elseIfs, s);
    ghost var c2 := s.content;
    if i.elseBranch.Some? {
      GenElse(i.elseBranch.value, s);
    } else {
      assert c2 + ElsePieces(i.elseBranch) == c2;
    }
    Append4(c0, [Op(Head(IfHead(i.cond)))], [Nested(GroupPieces(i.thenBranch))],
      ElseIfsPieces(i.elseIfs), ElsePieces(i.elseBranch));
  }

  /** The `else if` branches, in order. */
  method GenElseIfs(eis: seq<ElseIf>, s: Stream)
    requires s.Valid()
    modifies s
    ensures s.Valid() && s.content == old(s.content) + ElseIfsPieces(eis)
    decreases eis, 1
  {
    for j := 0 to |eis|
      invariant s.Valid() && s.content == old(s.content) + ElseIfsPieces(eis[..j])
    {
      GenElseIf(eis[j], s);
      assert eis[..j + 1][..j] == eis[..j];
      Append2(old(s.content), ElseIfsPieces(eis[..j]), ElseIfPieces(eis[j]));
    }
    assert eis[..|eis|] == eis;
  }

  method GenElseIf(ei: ElseIf, s: Stream)
    requires s.Valid()
    modifies s
    ensures s.Valid() && s.content == old(s.content) + ElseIfPieces(ei)
    decreases ei, 0
  {
    s.PushTokens(Head(ElseIfHead(ei.cond)));
    GenBracedGroup(ei.group, s);
    Append2(old(s.content), [Op(Head(ElseIfHead(ei.cond)))], [Nested(GroupPieces(ei.group))]);
  }

  method GenElse(g: Group, s: Stream)
    requires s.Valid()
    modifies s
    ensures s.Valid() && s.content == old(s.content) + ElsePieces(Some(g))
    decreases g, 3
  {
    s.PushTokens(Head(ElseHead));
    GenBracedGroup(g, s);
    Append2(old(s.content), [Op(Head(ElseHead))], [Nested(GroupPieces(g))]);
  }

  /** `to_token_stream`: generate a template into a fresh stream and finish it. The program is
      the literal-merged form of the template's pieces: canonical at every depth, and its
      output, piece by piece, is exactly the template's. */
  method ToTokenStream(g: Group) returns (p: seq<Instr>)
    ensures p == Compile(GroupPieces(g))
    ensures WellMerged(p) && Explode(p) == GroupPieces(g)
  {
    var s := new Stream();
    GenGroup(g, s);
    assert s.content == GroupPieces(g);
    p := s.ToTokens();
  }
}
