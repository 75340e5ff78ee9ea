/** The runtime rendering library, packages/avosetta/src/lib.rs: the `Html` impls that
    append a value to the caller's `String`, and the `Attr` key/value pair impls.
    The caller's `&mut String` is an in/out `string`: every write returns `s + <text>`. */
module Runtime {
  import opened Wrappers
  import opened Escaping
  import opened Sequences

  /** The runtime values with an `Html` impl covered here. `Closure(out)` is a writer
      closure (such as a compiled template) whose whole effect is to append `out`. */
  datatype Value =
    | Unit
    | Bool(flag: bool)
    | Char(ch: char)
    | Str(text: string)
    | Raw(raw: string)
    | Opt(opt: Option<Value>)
    | Int(n: int)
    | Closure(out: string)

  /** The decimal digits of `n`, most significant first (the text `itoa` produces). */
  function Digits(n: nat): (r: string)
    ensures |r| >= 1 && NoSpecial(r)
  {
    var d := ['0', '1', '2', '3', '4', '5', '6', '7', '8', '9'][n % 10];
    if n < 10 then [d] else Digits(n / 10) + [d]
  }

  /** The decimal form of an integer, with a leading `-` when negative. */
  function Decimal(i: int): (r: string)
    ensures |r| >= 1 && NoSpecial(r)
  {
    if i < 0 then "-" + Digits(-i) else Digits(i)
  }

  /** The text `Html::write` appends for a value. */
  function Render(v: Value): string
  {
    match v
    case Unit => ""
    case Bool(b) => if b then "true" else "false"
    case Char(c) => EscapeChar(c)
    case Str(s) => Escape(s)
    case Raw(s) => s
    case Opt(o) => if o.Some? then Render(o.value) else ""
    case Int(i) => Decimal(i)
    case Closure(out) => out
  }

  /** The value types `Attr<&str, V>` implements `Html` for: `()` has no impl. */
  predicate Attrable(v: Value)
  {
    match v
    case Unit => false
    case Opt(o) => o.Some? ==> Attrable(o.value)
    case _ => true
  }

  /** The text `Attr(k, v)` appends: `k="v"` with `k` unescaped, only `k` for `true`,
      nothing for `false`, and through an `Option` what the inner value gives, or nothing. */
  function RenderAttr(k: string, v: Value): string
    requires Attrable(v)
  {
    match v
    case Bool(b) => if b then k else ""
    case Opt(o) => if o.Some? then RenderAttr(k, o.value) else ""
    case _ => k + "=\"" + Render(v) + "\""
  }

  /** `impl Html for char`. */
  method WriteChar(s: string, c: char) returns (s': string)
    ensures s' == s + Render(Char(c))
  {
    if c == '&' {
      s' := s + "&amp;";
    } else if c == '<' {
      s' := s + "&lt;";
    } else if c == '>' {
      s' := s + "&gt;";
    } else if c == '\'' {
      s' := s + "&apos;";
    } else if c == '"' {
      s' := s + "&quot;";
    } else {
      s' := s + [c];
    }
  }

  /** `impl Html for &str`: writes each character in turn. */
  method WriteStr(s: string, text: string) returns (s': string)
    ensures s' == s + Render(Str(text))
  {
    s' := s;
    for i := 0 to |text|
      invariant s' == s + Escape(text[..i])
    {
      EscapeSnoc(text, i);
      Append2(s, Escape(text[..i]), EscapeChar(text[i]));
      s' := WriteChar(s', text[i]);
    }
    assert text[..|text|] == text;
    assert Render(Str(text)) == Escape(text);
  }

  /** `Html::write`, dispatched on the value's type: `()`, `bool`, `char`, `&str`,
      `Raw<&str>`, `Option<T>`, the integer types and writer closures. */
  method Write(s: string, v: Value) returns (s': string)
    ensures s' == s + Render(v)
  {
    match v
    case Unit =>
      s' := s;
    case Bool(b) =>
      s' := if b then s + "true" else s + "false";
    case Char(c) =>
      s' := WriteChar(s, c);
    case Str(text) =>
      s' := WriteStr(s, text);
    case Raw(raw) =>
      s' := s + raw;
    case Opt(o) =>
      if o.Some? {
        s' := Write(s, o.value);
      } else {
        s' := s;
      }
    case Int(i) =>
      s' := s + Decimal(i);
    case Closure(out) =>
      s' := s + out;
  }

  /** `Html::write` for `Attr(k, v)`, dispatched on the value's type. */
  method WriteAttr(s: string, k: string, v: Value) returns (s': string)
    requires Attrable(v)
    ensures s' == s + RenderAttr(k, v)
  {
    match v
    case Bool(b) =>
      s' := if b then s + k else s;
    case Opt(o) =>
      if o.Some? {
        s' := WriteAttr(s, k, o.value);
      } else {
        s' := s;
      }
    case _ =>
      s' := s + k + "=\"";
      s' := Write(s', v);
      s' := s' + "\"";
  }

  /** A written string reads back as itself: runtime escaping loses nothing. */
  lemma StrDecodes(text: string)
    ensures Unescape(Render(Str(text))) == text
  {
    EscapeUnescape(text);
  }

  /** `Raw(s)` and `s` write the same text exactly when `s` holds none of `& < > ' "`. */
  lemma RawMatchesStr(text: string)
    ensures Render(Raw(text)) == Render(Str(text)) <==> NoSpecial(text)
  {
    EscapeIdentity(text);
  }

  /** Whether `Attr(k, v)` is left out entirely: `false` or `None`, under any number of `Some`. */
  predicate Omitted(v: Value)
  {
    match v
    case Bool(b) => !b
    case Opt(o) => o.Some? ==> Omitted(o.value)
    case _ => false
  }

  /** An attribute with a non-empty name writes nothing exactly when its value is omitted,
      and otherwise writes text that starts with the name. */
  lemma {:induction false} AttrOmission(k: string, v: Value)
    requires Attrable(v) && k != []
    ensures RenderAttr(k, v) == [] <==> Omitted(v)
    ensures RenderAttr(k, v) != [] ==> StartsWith(RenderAttr(k, v), k)
  {
    if v.Opt? {
      if v.opt.Some? {
        AttrOmission(k, v.opt.value);
      }
    } else if v.Str? || v.Char? || v.Raw? || v.Int? || v.Closure? {
      StartsWithAppend(k, "=\"" + Render(v) + "\"");
      assert k + "=\"" + Render(v) + "\"" == k + ("=\"" + Render(v) + "\"");
    }
  }

  /** A string, char or integer attribute value is written between the two quotes and holds no
      quote or angle bracket of its own, so it cannot end the attribute early. */
  lemma AttrValueQuoted(k: string, v: Value)
    requires v.Str? || v.Char? || v.Int?
    ensures var r := RenderAttr(k, v);
      && |r| >= |k| + 3
      && r[..|k|] == k && r[|k|..|k| + 2] == "=\"" && r[|r| - 1] == '"'
      && NoMarkup(r[|k| + 2..|r| - 1])
  {
    var x := Render(v);
    var r := RenderAttr(k, v);
    if v.Int? {
      forall j | 0 <= j < |x| ensures !Markup(x[j]) {
        assert !Special(x[j]);
      }
    }
    assert NoMarkup(x);
    assert r == k + "=\"" + x + "\"";
    assert |r| == |k| + 3 + |x|;
    assert r[..|k|] == k && r[|k|..|k| + 2] == "=\"";
    assert r[|k| + 2..|r| - 1] == x;
  }
}
