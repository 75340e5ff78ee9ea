# avosetta, modelled in Dafny

avosetta is a compile-time HTML templating language for Rust. The `html!` procedural macro
reads a template written as Rust tokens and builds a syntax tree of elements, literal text and
`@` interpolations (`@expr`, `@if`, `@match`, `@for`). It then generates the body of a closure
that appends HTML to a caller's `String`. The generator collects static text in a pending
buffer. It emits that buffer as one raw write only when a runtime write or a control-flow
statement has to follow, and once more at the very end. The runtime library supplies the
`Html::write` implementations those writes call: escaping text, passing raw text through, and
rendering `Attr(key, value)` pairs.

This project models four parts:
- the syntax tree (`ast.dfy`);
- the recursive-descent parser over token trees (`parse.dfy`), with a printer that it is proved
  to invert (`print.dfy`);
- the generator's `Stream` class and one method per syntax-tree type (`generate.dfy`), proved
  against the pieces each node contributes and the literal-merging function that builds the
  instruction list (`program.dfy`);
- the runtime `Html` and `Attr` implementations (`runtime.dfy`), with the escaping they share with
  the generator (`escape.dfy`).

`semantics.dfy` gives the generated instruction list a meaning, namely the text it appends for
given host values. It also states the HTML a template stands for. It proves that the two agree
for every template without control flow whose dynamic attributes are not omitted and have an
`Attr` implementation. It proves
that a template with only static content becomes a single raw write. Finally, it shows the one
place where the generated output differs from that HTML: a dynamic attribute whose value is
`false` or `None` still leaves the space the generator wrote in front of it, so `input[checked
= c];` with `c == false` renders `<input >`. `expand.dfy` is the macro itself: parse, then
generate.

The documentation example for `@"..."` describes the string as escaped at runtime. The code
escapes a string-literal interpolation when the macro runs instead (generate.rs lines 152-158).
The model follows the code. Both routes use the same escaping function, so the text written is
the same.

## Model

| member | source | states |
|---|---|---|
| Escaping.EscapeChar | packages/avosetta-macros/src/generate.rs:39-48 | a character is left as it is exactly when it is not one of `& < > ' "`; each of those becomes a longer entity, and no result holds a markup character |
| Escaping.Escape | packages/avosetta-macros/src/generate.rs:37-51 | escaped text is at least as long as the input and holds no `< > ' "` |
| Escaping.EscapeAppend | packages/avosetta-macros/src/generate.rs:38-50 | escaping works character by character: it distributes over concatenation |
| Escaping.EscapeIdentity | packages/avosetta/src/lib.rs:290-307 | escaping leaves a string unchanged exactly when it holds none of the five special characters |
| Escaping.EscapeUnescape | packages/avosetta/src/lib.rs:290-316 | decoding the five entities recovers the original text: escaping loses nothing |
| Runtime.Digits | packages/avosetta/src/lib.rs:347-358 | the decimal text of a natural number is non-empty and holds no special character |
| Runtime.Decimal | packages/avosetta/src/lib.rs:347-374 | the decimal text of an integer is non-empty and holds no special character, so writing it unescaped is safe |
| Runtime.WriteChar | packages/avosetta/src/lib.rs:290-307 | the new string is the old one followed by the character's escaped form |
| Runtime.WriteStr | packages/avosetta/src/lib.rs:309-316 | writing a `&str` character by character appends exactly the escaped string |
| Runtime.Write | packages/avosetta/src/lib.rs:274-345 | every `Html::write` only appends: `()` nothing, a bool `true`/`false`, a char or `&str` escaped, `Raw` unchanged, `None` nothing, `Some(x)` what `x` writes, a closure its output |
| Runtime.WriteAttr | packages/avosetta/src/lib.rs:408-470 | `Attr(k, v)` appends `k="v"` with `k` unescaped; `true` gives `k`, `false` and `None` give nothing, `Some(x)` gives what `Attr(k, x)` gives |
| Runtime.StrDecodes | packages/avosetta/src/lib.rs:309-316 | a written string decodes back to itself |
| Runtime.RawMatchesStr | packages/avosetta/src/lib.rs:318-323 | `Raw(s)` and `s` write the same text exactly when `s` holds no special character |
| Runtime.AttrOmission | packages/avosetta/src/lib.rs:438-457 | an attribute with a non-empty key writes nothing exactly when its value is `false` or `None` under any number of `Some`, and otherwise writes text that starts with the key |
| Runtime.AttrValueQuoted | packages/avosetta/src/lib.rs:408-436 | a string, char or integer value is written between the quotes and holds no quote or angle bracket, so it cannot end the attribute early |
| Parse.ParseName | packages/avosetta-macros/src/parse.rs:281-294 | a name is one string literal or non-keyword identifier token, with the text it stands for; a keyword such as `type` and any other token is an error |
| Parse.ParseAttr | packages/avosetta-macros/src/parse.rs:267-279 | an attribute has a value exactly when `=` follows its name |
| Parse.ParseAttrList | packages/avosetta-macros/src/parse.rs:262 | the comma-separated list fails on a leading comma, and is empty exactly when the bracket group is |
| Parse.ParseAttrs | packages/avosetta-macros/src/parse.rs:255-265 | an attribute list succeeds only on a bracket group and consumes exactly that token |
| Parse.ParseAttrsOpt | packages/avosetta-macros/src/parse.rs:225-229 | an element has attributes exactly when a bracket group follows its name, and only that group is consumed |
| Parse.ParseNodes | packages/avosetta-macros/src/parse.rs:16-22 | every node sequence parsed is well formed |
| Parse.NodesAbort | packages/avosetta-macros/src/parse.rs:18-20 | the first node that fails to parse fails the whole group and the whole template |
| Parse.ParseBraced | packages/avosetta-macros/src/parse.rs:82-83 | a braced group succeeds only on a brace token, consumes exactly it, and gives a well-formed group |
| Parse.ParseNode | packages/avosetta-macros/src/parse.rs:26-47 | a node is an element exactly when a name is followed by `{`, `;`, `[..]{` or `[..];`; otherwise a name must be a string literal, so a lone identifier is an error; a keyword is not a name; it is an interpolation exactly when it starts with `@`; any other first token is an error |
| Parse.ParseElement | packages/avosetta-macros/src/parse.rs:207-216 | an element is void exactly when `;` or a bracket group and `;` follows the name |
| Parse.ParseNormal | packages/avosetta-macros/src/parse.rs:218-238 | a normal element is parsed, its inner group is well formed, and the input shrinks |
| Parse.NormalInner | packages/avosetta-macros/src/parse.rs:225-235 | the brace group comes right after the name or after its attributes; the element has no children exactly when that group is empty |
| Parse.ParseInterpValue | packages/avosetta-macros/src/parse.rs:59-72 | after `@`, `if`, `match` and `for` select those constructs, and anything else is an expression |
| Parse.ParseIf | packages/avosetta-macros/src/parse.rs:74-100 | an `if` gives a well-formed construct and shrinks the input; when it has no `else` branch, no `else` follows it, so a present `else` is always taken |
| Parse.ParseElseIfs | packages/avosetta-macros/src/parse.rs:84-92 | the `else if` collector stops only where `else` is not followed by `if` |
| Parse.ParseElseIf | packages/avosetta-macros/src/parse.rs:102-115 | an `else if` clause gives a well-formed group and shrinks the input |
| Parse.ParseElse | packages/avosetta-macros/src/parse.rs:117-128 | an `else` clause gives a well-formed group and shrinks the input |
| Parse.ParseFor | packages/avosetta-macros/src/parse.rs:130-144 | a `for` gives a well-formed body and shrinks the input |
| Parse.ParseMatch | packages/avosetta-macros/src/parse.rs:146-166 | a `match` gives well-formed arms and shrinks the input |
| Parse.ParseArms | packages/avosetta-macros/src/parse.rs:155-163 | every arm sequence parsed is well formed |
| Parse.ParseArm | packages/avosetta-macros/src/parse.rs:168-178 | an arm gives a well-formed body and shrinks the input; when it records no comma, no comma follows it, so a present comma is always taken |
| Parse.ParseArmBody | packages/avosetta-macros/src/parse.rs:180-193 | an arm body parses exactly when it is a brace group whose contents parse, or a string literal; it is a group exactly when it starts with a brace |
| Parse.ParseTemplate | packages/avosetta-macros/src/parse.rs:13-24 | a parsed template is well formed: every normal element's child group, when present, is non-empty |
| Parse.ParseGroup | packages/avosetta-macros/src/parse.rs:13-24 | the `while !input.is_empty()` loop gives exactly the parsed template or the error |
| Parse.CollectElseIfs | packages/avosetta-macros/src/parse.rs:84-92 | the `else if` loop gives exactly what the collector gives |
| Parse.CollectArms | packages/avosetta-macros/src/parse.rs:155-163 | the arm loop gives exactly what the arm collector gives |
| Print.NameRoundTrip | packages/avosetta-macros/src/parse.rs:281-294 | a printed name parses back to itself |
| Print.AttrRoundTrip | packages/avosetta-macros/src/parse.rs:267-279 | a printed attribute parses back to itself when no `=` follows it |
| Print.AttrListRoundTrip | packages/avosetta-macros/src/parse.rs:262 | comma-separated attributes parse back into the same ordered list, duplicates included |
| Print.TrailingCommaRoundTrip | packages/avosetta-macros/src/parse.rs:262 | a trailing comma after the last attribute is accepted and changes nothing |
| Print.MissingComma | packages/avosetta-macros/src/parse.rs:262 | two attributes with no comma between them are an error |
| Print.DoubledComma | packages/avosetta-macros/src/parse.rs:262 | a doubled comma after an attribute is an error |
| Print.KeywordAttrName | packages/avosetta-macros/src/parse.rs:281-294 | `input[type = "text"];` is an error, because `type` is a keyword and not a name |
| Print.QuotedAttrName | packages/avosetta-macros/src/parse.rs:281-294 | `input["type" = "text"];` parses into a void element with one literal-named attribute |
| Print.AttrsOptRoundTrip | packages/avosetta-macros/src/parse.rs:225-229 | an optional printed attribute list parses back to itself |
| Print.NodesRoundTrip | packages/avosetta-macros/src/parse.rs:16-22 | printed well-formed nodes parse back into the same nodes |
| Print.GroupRoundTrip | packages/avosetta-macros/src/parse.rs:13-24 | a printed well-formed group parses back to its nodes |
| Print.BracedRoundTrip | packages/avosetta-macros/src/parse.rs:82-83 | a printed braced group parses back to itself |
| Print.NodeRoundTrip | packages/avosetta-macros/src/parse.rs:26-47 | a printed well-formed node parses back to itself |
| Print.ElementRoundTrip | packages/avosetta-macros/src/parse.rs:207-253 | a printed well-formed element, normal or void, parses back to itself |
| Print.ElementHeadRoundTrip | packages/avosetta-macros/src/parse.rs:223-229 | a printed name and optional attribute list parse back to themselves, a bracket group follows the name exactly when attributes are present, and the following token is left in place |
| Print.NormalRoundTrip | packages/avosetta-macros/src/parse.rs:218-238 | a printed normal element is taken for an element, not a void one, and parses back to itself |
| Print.VoidRoundTrip | packages/avosetta-macros/src/parse.rs:240-253 | a printed void element (name, optional attributes, `;`) is taken for an element and parses back to itself |
| Print.InnerRoundTrip | packages/avosetta-macros/src/parse.rs:231-235 | an element with no children prints an empty brace group, and a non-empty group prints tokens that parse back to it |
| Print.InterpRoundTrip | packages/avosetta-macros/src/parse.rs:59-72 | a printed interpolation parses back to itself |
| Print.ForRoundTrip | packages/avosetta-macros/src/parse.rs:130-144 | a printed `for` parses back to itself |
| Print.MatchRoundTrip | packages/avosetta-macros/src/parse.rs:146-166 | a printed `match` parses back to itself |
| Print.IfRoundTrip | packages/avosetta-macros/src/parse.rs:74-100 | a printed `if` with its `else if` clauses and optional `else` parses back to itself |
| Print.IfTailRoundTrip | packages/avosetta-macros/src/parse.rs:84-97 | after the then-branch, the `else if` loop takes back exactly the printed clauses and stops at `else` exactly when an `else` branch was printed, which then parses back to its group |
| Print.ElseRoundTrip | packages/avosetta-macros/src/parse.rs:93-97 | a printed optional `else` starts with `else` exactly when present and parses back to its group |
| Print.ElseIfsRoundTrip | packages/avosetta-macros/src/parse.rs:84-92 | printed `else if` clauses parse back into the same ordered clauses |
| Print.ElseIfRoundTrip | packages/avosetta-macros/src/parse.rs:102-115 | a printed `else if` clause parses back to itself |
| Print.ArmsRoundTrip | packages/avosetta-macros/src/parse.rs:155-163 | printed arms parse back into the same arms |
| Print.ArmRoundTrip | packages/avosetta-macros/src/parse.rs:168-178 | a printed arm, with or without its comma, parses back to itself |
| Print.ArmBodyRoundTrip | packages/avosetta-macros/src/parse.rs:180-205 | a printed braced or literal arm body parses back to itself |
| Print.TemplateRoundTrip | packages/avosetta-macros/src/parse.rs:13-24 | parsing a printed template gives it back exactly when it is well formed |
| Program.CompileChars | packages/avosetta-macros/src/generate.rs:27-35 | static characters only extend the pending literal |
| Program.CompileLossless | packages/avosetta-macros/src/generate.rs:53-64 | merging loses nothing: the merged program, seen piece by piece, is the pending text followed by the pieces |
| Program.CanonicalJoin | packages/avosetta-macros/src/generate.rs:53-64 | a flush-free instruction between two canonical programs keeps the result canonical |
| Program.CompileWellMerged | packages/avosetta-macros/src/generate.rs:83-94 | a merged program has no empty flush and no two flushes in a row, at any nesting depth |
| Program.CompileOfCanonical | packages/avosetta-macros/src/generate.rs:83-94 | merging is the inverse of exploding on canonical programs |
| Generator.ArmBlocks | packages/avosetta-macros/src/generate.rs:187-212 | an arm compiles to its header and one block; a braced body is a block inside that block, and a literal body is one flush of its escaped text |
| Generator.BoolShorthand | packages/avosetta-macros/src/generate.rs:349-374 | a bare attribute and one set to the literal `true` both generate ` name` and no instruction; the literal `false` generates nothing |
| Generator.PushKeepsMerged | packages/avosetta-macros/src/generate.rs:53-64 | flushing a pending literal and appending an instruction keeps the program well merged and adds exactly those pieces |
| Generator.Stream.constructor | packages/avosetta-macros/src/generate.rs:20-25 | a new stream has an empty buffer and no instructions |
| Generator.Stream.PushChar | packages/avosetta-macros/src/generate.rs:27-30 | the character is appended to the buffer; the instructions are unchanged |
| Generator.Stream.PushRaw | packages/avosetta-macros/src/generate.rs:32-35 | the text is appended to the buffer unescaped; the instructions are unchanged |
| Generator.Stream.PushEscaped | packages/avosetta-macros/src/generate.rs:37-51 | the loop appends the escaped text to the buffer; the instructions are unchanged |
| Generator.Stream.PushTokens | packages/avosetta-macros/src/generate.rs:53-64 | a non-empty buffer becomes one flush, the buffer is cleared, and the instruction is appended |
| Generator.Stream.PushWrite | packages/avosetta-macros/src/generate.rs:66-69 | as push_tokens, with one runtime write |
| Generator.Stream.PushBraced | packages/avosetta-macros/src/generate.rs:71-79 | a nested stream becomes one block holding that stream's merged program, leftover buffer flushed inside it |
| Generator.Stream.ToTokens | packages/avosetta-macros/src/generate.rs:82-95 | the finished program is the instructions followed by a flush of any leftover buffer; it is well merged and is the merged program of everything pushed |
| Generator.GenGroup | packages/avosetta-macros/src/generate.rs:113-120 | the loop over nodes pushes each node's pieces in order |
| Generator.GenBracedGroup | packages/avosetta-macros/src/generate.rs:207-212 | a group generated inside `push_braced` is one nested block |
| Generator.GenNode | packages/avosetta-macros/src/generate.rs:122-131 | a node pushes the pieces of its element, interpolation or escaped literal |
| Generator.GenLitStr | packages/avosetta-macros/src/generate.rs:378-383 | literal text is pushed escaped |
| Generator.GenName | packages/avosetta-macros/src/generate.rs:309-322 | a name is pushed unescaped |
| Generator.GenElement | packages/avosetta-macros/src/generate.rs:262-270 | an element pushes its normal or void pieces |
| Generator.GenNormal | packages/avosetta-macros/src/generate.rs:272-293 | `<name attrs>`, then the children, then `</name>` |
| Generator.GenVoid | packages/avosetta-macros/src/generate.rs:295-307 | `<name attrs>` with no closing tag |
| Generator.GenAttrs | packages/avosetta-macros/src/generate.rs:324-331 | the loop pushes each attribute's pieces in order |
| Generator.GenAttr | packages/avosetta-macros/src/generate.rs:333-376 | a literal string gives ` name="escaped"`, `true` or no value gives ` name`, `false` gives nothing, anything else gives a space and then an `Attr(name, expr)` write |
| Generator.GenInterp | packages/avosetta-macros/src/generate.rs:133-170 | a string literal is escaped into the text like literal text; any other expression is one write; control flow goes to its own method |
| Generator.GenMatch | packages/avosetta-macros/src/generate.rs:172-185 | a `match` header, then one block holding every arm |
| Generator.GenArms | packages/avosetta-macros/src/generate.rs:179-183 | the arm loop inside the `match` block appends each arm's pieces in order and nothing else |
| Generator.GenArm | packages/avosetta-macros/src/generate.rs:187-195 | a pattern header, then one block holding the body's stream |
| Generator.GenArmBody | packages/avosetta-macros/src/generate.rs:197-212 | a braced body is one more nested block; a literal body is escaped text |
| Generator.GenFor | packages/avosetta-macros/src/generate.rs:214-224 | a `for` header, then the body as a nested block |
| Generator.GenIf | packages/avosetta-macros/src/generate.rs:226-242 | an `if` header and block, then each `else if`, then the optional `else` |
| Generator.GenElseIfs | packages/avosetta-macros/src/generate.rs:234-236 | the loop pushes each `else if` clause in order |
| Generator.GenElseIf | packages/avosetta-macros/src/generate.rs:244-252 | an `else if` header, then the group as a nested block |
| Generator.GenElse | packages/avosetta-macros/src/generate.rs:254-260 | an `else` header, then the group as a nested block |
| Generator.ToTokenStream | packages/avosetta-macros/src/generate.rs:100-110 | the closure body is the merged program of the group's pieces: well merged, and the pieces are exactly the group's |
| Semantics.RunCompile | packages/avosetta-macros/src/generate.rs:53-64 | merging literals does not change what the program writes |
| Semantics.AttrOutput | packages/avosetta-macros/src/generate.rs:333-376 | one attribute's generated pieces write the attribute's HTML, when a dynamic value is not omitted and has an `Attr` implementation |
| Semantics.AttrListOutput | packages/avosetta-macros/src/generate.rs:324-331 | an attribute list's pieces write the list's HTML, when no dynamic value in it is omitted or lacks an `Attr` implementation |
| Semantics.GroupOutput | packages/avosetta-macros/src/generate.rs:113-120 | a group without control flow and without a dynamic attribute that is omitted or has no `Attr` implementation writes its HTML |
| Semantics.NodesOutput | packages/avosetta-macros/src/generate.rs:116-118 | nodes without control flow and without a dynamic attribute that is omitted or has no `Attr` implementation write their HTML in order |
| Semantics.NodeOutput | packages/avosetta-macros/src/generate.rs:122-170 | a literal writes its escaped text and an expression writes what `Html::write` writes for its value |
| Semantics.ElementOutput | packages/avosetta-macros/src/generate.rs:262-307 | an element without control flow and without such an attribute writes its open tag, children and close tag |
| Semantics.OpenTagOutput | packages/avosetta-macros/src/generate.rs:275-282 | the open tag writes `<`, the name, the attributes and `>` |
| Semantics.CloseTagOutput | packages/avosetta-macros/src/generate.rs:288-291 | the close tag writes `</name>` |
| Semantics.GeneratedHtml | packages/avosetta-macros/src/generate.rs:100-110 | running the generated program of a template without control flow and without a dynamic attribute that is omitted or has no `Attr` implementation appends exactly the template's HTML |
| Semantics.RenderAttrOmitted | packages/avosetta/src/lib.rs:438-457 | an omitted attribute value writes nothing |
| Semantics.DynamicOmittedSpace | packages/avosetta-macros/src/generate.rs:360-369 | a dynamic attribute whose value is omitted still writes the space in front of the write, where its HTML is empty |
| Semantics.VoidRun | packages/avosetta-macros/src/generate.rs:295-307 | a template of one void element runs to its open tag |
| Semantics.DynamicFalseRun | packages/avosetta-macros/src/generate.rs:366-368 | `input[checked = c];` with `c == false` runs to `<input >` |
| Semantics.LiteralFalseRun | packages/avosetta-macros/src/generate.rs:349-358 | `input[checked = false];` runs to `<input>` |
| Semantics.DynamicFalseHtml | packages/avosetta/src/lib.rs:438-445 | the HTML `input[checked = c];` stands for with `c == false` is `<input>` |
| Semantics.InputCheckedFalse | packages/avosetta-macros/src/generate.rs:349-369 | the dynamic `false` renders `<input >` where its HTML and the literal `false` give `<input>` |
| Semantics.StaticStraight | packages/avosetta-macros/src/generate.rs:333-358 | a template with only literal content has no control flow and no dynamic attribute |
| Semantics.StaticGroupChars | packages/avosetta-macros/src/generate.rs:152-158 | a template with only literal content contributes static characters only, no instruction |
| Semantics.StaticOneFlush | packages/avosetta-macros/src/generate.rs:83-94 | a template with only literal content becomes exactly one raw write of its HTML, or nothing when that is empty, whatever the host values |
| Expand.Expansion | packages/avosetta-macros/src/lib.rs:7-13 | the macro expands exactly when the tokens parse |
| Expand.Html | packages/avosetta-macros/src/lib.rs:7-13 | parsing then generating gives the expansion, and it is well merged |
| Expand.ExpandPrinted | packages/avosetta-macros/src/lib.rs:7-13 | a well-formed template written out as tokens expands to that template's instructions |
| Expand.ExpandedHtml | packages/avosetta-macros/src/lib.rs:7-13 | end to end: the macro turns a written template without control flow and without a dynamic attribute that is omitted or has no `Attr` implementation into a program that appends exactly its HTML |

## Left out

- The crate-path lookup (`CrateIdent`, its `OnceLock` and `proc_macro_crate`) is process-wide state backed by a Cargo manifest lookup. The crate path is implicit in the `Instr` constructors.
- Rust token output: the `quote!` syntax, `proc_macro2::TokenStream` and the `coerce` wrapper closure. The generated closure body is an `Instr` list, a flush is `Flush(text)`, and `Html::write(<arg>, __s)` is `Write(arg)`.
- syn's parsers for host expressions and patterns, including `parse_without_eager_brace` and `parse_multi_with_leading_vert`. Each expression or pattern is one opaque token. A string literal, `true` or `false` in expression position is the literal expression the generator inspects.
- Parse.ParseName: a keyword is recognised by a fixed list of Rust's strict and reserved keywords and `_`, the words syn's `Ident` parser refuses; that list lives in syn, not in this repository.
- Parse.ParseNode: an `Ident` token in name position is any identifier, keywords included, and is a name only when it is not a keyword. An identifier in expression or pattern position is written as a `HostExpr` or `HostPat` token (`@x` is `[At, HostExpr("x")]`), so a bare `Ident` there is an error in the model.
- Error messages and spans from `lookahead.error()` and the `braced!`/`bracketed!` macros. Every failure is the single `Err` outcome.
- The string value syn decodes from a string literal token. A `LitStr` token carries its decoded text.
- Punctuation the parser only checks (`@`, `=`, `=>`, `;`, the braces and brackets) is not kept in the tree. The `Interp` wrapper is folded into `Node.Interp`. Whether the attribute list ended with a comma is not kept, because the generator does not use it.
- Float rendering through `ryu` (packages/avosetta/src/lib.rs:376-388) is floating point.
- Runtime.Write: integers are rendered by a decimal specification function in place of the `itoa` call, and the widths of the Rust integer types are not modelled.
- Runtime.Write: a closure value is `Closure(out)`, a writer whose whole effect is to append `out`. General `FnOnce` behaviour is not modelled.
- Generator.Stream.PushTokens: requires its instruction not to be a raw flush and to be well merged inside. The source accepts any tokens, but the generator only ever passes headers, writes and blocks built by nested streams.
- Generator.Stream.PushBraced: takes a nested stream the caller has already filled, in place of a closure run on a fresh stream. GenBracedGroup, GenMatch and GenArm build that stream first, so the order of effects is the same.
- Generator.Stream.ToTokens: the source appends the final flush to a copy of the instruction tokens. The model returns the finished program as a value.
- Semantics.GeneratedHtml: covers templates without `if`, `match` and `for`, and without a dynamic attribute whose value is omitted or has no `Attr` implementation. Running control flow needs the host's evaluation of conditions, patterns and iterators, which is not modelled. An omitted dynamic attribute leaves the extra space that DynamicOmittedSpace states.
- Semantics.Run: gives no result for a control-flow header or block, for the same reason.
- Expand.Html: the conversion of the generated tokens back to a `proc_macro::TokenStream` is not modelled.
