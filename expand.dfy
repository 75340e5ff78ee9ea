/** The `html!` procedural macro of packages/avosetta-macros/src/lib.rs: parse the macro's
    tokens as a template group, then generate the group's instructions. */
module Expand {
  import opened Wrappers
  import opened Ast
  import opened Parse
  import opened Program
  import opened Generator
  import opened Print
  import opened Semantics

  /** The expansion of a token sequence: the merged instructions of the group it parses to,
      or the parse error. */
  function Expansion(ts: seq<Tok>): (r: Result<seq<Instr>>)
    ensures r.Ok? <==> ParseTemplate(ts).Ok?
  {
    var g :- ParseTemplate(ts);
    Ok(Compile(GroupPieces(g)))
  }

  /** `html!`: what it expands to is the expansion, and it is well merged: no empty flush, no
      two flushes in a row, at any depth. */
  method Html(ts: seq<Tok>) returns (r: Result<seq<Instr>>)
    ensures r == Expansion(ts)
    ensures r.Ok? ==> WellMerged(r.value)
  {
    var g := ParseGroup(ts);
    if g.Err? {
      return Err;
    }
    var p := ToTokenStream(g.value);
    r := Ok(p);
  }

  /** A well-formed template, written out as tokens, expands to the instructions of that very
      template. */
  lemma ExpandPrinted(g: Group)
    requires WfGroup(g)
    ensures Expansion(PrintGroup(g)) == Ok(Compile(GroupPieces(g)))
  {
    GroupRoundTrip(g);
  }

  /** End to end: the macro, given a written template without control flow, expands to a
      program that appends exactly the template's HTML. */
  lemma ExpandedHtml(g: Group, env: Env)
    requires WfGroup(g) && Straight(g, env)
    ensures Expansion(PrintGroup(g)).Ok?
    ensures Run(Expansion(PrintGroup(g)).value, env) == Some(HtmlGroup(g, env))
  {
    ExpandPrinted(g);
    GeneratedHtml(g, env);
  }
}
