/** The generated program of packages/avosetta-macros/src/generate.rs, as an instruction
    list rather than Rust tokens, and the literal-merging it is built by. */
module Program {
  import opened Ast
  import opened Sequences

  /** The argument of one `Html::write(<arg>, __s)` call: a host value, or `Attr(name, value)`. */
  datatype Arg = Val(expr: Expr) | AttrPair(name: string, value: Expr)

  /** The control-flow header emitted in front of a block; its parts are carried verbatim. */
  datatype Header =
    | IfHead(cond: Expr)
    | ElseIfHead(cond: Expr)
    | ElseHead
    | MatchHead(scrutinee: Expr)
    | ArmHead(pat: Pat)
    | ForHead(pat: Pat, iter: Expr)

  /** One statement of the generated closure body. */
  datatype Instr =
    | Flush(text: string)      // Html::write(raw("<text>"), __s)
    | Write(arg: Arg)          // Html::write(<arg>, __s)
    | Head(header: Header)     // if c / else if c / else / match e / p => / for p in e
    | Block(body: seq<Instr>)  // { <body> }

  /** One unit of output before merging: a static character, or an instruction that is not a flush. */
  datatype Piece = Chr(c: char) | Op(instr: Instr)

  function Chars(s: string): (r: seq<Piece>)
    ensures |r| == |s| && forall k :: 0 <= k < |s| ==> r[k] == Chr(s[k])
  {
    seq(|s|, k requires 0 <= k < |s| => Chr(s[k]))
  }

  lemma CharsAppend(a: string, b: string)
    ensures Chars(a + b) == Chars(a) + Chars(b)
  {
    assert forall k :: 0 <= k < |a| + |b| ==> Chars(a + b)[k] == (Chars(a) + Chars(b))[k];
  }

  /** The flush of a pending literal, if it is non-empty. */
  function FlushOf(s: string): seq<Instr>
  {
    if s == [] then [] else [Flush(s)]
  }

  /** An instruction's output seen piece by piece: a flush is its characters. */
  function ExplodeInstr(i: Instr): seq<Piece>
  {
    if i.Flush? then Chars(i.text) else [Op(i)]
  }

  /** A program's output seen piece by piece, nested blocks left whole. */
  function Explode(p: seq<Instr>): seq<Piece>
  {
    if p == [] then [] else ExplodeInstr(p[0]) + Explode(p[1..])
  }

  lemma {:induction false} ExplodeAppend(a: seq<Instr>, b: seq<Instr>)
    ensures Explode(a + b) == Explode(a) + Explode(b)
  {
    if a != [] {
      assert (a + b)[0] == a[0] && (a + b)[1..] == a[1..] + b;
      ExplodeAppend(a[1..], b);
    } else {
      assert a + b == b;
    }
  }

  /** No flush is empty and no two flushes are adjacent. */
  predicate Canonical(p: seq<Instr>)
  {
    && (forall k :: 0 <= k < |p| && p[k].Flush? ==> p[k].text != [])
    && (forall k :: 0 <= k < |p| - 1 && p[k].Flush? ==> !p[k + 1].Flush?)
  }

  /** Canonical at every nesting depth. */
  predicate WellMerged(p: seq<Instr>)
  {
    Canonical(p) && forall k :: 0 <= k < |p| ==> WellMergedInstr(p[k])
  }

  predicate WellMergedInstr(i: Instr)
  {
    i.Block? ==> WellMerged(i.body)
  }

  /** Pieces whose instructions are no flushes and are well merged inside. */
  predicate OpsOk(items: seq<Piece>)
  {
    forall k :: 0 <= k < |items| && items[k].Op? ==> !items[k].instr.Flush? && WellMergedInstr(items[k].instr)
  }

  /** Literal merging: characters gather in `pending`; an instruction first flushes `pending`
      (if non-empty) and the end flushes what is left. */
  function CompileFrom(pending: string, items: seq<Piece>): seq<Instr>
    decreases |items|
  {
    if items == [] then FlushOf(pending)
    else match items[0]
      case Chr(c) => CompileFrom(pending + [c], items[1..])
      case Op(i) => FlushOf(pending) + [i] + CompileFrom([], items[1..])
  }

  function Compile(items: seq<Piece>): seq<Instr>
  {
    CompileFrom([], items)
  }

  /** Static characters only extend the pending literal. */
  lemma {:induction false} CompileChars(pending: string, s: string, rest: seq<Piece>)
    ensures CompileFrom(pending, Chars(s) + rest) == CompileFrom(pending + s, rest)
    decreases |s|
  {
    if s == [] {
      assert Chars(s) + rest == rest;
      assert pending + s == pending;
    } else {
      var items := Chars(s) + rest;
      assert items[0] == Chr(s[0]);
      assert items[1..] == Chars(s[1..]) + rest;
      CompileChars(pending + [s[0]], s[1..], rest);
      assert pending + [s[0]] + s[1..] == pending + s;
    }
  }

  lemma OpsOkTail(items: seq<Piece>)
    requires items != [] && OpsOk(items)
    ensures OpsOk(items[1..])
  {
    forall k | 0 <= k < |items[1..]| && items[1..][k].Op?
      ensures !items[1..][k].instr.Flush? && WellMergedInstr(items[1..][k].instr)
    {
      assert items[1..][k] == items[k + 1];
    }
  }

  /** The flush of a pending literal is that literal, piece by piece. */
  lemma ExplodeFlushOf(pending: string)
    ensures Explode(FlushOf(pending)) == Chars(pending)
  {
    if pending != [] { assert Explode([Flush(pending)]) == Chars(pending) + []; }
  }

  /** Merging loses nothing and adds nothing: the merged program's output, piece by piece,
      is the pending literal followed by the pieces. */
  lemma {:induction false} CompileLossless(pending: string, items: seq<Piece>)
    requires OpsOk(items)
    ensures Explode(CompileFrom(pending, items)) == Chars(pending) + items
    decreases |items|
  {
    if items == [] {
      ExplodeFlushOf(pending);
    } else {
      OpsOkTail(items);
      match items[0]
      case Chr(c) =>
        CompileLossless(pending + [c], items[1..]);
        CharsAppend(pending, [c]);
        assert Chars([c]) == [Chr(c)];
        assert items == [Chr(c)] + items[1..];
        Append2(Chars(pending), [Chr(c)], items[1..]);
      case Op(i) =>
        CompileLossless([], items[1..]);
        ExplodeAppend(FlushOf(pending) + [i], CompileFrom([], items[1..]));
        ExplodeAppend(FlushOf(pending), [i]);
        assert Explode([i]) == [Op(i)];
        ExplodeFlushOf(pending);
        assert items == [Op(i)] + items[1..];
        Append2(Chars(pending), [Op(i)], items[1..]);
    }
  }

  lemma CanonicalJoin(a: seq<Instr>, i: Instr, b: seq<Instr>)
    requires Canonical(a) && Canonical(b) && !i.Flush?
    ensures Canonical(a + [i] + b)
  {
    var p := a + [i] + b;
    forall k | 0 <= k < |p| - 1 && p[k].Flush? ensures !p[k + 1].Flush? {
      if k < |a| - 1 {
        assert p[k] == a[k] && p[k + 1] == a[k + 1];
      } else if k >= |a| + 1 {
        assert p[k] == b[k - |a| - 1] && p[k + 1] == b[k - |a|];
      }
    }
    forall k | 0 <= k < |p| && p[k].Flush? ensures p[k].text != [] {
      if k < |a| { assert p[k] == a[k]; } else if k > |a| { assert p[k] == b[k - |a| - 1]; }
    }
  }

  /** Merging yields a program that is canonical at every depth. */
  lemma {:induction false} CompileWellMerged(pending: string, items: seq<Piece>)
    requires OpsOk(items)
    ensures WellMerged(CompileFrom(pending, items))
    decreases |items|
  {
    if items != [] {
      OpsOkTail(items);
      match items[0]
      case Chr(c) =>
        CompileWellMerged(pending + [c], items[1..]);
      case Op(i) =>
        var rest := CompileFrom([], items[1..]);
        CompileWellMerged([], items[1..]);
        CanonicalJoin(FlushOf(pending), i, rest);
        var p := FlushOf(pending) + [i] + rest;
        forall k | 0 <= k < |p| ensures WellMergedInstr(p[k]) {
          if k > |FlushOf(pending)| { assert p[k] == rest[k - |FlushOf(pending)| - 1]; }
        }
    }
  }

  /** A canonical program is its own merge: the merged form is the only canonical program
      with its output, so merging cannot be improved on. */
  lemma {:induction false} CompileOfCanonical(p: seq<Instr>)
    requires Canonical(p)
    ensures Compile(Explode(p)) == p
    decreases |p|
  {
    if p != [] {
      if p[0].Flush? {
        var t := p[0].text;
        assert Canonical(p[1..]) by {
          forall k | 0 <= k < |p[1..]| - 1 && p[1..][k].Flush? ensures !p[1..][k + 1].Flush? {
            assert p[1..][k] == p[k + 1] && p[1..][k + 1] == p[k + 2];
          }
          forall k | 0 <= k < |p[1..]| && p[1..][k].Flush? ensures p[1..][k].text != [] {
            assert p[1..][k] == p[k + 1];
          }
        }
        CompileChars([], t, Explode(p[1..]));
        if |p| == 1 {
          assert [] + t == t;
        } else {
          var q := p[2..];
          assert Canonical(q) by {
            forall k | 0 <= k < |q| - 1 && q[k].Flush? ensures !q[k + 1].Flush? {
              assert q[k] == p[k + 2] && q[k + 1] == p[k + 3];
            }
            forall k | 0 <= k < |q| && q[k].Flush? ensures q[k].text != [] {
              assert q[k] == p[k + 2];
            }
          }
          assert p[1..][0] == p[1] && p[1..][1..] == q;
          assert !p[1].Flush?;
          assert Explode(p[1..]) == [Op(p[1])] + Explode(q);
          CompileOfCanonical(q);
          assert [] + t == t;
          assert p == [Flush(t)] + [p[1]] + q;
        }
      } else {
        var q := p[1..];
        assert Canonical(q) by {
          forall k | 0 <= k < |q| - 1 && q[k].Flush? ensures !q[k + 1].Flush? {
            assert q[k] == p[k + 1] && q[k + 1] == p[k + 2];
          }
          forall k | 0 <= k < |q| && q[k].Flush? ensures q[k].text != [] {
            assert q[k] == p[k + 1];
          }
        }
        assert Explode(p) == [Op(p[0])] + Explode(q);
        CompileOfCanonical(q);
        assert p == [p[0]] + q;
      }
    }
  }
}
