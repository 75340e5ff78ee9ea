/** HTML text escaping, shared by the generator's compile-time `push_escaped`
    (packages/avosetta-macros/src/generate.rs) and the runtime `Html` impls for
    `char` and `&str` (packages/avosetta/src/lib.rs): both apply the same five-entity map. */
module Escaping {

  /** The five characters that are replaced by an entity. */
  predicate Special(c: char)
  {
    c == '&' || c == '<' || c == '>' || c == '\'' || c == '"'
  }

  /** Characters that would open a tag or close a quoted attribute value. */
  predicate Markup(c: char)
  {
    c == '<' || c == '>' || c == '\'' || c == '"'
  }

  predicate NoSpecial(s: string)
  {
    forall k :: 0 <= k < |s| ==> !Special(s[k])
  }

  predicate NoMarkup(s: string)
  {
    forall k :: 0 <= k < |s| ==> !Markup(s[k])
  }

  /** The text one character is written as. */
  function EscapeChar(c: char): (r: string)
    ensures r == [c] <==> !Special(c)
    ensures |r| >= 1 && (Special(c) ==> |r| > 1)
    ensures NoMarkup(r)
  {
    if c == '&' then "&amp;"
    else if c == '<' then "&lt;"
    else if c == '>' then "&gt;"
    else if c == '\'' then "&apos;"
    else if c == '"' then "&quot;"
    else [c]
  }

  /** The text a string is written as: each character escaped in turn. */
  function Escape(s: string): (r: string)
    ensures |r| >= |s|
    ensures NoMarkup(r)
  {
    if s == [] then [] else EscapeChar(s[0]) + Escape(s[1..])
  }

  /** Escaping a concatenation is the concatenation of the escapings. */
  lemma {:induction false} EscapeAppend(a: string, b: string)
    ensures Escape(a + b) == Escape(a) + Escape(b)
  {
    if a == [] {
      assert a + b == b;
    } else {
      assert (a + b)[0] == a[0];
      assert (a + b)[1..] == a[1..] + b;
      EscapeAppend(a[1..], b);
    }
  }

  /** Escaping one more character of a string appends that character's escape. */
  lemma EscapeSnoc(s: string, i: nat)
    requires i < |s|
    ensures Escape(s[..i + 1]) == Escape(s[..i]) + EscapeChar(s[i])
  {
    EscapeAppend(s[..i], [s[i]]);
    assert s[..i + 1] == s[..i] + [s[i]];
    assert Escape([s[i]]) == EscapeChar(s[i]) + Escape([]);
  }

  /** Escaping leaves a string unchanged exactly when it holds none of the five characters. */
  lemma {:induction false} EscapeIdentity(s: string)
    ensures Escape(s) == s <==> NoSpecial(s)
  {
    if s != [] {
      EscapeIdentity(s[1..]);
      if Special(s[0]) {
        assert |EscapeChar(s[0])| > 1;
        assert |Escape(s)| > |s|;
      } else {
        assert EscapeChar(s[0]) == [s[0]];
        assert s == [s[0]] + s[1..];
        assert NoSpecial(s) <==> NoSpecial(s[1..]) by {
          if NoSpecial(s[1..]) {
            forall k | 0 <= k < |s| ensures !Special(s[k]) {
              if k > 0 { assert s[k] == s[1..][k - 1]; }
            }
          }
        }
        if Escape(s) == s {
          assert Escape(s[1..]) == (Escape(s))[1..];
        }
      }
    }
  }

  /** Decodes the five entities `Escape` produces; every other character stands for itself.
      It is not part of the system: it is the inverse the escaping is checked against. */
  function Unescape(s: string): (r: string)
    decreases |s|
  {
    if s == [] then []
    else if StartsWith(s, "&amp;") then "&" + Unescape(s[5..])
    else if StartsWith(s, "&lt;") then "<" + Unescape(s[4..])
    else if StartsWith(s, "&gt;") then ">" + Unescape(s[4..])
    else if StartsWith(s, "&apos;") then "'" + Unescape(s[6..])
    else if StartsWith(s, "&quot;") then "\"" + Unescape(s[6..])
    else [s[0]] + Unescape(s[1..])
  }

  predicate StartsWith(s: string, p: string)
  {
    |p| <= |s| && s[..|p|] == p
  }

  lemma StartsWithAppend(p: string, t: string)
    ensures StartsWith(p + t, p) && (p + t)[|p|..] == t
  {
    assert (p + t)[..|p|] == p;
  }

  /** Unescaping reads back the character an entity or a plain character stands for. */
  lemma UnescapeStep(c: char, t: string)
    ensures Unescape(EscapeChar(c) + t) == [c] + Unescape(t)
  {
    var e := EscapeChar(c);
    var s := e + t;
    StartsWithAppend(e, t);
    if !Special(c) {
      assert s[0] == c && s[1..] == t;
      assert !StartsWith(s, "&amp;") && !StartsWith(s, "&lt;") && !StartsWith(s, "&gt;");
      assert !StartsWith(s, "&apos;") && !StartsWith(s, "&quot;");
    } else if c == '<' || c == '>' {
      assert s[1] == e[1];
      assert !StartsWith(s, "&amp;");
    } else if c == '\'' {
      assert s[1] == e[1] && s[2] == e[2];
      assert !StartsWith(s, "&amp;") && !StartsWith(s, "&lt;") && !StartsWith(s, "&gt;");
    } else if c == '"' {
      assert s[1] == e[1] && s[2] == e[2];
      assert !StartsWith(s, "&amp;") && !StartsWith(s, "&lt;") && !StartsWith(s, "&gt;");
      assert !StartsWith(s, "&apos;");
    }
  }

  /** Unescaping undoes escaping, so no two strings are escaped to the same text. */
  lemma {:induction false} EscapeUnescape(s: string)
    ensures Unescape(Escape(s)) == s
  {
    if s != [] {
      UnescapeStep(s[0], Escape(s[1..]));
      EscapeUnescape(s[1..]);
    }
  }
}
