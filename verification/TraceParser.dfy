/** `_parse` and `strip_outer_bracket` as trace_filter.hpp runs them: index and depth counters over the text. */
module TraceParser {
  import opened Wrappers
  import opened TraceFilter

  /** `skip_space`: moves `i` to the next non-blank. */
  method SkipSpace(i: nat, s: Text) returns (j: nat)
    requires i <= |s|
    ensures i <= j <= |s| && s[j..] == Trim(s[i..])
  {
    j := i;
    while j < |s| && s[j] == Space
      invariant i <= j <= |s| && Trim(s[j..]) == Trim(s[i..])
    {
      assert s[j..][1..] == s[j + 1..];
      j := j + 1;
    }
  }

  /** The bracket-matching loop: `i` is just behind the opening bracket. */
  method MatchBracket(i: nat, s: Text) returns (j: nat)
    requires i <= |s|
    ensures i <= j <= |s|
    ensures if j < |s| then CutAtClose(s[i..], 1) == Cut(s[i..j], s[j + 1..]) else CutAtClose(s[i..], 1) == NoClose
  {
    hide CutAtClose, After;
    j := i;
    var c: nat := 1;
    assert s[i..i] == [];
    Behind([], CutAtClose(s[i..], 1));
    while j < |s| && (s[j] != RP || c > 1)
      invariant i <= j <= |s| && c >= 1
      invariant CutAtClose(s[i..], 1) == After(s[i..j], CutAtClose(s[j..], c))
    {
      CutPast(s, i, j, c);
      if s[j] == LP {
        c := c + 1;
      } else if s[j] == RP {
        c := c - 1;
      }
      j := j + 1;
    }
    CutHere(s, i, j, c);
  }

  function After(s: Text, r: Cut): Cut {
    if r.Cut? then Cut(s + r.inner, r.after) else NoClose
  }

  lemma Behind(s: Text, r: Cut)
    ensures s == [] ==> After(s, r) == r
  {
    if r.Cut? {
      assert [] + r.inner == r.inner;
    }
  }

  lemma AfterSnoc(s: Text, x: Tok, r: Cut)
    ensures After(s, if r.Cut? then Cut([x] + r.inner, r.after) else NoClose) == After(s + [x], r)
  {
    if r.Cut? {
      assert s + ([x] + r.inner) == (s + [x]) + r.inner;
    }
  }

  /** At the closing bracket looked for the part before it is cut off; at the end there is none. */
  lemma CutHere(s: Text, i: nat, j: nat, c: nat)
    requires i <= j <= |s| && (j < |s| ==> s[j] == RP && c <= 1)
    ensures After(s[i..j], CutAtClose(s[j..], c)) == if j < |s| then Cut(s[i..j], s[j + 1..]) else NoClose
  {
    if j < |s| {
      assert s[j..][1..] == s[j + 1..] && s[j..][0] == s[j];
      assert s[i..j] + [] == s[i..j];
    }
  }

  /** A token other than the closing bracket looked for joins the part before the cut. */
  lemma CutPast(s: Text, i: nat, j: nat, c: nat)
    requires i <= j < |s| && c >= 1 && (s[j] != RP || c > 1)
    ensures After(s[i..j], CutAtClose(s[j..], c))
      == After(s[i..j + 1], CutAtClose(s[j + 1..], if s[j] == LP then c + 1 else if s[j] == RP then c - 1 else c))
  {
    var r := CutAtClose(s[j + 1..], if s[j] == LP then c + 1 else if s[j] == RP then c - 1 else c);
    assert s[j..][1..] == s[j + 1..] && s[j..][0] == s[j];
    assert s[i..j] + [s[j]] == s[i..j + 1];
    assert CutAtClose(s[j..], c) == if r.Cut? then Cut([s[j]] + r.inner, r.after) else NoClose;
    hide CutAtClose;
    AfterSnoc(s[i..j], s[j], r);
  }

  /** `strip_outer_bracket`. */
  method StripOuterBracket(expr: Text) returns (t: Text)
    ensures t == Strip(expr)
    decreases |expr|
  {
    hide CutAtClose, Trim, HeadOf;
    var i := SkipSpace(0, expr);
    assert expr[0..] == expr;
    TrimmedAway(expr);
    if i < |expr| {
      AtomAt(expr, i);
    }
    if i < |expr| && expr[i] == LP {
      var start := i + 1;
      var end := MatchBracket(start, expr);
      // no closing bracket: nothing to strip
      if end >= |expr| {
        return expr;
      }
      var j := SkipSpace(end + 1, expr);
      if j >= |expr| {
        t := StripOuterBracket(expr[start..end]);
        return;
      }
    }
    return expr;
  }

  /** `parse_shorthand` and `GetField`: what an atom stands for. */
  method ParseAtom(a: Atom) returns (r: Option<Tree>)
    ensures r == AtomTree(a)
    decreases if IsShorthand(a) then 1 else 0, 0, 0
  {
    if a.name.Known? {
      return Some(Leaf(a.name.f, a.c, a.num % Range(a.name.f)));
    }
    var e := Expansion(a);
    if e.None? {
      return None;
    }
    ExpansionHasNoShorthands(a);
    r := ParseText(TextOf(e.value));
  }

  lemma AtomAt(s: Text, i: nat)
    requires i < |s| && s[i..] == Trim(s)
    ensures s[i].At? ==> HeadOf(s) == AtomHead(s[i].a, Trim(s[i + 1..]))
    ensures s[i] != LP && !s[i].At? ==> HeadOf(s) == NoHead
    ensures s[i] == LP ==>
      HeadOf(s) == (var r := CutAtClose(s[i + 1..], 1); if r.Cut? then BracketHead(r.inner, Trim(r.after)) else NoHead)
  {
    assert s[i..][1..] == s[i + 1..] && s[i..][0] == s[i];
  }

  lemma TrimmedAway(s: Text)
    ensures Trim(s) == [] ==> HeadOf(s) == NoHead
  {
  }

  lemma SuffixAt(s: Text, k: nat)
    requires k < |s|
    ensures s[k..] != [] && s[k..][0] == s[k] && s[k..][1..] == s[k + 1..]
    ensures Shorthands(s[k + 1..]) <= Shorthands(s[k..])
  {
  }

  /** `_parse`. The regular expressions test for an atom, and for an atom and a connective, at the start of the text. */
  method ParseText(text: Text) returns (res: Option<Tree>)
    ensures res == Parse(text)
    decreases Shorthands(text), |text|, 1
  {
    hide Shorthands, HeadOf, CutAtClose, Trim, Strip, Join, AtomTree, Wrapped;
    ShorthandsOfStrip(text);
    var expr := StripOuterBracket(text);
    assert Parse(text) == ParseStripped(expr);
    hide Parse;
    ShorthandsOfHead(expr);
    var i := SkipSpace(0, expr);
    assert expr[0..] == expr;
    TrimmedAway(expr);
    if i >= |expr| {
      return None;
    }
    AtomAt(expr, i);
    var left: Option<Tree>;
    var k: nat;
    if expr[i].At? {
      left := ParseAtom(expr[i].a);
      k := SkipSpace(i + 1, expr);
      if k >= |expr| {
        // one atom and nothing behind it
        return left;
      }
    } else if expr[i] == LP {
      // a bracketed part
      var j := MatchBracket(i + 1, expr);
      if j >= |expr| {
        return None;
      }
      left := ParseText(expr[i + 1..j]);
      k := SkipSpace(j + 1, expr);
    } else {
      return None;
    }
    if left.None? || k >= |expr| || !IsConnective(expr[k]) {
      return None;
    }
    SuffixAt(expr, k);
    assert HeadOf(expr).after == expr[k..];
    var right := ParseText(expr[k + 1..]);
    if right.None? {
      return None;
    }
    return Some(Join(expr[k], left.value, right.value));
  }
}
