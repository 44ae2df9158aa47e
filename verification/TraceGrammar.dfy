/** The parser of trace_filter.hpp accepts exactly its grammar, with right-nested trees and both connectives at one
    precedence. */
module TraceGrammar {
  import opened Wrappers
  import opened TraceFilter

  /** Every operator of the derivation is `&` or `|`. */
  predicate Wellformed(e: Expr) {
    match e
    case One(f) => WellformedFactor(f)
    case More(f, op, rest) => WellformedFactor(f) && IsConnective(op) && Wellformed(rest)
  }

  predicate WellformedFactor(f: Factor) {
    f.Bracketed? ==> Wellformed(f.e)
  }

  /** The tree of a derivation: connectives nest to the right; an atom without meaning voids the whole. */
  function Meaning(e: Expr): Option<Tree> {
    match e
    case One(f) => FactorMeaning(f)
    case More(f, op, rest) => JoinMeanings(op, FactorMeaning(f), Meaning(rest))
  }

  function FactorMeaning(f: Factor): Option<Tree> {
    match f
    case AtomFactor(_, a, _) => AtomTree(a)
    case Bracketed(_, e, _) => Meaning(e)
  }

  // ----- concatenation

  lemma Reassociate(a: Text, x: Tok, b: Text, rest: Text)
    ensures (a + ([x] + b)) + rest == a + ([x] + (b + rest))
  {
    assert ([x] + b) + rest == [x] + (b + rest);
  }

  lemma Cons(x: Tok, rest: Text)
    ensures ([x] + rest) != [] && ([x] + rest)[0] == x && ([x] + rest)[1..] == rest
  {
  }

  lemma Uncons(s: Text)
    requires s != []
    ensures s == [s[0]] + s[1..]
  {
  }

  lemma NoRest(s: Text)
    ensures s + [] == s && [] + s == s
  {
  }

  lemma BlanksCons(n: nat, rest: Text)
    requires n > 0
    ensures Blanks(n) + rest == [Space] + (Blanks(n - 1) + rest)
  {
  }

  lemma AtomRest(pre: nat, a: Atom, post: nat, rest: Text)
    ensures FactorText(AtomFactor(pre, a, post)) + rest == Blanks(pre) + ([At(a)] + (Blanks(post) + rest))
  {
    Reassociate(Blanks(pre), At(a), Blanks(post), rest);
  }

  lemma BracketRest(pre: nat, e: Expr, post: nat, rest: Text)
    ensures FactorText(Bracketed(pre, e, post)) + rest ==
      Blanks(pre) + ([LP] + (TextOf(e) + ([RP] + (Blanks(post) + rest))))
  {
    Reassociate(Blanks(pre), LP, TextOf(e) + ([RP] + Blanks(post)), rest);
    Reassociate(TextOf(e), RP, Blanks(post), rest);
  }

  // ----- scanning over derived text

  lemma {:induction false} TrimBlanks(n: nat, rest: Text)
    ensures Trim(Blanks(n) + rest) == Trim(rest)
  {
    if n == 0 {
      assert Blanks(n) + rest == rest;
    } else {
      BlanksCons(n, rest);
      Cons(Space, Blanks(n - 1) + rest);
      TrimBlanks(n - 1, rest);
    }
  }

  function Prepend(s: Text, r: Cut): Cut {
    if r.Cut? then Cut(s + r.inner, r.after) else NoClose
  }

  lemma PrependTwice(s: Text, t: Text, r: Cut)
    ensures Prepend(s, Prepend(t, r)) == Prepend(s + t, r)
    ensures Prepend([], r) == r
  {
    if r.Cut? {
      assert s + (t + r.inner) == (s + t) + r.inner;
      NoRest(r.inner);
    }
  }

  lemma CutCons(x: Tok, rest: Text, c: nat)
    ensures CutAtClose([x] + rest, c) ==
      if x == RP && c <= 1 then Cut([], rest)
      else Prepend([x], CutAtClose(rest, if x == LP then c + 1 else if x == RP then c - 1 else c))
  {
    Cons(x, rest);
  }

  lemma {:induction false} CutThroughBlanks(n: nat, rest: Text, c: nat)
    ensures CutAtClose(Blanks(n) + rest, c) == Prepend(Blanks(n), CutAtClose(rest, c))
  {
    if n == 0 {
      NoRest(rest);
      assert Blanks(0) == [];
      PrependTwice([], [], CutAtClose(rest, c));
    } else {
      BlanksCons(n, rest);
      CutCons(Space, Blanks(n - 1) + rest, c);
      CutThroughBlanks(n - 1, rest, c);
      BlanksCons(n, []);
      NoRest(Blanks(n));
      NoRest(Blanks(n - 1));
      hide CutAtClose, Blanks, Prepend;
      PrependTwice([Space], Blanks(n - 1), CutAtClose(rest, c));
    }
  }

  /** Brackets inside derived text balance: a closing bracket is looked for behind it at the same depth. */
  lemma {:induction false} CutThrough(e: Expr, c: nat, rest: Text)
    requires Wellformed(e) && c >= 1
    ensures CutAtClose(TextOf(e) + rest, c) == Prepend(TextOf(e), CutAtClose(rest, c))
    decreases e, 0
  {
    CutThroughFactor(e.f, c, if e.One? then rest else [e.op] + (TextOf(e.rest) + rest));
    if e.More? {
      Reassociate(FactorText(e.f), e.op, TextOf(e.rest), rest);
      CutCons(e.op, TextOf(e.rest) + rest, c);
      CutThrough(e.rest, c, rest);
      hide CutAtClose, Prepend;
      PrependTwice([e.op], TextOf(e.rest), CutAtClose(rest, c));
      PrependTwice(FactorText(e.f), [e.op] + TextOf(e.rest), CutAtClose(rest, c));
    }
  }

  lemma {:induction false} CutThroughFactor(f: Factor, c: nat, rest: Text)
    requires WellformedFactor(f) && c >= 1
    ensures CutAtClose(FactorText(f) + rest, c) == Prepend(FactorText(f), CutAtClose(rest, c))
    decreases f, 0
  {
    var r := CutAtClose(rest, c);
    match f
    case AtomFactor(pre, a, post) =>
      var t := [At(a)] + (Blanks(post) + rest);
      AtomRest(pre, a, post, rest);
      CutThroughBlanks(pre, t, c);
      CutCons(At(a), Blanks(post) + rest, c);
      CutThroughBlanks(post, rest, c);
      hide CutAtClose, Prepend, Blanks;
      PrependTwice([At(a)], Blanks(post), r);
      PrependTwice(Blanks(pre), [At(a)] + Blanks(post), r);
    case Bracketed(pre, e, post) =>
      CutThroughBrackets(pre, e, post, c, rest);
  }

  lemma BracketText(pre: nat, e: Expr, post: nat)
    ensures FactorText(Bracketed(pre, e, post)) == Blanks(pre) + ([LP] + (TextOf(e) + ([RP] + Blanks(post))))
  {
  }

  lemma {:induction false} CutThroughBrackets(pre: nat, e: Expr, post: nat, c: nat, rest: Text)
    requires Wellformed(e) && c >= 1
    ensures CutAtClose(FactorText(Bracketed(pre, e, post)) + rest, c) ==
      Prepend(FactorText(Bracketed(pre, e, post)), CutAtClose(rest, c))
    decreases e, 1
  {
    hide CutAtClose, Prepend, Blanks, Wellformed, FactorText;
    var r := CutAtClose(rest, c);
    var tail := [RP] + (Blanks(post) + rest);
    BracketRest(pre, e, post, rest);
    CutThroughBlanks(pre, [LP] + (TextOf(e) + tail), c);
    CutCons(LP, TextOf(e) + tail, c);
    CutThrough(e, c + 1, tail);
    CutCons(RP, Blanks(post) + rest, c + 1);
    CutThroughBlanks(post, rest, c);
    BracketText(pre, e, post);
    PrependTwice([RP], Blanks(post), r);
    PrependTwice(TextOf(e), [RP] + Blanks(post), r);
    PrependTwice([LP], TextOf(e) + ([RP] + Blanks(post)), r);
    PrependTwice(Blanks(pre), [LP] + (TextOf(e) + ([RP] + Blanks(post))), r);
  }

  /** The head of derived text is its first factor. */
  lemma HeadOfFactor(f: Factor, rest: Text)
    requires WellformedFactor(f) && Trim(rest) == rest
    ensures HeadOf(FactorText(f) + rest) ==
      if f.AtomFactor? then AtomHead(f.a, rest) else BracketHead(TextOf(f.e), rest)
  {
    TrimBlanks(f.post, rest);
    match f
    case AtomFactor(pre, a, post) =>
      var t := [At(a)] + (Blanks(post) + rest);
      AtomRest(pre, a, post, rest);
      TrimBlanks(pre, t);
      Cons(At(a), Blanks(post) + rest);
    case Bracketed(pre, e, post) =>
      var tail := [RP] + (Blanks(post) + rest);
      BracketRest(pre, e, post, rest);
      TrimBlanks(pre, [LP] + (TextOf(e) + tail));
      Cons(LP, TextOf(e) + tail);
      CutThrough(e, 1, tail);
      CutCons(RP, Blanks(post) + rest, 1);
      NoRest(TextOf(e));
  }

  // ----- the parser computes the meaning of every derivation

  /** Derived text parses to the meaning of its derivation: in particular derivations of one text agree. */
  lemma {:induction false} ParseIsMeaning(e: Expr)
    requires Wellformed(e)
    ensures Parse(TextOf(e)) == Meaning(e)
  {
    var s := TextOf(e);
    if e.One? {
      HeadOfFactor(e.f, []);
      NoRest(s);
      if e.f.Bracketed? {
        ParseIsMeaning(e.f.e);
      }
    } else {
      var rest := [e.op] + TextOf(e.rest);
      Cons(e.op, TextOf(e.rest));
      HeadOfFactor(e.f, rest);
      ParseIsMeaning(e.rest);
      if e.f.Bracketed? {
        ParseIsMeaning(e.f.e);
      }
      hide HeadOf, FactorText;
    }
  }

  // ----- and nothing else parses

  /** A text is some blanks and its trimmed rest. */
  lemma {:induction false} Untrim(s: Text) returns (n: nat)
    ensures s == Blanks(n) + Trim(s)
  {
    if s != [] && s[0] == Space {
      var m := Untrim(s[1..]);
      n := m + 1;
      Uncons(s);
      BlanksCons(n, Trim(s));
    } else {
      n := 0;
    }
  }

  lemma {:induction false} Uncut(s: Text, c: nat)
    requires CutAtClose(s, c).Cut?
    ensures s == CutAtClose(s, c).inner + ([RP] + CutAtClose(s, c).after)
  {
    Uncons(s);
    if s[0] == RP && c <= 1 {
      NoRest(s);
    } else {
      var c' := if s[0] == LP then c + 1 else if s[0] == RP then c - 1 else c;
      Uncut(s[1..], c');
      var r := CutAtClose(s[1..], c');
      assert [s[0]] + (r.inner + ([RP] + r.after)) == ([s[0]] + r.inner) + ([RP] + r.after);
    }
  }

  /** A text is its head factor and what follows. */
  lemma AtomHeadText(s: Text) returns (f: Factor)
    requires HeadOf(s).AtomHead?
    ensures f.AtomFactor? && f.a == HeadOf(s).a && s == FactorText(f) + HeadOf(s).after
  {
    var pre := Untrim(s);
    var t := Trim(s);
    var post := Untrim(t[1..]);
    Uncons(t);
    f := AtomFactor(pre, t[0].a, post);
    AtomRest(pre, t[0].a, post, Trim(t[1..]));
  }

  lemma BracketHeadText(s: Text, e: Expr) returns (f: Factor)
    requires HeadOf(s).BracketHead? && TextOf(e) == HeadOf(s).inner
    ensures f.Bracketed? && f.e == e && s == FactorText(f) + HeadOf(s).after
  {
    var pre := Untrim(s);
    var t := Trim(s);
    Uncons(t);
    Uncut(t[1..], 1);
    var r := CutAtClose(t[1..], 1);
    var post := Untrim(r.after);
    f := Bracketed(pre, e, post);
    BracketRest(pre, e, post, Trim(r.after));
  }

  ghost predicate Derives(e: Expr, s: Text, t: Tree) {
    Wellformed(e) && TextOf(e) == s && Meaning(e) == Some(t)
  }

  /** Whatever parses is derived by the grammar, with that tree. */
  lemma {:induction false} ParsedIsDerived(s: Text) returns (e: Expr)
    requires Parse(s).Some?
    ensures Derives(e, s, Parse(s).value)
    decreases |s|
  {
    var h := HeadOf(s);
    if Wrapped(s) {
      var e1 := ParsedIsDerived(h.inner);
      var f := BracketHeadText(s, e1);
      NoRest(FactorText(f));
      e := One(f);
    } else if h.AtomHead? && h.after == [] {
      var f := AtomHeadText(s);
      NoRest(FactorText(f));
      e := One(f);
    } else {
      var e2 := ParsedIsDerived(h.after[1..]);
      Uncons(h.after);
      var f;
      if h.AtomHead? {
        f := AtomHeadText(s);
      } else {
        var e1 := ParsedIsDerived(h.inner);
        f := BracketHeadText(s, e1);
      }
      e := More(f, h.after[0], e2);
    }
  }

  /** `_parse` returns a tree exactly for the strings of the grammar whose atoms have a meaning, and it returns their
      meaning. */
  lemma ParsesExactlyTheGrammar(s: Text, t: Tree)
    ensures Parse(s) == Some(t) <==> exists e :: Derives(e, s, t)
  {
    if Parse(s) == Some(t) {
      var e := ParsedIsDerived(s);
    }
    if e :| Derives(e, s, t) {
      ParseIsMeaning(e);
    }
  }
}
