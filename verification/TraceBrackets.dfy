/** What stripping the outer brackets of a filter text takes off, by the depth of its brackets. */
module TraceBrackets {
  import opened TraceFilter
  import opened TraceGrammar

  /** Opening brackets minus closing ones. */
  ghost function Depth(s: Text): int {
    if s == [] then 0 else Depth(s[1..]) + if s[0] == LP then 1 else if s[0] == RP then -1 else 0
  }

  /** The text starts at depth `c`, never drops below depth 1, and ends there. */
  ghost predicate EndsAtOne(s: Text, c: int) {
    c + Depth(s) == 1 && forall k :: 0 <= k <= |s| ==> c + Depth(s[..k]) >= 1
  }

  /** `s` is `mid` in a pair of brackets that belong together, with blanks around. */
  ghost predicate Enclosed(s: Text, mid: Text) {
    EndsAtOne(mid, 1) && exists pre, post :: IsEnclosing(s, pre, mid, post)
  }

  ghost predicate IsEnclosing(s: Text, pre: nat, mid: Text, post: nat) {
    s == Blanks(pre) + ([LP] + (mid + ([RP] + Blanks(post))))
  }

  /** `t` is inside some number of such pairs in `s`. */
  ghost predicate Inside(s: Text, t: Text)
    decreases |s|
  {
    s == t || exists mid :: |mid| < |s| && Enclosed(s, mid) && Inside(mid, t)
  }

  function Deeper(x: Tok, c: nat): int {
    if x == LP then c + 1 else if x == RP then c - 1 else c
  }

  lemma EndsAtOneTail(s: Text, c: nat)
    requires s != []
    ensures EndsAtOne(s, c) <==> c >= 1 && EndsAtOne(s[1..], Deeper(s[0], c))
  {
    var d := Deeper(s[0], c);
    forall k | 0 <= k < |s|
      ensures c + Depth(s[..k + 1]) == d + Depth(s[1..][..k])
    {
      assert s[..k + 1][1..] == s[1..][..k];
    }
    assert Depth(s[..0]) == 0;
    if c >= 1 && EndsAtOne(s[1..], d) {
      forall k | 0 <= k <= |s|
        ensures c + Depth(s[..k]) >= 1
      {
        if k > 0 {
          assert c + Depth(s[..k - 1 + 1]) == d + Depth(s[1..][..k - 1]);
        }
      }
    }
  }

  /** The scan stops at the first closing bracket that has nothing open before it, and only there. */
  lemma {:induction false} CutIsFirst(s: Text, c: nat, inner: Text, after: Text)
    requires c >= 1
    ensures CutAtClose(s, c) == Cut(inner, after) <==> s == inner + ([RP] + after) && EndsAtOne(inner, c)
  {
    if s == [] {
    } else if inner == [] {
      NoRest([RP] + after);
      assert EndsAtOne([], c) <==> c == 1;
      assert s == [RP] + after <==> s[0] == RP && s[1..] == after;
    } else {
      var d := Deeper(s[0], c);
      EndsAtOneTail(inner, c);
      HeadAndTail(s, inner, [RP] + after);
      if d >= 1 {
        CutIsFirst(s[1..], d, inner[1..], after);
        hide EndsAtOne;
        PrependIs(s[0], CutAtClose(s[1..], d), inner, after);
      } else {
        assert !EndsAtOne(inner[1..], d) by {
          assert inner[1..][..0] == [];
        }
        hide EndsAtOne;
      }
    }
  }

  lemma HeadAndTail(s: Text, inner: Text, rest: Text)
    requires s != [] && inner != []
    ensures s == inner + rest <==> s[0] == inner[0] && s[1..] == inner[1..] + rest
  {
    Uncons(s);
    Uncons(inner);
    assert inner + rest == [inner[0]] + (inner[1..] + rest);
  }

  lemma PrependIs(x: Tok, r: Cut, inner: Text, after: Text)
    requires inner != []
    ensures Prepend([x], r) == Cut(inner, after) <==> r == Cut(inner[1..], after) && x == inner[0]
  {
    Uncons(inner);
    if r.Cut? {
      Cons(x, r.inner);
    }
  }

  /** The parser's test for an outer bracket finds exactly the brackets that belong together. */
  lemma WrappedIsEnclosed(s: Text, mid: Text)
    ensures Wrapped(s) && HeadOf(s).inner == mid <==> Enclosed(s, mid)
  {
    if Wrapped(s) && HeadOf(s).inner == mid {
      var t := Trim(s);
      var pre := Untrim(s);
      Uncons(t);
      var after := CutAtClose(t[1..], 1).after;
      CutIsFirst(t[1..], 1, mid, after);
      var post := Untrim(after);
      NoRest(Blanks(post));
      assert IsEnclosing(s, pre, mid, post);
    } else if Enclosed(s, mid) {
      var pre, post :| IsEnclosing(s, pre, mid, post);
      EnclosedIsWrapped(s, pre, mid, post);
    }
  }

  lemma EnclosedIsWrapped(s: Text, pre: nat, mid: Text, post: nat)
    requires IsEnclosing(s, pre, mid, post) && EndsAtOne(mid, 1)
    ensures Wrapped(s) && HeadOf(s).inner == mid
  {
    var tail := mid + ([RP] + Blanks(post));
    TrimBlanks(pre, [LP] + tail);
    Cons(LP, tail);
    CutIsFirst(tail, 1, mid, Blanks(post));
    TrimBlanks(post, []);
    NoRest(Blanks(post));
  }

  /** Stripping takes off matching outer brackets and their blanks as long as there are any, and nothing else. */
  lemma {:induction false} StripExactly(s: Text, t: Text)
    ensures t == Strip(s) <==> Inside(s, t) && !exists mid :: Enclosed(t, mid)
    decreases |s|
  {
    hide Enclosed, HeadOf;
    forall x, mid
      ensures Wrapped(x) && HeadOf(x).inner == mid <==> Enclosed(x, mid)
    {
      WrappedIsEnclosed(x, mid);
    }
    if Wrapped(s) {
      var mid := HeadOf(s).inner;
      assert Enclosed(s, mid);
      StripExactly(mid, t);
    }
  }
}
