/** What printed filters and shorthands mean once they are parsed. */
module TraceShorthand {
  import opened Wrappers
  import opened TraceFilter
  import opened TraceGrammar
  import opened FlowId

  // ----- printing

  /** `(l)op(r)` */
  function Pair(l: Text, op: Tok, r: Text): Text {
    [LP] + (l + ([RP] + ([op] + ([LP] + (r + [RP])))))
  }

  /** `str`'s bracketed shape, with each leaf written as its field name, operator and value. */
  function PrintedByName(t: Tree): Text {
    match t
    case Leaf(f, c, v) => [At(KnownAtom(f, c, v))]
    case Both(l, r) => Pair(PrintedByName(l), Amp, PrintedByName(r))
    case Either(l, r) => Pair(PrintedByName(l), Bar, PrintedByName(r))
  }

  /** What `str` really prints: a leaf starts with its byte offset in square brackets, which is no field name. */
  function Str(t: Tree): Text {
    match t
    case Leaf(f, c, v) => [Junk]
    case Both(l, r) => Pair(Str(l), Amp, Str(r))
    case Either(l, r) => Pair(Str(l), Bar, Str(r))
  }

  function Derivation(t: Tree): Expr {
    match t
    case Leaf(f, c, v) => One(AtomFactor(0, KnownAtom(f, c, v), 0))
    case Both(l, r) => More(Bracketed(0, Derivation(l), 0), Amp, One(Bracketed(0, Derivation(r), 0)))
    case Either(l, r) => More(Bracketed(0, Derivation(l), 0), Bar, One(Bracketed(0, Derivation(r), 0)))
  }

  /** Every leaf value fits its field's type. */
  predicate WellTyped(t: Tree) {
    match t
    case Leaf(f, c, v) => v < Range(f)
    case Both(l, r) => WellTyped(l) && WellTyped(r)
    case Either(l, r) => WellTyped(l) && WellTyped(r)
  }

  /** The leaf values as the fields' types truncate them. */
  function Truncated(t: Tree): (u: Tree)
    ensures u == t <==> WellTyped(t)
  {
    match t
    case Leaf(f, c, v) => Leaf(f, c, v % Range(f))
    case Both(l, r) => Both(Truncated(l), Truncated(r))
    case Either(l, r) => Either(Truncated(l), Truncated(r))
  }

  lemma GroupText(e: Expr, rest: Text)
    ensures FactorText(Bracketed(0, e, 0)) + rest == [LP] + (TextOf(e) + ([RP] + rest))
    ensures FactorText(Bracketed(0, e, 0)) == [LP] + (TextOf(e) + [RP])
  {
    assert Blanks(0) == [];
    NoRest(rest);
    NoRest([RP]);
    NoRest([LP] + (TextOf(e) + [RP]));
    BracketRest(0, e, 0, rest);
    hide TextOf;
    NoRest([LP] + (TextOf(e) + ([RP] + rest)));
  }

  lemma PairText(l: Expr, r: Expr, op: Tok)
    ensures TextOf(More(Bracketed(0, l, 0), op, One(Bracketed(0, r, 0)))) == Pair(TextOf(l), op, TextOf(r))
  {
    var a, b := Bracketed(0, l, 0), Bracketed(0, r, 0);
    assert TextOf(One(b)) == FactorText(b);
    assert TextOf(More(a, op, One(b))) == FactorText(a) + ([op] + FactorText(b));
    hide TextOf, FactorText;
    GroupText(l, [op] + FactorText(b));
    GroupText(r, []);
  }

  lemma PairMeans(l: Expr, r: Expr, op: Tok)
    requires Wellformed(l) && Wellformed(r) && IsConnective(op)
    ensures var e := More(Bracketed(0, l, 0), op, One(Bracketed(0, r, 0)));
      Wellformed(e) && Meaning(e) == JoinMeanings(op, Meaning(l), Meaning(r))
  {
    var right := One(Bracketed(0, r, 0));
    assert Meaning(right) == FactorMeaning(Bracketed(0, r, 0));
  }

  lemma {:induction false} DerivationPrints(t: Tree)
    ensures TextOf(Derivation(t)) == PrintedByName(t)
    ensures Wellformed(Derivation(t)) && Meaning(Derivation(t)) == Some(Truncated(t))
  {
    match t
    case Leaf(f, c, v) =>
      assert Blanks(0) == [];
    case Both(l, r) =>
      hide Wellformed, Meaning, TextOf;
      DerivationPrints(l);
      DerivationPrints(r);
      PairText(Derivation(l), Derivation(r), Amp);
      PairMeans(Derivation(l), Derivation(r), Amp);
    case Either(l, r) =>
      hide Wellformed, Meaning, TextOf;
      DerivationPrints(l);
      DerivationPrints(r);
      PairText(Derivation(l), Derivation(r), Bar);
      PairMeans(Derivation(l), Derivation(r), Bar);
  }

  /** Text printed with field names parses back to the very tree, exactly when every value fits its field. */
  lemma PrintedParsesBack(t: Tree)
    ensures Parse(PrintedByName(t)) == Some(Truncated(t))
    ensures Parse(PrintedByName(t)) == Some(t) <==> WellTyped(t)
  {
    DerivationPrints(t);
    ParseIsMeaning(Derivation(t));
  }

  lemma {:induction false} DerivedHasNoJunk(e: Expr)
    requires Wellformed(e)
    ensures Junk !in TextOf(e)
  {
    FactorHasNoJunk(e.f);
    if e.More? {
      DerivedHasNoJunk(e.rest);
    }
  }

  lemma {:induction false} FactorHasNoJunk(f: Factor)
    requires WellformedFactor(f)
    ensures Junk !in FactorText(f)
  {
    if f.Bracketed? {
      DerivedHasNoJunk(f.e);
    }
  }

  lemma {:induction false} StrHasJunk(t: Tree)
    ensures Junk in Str(t)
  {
    if !t.Leaf? {
      StrHasJunk(t.left);
    }
  }

  /** What `str` really prints never parses back, for any filter. */
  lemma StrNeverParses(t: Tree)
    ensures Parse(Str(t)) == None
  {
    StrHasJunk(t);
    if Parse(Str(t)).Some? {
      var e := ParsedIsDerived(Str(t));
      DerivedHasNoJunk(e);
    }
  }

  lemma {:induction false} KnownMeans(e: Expr)
    requires KnownExpr(e)
    ensures Wellformed(e) && Meaning(e).Some? && WellTyped(Meaning(e).value)
  {
    KnownFactorMeans(e.f);
    if e.More? {
      KnownMeans(e.rest);
    }
  }

  lemma {:induction false} KnownFactorMeans(f: Factor)
    requires KnownFactor(f)
    ensures WellformedFactor(f) && FactorMeaning(f).Some? && WellTyped(FactorMeaning(f).value)
  {
    if f.Bracketed? {
      KnownMeans(f.e);
    }
  }

  lemma AtomIsWellTyped(a: Atom)
    requires AtomTree(a).Some?
    ensures WellTyped(AtomTree(a).value)
  {
    if IsShorthand(a) {
      var e := Expansion(a).value;
      KnownMeans(e);
      ParseIsMeaning(e);
    }
  }

  lemma {:induction false} MeaningIsWellTyped(e: Expr)
    requires Meaning(e).Some?
    ensures WellTyped(Meaning(e).value)
  {
    if e.f.AtomFactor? {
      AtomIsWellTyped(e.f.a);
    } else {
      MeaningIsWellTyped(e.f.e);
    }
    if e.More? {
      MeaningIsWellTyped(e.rest);
    }
  }

  /** Every parsed filter, printed with field names, parses back to itself. */
  lemma ParsePrintParse(s: Text)
    requires Parse(s).Some?
    ensures Parse(PrintedByName(Parse(s).value)) == Parse(s)
  {
    var e := ParsedIsDerived(s);
    MeaningIsWellTyped(e);
    PrintedParsesBack(Parse(s).value);
  }

  // ----- what a filter accepts

  /** `TraceFilter::test`: without a root every record passes. */
  predicate TestRoot(root: Option<Tree>, r: Record) {
    if root.Some? then Test(root.value, r) else true
  }

  /** `test` after `parse`. */
  predicate Accepts(s: Text, r: Record) {
    TestRoot(Parse(s), r)
  }

  /** A filter accepts what every tree the grammar gives it accepts: one outside the grammar accepts every record. */
  lemma AcceptsByGrammar(s: Text, r: Record)
    ensures Accepts(s, r) <==> forall e, t :: Derives(e, s, t) ==> Test(t, r)
  {
    if Parse(s).Some? {
      var e := ParsedIsDerived(s);
    }
    forall e, t | Derives(e, s, t)
      ensures Parse(s) == Some(t)
    {
      ParseIsMeaning(e);
    }
  }

  /** A printed filter read back accepts every record; written with field names it accepts what the filter does
      once its values are cut to their fields. */
  lemma PrintedAccepts(t: Tree, r: Record)
    ensures Accepts(Str(t), r)
    ensures Accepts(PrintedByName(t), r) <==> Test(Truncated(t), r)
  {
    StrNeverParses(t);
    PrintedParsesBack(t);
  }

  // ----- shorthands

  predicate Passes(e: Expr, r: Record) {
    Meaning(e).Some? && Test(Meaning(e).value, r)
  }

  predicate FactorPasses(f: Factor, r: Record) {
    FactorMeaning(f).Some? && Test(FactorMeaning(f).value, r)
  }

  lemma PassesMore(f: Factor, op: Tok, rest: Expr, r: Record)
    requires KnownFactor(f) && IsConnective(op) && KnownExpr(rest)
    ensures Passes(More(f, op, rest), r) ==
      if op == Amp then FactorPasses(f, r) && Passes(rest, r) else FactorPasses(f, r) || Passes(rest, r)
  {
    KnownFactorMeans(f);
    KnownMeans(rest);
  }

  lemma PassesField(f: FieldId, v: nat, r: Record)
    requires v < Range(f)
    ensures FactorPasses(FieldIs(f, v), r) == (Get(r, f) == v)
    ensures Passes(One(FieldIs(f, v)), r) == (Get(r, f) == v)
  {
    assert Meaning(One(FieldIs(f, v))) == FactorMeaning(FieldIs(f, v)) == Some(Leaf(f, Eq, v));
  }

  lemma PassesGroup(e: Expr, r: Record)
    ensures FactorPasses(Group(e), r) == Passes(e, r) == Passes(One(Group(e)), r)
  {
  }

  /** The 4-tuple as `sscanf` stores it in 32-bit and 16-bit variables. */
  predicate InRange(q: Quad) {
    q.sip < U32 && q.dip < U32 && q.sport < U16 && q.dport < U16
  }

  predicate PortsMatch(q: Quad, r: Record) {
    r.sport == q.sport && r.dport == q.dport
  }

  lemma PortsPass(sport: FieldId, dport: FieldId, q: Quad, r: Record)
    requires InRange(q) && Range(sport) == Range(dport) == U16
    ensures Passes(PortsExpr(sport, dport, q), r) == (Get(r, sport) == q.sport && Get(r, dport) == q.dport)
  {
    PassesField(sport, q.sport, r);
    PassesField(dport, q.dport, r);
    hide Passes, FactorPasses, FieldIs;
    assert KnownExpr(One(FieldIs(dport, q.dport))) && KnownFactor(FieldIs(sport, q.sport)) by {
      FieldIsKnown(sport, q.sport);
      FieldIsKnown(dport, q.dport);
    }
    PassesMore(FieldIs(sport, q.sport), Amp, One(FieldIs(dport, q.dport)), r);
  }

  lemma FieldIsKnown(f: FieldId, v: nat)
    ensures KnownFactor(FieldIs(f, v)) && KnownExpr(One(FieldIs(f, v)))
  {
  }

  lemma GroupIsKnown(e: Expr)
    requires KnownExpr(e)
    ensures KnownFactor(Group(e)) && KnownExpr(One(Group(e)))
  {
  }

  lemma ProtPasses(f: Factor, p: nat, rest: Expr, r: Record)
    requires f == FieldIs(L3Prot, p) && p < 0x100 && KnownExpr(rest)
    ensures Passes(More(f, Amp, rest), r) == (r.l3Prot == p && Passes(rest, r))
  {
    PassesField(L3Prot, p, r);
    FieldIsKnown(L3Prot, p);
    hide Passes, FactorPasses, FieldIs;
    PassesMore(f, Amp, rest, r);
  }

  lemma DataPasses(q: Quad, r: Record)
    requires InRange(q)
    ensures Passes(DataExpr(q), r) == (r.l3Prot == 17 && PortsMatch(q, r))
  {
    PortsPass(DataSport, DataDport, q, r);
    hide Passes, PortsExpr;
    ProtPasses(FieldIs(L3Prot, 17), 17, PortsExpr(DataSport, DataDport, q), r);
  }

  lemma QpPasses(q: Quad, r: Record)
    requires InRange(q)
    ensures Passes(QpExpr(q), r) == (r.l3Prot == 0 && PortsMatch(q, r))
  {
    PortsPass(QpSport, QpDport, q, r);
    hide Passes, PortsExpr;
    ProtPasses(FieldIs(L3Prot, 0), 0, PortsExpr(QpSport, QpDport, q), r);
  }

  lemma AckPasses(q: Quad, r: Record)
    requires InRange(q)
    ensures Passes(AckExpr(q), r) == (IsAck(r) && PortsMatch(q, r))
  {
    PortsPass(AckSport, AckDport, q, r);
    PassesField(L3Prot, 0xFC, r);
    PassesField(L3Prot, 0xFD, r);
    FieldIsKnown(L3Prot, 0xFC);
    FieldIsKnown(L3Prot, 0xFD);
    hide Passes, PortsExpr, FactorPasses, FieldIs;
    PassesMore(FieldIs(L3Prot, 0xFC), Bar, One(FieldIs(L3Prot, 0xFD)), r);
    PassesGroup(AckProtExpr(), r);
    GroupIsKnown(AckProtExpr());
    PassesMore(Group(AckProtExpr()), Amp, PortsExpr(AckSport, AckDport, q), r);
  }

  /** The protocols a `flow` filter lets through. */
  predicate FlowProtocol(r: Record) {
    r.l3Prot == 17 || IsAck(r) || r.l3Prot == 0
  }

  lemma ProtocolPasses(q: Quad, r: Record)
    requires InRange(q)
    ensures Passes(ProtocolExpr(q), r) == (FlowProtocol(r) && PortsMatch(q, r))
  {
    DataPasses(q, r);
    AckPasses(q, r);
    QpPasses(q, r);
    hide Passes, DataExpr, AckExpr, QpExpr, FactorPasses;
    PassesGroup(DataExpr(q), r);
    PassesGroup(AckExpr(q), r);
    PassesGroup(QpExpr(q), r);
    GroupIsKnown(DataExpr(q));
    GroupIsKnown(AckExpr(q));
    GroupIsKnown(QpExpr(q));
    var qp := One(Group(QpExpr(q)));
    PassesMore(Group(AckExpr(q)), Bar, qp, r);
    assert KnownExpr(More(Group(AckExpr(q)), Bar, qp));
    PassesMore(Group(DataExpr(q)), Bar, More(Group(AckExpr(q)), Bar, qp), r);
  }

  /** The record belongs to the flow: both addresses, both ports, and one of the flow protocols. */
  predicate OfFlow(q: Quad, r: Record) {
    r.sip == q.sip && r.dip == q.dip && PortsMatch(q, r) && FlowProtocol(r)
  }

  lemma FlowPasses(q: Quad, r: Record)
    requires InRange(q)
    ensures Passes(FlowExpr(q), r) == OfFlow(q, r)
  {
    ProtocolPasses(q, r);
    PassesField(Sip, q.sip, r);
    PassesField(Dip, q.dip, r);
    FieldIsKnown(Sip, q.sip);
    FieldIsKnown(Dip, q.dip);
    hide Passes, ProtocolExpr, FactorPasses, FieldIs;
    PassesGroup(ProtocolExpr(q), r);
    GroupIsKnown(ProtocolExpr(q));
    var protocol := One(Group(ProtocolExpr(q)));
    PassesMore(FieldIs(Dip, q.dip), Amp, protocol, r);
    assert KnownExpr(More(FieldIs(Dip, q.dip), Amp, protocol));
    PassesMore(FieldIs(Sip, q.sip), Amp, More(FieldIs(Dip, q.dip), Amp, protocol), r);
  }

  /** A filter that is one shorthand. */
  function ShorthandText(name: Name, q: Quad): Text {
    [At(Atom(name, Eq, 0, Some(q), None))]
  }

  lemma ShorthandMeans(name: Name, q: Quad, r: Record)
    requires name == Flow || name == Biflow || name == Rflow
    ensures var e := Expansion(Atom(name, Eq, 0, Some(q), None)).value;
      Accepts(ShorthandText(name, q), r) == Passes(e, r)
  {
    var a := Atom(name, Eq, 0, Some(q), None);
    var e := Expansion(a).value;
    KnownMeans(e);
    ParseIsMeaning(e);
    var one := One(AtomFactor(0, a, 0));
    assert Blanks(0) == [];
    assert TextOf(one) == ShorthandText(name, q);
    assert Wellformed(one);
    ParseIsMeaning(one);
    hide Parse, Expansion;
    assert Meaning(one) == AtomTree(a);
  }

  /** `flow` accepts exactly the records of the flow, `rflow` those of the flow with its ends swapped, `biflow` those of
      either. */
  lemma FlowShorthands(q: Quad, r: Record)
    requires InRange(q)
    ensures Accepts(ShorthandText(Flow, q), r) <==> OfFlow(q, r)
    ensures Accepts(ShorthandText(Rflow, q), r) <==> Accepts(ShorthandText(Flow, Swapped(q)), r)
    ensures Accepts(ShorthandText(Biflow, q), r) <==>
      Accepts(ShorthandText(Flow, q), r) || Accepts(ShorthandText(Rflow, q), r)
  {
    ShorthandMeans(Flow, q, r);
    ShorthandMeans(Rflow, q, r);
    ShorthandMeans(Flow, Swapped(q), r);
    ShorthandMeans(Biflow, q, r);
    FlowPasses(q, r);
    FlowPasses(Swapped(q), r);
    hide Passes, FlowExpr, FactorPasses, Accepts, OfFlow;
    PassesGroup(FlowExpr(q), r);
    PassesGroup(FlowExpr(Swapped(q)), r);
    GroupIsKnown(FlowExpr(q));
    GroupIsKnown(FlowExpr(Swapped(q)));
    PassesMore(Group(FlowExpr(q)), Bar, One(Group(FlowExpr(Swapped(q)))), r);
  }

  /** Every record a `flow` filter accepts has the filter's flow number, every record of `rflow` has it in reverse,
      and forward data and returning acknowledgements share it as their standard number. */
  lemma AcceptedShareFlowInt(q: Quad, r: Record)
    requires InRange(q)
    ensures Accepts(ShorthandText(Flow, q), r) ==> GetFlowInt(r) == FlowInt(q.sip, q.dip, q.sport, q.dport)
    ensures Accepts(ShorthandText(Rflow, q), r) ==> GetReverseFlowInt(r) == FlowInt(q.sip, q.dip, q.sport, q.dport)
    ensures Accepts(ShorthandText(Flow, q), r) && !IsAck(r) ==>
      GetStandardFlowInt(r) == FlowInt(q.sip, q.dip, q.sport, q.dport)
    ensures Accepts(ShorthandText(Rflow, q), r) && IsAck(r) ==>
      GetStandardFlowInt(r) == FlowInt(q.sip, q.dip, q.sport, q.dport)
  {
    FlowShorthands(q, r);
    FlowShorthands(Swapped(q), r);
  }

  /** A TCP record of the flow has the flow's number, yet no `flow` filter accepts it. */
  lemma FlowFilterMissesTcp(q: Quad, r: Record)
    requires InRange(q) && r.l3Prot == 0x6 && r.sip == q.sip && r.dip == q.dip && PortsMatch(q, r)
    ensures GetFlowInt(r) == FlowInt(q.sip, q.dip, q.sport, q.dport) && !Accepts(ShorthandText(Flow, q), r)
  {
    FlowShorthands(q, r);
  }
}
