/** The filter language of trace_filter.hpp: records, filter trees, and the recursive parser over lexed text. */
module TraceFilter {
  import opened Wrappers

  // ----- records and filter trees

  /** The part of a TraceFormat record that filters read. The `data`, `ack` and `qp` views are one union:
      their ports share bytes, and `ack.flags` starts where `data.seq` (`word`) does. */
  datatype Record = Record(time: nat, node: nat, intf: nat, qidx: nat, qlen: nat, sip: nat, dip: nat, size: nat,
                           l3Prot: nat, event: nat, ecn: nat, nodeType: nat, sport: nat, dport: nat, word: nat)

  datatype FieldId =
    | Time | NodeNo | NodeType | Intf | Qidx | Qlen | Sip | Dip | Size | L3Prot | EventKind | Ecn
    | DataSport | DataDport | DataSeq | AckSport | AckDport | AckFlags | QpSport | QpDport

  datatype Cmp = Eq | Gt | Ge | Lt | Le | Ne

  /** How many values the field's type has: ByteField, WordField, DwordField or QwordField. */
  function Range(f: FieldId): nat {
    match f
    case Time => 0x1_0000_0000_0000_0000
    case Qlen | Sip | Dip | DataSeq => 0x1_0000_0000
    case NodeNo | Size | DataSport | DataDport | AckSport | AckDport | QpSport | QpDport => 0x1_0000
    case NodeType | Intf | Qidx | L3Prot | EventKind | Ecn | AckFlags => 0x100
  }

  /** The value a field object reads at its offset in the record. */
  function Get(r: Record, f: FieldId): nat {
    match f
    case Time => r.time
    case NodeNo => r.node
    case NodeType => r.nodeType
    case Intf => r.intf
    case Qidx => r.qidx
    case Qlen => r.qlen
    case Sip => r.sip
    case Dip => r.dip
    case Size => r.size
    case L3Prot => r.l3Prot
    case EventKind => r.event
    case Ecn => r.ecn
    case DataSport | AckSport | QpSport => r.sport
    case DataDport | AckDport | QpDport => r.dport
    case DataSeq => r.word
    case AckFlags => r.word % 0x100
  }

  function Compare(x: nat, c: Cmp, v: nat): bool {
    match c
    case Eq => x == v
    case Gt => x > v
    case Ge => x >= v
    case Lt => x < v
    case Le => x <= v
    case Ne => x != v
  }

  datatype Tree =
    | Leaf(f: FieldId, c: Cmp, v: nat)
    | Both(left: Tree, right: Tree)
    | Either(left: Tree, right: Tree)

  /** `Node::test`. */
  predicate Test(t: Tree, r: Record) {
    match t
    case Leaf(f, c, v) => Compare(Get(r, f), c, v)
    case Both(l, m) => Test(l, r) && Test(m, r)
    case Either(l, m) => Test(l, r) || Test(m, r)
  }

  // ----- lexed text

  datatype Quad = Quad(sip: nat, dip: nat, sport: nat, dport: nat)

  datatype Triple = Triple(node: nat, intf: nat, qidx: nat)

  datatype Name = Known(f: FieldId) | Flow | Biflow | Rflow | Queue | Unknown

  /** One `field op value` text, with what the three `sscanf` formats make of the value. */
  datatype Atom = Atom(name: Name, c: Cmp, num: nat, quad: Option<Quad>, triple: Option<Triple>)

  /** Single-line filter text: brackets, connectives, blanks, maximal atoms, and anything else. */
  datatype Tok = LP | RP | Amp | Bar | Space | At(a: Atom) | Junk

  type Text = seq<Tok>

  function KnownAtom(f: FieldId, c: Cmp, v: nat): Atom {
    Atom(Known(f), c, v, None, None)
  }

  // ----- scanning

  /** The text behind its leading blanks: `skip_space`. */
  function Trim(s: Text): (t: Text)
    ensures |t| <= |s|
    ensures t == [] || t[0] != Space
  {
    if s != [] && s[0] == Space then Trim(s[1..]) else s
  }

  /** Text cut at a closing bracket. */
  datatype Cut = NoClose | Cut(inner: Text, after: Text)

  /** Cuts the text at the bracket that closes depth `c`. */
  function CutAtClose(s: Text, c: nat): (r: Cut)
    ensures r.Cut? ==> |r.inner| + 1 + |r.after| == |s|
  {
    if s == [] then NoClose
    else if s[0] == RP && c <= 1 then Cut([], s[1..])
    else
      var r := CutAtClose(s[1..], if s[0] == LP then c + 1 else if s[0] == RP then c - 1 else c);
      if r.Cut? then Cut([s[0]] + r.inner, r.after) else NoClose
  }

  /** What a text starts with, blanks skipped: an atom or a bracketed part, and the text after it, blanks skipped
      again. */
  datatype Head = NoHead | AtomHead(a: Atom, after: Text) | BracketHead(inner: Text, after: Text)

  function HeadOf(s: Text): (h: Head)
    ensures h.AtomHead? ==> |h.after| < |s|
    ensures h.BracketHead? ==> |h.inner| + |h.after| < |s|
  {
    var t := Trim(s);
    if t == [] then NoHead
    else if t[0].At? then AtomHead(t[0].a, Trim(t[1..]))
    else if t[0] == LP then
      var r := CutAtClose(t[1..], 1);
      if r.Cut? then BracketHead(r.inner, Trim(r.after)) else NoHead
    else NoHead
  }

  /** Whether `s` is one bracketed text with only blanks around it. */
  predicate Wrapped(s: Text) {
    HeadOf(s).BracketHead? && HeadOf(s).after == []
  }

  /** `strip_outer_bracket`. */
  function Strip(s: Text): (t: Text)
    ensures |t| <= |s| && !Wrapped(t)
    decreases |s|
  {
    if Wrapped(s) then Strip(HeadOf(s).inner) else s
  }

  predicate IsConnective(t: Tok) {
    t == Amp || t == Bar
  }

  // ----- parsing

  function Join(op: Tok, left: Tree, right: Tree): Tree {
    if op == Amp then Both(left, right) else Either(left, right)
  }

  predicate IsShorthand(a: Atom) {
    !a.name.Known?
  }

  function Shorthands(s: Text): nat {
    if s == [] then 0 else Shorthands(s[1..]) + if s[0].At? && IsShorthand(s[0].a) then 1 else 0
  }

  lemma {:induction false} ShorthandsConcat(s: Text, t: Text)
    ensures Shorthands(s + t) == Shorthands(s) + Shorthands(t)
  {
    if s == [] {
      assert s + t == t;
    } else {
      assert (s + t)[1..] == s[1..] + t;
      ShorthandsConcat(s[1..], t);
    }
  }

  lemma {:induction false} ShorthandsOfTrim(s: Text)
    ensures Shorthands(Trim(s)) <= Shorthands(s)
  {
    if s != [] && s[0] == Space {
      ShorthandsOfTrim(s[1..]);
    }
  }

  lemma {:induction false} ShorthandsOfCut(s: Text, c: nat)
    ensures var r := CutAtClose(s, c); r.Cut? ==> Shorthands(r.inner) + Shorthands(r.after) <= Shorthands(s)
  {
    if s != [] && !(s[0] == RP && c <= 1) {
      var c' := if s[0] == LP then c + 1 else if s[0] == RP then c - 1 else c;
      ShorthandsOfCut(s[1..], c');
      var r := CutAtClose(s[1..], c');
      if r.Cut? {
        ShorthandsConcat([s[0]], r.inner);
        assert [s[0]][1..] == [];
      }
    }
  }

  /** Neither part behind the head holds more shorthands than the text. */
  lemma ShorthandsOfHead(s: Text)
    ensures var h := HeadOf(s);
      && (h.AtomHead? ==> Shorthands(h.after) + (if IsShorthand(h.a) then 1 else 0) <= Shorthands(s))
      && (h.BracketHead? ==> Shorthands(h.inner) + Shorthands(h.after) <= Shorthands(s))
  {
    var t := Trim(s);
    ShorthandsOfTrim(s);
    if t != [] {
      ShorthandsOfTrim(t[1..]);
      ShorthandsOfCut(t[1..], 1);
      var r := CutAtClose(t[1..], 1);
      if r.Cut? {
        ShorthandsOfTrim(r.after);
      }
    }
  }

  lemma {:induction false} ShorthandsOfStrip(s: Text)
    ensures Shorthands(Strip(s)) <= Shorthands(s)
    decreases |s|
  {
    if Wrapped(s) {
      ShorthandsOfHead(s);
      ShorthandsOfStrip(HeadOf(s).inner);
    }
  }

  // ----- the grammar: expr = factor | factor op expr, factor = atom | ( expr ), with blanks around factors

  datatype Expr = One(f: Factor) | More(f: Factor, op: Tok, rest: Expr)

  datatype Factor = AtomFactor(pre: nat, a: Atom, post: nat) | Bracketed(pre: nat, e: Expr, post: nat)

  function Blanks(n: nat): Text {
    seq(n, _ => Space)
  }

  /** The text that a derivation derives. */
  function TextOf(e: Expr): Text {
    match e
    case One(f) => FactorText(f)
    case More(f, op, rest) => FactorText(f) + ([op] + TextOf(rest))
  }

  function FactorText(f: Factor): Text {
    match f
    case AtomFactor(pre, a, post) => Blanks(pre) + ([At(a)] + Blanks(post))
    case Bracketed(pre, e, post) => Blanks(pre) + ([LP] + (TextOf(e) + ([RP] + Blanks(post))))
  }

  ghost predicate KnownOnly(s: Text) {
    forall i :: 0 <= i < |s| ==> !(s[i].At? && IsShorthand(s[i].a))
  }

  lemma KnownOnlyConcat(s: Text, t: Text)
    requires KnownOnly(s) && KnownOnly(t)
    ensures KnownOnly(s + t)
  {
  }

  lemma {:induction false} NoShorthands(s: Text)
    requires KnownOnly(s)
    ensures Shorthands(s) == 0
  {
    if s != [] {
      NoShorthands(s[1..]);
    }
  }

  predicate KnownExpr(e: Expr) {
    match e
    case One(f) => KnownFactor(f)
    case More(f, op, rest) => KnownFactor(f) && IsConnective(op) && KnownExpr(rest)
  }

  predicate KnownFactor(f: Factor) {
    match f
    case AtomFactor(_, a, _) => a.name.Known?
    case Bracketed(_, e, _) => KnownExpr(e)
  }

  lemma {:induction false} KnownExprText(e: Expr)
    requires KnownExpr(e)
    ensures KnownOnly(TextOf(e))
  {
    KnownFactorText(e.f);
    if e.More? {
      KnownExprText(e.rest);
      KnownOnlyConcat([e.op], TextOf(e.rest));
      KnownOnlyConcat(FactorText(e.f), [e.op] + TextOf(e.rest));
    }
  }

  lemma {:induction false} KnownFactorText(f: Factor)
    requires KnownFactor(f)
    ensures KnownOnly(FactorText(f))
  {
    if f.Bracketed? {
      KnownExprText(f.e);
      KnownOnlyConcat(TextOf(f.e), [RP] + Blanks(f.post));
    }
  }

  // The texts the shorthands expand to, written as derivations: they contain no blanks.

  function FieldIs(f: FieldId, v: nat): Factor {
    AtomFactor(0, KnownAtom(f, Eq, v), 0)
  }

  function Group(e: Expr): Factor {
    Bracketed(0, e, 0)
  }

  /** `<sport>=..&<dport>=..` */
  function PortsExpr(sport: FieldId, dport: FieldId, q: Quad): (e: Expr)
    ensures KnownExpr(e)
  {
    More(FieldIs(sport, q.sport), Amp, One(FieldIs(dport, q.dport)))
  }

  /** `l3Prot=17&data..` */
  function DataExpr(q: Quad): (e: Expr)
    ensures KnownExpr(e)
  {
    More(FieldIs(L3Prot, 17), Amp, PortsExpr(DataSport, DataDport, q))
  }

  /** `l3Prot=0xFC|l3Prot=0xFD` */
  function AckProtExpr(): (e: Expr)
    ensures KnownExpr(e)
  {
    More(FieldIs(L3Prot, 0xFC), Bar, One(FieldIs(L3Prot, 0xFD)))
  }

  /** `(l3Prot=0xFC|l3Prot=0xFD)&ack..` */
  function AckExpr(q: Quad): (e: Expr)
    ensures KnownExpr(e)
  {
    More(Group(AckProtExpr()), Amp, PortsExpr(AckSport, AckDport, q))
  }

  /** `l3Prot=0x0&qp..` */
  function QpExpr(q: Quad): (e: Expr)
    ensures KnownExpr(e)
  {
    More(FieldIs(L3Prot, 0), Amp, PortsExpr(QpSport, QpDport, q))
  }

  /** `(data)|(ack)|(qp)` */
  function ProtocolExpr(q: Quad): (e: Expr)
    ensures KnownExpr(e)
  {
    var qp := One(Group(QpExpr(q)));
    var ack := More(Group(AckExpr(q)), Bar, qp);
    assert KnownExpr(qp) && KnownExpr(ack);
    More(Group(DataExpr(q)), Bar, ack)
  }

  /** `sip=..&dip=..&(..)` */
  function FlowExpr(q: Quad): (e: Expr)
    ensures KnownExpr(e)
  {
    var protocol := One(Group(ProtocolExpr(q)));
    assert KnownExpr(protocol);
    More(FieldIs(Sip, q.sip), Amp, More(FieldIs(Dip, q.dip), Amp, protocol))
  }

  function Swapped(q: Quad): Quad {
    Quad(q.dip, q.sip, q.dport, q.sport)
  }

  /** `(flow)|(reverse flow)` */
  function BiflowExpr(q: Quad): (e: Expr)
    ensures KnownExpr(e)
  {
    More(Group(FlowExpr(q)), Bar, One(Group(FlowExpr(Swapped(q)))))
  }

  /** `node=..&intf=..&qidx=..` */
  function QueueExpr(t: Triple): (e: Expr)
    ensures KnownExpr(e)
  {
    var last := One(FieldIs(Qidx, t.qidx));
    assert KnownExpr(last);
    More(FieldIs(NodeNo, t.node), Amp, More(FieldIs(Intf, t.intf), Amp, last))
  }

  /** The text `parse_shorthand` hands back to the parser, if any. */
  function Expansion(a: Atom): (e: Option<Expr>)
    ensures e.Some? ==> KnownExpr(e.value)
  {
    if a.c != Eq then None
    else match a.name
      case Flow => if a.quad.Some? then Some(FlowExpr(a.quad.value)) else None
      case Biflow => if a.quad.Some? then Some(BiflowExpr(a.quad.value)) else None
      case Rflow => if a.quad.Some? then Some(FlowExpr(Swapped(a.quad.value))) else None
      case Queue => if a.triple.Some? then Some(QueueExpr(a.triple.value)) else None
      case _ => None
  }

  /** Expanding removes the shorthand: expansions name only known fields. */
  lemma ExpansionHasNoShorthands(a: Atom)
    requires Expansion(a).Some?
    ensures Shorthands(TextOf(Expansion(a).value)) == 0
  {
    KnownExprText(Expansion(a).value);
    NoShorthands(TextOf(Expansion(a).value));
  }

  /** What an atom stands for: a field test, or the parse of a shorthand's expansion. */
  function AtomTree(a: Atom): Option<Tree>
    decreases if IsShorthand(a) then 1 else 0, 0, 0
  {
    if a.name.Known? then Some(Leaf(a.name.f, a.c, a.num % Range(a.name.f)))
    else if Expansion(a).Some? then
      ExpansionHasNoShorthands(a);
      Parse(TextOf(Expansion(a).value))
    else None
  }

  function JoinMeanings(op: Tok, left: Option<Tree>, right: Option<Tree>): Option<Tree> {
    if left.Some? && right.Some? then Some(Join(op, left.value, right.value)) else None
  }

  /** `_parse`. */
  function Parse(s: Text): Option<Tree>
    decreases Shorthands(s), |s|, 1
  {
    ShorthandsOfStrip(s);
    ParseStripped(Strip(s))
  }

  function ParseStripped(s: Text): Option<Tree>
    decreases Shorthands(s), |s|, 0
  {
    ShorthandsOfHead(s);
    match HeadOf(s)
    case NoHead => None
    case AtomHead(a, after) =>
      if after == [] then AtomTree(a)
      else if IsConnective(after[0]) then JoinMeanings(after[0], AtomTree(a), Parse(after[1..]))
      else None
    case BracketHead(inner, after) =>
      if after != [] && IsConnective(after[0]) then JoinMeanings(after[0], Parse(inner), Parse(after[1..]))
      else None
  }
}
