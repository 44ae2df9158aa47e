/** What a filter accepts, in terms of the record's own fields. */
module TraceEvaluation {
  import opened Wrappers
  import opened TraceFilter
  import opened TraceGrammar
  import opened TraceShorthand

  lemma AtomParses(a: Atom)
    ensures Parse([At(a)]) == AtomTree(a)
  {
    var one := One(AtomFactor(0, a, 0));
    assert Blanks(0) == [];
    assert TextOf(one) == [At(a)];
    ParseIsMeaning(one);
  }

  /** `field op value`: the record's field, as wide as its type, is compared with the value cut to the same width. The
      views of the union share bytes: all ports are `sport` and `dport`, and `ack.flags` is the low byte of
      `data.seq`. */
  lemma AtomAccepts(f: FieldId, c: Cmp, v: nat, r: Record)
    ensures
      var x := match f
        case Time => r.time
        case NodeNo => r.node
        case NodeType => r.nodeType
        case Intf => r.intf
        case Qidx => r.qidx
        case Qlen => r.qlen
        case Sip => r.sip
        case Dip => r.dip
        case Size => r.size
        case L3Prot => r.l3Prot
        case EventKind => r.event
        case Ecn => r.ecn
        case DataSport | AckSport | QpSport => r.sport
        case DataDport | AckDport | QpDport => r.dport
        case DataSeq => r.word
        case AckFlags => r.word % 0x100;
      var y := match f
        case Time => v % 0x1_0000_0000_0000_0000
        case Qlen | Sip | Dip | DataSeq => v % 0x1_0000_0000
        case NodeNo | Size | DataSport | DataDport | AckSport | AckDport | QpSport | QpDport => v % 0x1_0000
        case NodeType | Intf | Qidx | L3Prot | EventKind | Ecn | AckFlags => v % 0x100;
      Accepts([At(KnownAtom(f, c, v))], r) <==>
        match c
        case Eq => x == y
        case Gt => x > y
        case Ge => x >= y
        case Lt => x < y
        case Le => x <= y
        case Ne => x != y
  {
    AtomParses(KnownAtom(f, c, v));
    hide Parse;
  }

  /** `(l)&(r)` accepts what both filters accept and `(l)|(r)` what either accepts. */
  lemma ConnectivesAccept(l: Text, r: Text, rec: Record)
    requires Parse(l).Some? && Parse(r).Some?
    ensures Accepts(Pair(l, Amp, r), rec) <==> Accepts(l, rec) && Accepts(r, rec)
    ensures Accepts(Pair(l, Bar, r), rec) <==> Accepts(l, rec) || Accepts(r, rec)
  {
    var e := ParsedIsDerived(l);
    var e' := ParsedIsDerived(r);
    PairText(e, e', Amp);
    PairMeans(e, e', Amp);
    PairText(e, e', Bar);
    PairMeans(e, e', Bar);
    ParseIsMeaning(More(Bracketed(0, e, 0), Amp, One(Bracketed(0, e', 0))));
    ParseIsMeaning(More(Bracketed(0, e, 0), Bar, One(Bracketed(0, e', 0))));
    hide Parse, TextOf, Meaning, Wellformed;
  }

  /** The numbers as `sscanf` stores them in 16-bit and 8-bit variables. */
  predicate TripleInRange(t: Triple) {
    t.node < 0x1_0000 && t.intf < 0x100 && t.qidx < 0x100
  }

  lemma QueueExprPasses(t: Triple, r: Record)
    requires TripleInRange(t)
    ensures Passes(QueueExpr(t), r) <==> r.node == t.node && r.intf == t.intf && r.qidx == t.qidx
  {
    PassesField(NodeNo, t.node, r);
    PassesField(Intf, t.intf, r);
    PassesField(Qidx, t.qidx, r);
    FieldIsKnown(NodeNo, t.node);
    FieldIsKnown(Intf, t.intf);
    FieldIsKnown(Qidx, t.qidx);
    hide Passes, FactorPasses, FieldIs;
    var last := One(FieldIs(Qidx, t.qidx));
    PassesMore(FieldIs(Intf, t.intf), Amp, last, r);
    assert KnownExpr(More(FieldIs(Intf, t.intf), Amp, last));
    PassesMore(FieldIs(NodeNo, t.node), Amp, More(FieldIs(Intf, t.intf), Amp, last), r);
  }

  /** `queue=node,intf,qidx` accepts exactly the records of that queue. */
  lemma QueueAccepts(t: Triple, r: Record)
    requires TripleInRange(t)
    ensures Accepts([At(Atom(Queue, Eq, 0, None, Some(t)))], r) <==>
      r.node == t.node && r.intf == t.intf && r.qidx == t.qidx
  {
    var a := Atom(Queue, Eq, 0, None, Some(t));
    AtomParses(a);
    KnownMeans(QueueExpr(t));
    ParseIsMeaning(QueueExpr(t));
    QueueExprPasses(t, r);
    hide Parse, QueueExpr, Meaning;
  }

  /** A shorthand with another operator than `=`, or without its numbers, does not parse: it accepts every record. */
  lemma BrokenShorthandAcceptsAll(a: Atom, r: Record)
    requires !a.name.Known?
    requires a.c != Eq || a.name.Unknown? || (if a.name.Queue? then a.triple.None? else a.quad.None?)
    ensures Parse([At(a)]) == None && Accepts([At(a)], r)
  {
    AtomParses(a);
    hide Parse;
  }
}
