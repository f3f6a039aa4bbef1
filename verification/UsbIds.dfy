/** parse of names.c: one pass over a usb.ids file that fills the five tables. */
module UsbIds {
  import opened CText
  import opened NameTable
  import opened UsbIdsSpec

  /** The body of the loop of parse, for one buffer without its line end. */
  method ParseLine(t: Tables, buf: string, regs: Registers, ghost above: seq<Line>) returns (regs': Registers)
    requires t.Valid() && regs == RegistersAfter(above)
    modifies t, t.buckets
    ensures t.Valid() && t.nodes >= old(t.nodes) && fresh(t.nodes - old(t.nodes))
    ensures regs' == RegistersAfter(above + [Classify(buf)])
    ensures t.names == Add(old(t.names), Definition(above, Classify(buf)))
  {
    regs' := regs;
    NextRegisters(above, Classify(buf));
    DefinitionFromRegisters(above, Classify(buf));
    if buf == [] || buf[0] == '#' {
      return;
    }
    if "PHYSDES " <= buf {
      return;
    }
    if "PHY " <= buf {
      return;
    }
    if "BIAS " <= buf {
      return;
    }
    if "L " <= buf {
      regs' := Registers(-1, -1, -1, -1, 1);
      return;
    }
    if "C " <= buf {
      var spec := SkipSpace(buf[2..]);
      if IsXDigit(At(spec, 0)) {
        regs' := ParseClass(t, spec, regs, above);
      }
      return;
    }
    regs' := ParseRest(t, buf, regs, above);
  }

  /** The branches after that of the classes. */
  method ParseRest(t: Tables, buf: string, regs: Registers, ghost above: seq<Line>) returns (regs': Registers)
    requires t.Valid() && regs == RegistersAfter(above) && buf != []
    modifies t, t.buckets
    ensures t.Valid() && t.nodes >= old(t.nodes) && fresh(t.nodes - old(t.nodes))
    ensures regs' == RegistersAfter(above + [ClassifyRest(buf)])
    ensures t.names == Add(old(t.names), Definition(above, ClassifyRest(buf)))
  {
    regs' := regs;
    NextRegisters(above, ClassifyRest(buf));
    DefinitionFromRegisters(above, ClassifyRest(buf));
    if "AT" <= buf && IsSpace(At(buf, 2)) {
      return;
    }
    if "HCC" <= buf && IsSpace(At(buf, 3)) {
      return;
    }
    if IsXDigit(buf[0]) {
      regs' := ParseVendor(t, buf, regs, above);
      return;
    }
    if buf[0] == '\t' && IsXDigit(At(buf, 1)) {
      regs' := ParseIndented(t, buf[1..], regs, above);
      return;
    }
    if buf[0] == '\t' && At(buf, 1) == '\t' && IsXDigit(At(buf, 2)) {
      ParseDoubleIndented(t, buf[2..], regs, above);
      return;
    }
    if "HUT " <= buf {
      regs' := Registers(-1, -1, -1, 1, -1);
    }
  }

  /** The class branch: a duplicate is reported but still opens its section. */
  method ParseClass(t: Tables, spec: string, regs: Registers, ghost above: seq<Line>) returns (regs': Registers)
    requires t.Valid() && regs == RegistersAfter(above) && IsXDigit(At(spec, 0))
    modifies t, t.buckets
    ensures t.Valid() && t.nodes >= old(t.nodes) && fresh(t.nodes - old(t.nodes))
    ensures match IdAndName(spec)
            case None =>
              regs' == regs && t.names == old(t.names)
            case Some((id, name)) =>
              && regs' == RegistersAfter(above + [ClassLine(id, name)])
              && t.names == Add(old(t.names), Definition(above, ClassLine(id, name)))
  {
    regs' := regs;
    var (u, rest) := HexNumber(spec);
    var name := SkipSpace(rest);
    if name == [] {
      return;
    }
    NextRegisters(above, ClassLine(u, name));
    var added := t.New(name, ClassKey(u % 0x100));
    regs' := Registers(-1, AsInt(u), -1, -1, -1);
  }

  /** The vendor branch. */
  method ParseVendor(t: Tables, spec: string, regs: Registers, ghost above: seq<Line>) returns (regs': Registers)
    requires t.Valid() && regs == RegistersAfter(above) && IsXDigit(At(spec, 0))
    modifies t, t.buckets
    ensures t.Valid() && t.nodes >= old(t.nodes) && fresh(t.nodes - old(t.nodes))
    ensures match IdAndName(spec)
            case None =>
              regs' == regs && t.names == old(t.names)
            case Some((id, name)) =>
              && regs' == RegistersAfter(above + [VendorLine(id, name)])
              && t.names == Add(old(t.names), Definition(above, VendorLine(id, name)))
  {
    regs' := regs;
    var (u, rest) := HexNumber(spec);
    var name := SkipSpace(rest);
    if name == [] {
      return;
    }
    NextRegisters(above, VendorLine(u, name));
    var added := t.New(name, VendorKey(u % 0x1_0000));
    regs' := Registers(AsInt(u), -1, -1, -1, -1);
  }

  /** The product or subclass branch: the first register that is set decides. */
  method ParseIndented(t: Tables, spec: string, regs: Registers, ghost above: seq<Line>) returns (regs': Registers)
    requires t.Valid() && regs == RegistersAfter(above) && IsXDigit(At(spec, 0))
    modifies t, t.buckets
    ensures t.Valid() && t.nodes >= old(t.nodes) && fresh(t.nodes - old(t.nodes))
    ensures match IdAndName(spec)
            case None =>
              regs' == regs && t.names == old(t.names)
            case Some((id, name)) =>
              && regs' == RegistersAfter(above + [Indented(id, name)])
              && t.names == Add(old(t.names), Definition(above, Indented(id, name)))
  {
    regs' := regs;
    var (u, rest) := HexNumber(spec);
    var name := SkipSpace(rest);
    if name == [] {
      return;
    }
    NextRegisters(above, Indented(u, name));
    DefinitionFromRegisters(above, Indented(u, name));
    if regs.vendor != -1 {
      var added := t.New(name, ProductKey(regs.vendor % 0x1_0000, u % 0x1_0000));
      return;
    }
    if regs.class_ != -1 {
      var added := t.New(name, SubclassKey(regs.class_ % 0x100, u % 0x100));
      regs' := regs.(subclass := AsInt(u));
    }
  }

  method ParseDoubleIndented(t: Tables, spec: string, regs: Registers, ghost above: seq<Line>)
    requires t.Valid() && regs == RegistersAfter(above) && IsXDigit(At(spec, 0))
    modifies t, t.buckets
    ensures t.Valid() && t.nodes >= old(t.nodes) && fresh(t.nodes - old(t.nodes))
    ensures match IdAndName(spec)
            case None =>
              t.names == old(t.names)
            case Some((id, name)) =>
              && regs == RegistersAfter(above + [DoubleIndented(id, name)])
              && t.names == Add(old(t.names), Definition(above, DoubleIndented(id, name)))
  {
    var (u, rest) := HexNumber(spec);
    var name := SkipSpace(rest);
    if name == [] {
      return;
    }
    NextRegisters(above, DoubleIndented(u, name));
    DefinitionFromRegisters(above, DoubleIndented(u, name));
    if regs.class_ != -1 && regs.subclass != -1 {
      var added := t.New(name, ProtocolKey(regs.class_ % 0x100, regs.subclass % 0x100, u % 0x100));
    }
  }

  /** One turn of the loop of parse: l is the line read from the front of rest. */
  method ParseNext(t: Tables, rest: string, regs: Registers, ghost above: seq<Line>)
    returns (rest': string, regs': Registers, ghost l: Line)
    requires t.Valid() && regs == RegistersAfter(above) && rest != []
    modifies t, t.buckets
    ensures t.Valid() && t.nodes >= old(t.nodes) && fresh(t.nodes - old(t.nodes))
    ensures |rest'| < |rest| && Lines(rest) == [l] + Lines(rest')
    ensures regs' == RegistersAfter(above + [l])
    ensures t.names == Add(old(t.names), Definition(above, l))
  {
    var n := Chunk(rest);
    var buf := Trimmed(rest[..n]);
    l := Classify(buf);
    regs' := ParseLine(t, buf, regs, above);
    rest' := rest[n..];
  }

  /** parse: afterwards every key answers with the first definition in the file,
      unless it already had a name. */
  method Parse(t: Tables, f: string)
    requires t.Valid()
    modifies t, t.buckets
    ensures t.Valid() && t.nodes >= old(t.nodes) && fresh(t.nodes - old(t.nodes))
    ensures t.names == AddAll(old(t.names), Lines(f))
    ensures FirstWins(t.names, old(t.names), Lines(f))
  {
    ghost var before := t.names;
    var rest := f;
    var regs := Registers(-1, -1, -1, -1, -1);
    ghost var above: seq<Line> := [];
    while rest != []
      invariant t.Valid() && t.nodes >= old(t.nodes) && fresh(t.nodes - old(t.nodes))
      invariant Lines(f) == above + Lines(rest)
      invariant regs == RegistersAfter(above)
      invariant t.names == AddAll(before, above)
      decreases |rest|
    {
      ghost var l;
      rest, regs, l := ParseNext(t, rest, regs, above);
      AddOneMore(before, above, l);
      MoveOne(above, l, Lines(rest));
      above := above + [l];
    }
    assert above == Lines(f);
    AddAllAnswers(before, above);
  }
}
