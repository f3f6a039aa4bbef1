/** From a database to a file and back: names_init on a file that lists a database. */
module UsbIdsDatabase {
  import opened Wrappers
  import opened Words
  import opened NameTable
  import opened UsbIdsSpec
  import opened UsbIdsForms
  import UsbIds

  /** An id as it is written, the white space after it, and a name. */
  datatype Entry = Entry(digits: string, sep: string, name: string)

  datatype Vendor = Vendor(entry: Entry, products: seq<Entry>)
  datatype Subclass = Subclass(entry: Entry, protocols: seq<Entry>)
  datatype Class = Class(entry: Entry, subclasses: seq<Subclass>)
  datatype Database = Database(vendors: seq<Vendor>, classes: seq<Class>)

  /** The id kept of an entry. */
  function Id(e: Entry): u32 {
    if IsId(e.digits) then IdOf(e.digits) else 0
  }

  // ----- What a database says -----

  function ProductNames(v: u32, es: seq<Entry>): seq<(Key, string)> {
    if es == [] then []
    else [(ProductKey(v % 0x1_0000, Id(es[0]) % 0x1_0000), es[0].name)] + ProductNames(v, es[1..])
  }

  function VendorNames(vs: seq<Vendor>): seq<(Key, string)> {
    if vs == [] then []
    else
      var v := Id(vs[0].entry);
      [(VendorKey(v % 0x1_0000), vs[0].entry.name)] + (ProductNames(v, vs[0].products) + VendorNames(vs[1..]))
  }

  function ProtocolNames(c: u32, s: u32, es: seq<Entry>): seq<(Key, string)> {
    if es == [] then []
    else [(ProtocolKey(c % 0x100, s % 0x100, Id(es[0]) % 0x100), es[0].name)] + ProtocolNames(c, s, es[1..])
  }

  function SubclassNames(c: u32, ss: seq<Subclass>): seq<(Key, string)> {
    if ss == [] then []
    else
      var s := Id(ss[0].entry);
      [(SubclassKey(c % 0x100, s % 0x100), ss[0].entry.name)] +
      (ProtocolNames(c, s, ss[0].protocols) + SubclassNames(c, ss[1..]))
  }

  function ClassNames(cs: seq<Class>): seq<(Key, string)> {
    if cs == [] then []
    else
      var c := Id(cs[0].entry);
      [(ClassKey(c % 0x100), cs[0].entry.name)] + (SubclassNames(c, cs[0].subclasses) + ClassNames(cs[1..]))
  }

  /** All keys the database names, in its order. */
  function Names(db: Database): seq<(Key, string)> {
    VendorNames(db.vendors) + ClassNames(db.classes)
  }

  /** The first name the database has for k. */
  function NameOf(names: seq<(Key, string)>, k: Key): Option<string> {
    if names == [] then None else if names[0].0 == k then Some(names[0].1) else NameOf(names[1..], k)
  }

  /** In a database that names no key twice, the name of a key is the one listed with it. */
  lemma {:induction false} NameIfListed(names: seq<(Key, string)>, k: Key, name: string)
    requires forall i, j | 0 <= i < j < |names| :: names[i].0 != names[j].0
    ensures NameOf(names, k) == Some(name) <==> (k, name) in names
  {
    if names != [] {
      assert forall i | 0 <= i < |names| - 1 :: names[1..][i] == names[i + 1];
      NameIfListed(names[1..], k, name);
    }
  }

  // ----- The lines of the file -----

  datatype Item =
    | VendorItem(e: Entry)
    | ProductItem(e: Entry)
    | ClassItem(e: Entry)
    | SubclassItem(e: Entry)
    | ProtocolItem(e: Entry)

  function TextOf(i: Item): string {
    var t := IdText(i.e.digits, i.e.sep, i.e.name);
    match i
    case VendorItem(_) => t
    case ClassItem(_) => "C " + t
    case ProtocolItem(_) => "\t\t" + t
    case _ => "\t" + t
  }

  function LineOf(i: Item): Line {
    match i
    case VendorItem(e) => VendorLine(Id(e), e.name)
    case ClassItem(e) => ClassLine(Id(e), e.name)
    case ProtocolItem(e) => DoubleIndented(Id(e), e.name)
    case ProductItem(e) => Indented(Id(e), e.name)
    case SubclassItem(e) => Indented(Id(e), e.name)
  }

  function ProductItems(es: seq<Entry>): seq<Item> {
    if es == [] then [] else [ProductItem(es[0])] + ProductItems(es[1..])
  }

  function VendorItems(vs: seq<Vendor>): seq<Item> {
    if vs == [] then []
    else [VendorItem(vs[0].entry)] + (ProductItems(vs[0].products) + VendorItems(vs[1..]))
  }

  function ProtocolItems(es: seq<Entry>): seq<Item> {
    if es == [] then [] else [ProtocolItem(es[0])] + ProtocolItems(es[1..])
  }

  function SubclassItems(ss: seq<Subclass>): seq<Item> {
    if ss == [] then []
    else [SubclassItem(ss[0].entry)] + (ProtocolItems(ss[0].protocols) + SubclassItems(ss[1..]))
  }

  function ClassItems(cs: seq<Class>): seq<Item> {
    if cs == [] then []
    else [ClassItem(cs[0].entry)] + (SubclassItems(cs[0].subclasses) + ClassItems(cs[1..]))
  }

  function Items(db: Database): seq<Item> {
    VendorItems(db.vendors) + ClassItems(db.classes)
  }

  function LinesOf(items: seq<Item>): (lines: seq<Line>)
    ensures |lines| == |items|
  {
    if items == [] then [] else [LineOf(items[0])] + LinesOf(items[1..])
  }

  function Texts(items: seq<Item>): (texts: seq<string>)
    ensures |texts| == |items| && forall i | 0 <= i < |items| :: texts[i] == TextOf(items[i])
  {
    if items == [] then [] else [TextOf(items[0])] + Texts(items[1..])
  }

  /** The file that lists the database. */
  function Rendered(db: Database): string {
    FileText(Texts(Items(db)))
  }

  /** An entry that can be written in the file: its line fits the buffer, and the id of a vendor,
      class or subclass is not taken for none, nor that of a vendor for the mark of a class. */
  predicate Writable(i: Item) {
    && IsId(i.e.digits) && IsBlank(i.e.sep) && IsName(i.e.name) && PlainLine(TextOf(i))
    && (i.VendorItem? ==> !(i.e.digits == "C" && i.e.sep[0] == ' '))
    && (i.VendorItem? || i.ClassItem? || i.SubclassItem? ==> Id(i.e) != NO_ID)
  }

  predicate AllWritable(items: seq<Item>) {
    forall i | i in items :: Writable(i)
  }

  // ----- The file is read as these lines -----

  lemma ItemReadsBack(i: Item)
    requires Writable(i)
    ensures Classify(TextOf(i)) == LineOf(i)
  {
    var t, e := TextOf(i), i.e;
    var s := IdText(e.digits, e.sep, e.name);
    match i
    case VendorItem(_) => VendorReadsBack(t, e.digits, e.sep, e.name);
    case ClassItem(_) =>
      assert t[2..] == s;
      ClassReadsBack(t, e.digits, e.sep, e.name);
    case ProtocolItem(_) =>
      assert t[2..] == s;
      DoubleIndentedReadsBack(t, e.digits, e.sep, e.name);
    case ProductItem(_) =>
      assert t[1..] == s;
      IndentedReadsBack(t, e.digits, e.sep, e.name);
    case SubclassItem(_) =>
      assert t[1..] == s;
      IndentedReadsBack(t, e.digits, e.sep, e.name);
  }

  lemma {:induction false} ItemsReadBack(items: seq<Item>)
    requires AllWritable(items)
    ensures Classified(Texts(items)) == LinesOf(items)
  {
    if items != [] {
      assert items[0] in items && forall i | i in items[1..] :: i in items;
      ItemReadsBack(items[0]);
      ItemsReadBack(items[1..]);
      ClassifiedFirst(TextOf(items[0]), Texts(items[1..]));
    }
  }

  lemma ClassifiedFirst(t: string, more: seq<string>)
    ensures Classified([t] + more) == [Classify(t)] + Classified(more)
  {
    assert ([t] + more)[1..] == more;
  }

  lemma FileHasItems(items: seq<Item>)
    requires AllWritable(items)
    ensures Lines(FileText(Texts(items))) == LinesOf(items)
  {
    forall i | 0 <= i < |items| ensures PlainLine(Texts(items)[i]) {
      assert items[i] in items;
    }
    FileReadsBack(Texts(items));
    ItemsReadBack(items);
  }

  lemma {:induction false} LinesConcat(a: seq<Item>, b: seq<Item>)
    ensures LinesOf(a + b) == LinesOf(a) + LinesOf(b)
  {
    if a == [] {
      assert a + b == b;
    } else {
      assert (a + b)[1..] == a[1..] + b;
      LinesConcat(a[1..], b);
    }
  }

  /** An item, what stands below it, and the rest. */
  lemma LinesOfBlock(i: Item, inner: seq<Item>, rest: seq<Item>)
    ensures LinesOf([i] + (inner + rest)) == [LineOf(i)] + (LinesOf(inner) + LinesOf(rest))
  {
    assert ([i] + (inner + rest))[1..] == inner + rest;
    LinesConcat(inner, rest);
  }

  // ----- What the lines add -----

  function AddNames(m: map<Key, string>, names: seq<(Key, string)>): map<Key, string>
    decreases |names|
  {
    if names == [] then m else AddNames(Add(m, Some(names[0])), names[1..])
  }

  lemma {:induction false} AddNamesConcat(m: map<Key, string>, a: seq<(Key, string)>, b: seq<(Key, string)>)
    ensures AddNames(m, a + b) == AddNames(AddNames(m, a), b)
    decreases |a|
  {
    if a == [] {
      assert a + b == b;
    } else {
      assert (a + b)[1..] == a[1..] + b;
      AddNamesConcat(Add(m, Some(a[0])), a[1..], b);
    }
  }

  lemma AddNamesBlock(m: map<Key, string>, d: (Key, string), inner: seq<(Key, string)>, rest: seq<(Key, string)>)
    ensures AddNames(m, [d] + (inner + rest)) == AddNames(AddNames(Add(m, Some(d)), inner), rest)
  {
    assert ([d] + (inner + rest))[1..] == inner + rest;
    AddNamesConcat(Add(m, Some(d)), inner, rest);
  }

  lemma {:induction false} AddNamesAnswers(m: map<Key, string>, names: seq<(Key, string)>, k: Key)
    ensures Get(AddNames(m, names), k) == if k in m then Some(m[k]) else NameOf(names, k)
    decreases |names|
  {
    if names != [] {
      AddNamesAnswers(Add(m, Some(names[0])), names[1..], k);
    }
  }

  /** A line, what stands below it, and the rest, after the lines so far. */
  lemma AddBlock(m: map<Key, string>, sofar: seq<Line>, l: Line, inner: seq<Line>, rest: seq<Line>)
    ensures AddAll(m, sofar + ([l] + (inner + rest))) == AddAll(m, sofar + [l] + inner + rest)
  {
    Regrouped(sofar, l, inner, rest);
  }

  /** The lines so far end below a vendor, below a class, below a subclass of a class. */
  predicate BelowVendor(sofar: seq<Line>, v: u32) {
    Section(sofar).Some? && Section(sofar).value.VendorLine? && Section(sofar).value.id == v
  }

  predicate BelowClass(sofar: seq<Line>, c: u32) {
    Section(sofar).Some? && Section(sofar).value.ClassLine? && Section(sofar).value.id == c
  }

  predicate BelowSubclass(sofar: seq<Line>, c: u32, s: u32) {
    BelowClass(sofar, c) && Subsection(sofar) == Some(s)
  }

  lemma OneLineMore(sofar: seq<Line>, l: Line)
    ensures Section(sofar + [l]) == if l.IsHeading() then Some(l) else Section(sofar)
    ensures l.Indented? ==> Subsection(sofar + [l]) == Some(l.id)
    ensures l.DoubleIndented? ==> Subsection(sofar + [l]) == Subsection(sofar)
  {
    assert (sofar + [l])[..|sofar|] == sofar;
  }

  lemma {:induction false} ProductsAdd(m: map<Key, string>, sofar: seq<Line>, v: u32, es: seq<Entry>)
    requires BelowVendor(sofar, v) && v != NO_ID
    ensures AddAll(m, sofar + LinesOf(ProductItems(es))) == AddNames(AddAll(m, sofar), ProductNames(v, es))
    decreases |es|
  {
    if es == [] {
      assert sofar + [] == sofar;
    } else {
      var l, rest := LineOf(ProductItem(es[0])), LinesOf(ProductItems(es[1..]));
      AddOneMore(m, sofar, l);
      OneLineMore(sofar, l);
      MoveOne(sofar, l, rest);
      ProductsAdd(m, sofar + [l], v, es[1..]);
    }
  }

  lemma {:induction false} ProtocolsAdd(m: map<Key, string>, sofar: seq<Line>, c: u32, s: u32, es: seq<Entry>)
    requires BelowSubclass(sofar, c, s) && c != NO_ID && s != NO_ID
    ensures AddAll(m, sofar + LinesOf(ProtocolItems(es))) == AddNames(AddAll(m, sofar), ProtocolNames(c, s, es))
    ensures BelowClass(sofar + LinesOf(ProtocolItems(es)), c)
    decreases |es|
  {
    if es == [] {
      assert sofar + [] == sofar;
    } else {
      var l, rest := LineOf(ProtocolItem(es[0])), LinesOf(ProtocolItems(es[1..]));
      AddOneMore(m, sofar, l);
      OneLineMore(sofar, l);
      MoveOne(sofar, l, rest);
      ProtocolsAdd(m, sofar + [l], c, s, es[1..]);
    }
  }

  /** The first subclass and its protocols; the rest of the class follows the lines next. */
  lemma FirstSubclass(m: map<Key, string>, sofar: seq<Line>, c: u32, s: Subclass, rest: seq<Item>)
    returns (next: seq<Line>)
    requires BelowClass(sofar, c) && c != NO_ID && Id(s.entry) != NO_ID
    ensures BelowClass(next, c)
    ensures sofar + LinesOf([SubclassItem(s.entry)] + (ProtocolItems(s.protocols) + rest)) == next + LinesOf(rest)
    ensures AddAll(m, next) ==
            AddNames(Add(AddAll(m, sofar), Some((SubclassKey(c % 0x100, Id(s.entry) % 0x100), s.entry.name))),
                     ProtocolNames(c, Id(s.entry), s.protocols))
  {
    var l, inner := LineOf(SubclassItem(s.entry)), LinesOf(ProtocolItems(s.protocols));
    AddOneMore(m, sofar, l);
    OneLineMore(sofar, l);
    ProtocolsAdd(m, sofar + [l], c, l.id, s.protocols);
    LinesOfBlock(SubclassItem(s.entry), ProtocolItems(s.protocols), rest);
    Regrouped(sofar, l, inner, LinesOf(rest));
    next := sofar + [l] + inner;
  }

  lemma Regrouped(sofar: seq<Line>, l: Line, inner: seq<Line>, rest: seq<Line>)
    ensures sofar + ([l] + (inner + rest)) == sofar + [l] + inner + rest
  {
  }

  lemma {:induction false} SubclassesAdd(m: map<Key, string>, sofar: seq<Line>, c: u32, ss: seq<Subclass>)
    requires BelowClass(sofar, c) && c != NO_ID && forall s | s in ss :: Id(s.entry) != NO_ID
    ensures AddAll(m, sofar + LinesOf(SubclassItems(ss))) == AddNames(AddAll(m, sofar), SubclassNames(c, ss))
    decreases |ss|
  {
    if ss == [] {
      assert sofar + [] == sofar;
    } else {
      assert ss[0] in ss && forall s | s in ss[1..] :: s in ss;
      var s, items := Id(ss[0].entry), SubclassItems(ss[1..]);
      var next := FirstSubclass(m, sofar, c, ss[0], items);
      SubclassesAdd(m, next, c, ss[1..]);
      AddNamesBlock(AddAll(m, sofar), (SubclassKey(c % 0x100, s % 0x100), ss[0].entry.name),
                    ProtocolNames(c, s, ss[0].protocols), SubclassNames(c, ss[1..]));
    }
  }

  lemma {:induction false} VendorsAdd(m: map<Key, string>, sofar: seq<Line>, vs: seq<Vendor>)
    requires forall v | v in vs :: Id(v.entry) != NO_ID
    ensures AddAll(m, sofar + LinesOf(VendorItems(vs))) == AddNames(AddAll(m, sofar), VendorNames(vs))
    decreases |vs|
  {
    if vs == [] {
      assert sofar + [] == sofar;
    } else {
      assert vs[0] in vs && forall v | v in vs[1..] :: v in vs;
      var v, l := vs[0], LineOf(VendorItem(vs[0].entry));
      var inner, rest := LinesOf(ProductItems(v.products)), LinesOf(VendorItems(vs[1..]));
      AddOneMore(m, sofar, l);
      OneLineMore(sofar, l);
      ProductsAdd(m, sofar + [l], l.id, v.products);
      VendorsAdd(m, sofar + [l] + inner, vs[1..]);
      LinesOfBlock(VendorItem(v.entry), ProductItems(v.products), VendorItems(vs[1..]));
      AddBlock(m, sofar, l, inner, rest);
      AddNamesBlock(AddAll(m, sofar), (VendorKey(l.id % 0x1_0000), l.name),
                    ProductNames(l.id, v.products), VendorNames(vs[1..]));
    }
  }

  lemma {:induction false} ClassesAdd(m: map<Key, string>, sofar: seq<Line>, cs: seq<Class>)
    requires forall c | c in cs :: Id(c.entry) != NO_ID && forall s | s in c.subclasses :: Id(s.entry) != NO_ID
    ensures AddAll(m, sofar + LinesOf(ClassItems(cs))) == AddNames(AddAll(m, sofar), ClassNames(cs))
    decreases |cs|
  {
    if cs == [] {
      assert sofar + [] == sofar;
    } else {
      assert cs[0] in cs && forall c | c in cs[1..] :: c in cs;
      var c, l := cs[0], LineOf(ClassItem(cs[0].entry));
      var inner, rest := LinesOf(SubclassItems(c.subclasses)), LinesOf(ClassItems(cs[1..]));
      AddOneMore(m, sofar, l);
      OneLineMore(sofar, l);
      SubclassesAdd(m, sofar + [l], l.id, c.subclasses);
      ClassesAdd(m, sofar + [l] + inner, cs[1..]);
      LinesOfBlock(ClassItem(c.entry), SubclassItems(c.subclasses), ClassItems(cs[1..]));
      AddBlock(m, sofar, l, inner, rest);
      AddNamesBlock(AddAll(m, sofar), (ClassKey(l.id % 0x100), l.name),
                    SubclassNames(l.id, c.subclasses), ClassNames(cs[1..]));
    }
  }

  // ----- Names that can be looked up -----

  lemma {:induction false} VendorsHaveIds(vs: seq<Vendor>)
    requires AllWritable(VendorItems(vs))
    ensures forall v | v in vs :: Id(v.entry) != NO_ID
  {
    if vs != [] {
      var items := VendorItems(vs);
      assert items[0] in items && forall i | i in VendorItems(vs[1..]) :: i in items;
      VendorsHaveIds(vs[1..]);
    }
  }

  lemma {:induction false} SubclassesHaveIds(ss: seq<Subclass>)
    requires AllWritable(SubclassItems(ss))
    ensures forall s | s in ss :: Id(s.entry) != NO_ID
  {
    if ss != [] {
      var items := SubclassItems(ss);
      assert items[0] in items && forall i | i in SubclassItems(ss[1..]) :: i in items;
      SubclassesHaveIds(ss[1..]);
    }
  }

  lemma {:induction false} ClassesHaveIds(cs: seq<Class>)
    requires AllWritable(ClassItems(cs))
    ensures forall c | c in cs :: Id(c.entry) != NO_ID && forall s | s in c.subclasses :: Id(s.entry) != NO_ID
  {
    if cs != [] {
      var items := ClassItems(cs);
      assert items[0] in items && (forall i | i in ClassItems(cs[1..]) :: i in items);
      assert forall i | i in SubclassItems(cs[0].subclasses) :: i in items;
      SubclassesHaveIds(cs[0].subclasses);
      ClassesHaveIds(cs[1..]);
    }
  }

  /** Parsing the file of a database adds the names of the database in its order. */
  lemma DatabaseReadsBack(m: map<Key, string>, db: Database)
    requires AllWritable(Items(db))
    ensures AddAll(m, Lines(Rendered(db))) == AddNames(m, Names(db))
  {
    var vs, cs := VendorItems(db.vendors), ClassItems(db.classes);
    assert (forall i | i in vs :: i in Items(db)) && (forall i | i in cs :: i in Items(db));
    FileHasItems(Items(db));
    LinesConcat(vs, cs);
    VendorsHaveIds(db.vendors);
    ClassesHaveIds(db.classes);
    VendorsAdd(m, [], db.vendors);
    assert [] + LinesOf(vs) == LinesOf(vs);
    ClassesAdd(m, LinesOf(vs), db.classes);
    AddNamesConcat(m, VendorNames(db.vendors), ClassNames(db.classes));
  }

  /** These tables answer every lookup from the database. */
  ghost predicate Answers(names: map<Key, string>, db: Database) {
    forall k: Key :: Get(names, k) == NameOf(Names(db), k)
  }

  lemma DatabaseAnswers(db: Database)
    requires AllWritable(Items(db))
    ensures Answers(AddAll(map[], Lines(Rendered(db))), db)
  {
    DatabaseReadsBack(map[], db);
    forall k: Key ensures Get(AddNames(map[], Names(db)), k) == NameOf(Names(db), k) {
      AddNamesAnswers(map[], Names(db), k);
    }
  }

  /** names_init on fresh tables; None is a file that cannot be opened, for the reason errno. From a file that lists a
      database every lookup then answers from that database. */
  method NamesInit(t: Tables, file: Option<string>, errno: int) returns (rc: int)
    requires t.Valid() && t.names == map[] && errno > 0
    modifies t, t.buckets
    ensures t.Valid() && t.nodes >= old(t.nodes) && fresh(t.nodes - old(t.nodes))
    ensures rc == if file == None then errno else 0
    ensures file == None ==> t.names == map[]
    ensures file.Some? ==> FirstWins(t.names, map[], Lines(file.value))
    ensures file.Some? ==>
              forall db | AllWritable(Items(db)) && file.value == Rendered(db) :: Answers(t.names, db)
  {
    if file == None {
      return errno;
    }
    UsbIds.Parse(t, file.value);
    forall db | AllWritable(Items(db)) && file.value == Rendered(db) ensures Answers(t.names, db) {
      DatabaseAnswers(db);
    }
    return 0;
  }
}
