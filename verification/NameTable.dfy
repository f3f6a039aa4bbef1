/** The five chained hash tables of names.c, with their lookup (names_*) and
    insertion (new_*), which run the same code on different keys. */
module NameTable {
  import opened Wrappers
  import opened Words
  import Hashing = Gf2Hash

  datatype Key =
    | VendorKey(vendor: u16)
    | ProductKey(vendor: u16, product: u16)
    | ClassKey(class_: u8)
    | SubclassKey(class_: u8, subclass: u8)
    | ProtocolKey(class_: u8, subclass: u8, protocol: u8)

  /** The word handed to hashnum: the parts side by side. */
  function Packed(k: Key): u32 {
    match k
    case VendorKey(v) => v
    case ProductKey(v, p) => v * 0x1_0000 + p
    case ClassKey(c) => c
    case SubclassKey(c, s) => c * 0x100 + s
    case ProtocolKey(c, s, p) => c * 0x1_0000 + s * 0x100 + p
  }

  const HASHSZ := 16

  /** Which of vendors, products, classes, subclasses, protocols a key belongs to. */
  function Kind(k: Key): (n: nat)
    ensures n < 5
  {
    match k
    case VendorKey(_) => 0
    case ProductKey(_, _) => 1
    case ClassKey(_) => 2
    case SubclassKey(_, _) => 3
    case ProtocolKey(_, _, _) => 4
  }

  /** The place of k's chain when the five bucket arrays lie one after the other. */
  ghost function Slot(k: Key): (h: nat)
    ensures h < 5 * HASHSZ
  {
    Kind(k) * HASHSZ + Hashing.Hash(Packed(k))
  }

  function Get(m: map<Key, string>, k: Key): Option<string> {
    if k in m then Some(m[k]) else None
  }

  /** A key keeps the name it has. */
  function Add(m: map<Key, string>, d: Option<(Key, string)>): map<Key, string> {
    if d.Some? && d.value.0 !in m then m[d.value.0 := d.value.1] else m
  }

  class Node {
    var next: Node?
    const key: Key
    const name: string

    constructor (key: Key, name: string, next: Node?)
      ensures this.key == key && this.name == name && this.next == next
    {
      this.key, this.name, this.next := key, name, next;
    }
  }

  /** c is the whole chain that starts at first, null at its end: the chain is acyclic. */
  ghost predicate IsChain(c: seq<Node>, first: Node?)
    reads c
  {
    if c == [] then first == null else first == c[0] && IsChain(c[1..], c[0].next)
  }

  ghost predicate InBucket(c: seq<Node>, h: nat) {
    forall n | n in c :: Slot(n.key) == h
  }

  ghost predicate DistinctKeys(c: seq<Node>) {
    c != [] ==> (forall n | n in c[1..] :: n.key != c[0].key) && DistinctKeys(c[1..])
  }

  /** The name of the first node of c that carries key k. */
  ghost function Search(c: seq<Node>, k: Key): Option<string> {
    if c == [] then None else if c[0].key == k then Some(c[0].name) else Search(c[1..], k)
  }

  lemma {:induction false} SearchMisses(c: seq<Node>, k: Key)
    requires Search(c, k) == None
    ensures forall n | n in c :: n.key != k
  {
    if c != [] {
      SearchMisses(c[1..], k);
    }
  }

  /** A node put before the chain of its bucket shadows nothing there. */
  lemma PushSearch(node: Node, chains: seq<seq<Node>>, m: map<Key, string>)
    requires |chains| == 5 * HASHSZ
    requires forall k: Key :: Get(m, k) == Search(chains[Slot(k)], k)
    ensures var h := Slot(node.key);
      forall k: Key :: Get(m[node.key := node.name], k) == Search(chains[h := [node] + chains[h]][Slot(k)], k)
  {
    var h := Slot(node.key);
    var d := [node] + chains[h];
    assert d[1..] == chains[h];
    forall k: Key
      ensures Get(m[node.key := node.name], k) == Search(chains[h := d][Slot(k)], k)
    {
      assert Get(m, k) == Search(chains[Slot(k)], k);
    }
  }

  class Tables {
    const buckets: array<Node?>
    ghost var chains: seq<seq<Node>>
    ghost var nodes: set<Node>
    ghost var names: map<Key, string>

    ghost predicate Valid()
      reads this, buckets, nodes
    {
      && buckets.Length == |chains| == 5 * HASHSZ
      && (forall h | 0 <= h < 5 * HASHSZ ::
            && (forall n | n in chains[h] :: n in nodes)
            && IsChain(chains[h], buckets[h])
            && InBucket(chains[h], h)
            && DistinctKeys(chains[h]))
      && forall k: Key :: Get(names, k) == Search(chains[Slot(k)], k)
    }

    constructor ()
      ensures Valid() && names == map[] && nodes == {} && fresh(buckets)
    {
      buckets := new Node?[5 * HASHSZ](_ => null);
      chains := seq(5 * HASHSZ, _ => []);
      nodes := {};
      names := map[];
    }

    /** names_vendor, names_product, names_class, names_subclass, names_protocol. */
    method Lookup(k: Key) returns (r: Option<string>)
      requires Valid()
      ensures r == Get(names, k)
    {
      var hash := Hashing.HashNum(Packed(k));
      var h := Kind(k) * HASHSZ + hash;
      var v := buckets[h];
      ghost var rest := chains[h];
      while v != null
        invariant IsChain(rest, v)
        invariant Get(names, k) == Search(rest, k)
        decreases |rest|
      {
        if v.key == k {
          return Some(v.name);
        }
        v, rest := v.next, rest[1..];
      }
      return None;
    }

    /** new_vendor, new_product, new_class, new_subclass, new_protocol:
        a key already present is kept as it is. */
    method New(name: string, k: Key) returns (added: bool)
      requires Valid()
      modifies this, buckets
      ensures Valid() && nodes >= old(nodes) && fresh(nodes - old(nodes))
      ensures added <==> k !in old(names)
      ensures names == Add(old(names), Some((k, name)))
    {
      var hash := Hashing.HashNum(Packed(k));
      var h := Kind(k) * HASHSZ + hash;
      var v := buckets[h];
      ghost var rest := chains[h];
      while v != null
        invariant IsChain(rest, v)
        invariant Get(names, k) == Search(rest, k)
        decreases |rest|
      {
        if v.key == k {
          return false;
        }
        v, rest := v.next, rest[1..];
      }
      SearchMisses(chains[h], k);
      Push(name, k, h);
      return true;
    }

    /** The new node goes to the front of its bucket. */
    method Push(name: string, k: Key, h: nat)
      requires Valid() && h == Slot(k)
      requires forall n | n in chains[h] :: n.key != k
      modifies this, buckets
      ensures Valid() && nodes >= old(nodes) && fresh(nodes - old(nodes))
      ensures names == old(names)[k := name]
    {
      var node := new Node(k, name, buckets[h]);
      ghost var c := [node] + chains[h];
      assert c[1..] == chains[h];
      assert IsChain(c, node);
      PushSearch(node, chains, names);
      buckets[h] := node;
      chains := chains[h := c];
      nodes := nodes + {node};
      names := names[k := name];
    }
  }
}
