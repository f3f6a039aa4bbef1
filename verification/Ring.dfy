/** list.h: the circular doubly linked intrusive list of the kernel. */
module Ring {
  import opened Wrappers

  /** struct list_head. A null link stands for LIST_POISON1 and LIST_POISON2: a pointer that
      must not be followed. entry is the structure the head is embedded in, which container_of
      recovers; a list's own head is embedded in none. */
  class ListHead<T> {
    var next: ListHead?<T>
    var prev: ListHead?<T>
    const entry: Option<T>

    constructor (entry: Option<T>)
      ensures this.entry == entry
    {
      this.entry := entry;
      next, prev := null, null;
    }
  }

  ghost predicate Distinct<T>(c: seq<ListHead<T>>) {
    forall i, j | 0 <= i < j < |c| :: c[i] != c[j]
  }

  /** The nodes of c, in this order, are linked into one ring. */
  ghost predicate IsCycle<T>(c: seq<ListHead<T>>)
    reads c
  {
    && c != [] && Distinct(c)
    && (forall i | 0 <= i < |c| - 1 :: c[i].next == c[i + 1])
    && (forall i | 0 < i < |c| :: c[i].prev == c[i - 1])
    && c[|c| - 1].next == c[0] && c[0].prev == c[|c| - 1]
  }

  /** The members of the list headed by head are exactly s, in list order. */
  ghost predicate IsList<T>(head: ListHead<T>, s: seq<ListHead<T>>)
    reads {head} + (set n | n in s)
  {
    IsCycle([head] + s)
  }

  /** next and prev are inverse to each other and never leave the ring. */
  lemma LinksInverse<T>(head: ListHead<T>, s: seq<ListHead<T>>, n: ListHead<T>)
    requires IsList(head, s) && n in [head] + s
    ensures n.next in [head] + s && n.next.prev == n
    ensures n.prev in [head] + s && n.prev.next == n
  {
    var c := [head] + s;
    var i :| 0 <= i < |c| && c[i] == n;
    assert n.next == (if i + 1 < |c| then c[i + 1] else c[0]);
    assert n.prev == (if i > 0 then c[i - 1] else c[|c| - 1]);
  }

  lemma Successor<T>(head: ListHead<T>, s: seq<ListHead<T>>)
    requires IsList(head, s)
    ensures head.next == if s == [] then head else s[0]
    ensures head !in s
    ensures forall k | 0 <= k < |s| :: s[k].next == if k + 1 < |s| then s[k + 1] else head
    ensures forall k | 0 <= k < |s| :: s[k].prev == if k > 0 then s[k - 1] else head
    ensures s != [] ==> s[0].prev == head
  {
    var c := [head] + s;
    assert c[0].next == if s == [] then c[0] else c[1];
    assert forall k | 0 <= k < |s| :: s[k] == c[k + 1];
    forall k | 0 <= k < |s| ensures s[k].next == if k + 1 < |s| then s[k + 1] else head {
      assert k + 2 < |c| ==> c[k + 1].next == c[k + 2];
    }
  }

  /** The links determine the contents: a head lists one sequence only. */
  lemma ContentsUnique<T>(head: ListHead<T>, s: seq<ListHead<T>>, s': seq<ListHead<T>>)
    requires IsList(head, s) && IsList(head, s')
    ensures s == s'
  {
    var c, c' := [head] + s, [head] + s';
    var n := if |s| <= |s'| then |s| else |s'|;
    SharedPrefix(head, s, s', n);
    Successor(head, s);
    Successor(head, s');
    assert c[n] == c[..n + 1][n] == c'[..n + 1][n] == c'[n];
    assert c[n].next == head <==> n == |s|;
    assert c'[n].next == head <==> n == |s'|;
    assert c[1..] == s && c'[1..] == s';
  }

  lemma {:induction false} SharedPrefix<T>(head: ListHead<T>, s: seq<ListHead<T>>, s': seq<ListHead<T>>, n: nat)
    requires IsList(head, s) && IsList(head, s') && n <= |s| && n <= |s'|
    ensures ([head] + s)[..n + 1] == ([head] + s')[..n + 1]
    decreases n
  {
    if n > 0 {
      var c, c' := [head] + s, [head] + s';
      SharedPrefix(head, s, s', n - 1);
      assert c[n - 1] == c[..n][n - 1] == c'[..n][n - 1];
      assert c[n] == c'[n];
      assert c[..n + 1] == c[..n] + [c[n]] && c'[..n + 1] == c'[..n] + [c'[n]];
    }
  }

  method InitListHead<T>(list: ListHead<T>)
    modifies list
    ensures IsList(list, [])
  {
    list.next := list;
    list.prev := list;
  }

  /** __list_add: between two neighbours. */
  method Insert<T>(node: ListHead<T>, prev: ListHead<T>, next: ListHead<T>)
    requires node != prev && node != next
    modifies next, node, prev
    ensures next.prev == node && node.next == next && node.prev == prev && prev.next == node
    ensures next != prev ==> next.next == old(next.next) && prev.prev == old(prev.prev)
  {
    next.prev := node;
    node.next := next;
    node.prev := prev;
    prev.next := node;
  }

  /** __list_del: join two nodes. */
  method Join<T>(prev: ListHead<T>, next: ListHead<T>)
    modifies prev, next
    ensures next.prev == prev && prev.next == next
    ensures next != prev ==> next.next == old(next.next) && prev.prev == old(prev.prev)
  {
    next.prev := prev;
    prev.next := next;
  }

  /** list_add: the new node becomes the first member. */
  method ListAdd<T>(node: ListHead<T>, head: ListHead<T>, ghost s: seq<ListHead<T>>)
    requires IsList(head, s) && node != head && node !in s
    modifies node, head, head.next
    ensures IsList(head, [node] + s)
  {
    ghost var c := [head] + s;
    assert head == c[0] && head.next == (if s == [] then c[0] else c[1]);
    Insert(node, head, head.next);
    ghost var d := [head] + ([node] + s);
    assert forall i | 2 <= i < |d| :: d[i] == c[i - 1];
  }

  /** list_del: the entry leaves the ring and its own links are poisoned. */
  method ListDel<T>(entry: ListHead<T>, ghost head: ListHead<T>, ghost s: seq<ListHead<T>>, ghost k: nat)
    requires IsList(head, s) && k < |s| && entry == s[k]
    modifies entry, entry.prev, entry.next
    ensures IsList(head, s[..k] + s[k + 1..])
    ensures entry.next == null && entry.prev == null
  {
    ghost var c := [head] + s;
    assert entry == c[k + 1];
    assert entry.prev == c[k] && entry.next == (if k + 2 < |c| then c[k + 2] else c[0]);
    Join(entry.prev, entry.next);
    entry.next := null;
    entry.prev := null;
    ghost var d := [head] + (s[..k] + s[k + 1..]);
    assert forall i | 0 <= i <= k :: d[i] == c[i];
    assert forall i | k < i < |d| :: d[i] == c[i + 1];
  }

  /** The node at position k of the list, which is the head itself past the last member. */
  ghost function NodeAt<T>(head: ListHead<T>, s: seq<ListHead<T>>, k: nat): ListHead<T>
    requires k <= |s|
  {
    if k < |s| then s[k] else head
  }

  /** The links around the first member. */
  lemma FirstLinks<T>(head: ListHead<T>, s: seq<ListHead<T>>)
    requires IsList(head, s)
    ensures head !in s && head.next == NodeAt(head, s, 0)
    ensures s != [] ==> s[0].prev == head && s[0].next == NodeAt(head, s, 1) && s[0] !in s[1..]
  {
    Successor(head, s);
    if s != [] {
      var c := [head] + s;
      forall k | 0 <= k < |s| - 1 ensures s[1..][k] != s[0] {
        assert c[1] == s[0] && c[k + 2] == s[1..][k];
      }
    }
  }

  /** list_for_each: where the walk starts. */
  method First<T>(head: ListHead<T>, ghost s: seq<ListHead<T>>) returns (pos: ListHead<T>)
    requires IsList(head, s)
    ensures pos == NodeAt(head, s, 0) && (pos == head <==> s == [])
  {
    Successor(head, s);
    assert head.next == NodeAt(head, s, 0);
    pos := head.next;
  }

  /** list_for_each: where the walk goes next. */
  method Next<T>(node: ListHead<T>, ghost head: ListHead<T>, ghost s: seq<ListHead<T>>, ghost k: nat)
    returns (pos: ListHead<T>)
    requires IsList(head, s) && k < |s| && node == s[k]
    ensures pos == NodeAt(head, s, k + 1) && (pos == head <==> k + 1 == |s|)
  {
    Successor(head, s);
    assert s[k].next == NodeAt(head, s, k + 1);
    pos := node.next;
  }
}
