/** The doubly linked list. */
module LinkedList {
  import opened Sequences

  /** A node: its data never changes, its links do. */
  class Entity<T> {
    const data: T
    var next: Entity?<T>
    var pre: Entity?<T>

    constructor (e: T)
      ensures data == e && next == pre == null
    {
      data := e;
      next, pre := null, null;
    }
  }

  function Succ<T>(nodes: seq<Entity<T>>, i: nat): Entity?<T>
  {
    if i + 1 < |nodes| then nodes[i + 1] else null
  }

  function Pred<T>(nodes: seq<Entity<T>>, i: nat): Entity?<T>
  {
    if 0 < i <= |nodes| then nodes[i - 1] else null
  }

  predicate Distinct<T>(nodes: seq<Entity<T>>)
  {
    forall i, j :: 0 <= i < j < |nodes| ==> nodes[i] != nodes[j]
  }

  /** Every node but the one at x points to the next one. */
  ghost predicate Nexts<T>(nodes: seq<Entity<T>>, x: int)
    reads nodes`next
  {
    forall i {:trigger nodes[i].next} :: 0 <= i < |nodes| && i != x ==> nodes[i].next == Succ(nodes, i)
  }

  /** Every node but the one at x points back to the one before it. */
  ghost predicate Pres<T>(nodes: seq<Entity<T>>, x: int)
    reads nodes`pre
  {
    forall i {:trigger nodes[i].pre} :: 0 <= i < |nodes| && i != x ==> nodes[i].pre == Pred(nodes, i)
  }

  /** The nodes are distinct and linked in both directions in this order. */
  ghost predicate Chained<T>(nodes: seq<Entity<T>>)
    reads nodes
  {
    Distinct(nodes) && Nexts(nodes, -1) && Pres(nodes, -1)
  }

  /** The links at k. */
  lemma LinksAt<T>(nodes: seq<Entity<T>>, k: nat)
    requires k < |nodes| && Chained(nodes)
    ensures nodes[k].next == Succ(nodes, k) && nodes[k].pre == Pred(nodes, k)
    ensures k > 0 ==> nodes[k - 1].next == nodes[k] && nodes[k - 1] != nodes[k]
    ensures k + 1 < |nodes| ==> nodes[k + 1].pre == nodes[k] && nodes[k + 1] != nodes[k]
    ensures nodes[k] == nodes[0] <==> k == 0
    ensures nodes[k] == nodes[|nodes| - 1] <==> k == |nodes| - 1
  {
  }

  /** A node taken out: its neighbours point past it. */
  lemma ChainedWithout<T>(nodes: seq<Entity<T>>, k: nat)
    requires k < |nodes| && Distinct(nodes) && Nexts(nodes, k - 1) && Pres(nodes, k + 1)
    requires k > 0 ==> nodes[k - 1].next == Succ(nodes, k)
    requires k + 1 < |nodes| ==> nodes[k + 1].pre == Pred(nodes, k)
    ensures Chained(Without(nodes, k))
  {
    var out := Without(nodes, k);
    assert forall i :: 0 <= i < |out| ==> out[i] == if i < k then nodes[i] else nodes[i + 1];
  }

  /** A node put in before k: its neighbours point to it. */
  lemma ChainedWith<T>(nodes: seq<Entity<T>>, k: nat, n: Entity<T>)
    requires 0 < k < |nodes| && Distinct(nodes) && n !in nodes && Nexts(nodes, k - 1) && Pres(nodes, k)
    requires nodes[k - 1].next == n && nodes[k].pre == n && n.next == nodes[k] && n.pre == nodes[k - 1]
    ensures Chained(With(nodes, k, n))
  {
    var out := With(nodes, k, n);
    assert forall i :: 0 <= i < |out| ==> out[i] == if i < k then nodes[i] else if i == k then n else nodes[i - 1];
  }

  ghost function Items<T>(nodes: seq<Entity<T>>): (s: seq<T>)
    ensures |s| == |nodes|
  {
    seq(|nodes|, i requires 0 <= i < |nodes| => nodes[i].data)
  }

  /** The sequence without its element at k, and with a new one before it. */
  function Without<T>(s: seq<T>, k: nat): seq<T>
    requires k < |s|
  {
    s[..k] + s[k + 1..]
  }

  function With<T>(s: seq<T>, k: nat, e: T): seq<T>
    requires k <= |s|
  {
    s[..k] + [e] + s[k..]
  }

  lemma WithoutEnds<T>(s: seq<T>, k: nat)
    requires k < |s|
    ensures |Without(s, k)| == |s| - 1
    ensures |s| > 1 ==> Without(s, k)[0] == (if k > 0 then s[0] else s[1])
    ensures |s| > 1 ==> Without(s, k)[|s| - 2] == (if k < |s| - 1 then s[|s| - 1] else s[|s| - 2])
    ensures forall e <- Without(s, k) :: e in s
  {
  }

  lemma ItemsWithout<T>(nodes: seq<Entity<T>>, k: nat)
    requires k < |nodes|
    ensures Items(Without(nodes, k)) == Without(Items(nodes), k)
  {
  }

  lemma ItemsCut<T>(nodes: seq<Entity<T>>, k: nat)
    requires k < |nodes|
    ensures Items(Without(nodes, k)) == Items(nodes)[..k] + Items(nodes)[k + 1..]
  {
    ItemsWithout(nodes, k);
  }

  lemma ItemsWith<T>(nodes: seq<Entity<T>>, k: nat, n: Entity<T>)
    requires k <= |nodes|
    ensures Items(With(nodes, k, n)) == With(Items(nodes), k, n.data)
  {
  }

  class List<T(==)> {
    var head: Entity?<T>
    var tail: Entity?<T>
    var size: nat
    ghost var nodes: seq<Entity<T>>
    ghost var repr: set<object>

    ghost predicate Valid()
      reads this, repr
    {
      && this in repr && (forall n <- nodes :: n in repr)
      && size == |nodes| && Chained(nodes)
      && head == (if nodes == [] then null else nodes[0])
      && tail == (if nodes == [] then null else nodes[|nodes| - 1])
    }

    ghost function Contents(): seq<T>
      reads this`nodes
    {
      Items(nodes)
    }

    /** css_list_init */
    constructor ()
      ensures Valid() && fresh(repr) && Contents() == []
    {
      head, tail, size := null, null, 0;
      nodes, repr := [], {this};
    }

    method IsEmpty() returns (b: bool)
      requires Valid()
      ensures b <==> Contents() == []
    {
      b := size == 0;
    }

    /** css_list_push */
    method Push(e: T)
      requires Valid()
      modifies repr
      ensures Valid() && fresh(repr - old(repr))
      ensures Contents() == old(Contents()) + [e]
      ensures |nodes| == old(|nodes|) + 1 && nodes[..old(|nodes|)] == old(nodes)
    {
      var entity := new Entity<T>(e);
      if size == 0 {
        head, tail, size := entity, entity, 1;
      } else {
        tail.next := entity;
        entity.pre := tail;
        tail := entity;
        size := size + 1;
      }
      nodes := nodes + [entity];
      repr := repr + {entity};
    }

    /** css_list_get_entity: the node at `index`, or -1. */
    method GetEntity(index: int) returns (reply: int, itr: Entity?<T>)
      requires Valid()
      ensures reply == if 0 <= index < |nodes| then 0 else -1
      ensures reply == 0 ==> itr == nodes[index]
    {
      if index < 0 || size - 1 < index {
        return -1, null;
      }
      reply, itr := 0, head;
      var i := 0;
      while i < index
        invariant 0 <= i <= index && itr == nodes[i]
      {
        itr := itr.next;
        i := i + 1;
      }
    }

    /** css_list_get */
    method Get(index: int) returns (reply: int, e: seq<T>)
      requires Valid()
      ensures reply == if 0 <= index < |Contents()| then 0 else -1
      ensures e == if reply == 0 then [Contents()[index]] else []
    {
      var itr;
      reply, itr := GetEntity(index);
      e := if reply == 0 then [itr.data] else [];
    }

    /** css_list_pop */
    method Pop() returns (reply: int, e: seq<T>)
      requires Valid()
      modifies repr
      ensures Valid() && repr == old(repr)
      ensures reply == if old(Contents()) == [] then -1 else 0
      ensures if old(Contents()) == [] then e == [] && Contents() == []
              else e == [old(Contents())[0]] && Contents() == old(Contents())[1..]
    {
      if size <= 0 {
        return -1, [];
      }
      var itr := head;
      head := itr.next;
      if tail == itr {
        head, tail := null, null;
      } else {
        itr.next.pre := null;
      }
      size := size - 1;
      ghost var was := nodes;
      nodes := nodes[1..];
      assert forall i :: 0 <= i < |nodes| ==> nodes[i] == was[i + 1];
      assert Items(nodes) == Items(was)[1..];
      return 0, [itr.data];
    }

    /** The four cases of taking a node out of the chain. */
    method Unlink(itr: Entity<T>, ghost k: nat)
      requires this in repr && (forall n <- nodes :: n in repr) && Chained(nodes)
      requires k < |nodes| && nodes[k] == itr && head == nodes[0] && tail == nodes[|nodes| - 1]
      modifies repr
      ensures nodes == old(nodes) && size == old(size) && repr == old(repr)
      ensures Chained(Without(nodes, k))
      ensures head == if k > 0 then nodes[0] else Succ(nodes, 0)
      ensures tail == if k < |nodes| - 1 then nodes[|nodes| - 1] else Pred(nodes, k)
    {
      LinksAt(nodes, k);
      hide Without;
      if head == itr && tail == itr {
        head, tail := null, null;
      } else if head == itr {
        head := itr.next;
        itr.next.pre := null;
      } else if tail == itr {
        tail := itr.pre;
        itr.pre.next := null;
      } else {
        itr.pre.next := itr.next;
        itr.next.pre := itr.pre;
      }
      ChainedWithout(nodes, k);
    }

    /** css_list_remove_entity: the node that stands at k. */
    method RemoveEntity(itr: Entity<T>, ghost k: nat)
      requires Valid() && k < |nodes| && nodes[k] == itr
      modifies repr
      ensures Valid() && repr == old(repr) && nodes == Without(old(nodes), k)
      ensures Contents() == old(Contents()[..k] + Contents()[k + 1..])
    {
      hide Distinct, Nexts, Pres, Without;
      LinksAt(nodes, k);
      size := size - 1;
      Unlink(itr, k);
      ItemsCut(nodes, k);
      nodes := Without(nodes, k);
      WithoutEnds(old(nodes), k);
    }

    /** css_list_remove: the first node with this data, or -1. */
    method Remove(e: T) returns (reply: int)
      requires Valid()
      modifies repr
      ensures Valid() && repr == old(repr)
      ensures reply == if e in old(Contents()) then 0 else -1
      ensures if reply == 0
              then First(old(Contents()), e) < |old(nodes)| && nodes == Without(old(nodes), First(old(Contents()), e))
              else nodes == old(nodes)
      ensures reply == 0 ==> exists k :: && 0 <= k < |old(Contents())| && old(Contents())[k] == e
                                         && e !in old(Contents())[..k]
                                         && Contents() == old(Contents())[..k] + old(Contents())[k + 1..]
    {
      if size <= 0 {
        return -1;
      }
      var itr := head;
      ghost var k := 0;
      while itr != null
        invariant k <= |nodes| && itr == (if k < |nodes| then nodes[k] else null)
        invariant forall i :: 0 <= i < k ==> Contents()[i] != e
        decreases |nodes| - k
      {
        if itr.data == e {
          FirstIs(Contents(), e, k);
          RemoveEntity(itr, k);
          return 0;
        }
        itr := itr.next;
        k := k + 1;
      }
      return -1;
    }

    /** css_list_remove_at */
    method RemoveAt(index: int) returns (reply: int)
      requires Valid()
      modifies repr
      ensures Valid() && repr == old(repr)
      ensures reply == if 0 <= index < |old(nodes)| then 0 else -1
      ensures Contents() == if reply == 0 then old(Contents()[..index] + Contents()[index + 1..]) else old(Contents())
    {
      var itr;
      reply, itr := GetEntity(index);
      if reply == 0 {
        ItemsWithout(nodes, index);
        RemoveEntity(itr, index);
      }
    }

    /** css_list_insert_at: before the node at `index`, which has a predecessor. */
    method InsertAt(index: int, e: T) returns (reply: int)
      requires Valid() && (index == 0 ==> nodes == [])
      modifies repr
      ensures Valid() && fresh(repr - old(repr))
      ensures reply == if 0 <= index < |old(nodes)| then 0 else -1
      ensures Contents() == if reply == 0 then old(Contents()[..index] + [e] + Contents()[index..]) else old(Contents())
    {
      var itr;
      reply, itr := GetEntity(index);
      if reply == 0 {
        PutBefore(itr, index, e);
      }
    }

    /** A new node between the one at `index` and its predecessor. */
    method PutBefore(itr: Entity<T>, ghost index: nat, e: T)
      requires Valid() && 0 < index < |nodes| && nodes[index] == itr
      modifies repr
      ensures Valid() && fresh(repr - old(repr))
      ensures Contents() == With(old(Contents()), index, e)
    {
      hide Items;
      LinksAt(nodes, index);
      var entity := new Entity<T>(e);
      itr.pre.next := entity;
      entity.pre := itr.pre;
      itr.pre := entity;
      entity.next := itr;
      size := size + 1;
      ItemsWith(nodes, index, entity);
      ChainedWith(nodes, index, entity);
      hide Nexts, Pres, Distinct;
      nodes := With(nodes, index, entity);
      repr := repr + {entity};
    }

    /** The callback of a walk, which removes what it is given if `drop` says so: the node visited goes, not another. */
    method Visit(itr: Entity<T>, drop: T -> bool, ghost done: seq<Entity<T>>, ghost rest: seq<Entity<T>>)
      returns (ghost left: seq<Entity<T>>)
      requires Valid() && rest != [] && nodes == done + rest && rest[0] == itr
      requires forall d <- Items(done) :: !drop(d)
      modifies repr
      ensures Valid() && repr == old(repr) && nodes == left + rest[1..]
      ensures left == if drop(itr.data) then done else done + [itr]
    {
      left := done;
      if drop(itr.data) {
        assert Contents()[|done|] == itr.data;
        assert forall i :: 0 <= i < |done| ==> Contents()[i] == Items(done)[i] && Items(done)[i] in Items(done);
        FirstIs(Contents(), itr.data, |done|);
        var reply := Remove(itr.data);
        assert Without(done + rest, |done|) == done + rest[1..];
      } else {
        left := done + [itr];
        assert done + rest == left + rest[1..];
      }
    }

    /** css_list_foreach: every element is visited once, in order, even when the callback removes it. */
    method Foreach(drop: T -> bool) returns (visited: seq<T>)
      requires Valid()
      modifies repr
      ensures Valid() && repr == old(repr)
      ensures visited == old(Contents())
      ensures Contents() == Kept(old(Contents()), drop)
    {
      hide Nexts, Pres, Distinct, Kept, Items;
      KeptEmpty(drop);
      NoItems<T>();
      ghost var all := Contents();
      var itr := head;
      visited := [];
      ghost var done: seq<Entity<T>>, rest := [], nodes;
      while itr != null
        invariant Valid() && repr == old(repr) && nodes == done + rest
        invariant itr == if rest == [] then null else rest[0]
        invariant all == visited + Items(rest)
        invariant Items(done) == Kept(visited, drop)
        decreases |rest|
      {
        KeptNone(visited, drop);
        NextOf(done, rest);
        var next := itr.next;
        KeptMore(visited, drop, itr.data);
        ItemsFirst(rest);
        ItemsMore(done, itr);
        done := Visit(itr, drop, done, rest);
        visited := visited + [itr.data];
        rest := rest[1..];
        itr := next;
      }
      assert nodes == done;
    }
  }

  lemma NoItems<T>()
    ensures Items<T>([]) == []
  {
  }

  lemma ItemsMore<T>(nodes: seq<Entity<T>>, n: Entity<T>)
    ensures Items(nodes + [n]) == Items(nodes) + [n.data]
  {
  }

  lemma ItemsFirst<T>(nodes: seq<Entity<T>>)
    requires nodes != []
    ensures Items(nodes) == [nodes[0].data] + Items(nodes[1..])
  {
  }

  lemma NextOf<T>(done: seq<Entity<T>>, rest: seq<Entity<T>>)
    requires rest != [] && Chained(done + rest)
    ensures rest[0].next == if |rest| > 1 then rest[1] else null
  {
    LinksAt(done + rest, |done|);
  }
}
